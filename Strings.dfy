/** Character classes, case mapping, stripping, joining, de-duplication and
    ordering of strings, as the Python standard library performs them on
    the ASCII range. */
module Strings {

  datatype Option<T> = None | Some(value: T)

  /** `str.isspace` / regex `\s` restricted to ASCII: space, \t \n \v \f \r and
      the four separator controls \x1c-\x1f. */
  predicate IsSpace(c: char) {
    c == ' ' || ('\t' <= c <= '\r') || ('\U{1c}' <= c <= '\U{1f}')
  }

  predicate IsUpper(c: char) { 'A' <= c <= 'Z' }

  predicate IsLower(c: char) { 'a' <= c <= 'z' }

  predicate IsAlpha(c: char) { IsUpper(c) || IsLower(c) }

  predicate IsDigit(c: char) { '0' <= c <= '9' }

  /** Regex `\w`: letters, digits and underscore. */
  predicate IsWord(c: char) { IsAlpha(c) || IsDigit(c) || c == '_' }

  function LowerChar(c: char): char
  {
    if IsUpper(c) then (c as int + 32) as char else c
  }

  /** Lower-casing a character maps capitals to small letters and leaves
      everything else alone; it keeps letters letters and spaces spaces. */
  lemma LowerCharFacts(c: char)
    ensures !IsUpper(LowerChar(c))
    ensures IsAlpha(LowerChar(c)) == IsAlpha(c)
    ensures IsWord(LowerChar(c)) == IsWord(c) && IsSpace(LowerChar(c)) == IsSpace(c)
    ensures !IsUpper(c) ==> LowerChar(c) == c
    ensures LowerChar(LowerChar(c)) == LowerChar(c)
  {
  }

  /** `str.lower()` */
  function Lower(s: string): (r: string)
    ensures |r| == |s|
  {
    if s == [] then [] else [LowerChar(s[0])] + Lower(s[1..])
  }

  /** Lower-casing works character by character. */
  lemma {:induction false} LowerAt(s: string)
    ensures forall i :: 0 <= i < |s| ==> Lower(s)[i] == LowerChar(s[i])
  {
    if s != [] {
      LowerAt(s[1..]);
      assert forall i :: 1 <= i < |s| ==> Lower(s)[i] == Lower(s[1..])[i - 1];
    }
  }

  lemma LowerIdempotent(s: string)
    ensures Lower(Lower(s)) == Lower(s)
  {
    LowerAt(s);
    LowerAt(Lower(s));
    assert forall i :: 0 <= i < |s| ==> Lower(Lower(s))[i] == Lower(s)[i];
  }

  lemma LowerConcat(a: string, b: string)
    ensures Lower(a + b) == Lower(a) + Lower(b)
  {
    LowerAt(a + b);
    LowerAt(a);
    LowerAt(b);
    assert forall i :: 0 <= i < |a + b| ==> Lower(a + b)[i] == (Lower(a) + Lower(b))[i];
  }

  /** `a.lower() == b.lower()`, compared character by character. */
  predicate EqualIgnoringCase(a: string, b: string) {
    |a| == |b| && (a == [] || (LowerChar(a[0]) == LowerChar(b[0]) && EqualIgnoringCase(a[1..], b[1..])))
  }

  lemma {:induction false} EqualIgnoringCaseIsLower(a: string, b: string)
    ensures EqualIgnoringCase(a, b) <==> Lower(a) == Lower(b)
  {
    LowerAt(a);
    LowerAt(b);
    if a != [] && b != [] {
      EqualIgnoringCaseIsLower(a[1..], b[1..]);
      assert Lower(a) == [LowerChar(a[0])] + Lower(a[1..]);
      assert Lower(b) == [LowerChar(b[0])] + Lower(b[1..]);
      if Lower(a) == Lower(b) {
        assert Lower(a)[1..] == Lower(a[1..]);
        assert Lower(b)[1..] == Lower(b[1..]);
      }
    }
  }

  lemma EqualIgnoringCaseSymmetric(a: string, b: string)
    ensures EqualIgnoringCase(a, b) == EqualIgnoringCase(b, a)
  {
    EqualIgnoringCaseIsLower(a, b);
    EqualIgnoringCaseIsLower(b, a);
  }

  /** Number of leading whitespace characters. */
  function LeadingSpaces(s: string): (n: nat)
    ensures n <= |s|
    ensures n == |s| || !IsSpace(s[n])
    ensures n > 0 ==> IsSpace(s[0])
  {
    if s == [] || !IsSpace(s[0]) then 0 else 1 + LeadingSpaces(s[1..])
  }

  /** Every character before the first non-space is a space. */
  lemma {:induction false} LeadingSpacesAreSpaces(s: string)
    ensures forall i :: 0 <= i < LeadingSpaces(s) ==> IsSpace(s[i])
  {
    if s != [] && IsSpace(s[0]) {
      LeadingSpacesAreSpaces(s[1..]);
      assert forall i :: 1 <= i < LeadingSpaces(s) ==> s[i] == s[1..][i - 1];
    }
  }

  /** Length of `s` without its trailing whitespace. */
  function RightEnd(s: string): (n: nat)
    ensures n <= |s|
    ensures n == 0 || !IsSpace(s[n - 1])
  {
    if s == [] || !IsSpace(s[|s| - 1]) then |s| else RightEnd(s[..|s| - 1])
  }

  /** Every character after the last non-space is a space. */
  lemma {:induction false} RightEndSpaces(s: string)
    ensures forall i :: RightEnd(s) <= i < |s| ==> IsSpace(s[i])
  {
    if s != [] && IsSpace(s[|s| - 1]) {
      RightEndSpaces(s[..|s| - 1]);
    }
  }

  function StripLeft(s: string): (r: string)
  {
    s[LeadingSpaces(s)..]
  }

  function StripRight(s: string): (r: string)
  {
    s[..RightEnd(s)]
  }

  /** `str.strip()` */
  function Strip(s: string): (r: string)
  {
    StripLeft(StripRight(s))
  }

  /** A stripped string neither starts nor ends with whitespace, and the
      characters removed are whitespace. */
  lemma StripFacts(s: string)
    ensures Strip(s) == [] || (!IsSpace(Strip(s)[0]) && !IsSpace(Strip(s)[|Strip(s)| - 1]))
    ensures |Strip(s)| <= |s|
  {
  }

  /** `sep.join(xs)` */
  function Join(sep: string, xs: seq<string>): (r: string)
  {
    if xs == [] then [] else if |xs| == 1 then xs[0] else xs[0] + sep + Join(sep, xs[1..])
  }

  /** Position of the first `c` in `s`, or `|s|`. */
  function IndexOf(s: string, c: char): (i: nat)
    ensures i <= |s|
    ensures forall k :: 0 <= k < i ==> s[k] != c
    ensures i < |s| ==> s[i] == c
  {
    if s == [] || s[0] == c then 0
    else
      var i := 1 + IndexOf(s[1..], c);
      assert forall k :: 1 <= k < i ==> s[k] == s[1..][k - 1];
      i
  }

  /** `s.split(c)` for a one-character separator. */
  function SplitChar(s: string, c: char): (r: seq<string>)
    ensures |r| >= 1
    ensures forall i :: 0 <= i < |r| ==> c !in r[i]
    decreases |s|
  {
    var i := IndexOf(s, c);
    if i == |s| then [s] else [s[..i]] + SplitChar(s[i + 1..], c)
  }

  /** Joining the pieces with the separator gives back the string. */
  lemma {:induction false} SplitCharJoin(s: string, c: char)
    ensures Join([c], SplitChar(s, c)) == s
    decreases |s|
  {
    var i := IndexOf(s, c);
    if i < |s| {
      SplitCharJoin(s[i + 1..], c);
      var rest := SplitChar(s[i + 1..], c);
      assert SplitChar(s, c) == [s[..i]] + rest;
      assert s == s[..i] + [c] + s[i + 1..];
    }
  }

  /** Splitting text joined at a separator that no piece contains gives
      the pieces back. */
  lemma {:induction false} JoinSplitChar(xs: seq<string>, c: char)
    requires xs != [] && forall x :: x in xs ==> c !in x
    ensures SplitChar(Join([c], xs), c) == xs
  {
    var x := xs[0];
    IndexOfAbsent(x, c);
    if |xs| == 1 {
      assert Join([c], xs) == x;
    } else {
      var rest := Join([c], xs[1..]);
      var s := x + [c] + rest;
      assert Join([c], xs) == s;
      IndexOfAfter(x, c, rest);
      assert s[..|x|] == x && s[|x| + 1..] == rest;
      JoinSplitChar(xs[1..], c);
      assert xs == [x] + xs[1..];
    }
  }

  lemma IndexOfAbsent(s: string, c: char)
    requires c !in s
    ensures IndexOf(s, c) == |s|
  {
  }

  lemma IndexOfAfter(x: string, c: char, rest: string)
    requires c !in x
    ensures IndexOf(x + [c] + rest, c) == |x|
  {
    var s := x + [c] + rest;
    assert s[|x|] == c;
    assert forall k :: 0 <= k < |x| ==> s[k] == x[k];
  }

  /** Total length of the pieces: `sum(len(x) for x in xs)`. */
  function TotalLength(xs: seq<string>): nat
  {
    if xs == [] then 0 else |xs[0]| + TotalLength(xs[1..])
  }

  lemma {:induction false} JoinLength(sep: string, xs: seq<string>)
    requires xs != []
    ensures |Join(sep, xs)| == TotalLength(xs) + (|xs| - 1) * |sep|
  {
    if |xs| > 1 {
      JoinLength(sep, xs[1..]);
    }
  }

  /** `s.endswith(suffix)` */
  predicate EndsWith(s: string, suffix: string) {
    |suffix| <= |s| && s[|s| - |suffix|..] == suffix
  }

  /** `s.startswith(prefix)` */
  predicate StartsWith(s: string, prefix: string) {
    |prefix| <= |s| && s[..|prefix|] == prefix
  }

  /** `needle in haystack` for strings. */
  predicate Contains(haystack: string, needle: string) {
    StartsWith(haystack, needle) || (haystack != [] && Contains(haystack[1..], needle))
  }

  /** `s[:n]` */
  function Take<T>(s: seq<T>, n: nat): (r: seq<T>)
    ensures |r| == if n < |s| then n else |s|
    ensures r == s[..|r|]
  {
    if n < |s| then s[..n] else s
  }

  predicate Distinct<T(==)>(s: seq<T>) {
    forall i, j :: 0 <= i < j < |s| ==> s[i] != s[j]
  }

  /** `list(dict.fromkeys(xs))`: first occurrences, in order. */
  function Dedup<T(==)>(xs: seq<T>): (r: seq<T>)
    ensures Distinct(r)
    ensures forall i :: 0 <= i < |r| ==> r[i] in xs
    ensures forall i :: 0 <= i < |xs| ==> xs[i] in r
    ensures |r| <= |xs|
  {
    if xs == [] then []
    else
      var d := Dedup(xs[..|xs| - 1]);
      assert xs == xs[..|xs| - 1] + [xs[|xs| - 1]];
      if xs[|xs| - 1] in d then d else d + [xs[|xs| - 1]]
  }

  /** Index of the first occurrence of `x` in `xs`. */
  function FirstIndex<T(==)>(xs: seq<T>, x: T): (i: nat)
    requires x in xs
    ensures i < |xs| && xs[i] == x && x !in xs[..i]
  {
    if xs[0] == x then 0 else 1 + FirstIndex(xs[1..], x)
  }

  /** The de-duplicated list lists the values in the order in which they
      first occur in the input. */
  lemma {:induction false} DedupFirstOccurrenceOrder<T>(xs: seq<T>, i: nat, j: nat)
    requires i < j < |Dedup(xs)|
    ensures FirstIndex(xs, Dedup(xs)[i]) < FirstIndex(xs, Dedup(xs)[j])
  {
    var n := |xs| - 1;
    var pre := xs[..n];
    var d := Dedup(pre);
    assert xs == pre + [xs[n]];
    FirstIndexPrefix(pre, xs[n], Dedup(xs)[i]);
    if xs[n] in d || j < |d| {
      assert Dedup(xs)[i] == d[i] && Dedup(xs)[j] == d[j];
      FirstIndexPrefix(pre, xs[n], Dedup(xs)[j]);
      DedupFirstOccurrenceOrder(pre, i, j);
    } else {
      assert Dedup(xs)[j] == xs[n] && xs[n] !in pre;
      FirstIndexLast(pre, xs[n]);
    }
  }

  lemma {:induction false} FirstIndexPrefix<T>(pre: seq<T>, last: T, x: T)
    requires x in pre
    ensures FirstIndex(pre + [last], x) == FirstIndex(pre, x)
  {
    if pre[0] != x {
      assert (pre + [last])[1..] == pre[1..] + [last];
      FirstIndexPrefix(pre[1..], last, x);
    }
  }

  lemma {:induction false} FirstIndexLast<T>(pre: seq<T>, x: T)
    requires x !in pre
    ensures FirstIndex(pre + [x], x) == |pre|
  {
    if pre != [] {
      assert (pre + [x])[1..] == pre[1..] + [x];
      FirstIndexLast(pre[1..], x);
    }
  }

  /** Python's `<` on str: code-point lexicographic order. */
  predicate LexLt(a: string, b: string) {
    if a == [] then b != []
    else if b == [] then false
    else if a[0] != b[0] then a[0] < b[0]
    else LexLt(a[1..], b[1..])
  }

  lemma {:induction false} LexLtIrreflexive(a: string)
    ensures !LexLt(a, a)
  {
    if a != [] { LexLtIrreflexive(a[1..]); }
  }

  /** Python's string order is total and asymmetric. */
  lemma {:induction false} LexLtTrichotomy(a: string, b: string)
    ensures a == b || LexLt(a, b) || LexLt(b, a)
    ensures !(LexLt(a, b) && LexLt(b, a))
  {
    if a != [] && b != [] && a[0] == b[0] {
      LexLtTrichotomy(a[1..], b[1..]);
      if a[1..] == b[1..] {
        assert a == [a[0]] + a[1..] && b == [b[0]] + b[1..];
      }
    }
  }

  /** `tuple(sorted([a, b]))` */
  function SortPair(a: string, b: string): (string, string)
  {
    if LexLt(b, a) then (b, a) else (a, b)
  }

  /** The sorted pair holds the same two strings, in non-decreasing order, and
      does not depend on the order in which they are given. */
  lemma SortPairCanonical(a: string, b: string)
    ensures var p := SortPair(a, b);
      ({p.0, p.1} == {a, b}) && !LexLt(p.1, p.0) && SortPair(b, a) == p
  {
    LexLtTrichotomy(a, b);
  }

  /** Stable descending insertion: `x` precedes every element of `s` in the
      original order, so it goes before the first element whose key is not
      larger than its own. */
  function InsertDesc<T>(x: T, s: seq<T>, key: T -> real): (r: seq<T>)
    ensures multiset(r) == multiset(s) + multiset{x}
    ensures |r| == |s| + 1
  {
    if s == [] then [x]
    else if key(s[0]) <= key(x) then [x] + s
    else
      assert s == [s[0]] + s[1..];
      [s[0]] + InsertDesc(x, s[1..], key)
  }

  predicate SortedDesc<T>(s: seq<T>, key: T -> real) {
    forall i, j :: 0 <= i < j < |s| ==> key(s[i]) >= key(s[j])
  }

  lemma {:induction false} InsertDescSorted<T>(x: T, s: seq<T>, key: T -> real)
    requires SortedDesc(s, key)
    ensures SortedDesc(InsertDesc(x, s, key), key)
  {
    if s != [] && key(s[0]) > key(x) {
      var t := InsertDesc(x, s[1..], key);
      InsertDescSorted(x, s[1..], key);
      InsertDescBounded(x, s[1..], key, key(s[0]));
      var r := [s[0]] + t;
      forall i, j | 0 <= i < j < |r| ensures key(r[i]) >= key(r[j]) {
        if i > 0 { assert r[i] == t[i - 1] && r[j] == t[j - 1]; }
        else { assert r[j] == t[j - 1]; }
      }
    }
  }

  /** Inserting `x` keeps every key at most a bound that `x` and `s` respect. */
  lemma InsertDescBounded<T>(x: T, s: seq<T>, key: T -> real, v: real)
    requires key(x) <= v && forall i :: 0 <= i < |s| ==> key(s[i]) <= v
    ensures forall k :: 0 <= k < |InsertDesc(x, s, key)| ==> key(InsertDesc(x, s, key)[k]) <= v
  {
    var t := InsertDesc(x, s, key);
    forall k | 0 <= k < |t| ensures key(t[k]) <= v {
      assert t[k] in multiset(t);
      if t[k] != x {
        assert t[k] in multiset(s);
        var m :| 0 <= m < |s| && s[m] == t[k];
      }
    }
  }

  /** `sorted(xs, key=key, reverse=True)` (a stable sort). */
  function SortDesc<T>(xs: seq<T>, key: T -> real): (r: seq<T>)
    ensures SortedDesc(r, key)
    ensures multiset(r) == multiset(xs)
    ensures |r| == |xs|
  {
    if xs == [] then []
    else
      assert xs == [xs[0]] + xs[1..];
      var rest := SortDesc(xs[1..], key);
      InsertDescSorted(xs[0], rest, key);
      InsertDesc(xs[0], rest, key)
  }

  /** Membership in a literal list, checked one entry at a time. */
  predicate InList<T(==)>(x: T, xs: seq<T>) {
    xs != [] && (x == xs[0] || InList(x, xs[1..]))
  }

  lemma {:induction false} InListIsIn<T>(x: T, xs: seq<T>)
    ensures InList(x, xs) <==> x in xs
  {
    if xs != [] {
      InListIsIn(x, xs[1..]);
      assert xs == [xs[0]] + xs[1..];
    }
  }

  /** Extending a prefix by one element (stated generically, so that loops
      over sequences of records need not compare records element-wise). */
  lemma PrefixStep<T>(s: seq<T>, j: nat)
    requires j < |s|
    ensures s[..j + 1][..j] == s[..j]
    ensures s[..j + 1] == s[..j] + [s[j]]
  {
  }

  lemma PrefixAll<T>(s: seq<T>)
    ensures s[..|s|] == s
  {
  }

  lemma ConcatAssoc<T>(a: seq<T>, b: seq<T>, c: seq<T>)
    ensures (a + b) + c == a + (b + c)
    ensures a + [] == a && [] + a == a
  {
  }

  lemma ConcatSnoc<T>(a: seq<T>, b: seq<T>)
    ensures b == [] ==> a + b == a
    ensures b != [] ==> a + b == (a + b[..|b| - 1]) + [b[|b| - 1]]
  {
    if b != [] { assert b == b[..|b| - 1] + [b[|b| - 1]]; }
  }

  /** Number of times `x` occurs in `xs` (`xs.count(x)`). */
  function Count<T(==)>(xs: seq<T>, x: T): (n: nat)
    ensures n == multiset(xs)[x]
  {
    if xs == [] then 0
    else
      assert xs == [xs[0]] + xs[1..];
      (if xs[0] == x then 1 else 0) + Count(xs[1..], x)
  }

  /** Decimal rendering of a natural number (`str(n)`). */
  function NatToString(n: nat): (r: string)
    ensures r != [] && forall i :: 0 <= i < |r| ==> IsDigit(r[i])
  {
    var d := ['0' + ((n % 10) as char)];
    if n < 10 then d else NatToString(n / 10) + d
  }

  /** The results `f` gives for the elements it accepts, in order. */
  function FilterMap<A, B>(xs: seq<A>, f: A -> Option<B>): (ys: seq<B>)
    ensures |ys| <= |xs|
  {
    if xs == [] then []
    else FilterMap(xs[..|xs| - 1], f) + (if f(xs[|xs| - 1]).Some? then [f(xs[|xs| - 1]).value] else [])
  }

  lemma FilterMapStep<A, B>(xs: seq<A>, f: A -> Option<B>, i: nat)
    requires i < |xs|
    ensures FilterMap(xs[..i + 1], f) == FilterMap(xs[..i], f) + (if f(xs[i]).Some? then [f(xs[i]).value] else [])
  {
    PrefixStep(xs, i);
  }

  /** Every result comes from an accepted element. */
  lemma {:induction false} FilterMapFrom<A, B>(xs: seq<A>, f: A -> Option<B>, y: B)
    requires y in FilterMap(xs, f)
    ensures exists x :: x in xs && f(x) == Some(y)
  {
    var pre := xs[..|xs| - 1];
    if y in FilterMap(pre, f) {
      FilterMapFrom(pre, f, y);
      var x :| x in pre && f(x) == Some(y);
      assert x in xs;
    } else {
      assert xs[|xs| - 1] in xs;
    }
  }

  /** Every accepted element gives its result. */
  lemma {:induction false} FilterMapHas<A, B>(xs: seq<A>, f: A -> Option<B>, k: nat)
    requires k < |xs| && f(xs[k]).Some?
    ensures f(xs[k]).value in FilterMap(xs, f)
  {
    var pre := xs[..|xs| - 1];
    if k < |xs| - 1 {
      assert pre[k] == xs[k];
      FilterMapHas(pre, f, k);
    }
  }
}
