/** The version order of the dependency scanner: the key a version text is reduced to, the
    comparison of keys, and the laws the range evaluator relies on. */
module Versions {
  import opened Sequences
  import opened Strings

  // ----- lexicographic order, as Python orders strings and tuples

  ghost predicate StrictTotalOrder<T(!new)>(less: (T, T) -> bool) {
    && (forall x :: !less(x, x))
    && (forall x, y, z :: less(x, y) && less(y, z) ==> less(x, z))
    && (forall x, y :: less(x, y) || less(y, x) || x == y)
  }

  predicate LexLess<T(==)>(a: seq<T>, b: seq<T>, less: (T, T) -> bool)
    decreases |a|
  {
    if b == [] then false
    else if a == [] then true
    else if a[0] == b[0] then LexLess(a[1..], b[1..], less)
    else less(a[0], b[0])
  }

  lemma {:induction false} LexIrreflexive<T>(a: seq<T>, less: (T, T) -> bool)
    ensures !LexLess(a, a, less)
  {
    if a != [] {
      LexIrreflexive(a[1..], less);
    }
  }

  lemma {:induction false} LexTransitive<T(!new)>(a: seq<T>, b: seq<T>, c: seq<T>, less: (T, T) -> bool)
    requires StrictTotalOrder(less)
    requires LexLess(a, b, less) && LexLess(b, c, less)
    ensures LexLess(a, c, less)
  {
    if a != [] && a[0] == b[0] && b[0] == c[0] {
      LexTransitive(a[1..], b[1..], c[1..], less);
    }
  }

  lemma {:induction false} LexTotal<T(!new)>(a: seq<T>, b: seq<T>, less: (T, T) -> bool)
    requires StrictTotalOrder(less)
    ensures LexLess(a, b, less) || LexLess(b, a, less) || a == b
  {
    if a != [] && b != [] && a[0] == b[0] {
      LexTotal(a[1..], b[1..], less);
      assert a == [a[0]] + a[1..] && b == [b[0]] + b[1..];
    }
  }

  lemma LexStrictTotal<T(!new)>(less: (T, T) -> bool, lex: (seq<T>, seq<T>) -> bool)
    requires StrictTotalOrder(less)
    requires forall a, b :: lex(a, b) == LexLess(a, b, less)
    ensures StrictTotalOrder(lex)
  {
    forall a ensures !lex(a, a) { LexIrreflexive(a, less); }
    forall a, b, c | lex(a, b) && lex(b, c) ensures lex(a, c) { LexTransitive(a, b, c, less); }
    forall a, b ensures lex(a, b) || lex(b, a) || a == b { LexTotal(a, b, less); }
  }

  predicate CharLess(a: char, b: char) { a < b }

  predicate StringLess(a: string, b: string) { LexLess(a, b, CharLess) }

  predicate PreLess(a: seq<string>, b: seq<string>) { LexLess(a, b, StringLess) }

  lemma StringStrictTotal()
    ensures StrictTotalOrder(StringLess)
  {
    LexStrictTotal(CharLess, StringLess);
  }

  lemma PreStrictTotal()
    ensures StrictTotalOrder(PreLess)
  {
    StringStrictTotal();
    LexStrictTotal(StringLess, PreLess);
  }

  /** The texts agree up to a place where the first ends or has the lower character. */
  ghost predicate CodeBefore(s: string, t: string) {
    exists i: nat :: DifferAt(s, t, i)
  }

  predicate DifferAt(s: string, t: string, i: nat) {
    i <= |s| && i < |t| && s[..i] == t[..i] && (i < |s| ==> s[i] as int < t[i] as int)
  }

  lemma StartsAlike(s: string, t: string, i: nat)
    requires DifferAt(s, t, i)
    ensures i > 0 ==> s[0] == t[0]
  {
    if i > 0 { assert s[..i][0] == t[..i][0]; }
  }

  /** The comparison of strings is the one by character codes. */
  lemma {:induction false} StringsByCode(s: string, t: string)
    ensures StringLess(s, t) <==> CodeBefore(s, t)
  {
    if s == "" || t == "" || s[0] != t[0] {
      if t != "" && (s == "" || s[0] < t[0]) { assert DifferAt(s, t, 0); }
      forall i: nat | DifferAt(s, t, i) ensures i == 0 { StartsAlike(s, t, i); }
    } else {
      StringsByCode(s[1..], t[1..]);
      if i: nat :| DifferAt(s[1..], t[1..], i) {
        assert s[..i + 1] == [s[0]] + s[1..][..i] && t[..i + 1] == [t[0]] + t[1..][..i];
        assert DifferAt(s, t, i + 1);
      }
      if i: nat :| DifferAt(s, t, i) {
        assert s[1..][..i - 1] == s[..i][1..] && t[1..][..i - 1] == t[..i][1..];
        assert DifferAt(s[1..], t[1..], i - 1);
      }
    }
  }

  // ----- keys

  /** Four release numbers and the dot-separated prerelease identifiers; no identifiers means a
      release. */
  datatype Key = Key(a: nat, b: nat, c: nat, d: nat, pre: seq<string>)

  predicate NumsEqual(x: Key, y: Key) { x.a == y.a && x.b == y.b && x.c == y.c && x.d == y.d }

  predicate NumsLess(x: Key, y: Key) {
    if x.a != y.a then x.a < y.a
    else if x.b != y.b then x.b < y.b
    else if x.c != y.c then x.c < y.c
    else x.d < y.d
  }

  predicate KeyLess(x: Key, y: Key) {
    if !NumsEqual(x, y) then NumsLess(x, y)
    else if x.pre == [] && y.pre != [] then false
    else if x.pre != [] && y.pre == [] then true
    else PreLess(x.pre, y.pre)
  }

  /** `x` is not above `y`. */
  predicate KeyAtMost(x: Key, y: Key) { !KeyLess(y, x) }

  lemma KeyStrictTotal()
    ensures StrictTotalOrder(KeyLess)
  {
    PreStrictTotal();
    forall x ensures !KeyLess(x, x) {}
    forall x, y, z | KeyLess(x, y) && KeyLess(y, z) ensures KeyLess(x, z) {}
    forall x, y ensures KeyLess(x, y) || KeyLess(y, x) || x == y {}
  }

  /** The order facts in the form the range proofs use them. */
  lemma KeyOrder(x: Key, y: Key, z: Key)
    ensures KeyAtMost(x, x)
    ensures KeyLess(x, y) ==> KeyAtMost(x, y) && x != y
    ensures KeyAtMost(x, y) && KeyAtMost(y, x) ==> x == y
    ensures KeyAtMost(x, y) && KeyAtMost(y, z) ==> KeyAtMost(x, z)
    ensures KeyAtMost(x, y) && KeyLess(y, z) ==> KeyLess(x, z)
    ensures KeyLess(x, y) && KeyAtMost(y, z) ==> KeyLess(x, z)
  {
    KeyStrictTotal();
  }

  // ----- from text to key

  /** The text before the first `c`, or all of it. */
  function Before(s: string, c: char): (r: string)
    ensures |r| <= |s|
  {
    if s == "" || s[0] == c then "" else [s[0]] + Before(s[1..], c)
  }

  /** The text after the first `c`, or nothing. */
  function After(s: string, c: char): string {
    if s == "" then "" else if s[0] == c then s[1..] else After(s[1..], c)
  }

  /** The maximal runs of digits. */
  function DigitRuns(s: string): (runs: seq<string>)
    ensures forall r | r in runs :: r != "" && AllDigits(r)
    decreases |s|
  {
    var n := RunLength(s, IsDigit);
    if n > 0 then [s[..n]] + DigitRuns(s[n..])
    else if s == "" then []
    else DigitRuns(s[1..])
  }

  function NumAt(runs: seq<string>, i: nat): nat
    requires forall r | r in runs :: AllDigits(r)
  {
    if i < |runs| then TextNat(runs[i]) else 0
  }

  predicate VersionPrefix(c: char) { c == 'v' || c == '=' }

  /** The version text without surrounding space, leading `v` or `=`, and build tag. */
  function VersionBody(v: string): string {
    var t := Strip(v);
    Before(t[RunLength(t, VersionPrefix)..], '+')
  }

  function KeyOf(v: string): Key {
    var body := VersionBody(v);
    var runs := DigitRuns(Before(body, '-'));
    var pre := After(body, '-');
    Key(NumAt(runs, 0), NumAt(runs, 1), NumAt(runs, 2), NumAt(runs, 3),
        if pre == "" then [] else SplitChar(pre, '.'))
  }

  predicate VersionLess(v: string, w: string) { KeyLess(KeyOf(v), KeyOf(w)) }

  predicate VersionEqual(v: string, w: string) { !VersionLess(v, w) && !VersionLess(w, v) }

  /** The comparison is a strict weak order, its equivalence is equality of keys, and that
      equivalence is `VersionEqual`. */
  lemma VersionStrictWeakOrder(u: string, v: string, w: string)
    ensures !VersionLess(v, v)
    ensures VersionLess(u, v) && VersionLess(v, w) ==> VersionLess(u, w)
    ensures VersionEqual(u, v) <==> KeyOf(u) == KeyOf(v)
    ensures VersionLess(u, w) ==> VersionLess(u, v) || VersionLess(v, w)
  {
    KeyStrictTotal();
  }

  /** The number list of a version, cut to four and filled up with zeros by a loop. */
  method VersionTuple(v: string) returns (nums: seq<nat>, pre: seq<string>)
    ensures |nums| == 4
    ensures KeyOf(v) == Key(nums[0], nums[1], nums[2], nums[3], pre)
  {
    hide VersionBody, DigitRuns, Before, After, SplitChar, TextNat;
    var body := VersionBody(v);
    var runs := DigitRuns(Before(body, '-'));
    var prerelease := After(body, '-');
    nums := [];
    for i := 0 to |runs|
      invariant |nums| == if i < 4 then i else 4
      invariant forall k: nat | k < |nums| :: nums[k] == NumAt(runs, k)
    {
      if |nums| < 4 {
        nums := nums + [TextNat(runs[i])];
      }
    }
    while |nums| < 4
      invariant |nums| <= 4 && |nums| >= (if |runs| < 4 then |runs| else 4)
      invariant forall k: nat | k < |nums| :: nums[k] == NumAt(runs, k)
    {
      nums := nums + [0];
    }
    pre := if prerelease == "" then [] else SplitChar(prerelease, '.');
  }

  // ----- printed release numbers

  function At(cs: seq<nat>, i: nat): nat { if i < |cs| then cs[i] else 0 }

  /** The key of a release written as dotted numbers. */
  function ReleaseKey(cs: seq<nat>): Key { Key(At(cs, 0), At(cs, 1), At(cs, 2), At(cs, 3), []) }

  lemma {:induction false} BeforeAll(s: string, c: char)
    requires c !in s
    ensures Before(s, c) == s && After(s, c) == ""
  {
    if s != "" {
      BeforeAll(s[1..], c);
    }
  }

  lemma FirstDigitRun(run: string, rest: string)
    requires run != "" && AllDigits(run) && (rest != "" ==> !IsDigit(rest[0]))
    ensures DigitRuns(run + rest) == [run] + DigitRuns(rest)
  {
    var s := run + rest;
    assert forall i | 0 <= i < |run| :: s[i] == run[i] && run[i] in run;
    RunLengthIs(s, IsDigit, |run|);
    assert s[..|run|] == run && s[|run|..] == rest;
  }

  lemma SkipDot(rest: string)
    ensures DigitRuns("." + rest) == DigitRuns(rest)
  {
    assert ("." + rest)[1..] == rest;
    RunLengthIs("." + rest, IsDigit, 0);
  }

  lemma {:induction false} DigitRunsDotted(cs: seq<nat>)
    requires cs != []
    ensures DigitRuns(Dotted(cs)) == NatTexts(cs)
  {
    DottedUnfold(cs);
    TextsUnfold(cs);
    hide DigitRuns, Dotted, NatText, NatTexts, AllDigits;
    var first := NatText(cs[0]);
    if |cs| > 1 {
      var rest := Dotted(cs[1..]);
      DigitRunsDotted(cs[1..]);
      SkipDot(rest);
      assert ("." + rest)[0] == '.';
      FirstDigitRun(first, "." + rest);
      Concat3(first, ".", rest);
    } else {
      NoDigitRuns();
      FirstDigitRun(first, "");
      assert first + "" == first;
    }
  }

  lemma TextsUnfold(cs: seq<nat>)
    requires cs != []
    ensures NatTexts(cs) == [NatText(cs[0])] + if |cs| > 1 then NatTexts(cs[1..]) else []
  {
  }

  lemma NoDigitRuns()
    ensures DigitRuns("") == []
  {
  }

  /** The four numbers read back from a printed release are the ones printed. */
  lemma KeyOfDotted(cs: seq<nat>)
    requires cs != []
    ensures KeyOf(Dotted(cs)) == ReleaseKey(cs)
  {
    var s := Dotted(cs);
    DottedShape(cs);
    StripTrim(s);
    RunLengthIs(s, VersionPrefix, 0);
    assert s[0..] == s;
    BeforeAll(s, '+');
    BeforeAll(s, '-');
    DigitRunsDotted(cs);
    forall i: nat ensures NumAt(NatTexts(cs), i) == At(cs, i) {
      if i < |cs| { NatRoundTrip(cs[i]); }
    }
  }
}
