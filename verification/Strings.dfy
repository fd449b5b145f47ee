/** The string operations of Python that the range compiler, the licence parser and the report
    printers are written with, on sequences of characters, and the lemmas that take printed text
    apart again. */
module Strings {

  datatype Option<+T> = None | Some(value: T)

  // ----- character classes

  /** What `str.strip` and the regular expression class `\s` remove. */
  predicate IsSpace(c: char) {
    var n := c as int;
    || 9 <= n <= 13 || 28 <= n <= 32 || n == 0x85 || n == 0xA0 || n == 0x1680
    || 0x2000 <= n <= 0x200A || n == 0x2028 || n == 0x2029 || n == 0x202F || n == 0x205F || n == 0x3000
  }

  predicate IsDigit(c: char) { '0' <= c <= '9' }

  predicate IsLetter(c: char) { 'a' <= c <= 'z' || 'A' <= c <= 'Z' }

  predicate AllDigits(s: string) { forall c | c in s :: IsDigit(c) }

  predicate NoSpace(s: string) { forall c | c in s :: !IsSpace(c) }

  function UpperChar(c: char): char { if 'a' <= c <= 'z' then (c as int - 32) as char else c }

  function LowerChar(c: char): char { if 'A' <= c <= 'Z' then (c as int + 32) as char else c }

  function Upper(s: string): (r: string)
    ensures |r| == |s|
  {
    seq(|s|, i requires 0 <= i < |s| => UpperChar(s[i]))
  }

  function Lower(s: string): (r: string)
    ensures |r| == |s|
  {
    seq(|s|, i requires 0 <= i < |s| => LowerChar(s[i]))
  }

  predicate StartsWith(s: string, prefix: string) { |prefix| <= |s| && s[..|prefix|] == prefix }

  /** Text occurs in text. */
  predicate Contains(s: string, part: string) {
    |part| <= |s| && (s[..|part|] == part || (s != "" && Contains(s[1..], part)))
  }

  predicate OccursAt(s: string, part: string, i: nat) { i + |part| <= |s| && s[i..i + |part|] == part }

  lemma {:induction false} ContainsSomewhere(s: string, part: string)
    ensures Contains(s, part) <==> exists i: nat :: OccursAt(s, part, i)
  {
    if |part| <= |s| && s[..|part|] == part {
      assert OccursAt(s, part, 0);
    } else if |part| <= |s| && s != "" {
      ContainsSomewhere(s[1..], part);
      if i: nat :| OccursAt(s[1..], part, i) {
        assert s[1..][i..i + |part|] == s[i + 1..i + 1 + |part|];
        assert OccursAt(s, part, i + 1);
      }
      if i: nat :| OccursAt(s, part, i) { LaterOccurrence(s, part, i); }
    }
  }

  lemma LaterOccurrence(s: string, part: string, i: nat)
    requires OccursAt(s, part, i) && s != ""
    ensures i > 0 ==> OccursAt(s[1..], part, i - 1)
  {
    if i > 0 { assert s[1..][i - 1..i - 1 + |part|] == s[i..i + |part|]; }
  }

  // ----- text around a separator

  lemma SeparatorInside(a: string, x: string, b: string, y: string, c: char)
    requires a + [c] + x == b + [c] + y && |a| < |b|
    ensures c in x && c in b
  {
    assert (a + [c] + x)[|b|] == x[|b| - |a| - 1];
    assert (b + [c] + y)[|a|] == b[|a|];
  }

  /** Text around a separator that occurs in neither front, or in neither back, comes apart one way. */
  lemma SplitsOneWay(a: string, x: string, b: string, y: string, c: char)
    requires (c !in a && c !in b) || (c !in x && c !in y)
    requires a + [c] + x == b + [c] + y
    ensures a == b && x == y
  {
    if |a| < |b| {
      SeparatorInside(a, x, b, y, c);
    } else if |b| < |a| {
      SeparatorInside(b, y, a, x, c);
    } else {
      var s := a + [c] + x;
      assert a == s[..|a|] && b == s[..|b|];
      assert x == s[|a| + 1..] && y == s[|b| + 1..];
    }
  }

  // ----- strip

  /** How many characters of the given class the text starts with. */
  function RunLength(s: string, p: char -> bool): (n: nat)
    ensures n <= |s|
    ensures forall i | 0 <= i < n :: p(s[i])
    ensures n < |s| ==> !p(s[n])
  {
    if s == "" || !p(s[0]) then 0 else 1 + RunLength(s[1..], p)
  }

  lemma {:induction false} RunLengthIs(s: string, p: char -> bool, n: nat)
    requires n <= |s|
    requires forall i | 0 <= i < n :: p(s[i])
    requires n < |s| ==> !p(s[n])
    ensures RunLength(s, p) == n
  {
    if n > 0 {
      RunLengthIs(s[1..], p, n - 1);
    }
  }

  function LStrip(s: string): string { s[RunLength(s, IsSpace)..] }

  function RStrip(s: string): (r: string)
    ensures |r| <= |s|
    ensures forall c | c in r :: c in s
  {
    if s == "" || !IsSpace(s[|s| - 1]) then s else RStrip(s[..|s| - 1])
  }

  function Strip(s: string): (r: string)
    ensures |r| <= |s|
    ensures forall c | c in r :: c in s
  {
    RStrip(LStrip(s))
  }

  /** Text that neither starts nor ends with white space. */
  predicate Trim(s: string) {
    s != "" ==> !IsSpace(s[0]) && !IsSpace(s[|s| - 1])
  }

  lemma StripTrim(s: string)
    requires Trim(s)
    ensures Strip(s) == s
  {
    RunLengthIs(s, IsSpace, 0);
    assert LStrip(s) == s;
  }

  lemma {:induction false} RStripFront(s: string)
    ensures var r := RStrip(s);
            s[..|r|] == r && (|r| < |s| ==> IsSpace(s[|r|]))
  {
    if s != "" && IsSpace(s[|s| - 1]) {
      RStripFront(s[..|s| - 1]);
      var r := RStrip(s[..|s| - 1]);
      assert s[..|s| - 1][..|r|] == s[..|r|];
    }
  }

  lemma StripFront(s: string)
    requires s != "" && !IsSpace(s[0])
    ensures var r := Strip(s);
            |r| <= |s| && r != "" && s[..|r|] == r && (|r| < |s| ==> IsSpace(s[|r|]))
  {
    RunLengthIs(s, IsSpace, 0);
    assert LStrip(s) == s;
    RStripFront(s);
  }

  lemma {:induction false} RStripEnds(s: string)
    ensures RStrip(s) != "" ==> !IsSpace(RStrip(s)[|RStrip(s)| - 1])
  {
    if s != "" && IsSpace(s[|s| - 1]) {
      RStripEnds(s[..|s| - 1]);
    }
  }

  lemma StripIdempotent(s: string)
    ensures Trim(Strip(s)) && Strip(Strip(s)) == Strip(s)
  {
    var t := LStrip(s);
    if t != "" {
      RStripFront(t);
      RStripEnds(t);
    }
    hide IsSpace;
    StripTrim(Strip(s));
  }

  lemma {:induction false} StripPadded(left: nat, s: string, right: nat)
    requires Trim(s) && left <= 1 && right <= 1
    ensures Strip(Blanks(left) + s + Blanks(right)) == s
  {
    hide RStrip;
    var t := Blanks(left) + s + Blanks(right);
    if s == "" {
      RunLengthIs(t, IsSpace, |t|);
      assert LStrip(t) == "";
    } else {
      RunLengthIs(t, IsSpace, left);
      assert LStrip(t) == s + Blanks(right);
      RStripPadded(s, right);
    }
  }

  lemma RStripPadded(s: string, right: nat)
    requires s != "" && Trim(s) && right <= 1
    ensures RStrip(s + Blanks(right)) == s
  {
    var u := s + Blanks(right);
    if right == 1 {
      assert u[..|u| - 1] == s;
      assert RStrip(u) == RStrip(s);
    } else {
      assert u == s;
    }
  }

  function Blanks(n: nat): string { seq(n, _ => ' ') }

  // ----- split and join

  /** Puts one more character in front of the first part. */
  function Prepend(c: char, parts: seq<string>): (r: seq<string>)
    requires parts != []
    ensures |r| == |parts|
  {
    [[c] + parts[0]] + parts[1..]
  }

  /** `s.split(sep)` for a one-character separator. */
  function SplitChar(s: string, sep: char): (parts: seq<string>)
    ensures parts != []
  {
    if s == "" then [""]
    else if s[0] == sep then [""] + SplitChar(s[1..], sep)
    else Prepend(s[0], SplitChar(s[1..], sep))
  }

  function Join(sep: string, parts: seq<string>): string {
    if parts == [] then ""
    else if |parts| == 1 then parts[0]
    else parts[0] + sep + Join(sep, parts[1..])
  }

  lemma {:induction false} SplitCharOne(w: string, sep: char)
    requires sep !in w
    ensures SplitChar(w, sep) == [w]
  {
    if w != "" {
      SplitCharOne(w[1..], sep);
      assert [w[0]] + w[1..] == w;
    }
  }

  lemma {:induction false} SplitCharCons(w: string, sep: char, rest: string)
    requires sep !in w
    ensures SplitChar(w + [sep] + rest, sep) == [w] + SplitChar(rest, sep)
  {
    var s := w + [sep] + rest;
    if w == "" {
      assert s[1..] == rest;
    } else {
      SplitCharCons(w[1..], sep, rest);
      assert s[1..] == w[1..] + [sep] + rest;
      assert [w[0]] + w[1..] == w;
      assert ([w[1..]] + SplitChar(rest, sep))[1..] == SplitChar(rest, sep);
    }
  }

  lemma {:induction false} SplitCharJoin(parts: seq<string>, sep: char)
    requires parts != []
    requires forall p | p in parts :: sep !in p
    ensures SplitChar(Join([sep], parts), sep) == parts
  {
    if |parts| == 1 {
      SplitCharOne(parts[0], sep);
    } else {
      SplitCharJoin(parts[1..], sep);
      SplitCharCons(parts[0], sep, Join([sep], parts[1..]));
    }
  }

  /** The non-empty strings of a list, in order. */
  function NonEmpty(parts: seq<string>): (r: seq<string>)
    ensures forall p | p in r :: p != "" && p in parts
    ensures forall p | p in parts && p != "" :: p in r
  {
    if parts == [] then []
    else (if parts[0] == "" then [] else [parts[0]]) + NonEmpty(parts[1..])
  }

  lemma {:induction false} NonEmptyAll(parts: seq<string>)
    requires forall p | p in parts :: p != ""
    ensures NonEmpty(parts) == parts
  {
    if parts != [] {
      assert parts[0] in parts && forall p | p in parts[1..] :: p in parts;
      NonEmptyAll(parts[1..]);
      assert [parts[0]] + parts[1..] == parts;
    }
  }

  // ----- numbers

  function DigitChar(d: nat): (c: char)
    requires d < 10
    ensures IsDigit(c)
  {
    ('0' as int + d) as char
  }

  function DigitValue(c: char): nat
    requires IsDigit(c)
  {
    c as int - '0' as int
  }

  /** `str(n)` */
  function NatText(n: nat): (s: string)
    ensures s != "" && AllDigits(s)
  {
    if n < 10 then [DigitChar(n)] else NatText(n / 10) + [DigitChar(n % 10)]
  }

  /** `str(n)` of any integer. */
  function IntText(n: int): string { if n < 0 then "-" + NatText(-n) else NatText(n) }

  /** `int(s)` on a run of digits. */
  function TextNat(s: string): nat
    requires AllDigits(s)
  {
    if s == "" then 0 else TextNat(s[..|s| - 1]) * 10 + DigitValue(s[|s| - 1])
  }

  lemma {:induction false} NatRoundTrip(n: nat)
    ensures TextNat(NatText(n)) == n
  {
    if n >= 10 {
      NatRoundTrip(n / 10);
      assert NatText(n)[..|NatText(n)| - 1] == NatText(n / 10);
    }
  }

  lemma NatTextZero(n: nat)
    ensures NatText(n) == "0" <==> n == 0
  {
    NatRoundTrip(n);
    NatRoundTrip(0);
  }

  /** Decimal numbers joined by dots: `1.26.4`. */
  function Dotted(cs: seq<nat>): (s: string)
  {
    Join(".", NatTexts(cs))
  }

  function NatTexts(cs: seq<nat>): (r: seq<string>)
    ensures |r| == |cs|
    ensures forall i | 0 <= i < |cs| :: r[i] == NatText(cs[i])
  {
    seq(|cs|, i requires 0 <= i < |cs| => NatText(cs[i]))
  }

  predicate DottedChar(c: char) { IsDigit(c) || c == '.' }

  lemma {:induction false} DottedShape(cs: seq<nat>)
    requires cs != []
    ensures Dotted(cs) != "" && IsDigit(Dotted(cs)[0]) && IsDigit(Dotted(cs)[|Dotted(cs)| - 1])
    ensures forall c | c in Dotted(cs) :: DottedChar(c)
  {
    DottedUnfold(cs);
    if |cs| > 1 {
      DottedShape(cs[1..]);
    }
  }

  lemma DottedUnfold(cs: seq<nat>)
    requires cs != []
    ensures Dotted(cs) == if |cs| == 1 then NatText(cs[0]) else NatText(cs[0]) + "." + Dotted(cs[1..])
  {
    assert NatTexts(cs)[1..] == NatTexts(cs[1..]);
  }

  lemma DottedSplits(cs: seq<nat>)
    requires cs != []
    ensures SplitChar(Dotted(cs), '.') == NatTexts(cs)
    ensures NonEmpty(SplitChar(Dotted(cs), '.')) == NatTexts(cs)
  {
    SplitCharJoin(NatTexts(cs), '.');
    NonEmptyAll(NatTexts(cs));
  }
}
