/** Manifest range syntax: carets, tildes, `~>`, wildcards, brackets and comparator lists are
    rewritten into the range language, and what they then admit is stated on the version order. */
module Specs {
  import opened Strings
  import opened Versions
  import opened RangeText

  /** Comparators, or syntax that is not translated, or an exception out of `int`. */
  datatype Translation = Comparators(text: string) | Unknown | Raises

  // ----- Python's int()

  predicate DigitOrUnderscore(c: char) { IsDigit(c) || c == '_' }

  /** Digits, with single underscores between digits. */
  predicate IntLiteral(s: string) {
    && s != "" && IsDigit(s[0]) && IsDigit(s[|s| - 1])
    && (forall c | c in s :: DigitOrUnderscore(c))
    && (forall i | 0 < i < |s| :: s[i] == '_' ==> s[i - 1] != '_')
  }

  function OnlyDigits(s: string): (r: string)
    ensures AllDigits(r)
  {
    if s == "" then "" else (if IsDigit(s[0]) then [s[0]] else "") + OnlyDigits(s[1..])
  }

  function PyInt(s: string): Option<int> {
    var t := Strip(s);
    var unsigned := if t != "" && (t[0] == '+' || t[0] == '-') then t[1..] else t;
    var n: int := TextNat(OnlyDigits(unsigned));
    if !IntLiteral(unsigned) then None else Some(if t[0] == '-' then -n else n)
  }

  // ----- pieces of normalize_spec

  predicate IsV(c: char) { c == 'v' }

  /** The version behind a sugar operator, without a leading `v`. */
  function SugarBody(text: string): string {
    var t := Strip(text);
    t[RunLength(t, IsV)..]
  }

  /** `str.isdigit` */
  predicate IsNumber(s: string) { s != "" && AllDigits(s) }

  function BodyParts(body: string): seq<string> { NonEmpty(SplitChar(body, '.')) }

  function Between(low: string, high: string): string { ">=" + low + ", <" + high }

  function Pessimistic(body: string): Translation {
    var parts := BodyParts(body);
    if |parts| < 2 then Unknown
    else
      var upper := parts[..|parts| - 1];
      match PyInt(upper[|upper| - 1])
      case None => Raises
      case Some(n) => Comparators(Between(body, Join(".", upper[..|upper| - 1] + [IntText(n + 1)])))
  }

  function Caret(body: string): Translation {
    var parts := BodyParts(body);
    if parts == [] || !IsNumber(parts[0]) then Unknown
    else if parts[0] != "0" then Comparators(Between(body, NatText(TextNat(parts[0]) + 1) + ".0.0"))
    else if |parts| > 1 && IsNumber(parts[1]) then Comparators(Between(body, "0." + NatText(TextNat(parts[1]) + 1)
        + ".0"))
    else Comparators(Between(body, "1.0.0"))
  }

  function Tilde(body: string): Translation {
    var parts := BodyParts(body);
    if parts == [] || !IsNumber(parts[0]) then Unknown
    else if |parts| >= 2 && IsNumber(parts[1]) then
      Comparators(Between(body, parts[0] + "." + NatText(TextNat(parts[1]) + 1) + ".0"))
    else Comparators(Between(body, NatText(TextNat(parts[0]) + 1) + ".0.0"))
  }

  predicate WildcardMark(s: string) { s == "x" || s == "X" || s == "*" }

  /** `1.x` and `1.2.*` */
  predicate IsWildcard(text: string) {
    var parts := SplitChar(text, '.');
    && (|parts| == 2 || |parts| == 3)
    && IsNumber(parts[0]) && (|parts| == 3 ==> IsNumber(parts[1])) && WildcardMark(parts[|parts| - 1])
  }

  function Wildcard(text: string): string
    requires IsWildcard(text)
  {
    var parts := SplitChar(text, '.');
    if |parts| == 3 then
      Between(parts[0] + "." + parts[1] + ".0", parts[0] + "." + NatText(TextNat(parts[1]) + 1) + ".0")
    else
      Between(parts[0] + ".0.0", NatText(TextNat(parts[0]) + 1) + ".0.0")
  }

  predicate AllDotted(s: string) { forall c | c in s :: DottedChar(c) }

  /** The two bounds of a bracket range, as written. */
  function BracketBounds(text: string): seq<string> {
    if |text| < 2 then [] else SplitChar(text[1..|text| - 1], ',')
  }

  predicate IsBracket(text: string) {
    && |text| >= 2
    && (text[0] == '[' || text[0] == '(') && (text[|text| - 1] == ']' || text[|text| - 1] == ')')
    && var bounds := BracketBounds(text);
       |bounds| == 2 && AllDotted(Strip(bounds[0])) && AllDotted(Strip(bounds[1]))
  }

  function BracketTokens(text: string): seq<string>
    requires IsBracket(text)
  {
    var low, high := Strip(BracketBounds(text)[0]), Strip(BracketBounds(text)[1]);
    (if low == "" then [] else [(if text[0] == '(' then ">" else ">=") + low])
    + (if high == "" then [] else [(if text[|text| - 1] == ')' then "<" else "<=") + high])
  }

  predicate TailChar(c: char) { IsDigit(c) || IsLetter(c) || c == '.' || c == '+' || c == '-' }

  /** How many characters the optional operator of a comparator token takes. */
  function OperatorLength(t: string): nat {
    if StartsWith(t, ">=") || StartsWith(t, "<=") || StartsWith(t, "==") || StartsWith(t, "!=") then 2
    else if StartsWith(t, "=") || StartsWith(t, ">") || StartsWith(t, "<") then 1
    else 0
  }

  /** The comparator pattern: operator, optional `v`, digits, then nothing or a tail that starts
      with `.` or `-`. */
  predicate IsComparator(t: string) {
    var n := OperatorLength(t);
    n <= |t| &&
    var u := t[n..];
    var w := if u != "" && u[0] == 'v' then u[1..] else u;
    var digits := RunLength(w, IsDigit);
    && digits > 0
    && (digits < |w| ==> (w[digits] == '.' || w[digits] == '-') && forall c | c in w[digits..] :: TailChar(c))
  }

  function StripAll(parts: seq<string>): (r: seq<string>)
    ensures |r| == |parts|
    ensures forall i | 0 <= i < |parts| :: r[i] == Strip(parts[i])
  {
    seq(|parts|, i requires 0 <= i < |parts| => Strip(parts[i]))
  }

  /** The comparator list of a plain declaration. */
  function PlainTokens(text: string): seq<string> { NonEmpty(StripAll(SplitTokens(text))) }

  function Plain(text: string): Translation {
    var tokens := PlainTokens(text);
    if tokens != [] && forall t | t in tokens :: IsComparator(t) then Comparators(Join(", ", tokens)) else Unknown
  }

  predicate HasBars(s: string) { exists i | 0 <= i < |s| - 1 :: s[i] == '|' && s[i + 1] == '|' }

  predicate AnyVersion(text: string) { text == "*" || text == "x" || text == "latest" || text == "workspace:*" }

  /** A declaration without `||`. */
  function NormalizeSingle(text: string): Translation {
    if StartsWith(text, "~>") then Pessimistic(SugarBody(text[2..]))
    else if StartsWith(text, "^") then Caret(SugarBody(text[1..]))
    else if StartsWith(text, "~") then Tilde(SugarBody(text[1..]))
    else if IsWildcard(text) then Comparators(Wildcard(text))
    else if IsBracket(text) then
      if BracketTokens(text) == [] then Unknown else Comparators(Join(", ", BracketTokens(text)))
    else Plain(text)
  }

  lemma {:induction false} BarPartsShorter(s: string)
    ensures forall p | p in SplitBars(s) :: |p| <= |s|
    ensures HasBars(s) ==> forall p | p in SplitBars(s) :: |p| < |s|
    decreases |s|
  {
    if s == "" {
    } else if |s| >= 2 && s[0] == '|' && s[1] == '|' {
      BarPartsShorter(s[2..]);
    } else {
      BarPartsShorter(s[1..]);
      if HasBars(s) {
        var i :| 0 <= i < |s| - 1 && s[i] == '|' && s[i + 1] == '|';
        assert s[1..][i - 1] == '|' && s[1..][i] == '|';
      }
    }
  }

  function NormalizeSpec(spec: string): Translation
    decreases |spec|, 1, 0
  {
    var text := Strip(spec);
    if text == "" then Unknown
    else if AnyVersion(text) then Comparators(">=0")
    else if HasBars(text) then
      BarPartsShorter(text);
      JoinTranslations(NormalizeParts(SplitBars(text), |spec|))
    else NormalizeSingle(text)
  }

  function NormalizeParts(parts: seq<string>, size: nat): (r: seq<Translation>)
    requires forall p | p in parts :: |p| < size
    ensures |r| == |parts|
    ensures forall i | 0 <= i < |parts| :: r[i] == NormalizeSpec(parts[i])
    decreases size, 0, |parts|
  {
    if parts == [] then []
    else
      assert parts[0] in parts && forall p | p in parts[1..] :: p in parts;
      [NormalizeSpec(parts[0])] + NormalizeParts(parts[1..], size)
  }

  /** An exception in any part propagates; one untranslatable part makes the whole unknown. */
  function JoinTranslations(ts: seq<Translation>): Translation {
    if exists t | t in ts :: t.Raises? then Raises
    else if exists t | t in ts :: t.Unknown? then Unknown
    else Comparators(Join(" || ", Texts(ts)))
  }

  function Texts(ts: seq<Translation>): (r: seq<string>)
    requires forall t | t in ts :: t.Comparators?
    ensures |r| == |ts| && forall i | 0 <= i < |ts| :: r[i] == ts[i].text
  {
    if ts == [] then [] else assert ts[0] in ts && forall t | t in ts[1..] :: t in ts; [ts[0].text] + Texts(ts[1..])
  }

  // ----- whether a declared range admits a version

  datatype Verdict = Permits | Excludes | CannotTell | Crashes

  function RangePermits(spec: Option<string>, version: string): Verdict {
    if spec.None? || spec.value == "" || version == "" then CannotTell
    else
      match NormalizeSpec(spec.value)
      case Raises => Crashes
      case Unknown => CannotTell
      case Comparators(text) => if Satisfies(version, text) then Permits else Excludes
  }

  /** Every version the declaration admits. */
  predicate Admitted(spec: string, v: string) {
    NormalizeSpec(spec).Comparators? && Satisfies(v, NormalizeSpec(spec).text)
  }

  // ----- two-sided ranges

  predicate InRange(k: Key, low: Key, high: Key) { KeyAtMost(low, k) && KeyLess(k, high) }

  lemma DottedWord(cs: seq<nat>)
    requires cs != []
    ensures VersionWord(Dotted(cs)) && Strip(Dotted(cs)) == Dotted(cs)
  {
    DottedShape(cs);
    StripTrim(Dotted(cs));
  }

  lemma JoinTwo(sep: string, s: string, t: string)
    ensures Join(sep, [s, t]) == s + sep + t
  {
    assert [s, t][1..] == [t];
  }

  /** A printed pair of bounds admits the versions between their keys. */
  lemma BetweenMeaning(v: string, low: seq<nat>, high: seq<nat>)
    requires low != [] && high != []
    ensures Satisfies(v, Between(Dotted(low), Dotted(high))) == InRange(KeyOf(v), ReleaseKey(low), ReleaseKey(high))
  {
    hide Dotted, VersionWord, TokenHolds, TokenText, AllHold, Satisfies, KeyOf, KeyLess, ReleaseKey, Strip;
    var l, h := Comparator(Ge, Dotted(low)), Comparator(Lt, Dotted(high));
    DottedWord(low);
    DottedWord(high);
    KeyOfDotted(low);
    KeyOfDotted(high);
    ComparatorTextShape(l);
    ComparatorTextShape(h);
    ComparatorMeaning(v, l);
    ComparatorMeaning(v, h);
    var tokens := [ComparatorText(l), ComparatorText(h)];
    TwoTokensHold(v, tokens[0], tokens[1]);
    JoinTwo(", ", tokens[0], tokens[1]);
    assert tokens[0] + ", " + tokens[1] == Between(Dotted(low), Dotted(high));
    SingleAlternative(v, tokens);
  }

  // ----- the sugar forms on dotted numbers

  lemma SingleText(text: string)
    requires text != "" && Trim(text) && !AnyVersion(text) && '|' !in text
    ensures NormalizeSpec(text) == NormalizeSingle(text)
  {
    hide NormalizeSingle, IsSpace;
    StripTrim(text);
  }

  lemma SugarBodyDotted(pad: nat, cs: seq<nat>)
    requires cs != [] && pad <= 1
    ensures SugarBody(Blanks(pad) + Dotted(cs)) == Dotted(cs)
    ensures BodyParts(Dotted(cs)) == NatTexts(cs)
  {
    hide Dotted, IsSpace;
    var d := Dotted(cs);
    DottedShape(cs);
    assert Trim(d) by { DottedWord(cs); assert d[0] in d && d[|d| - 1] in d; }
    StripPadded(pad, d, 0);
    assert Blanks(pad) + d + Blanks(0) == Blanks(pad) + d;
    RunLengthIs(d, IsV, 0);
    DottedSplits(cs);
  }

  lemma DottedThree(a: nat, b: nat, c: nat)
    ensures Dotted([a, b, c]) == NatText(a) + "." + NatText(b) + "." + NatText(c)
  {
    hide NatText;
    DottedUnfold([a, b, c]);
    DottedUnfold([b, c]);
    DottedUnfold([c]);
    assert [a, b, c][1..] == [b, c] && [b, c][1..] == [c];
  }

  lemma ZeroTails(s: string, a: nat, b: nat)
    ensures s == NatText(a) ==> s + ".0.0" == Dotted([a, 0, 0])
    ensures s == NatText(b) ==> "0." + s + ".0" == Dotted([0, b, 0])
    ensures s == NatText(b) ==> NatText(a) + "." + s + ".0" == Dotted([a, b, 0])
    ensures "1.0.0" == Dotted([1, 0, 0])
  {
    NumberText(0);
    NumberText(1);
    hide Dotted, NatText;
    DottedThree(a, 0, 0);
    DottedThree(0, b, 0);
    DottedThree(a, b, 0);
    DottedThree(1, 0, 0);
    assert s + ".0.0" == s + "." + "0" + "." + "0";
    assert "0." + s + ".0" == "0" + "." + s + "." + "0";
    assert NatText(a) + "." + s + ".0" == NatText(a) + "." + s + "." + "0";
    assert "1.0.0" == "1" + "." + "0" + "." + "0";
  }

  /** The exclusive upper bound of a caret range. */
  function CaretUpper(cs: seq<nat>): seq<nat>
    requires cs != []
  {
    if cs[0] != 0 then [cs[0] + 1, 0, 0] else if |cs| > 1 then [0, cs[1] + 1, 0] else [1, 0, 0]
  }

  lemma NumberText(n: nat)
    ensures IsNumber(NatText(n)) && TextNat(NatText(n)) == n
    ensures NatText(n) == "0" <==> n == 0
    ensures NatText(0) == "0" && NatText(1) == "1"
  {
    NatRoundTrip(n);
    NatTextZero(n);
  }

  lemma CaretBody(cs: seq<nat>)
    requires cs != []
    ensures Caret(Dotted(cs)) == Comparators(Between(Dotted(cs), Dotted(CaretUpper(cs))))
  {
    hide Dotted, NatText, TextNat, BodyParts, Between, IsNumber;
    SugarBodyDotted(0, cs);
    NumberText(cs[0]);
    ZeroTails(NatText(cs[0] + 1), cs[0] + 1, 0);
    if |cs| > 1 {
      NumberText(cs[1]);
      ZeroTails(NatText(cs[1] + 1), 0, cs[1] + 1);
    }
  }

  lemma CaretTranslation(cs: seq<nat>)
    requires cs != []
    ensures NormalizeSpec("^" + Dotted(cs)) == Comparators(Between(Dotted(cs), Dotted(CaretUpper(cs))))
  {
    hide Dotted, Caret, SugarBody, Between, IsWildcard, IsBracket, Plain;
    var text := "^" + Dotted(cs);
    DottedShape(cs);
    assert text[0] == '^' && text[1..] == Dotted(cs) && text[|text| - 1] == Dotted(cs)[|Dotted(cs)| - 1];
    SingleText(text);
    SugarBodyDotted(0, cs);
    assert Blanks(0) + Dotted(cs) == Dotted(cs);
    CaretBody(cs);
  }

  lemma CaretMeaning(cs: seq<nat>, v: string)
    requires cs != []
    ensures Admitted("^" + Dotted(cs), v) == InRange(KeyOf(v), ReleaseKey(cs), ReleaseKey(CaretUpper(cs)))
  {
    hide Dotted, NormalizeSpec, Satisfies, KeyOf, KeyLess;
    CaretTranslation(cs);
    BetweenMeaning(v, cs, CaretUpper(cs));
  }

  /** `^a.b.c` with a > 0, on a release: not below it and the same major number. */
  lemma CaretOnReleases(cs: seq<nat>, v: string)
    requires cs != [] && cs[0] > 0 && KeyOf(v).pre == []
    ensures Admitted("^" + Dotted(cs), v) <==> KeyAtMost(ReleaseKey(cs), KeyOf(v)) && KeyOf(v).a == cs[0]
  {
    hide Admitted, KeyOf;
    CaretMeaning(cs, v);
  }

  /** The caret of npm: the left-most non-zero of three numbers may not change. */
  predicate NpmCaret(a: nat, b: nat, c: nat, k: Key) {
    && KeyAtMost(ReleaseKey([a, b, c]), k)
    && k.a == a && (a == 0 ==> k.b == b && (b == 0 ==> k.c == c))
  }

  /** The caret rewrite is npm's caret exactly when the major or the minor number is not zero;
      `^0.0.c` is widened to every 0.0.x from c on. */
  lemma CaretIsNpmExactlyWhen(a: nat, b: nat, c: nat)
    ensures (forall v | KeyOf(v).pre == [] :: Admitted("^" + Dotted([a, b, c]), v) <==> NpmCaret(a, b, c, KeyOf(v)))
        <==> a > 0 || b > 0
  {
    hide Admitted, KeyOf, Dotted;
    if a > 0 || b > 0 {
      forall v | KeyOf(v).pre == []
        ensures Admitted("^" + Dotted([a, b, c]), v) <==> NpmCaret(a, b, c, KeyOf(v))
      {
        CaretMeaning([a, b, c], v);
      }
    } else {
      var v := Dotted([0, 0, c + 1]);
      KeyOfDotted([0, 0, c + 1]);
      CaretMeaning([a, b, c], v);
      assert KeyOf(v).pre == [] && Admitted("^" + Dotted([a, b, c]), v) && !NpmCaret(a, b, c, KeyOf(v));
    }
  }

  /** The exclusive upper bound of a tilde range. */
  function TildeUpper(cs: seq<nat>): seq<nat>
    requires cs != []
  {
    if |cs| >= 2 then [cs[0], cs[1] + 1, 0] else [cs[0] + 1, 0, 0]
  }

  lemma TildeBody(cs: seq<nat>)
    requires cs != []
    ensures Tilde(Dotted(cs)) == Comparators(Between(Dotted(cs), Dotted(TildeUpper(cs))))
  {
    hide Dotted, NatText, TextNat, BodyParts, Between, IsNumber;
    SugarBodyDotted(0, cs);
    NumberText(cs[0]);
    ZeroTails(NatText(cs[0] + 1), cs[0] + 1, 0);
    if |cs| > 1 {
      NumberText(cs[1]);
      ZeroTails(NatText(cs[1] + 1), cs[0], cs[1] + 1);
    }
  }

  lemma TildeTranslation(cs: seq<nat>)
    requires cs != []
    ensures NormalizeSpec("~" + Dotted(cs)) == Comparators(Between(Dotted(cs), Dotted(TildeUpper(cs))))
  {
    hide Dotted, Tilde, SugarBody, Between, IsWildcard, IsBracket, Plain, IsSpace, TildeUpper;
    var text := "~" + Dotted(cs);
    DottedShape(cs);
    assert text[0] == '~' && text[1..] == Dotted(cs) && text[1] == Dotted(cs)[0];
    assert text[|text| - 1] == Dotted(cs)[|Dotted(cs)| - 1];
    assert Trim(text) by { DigitEnds(text); }
    assert !StartsWith(text, "~>") && !StartsWith(text, "^") && StartsWith(text, "~") by {
      assert text[..2][1] == text[1];
    }
    SingleText(text);
    SugarBodyDotted(0, cs);
    assert Blanks(0) + Dotted(cs) == Dotted(cs);
    TildeBody(cs);
  }

  lemma TildeMeaning(cs: seq<nat>, v: string)
    requires cs != []
    ensures Admitted("~" + Dotted(cs), v) == InRange(KeyOf(v), ReleaseKey(cs), ReleaseKey(TildeUpper(cs)))
  {
    hide Dotted, NormalizeSpec, Satisfies, KeyOf, KeyLess;
    TildeTranslation(cs);
    BetweenMeaning(v, cs, TildeUpper(cs));
  }

  /** `~a.b.c` on a release: not below it and the same major and minor number. */
  lemma TildeOnReleases(cs: seq<nat>, v: string)
    requires |cs| >= 2 && KeyOf(v).pre == []
    ensures Admitted("~" + Dotted(cs), v)
        <==> KeyAtMost(ReleaseKey(cs), KeyOf(v)) && KeyOf(v).a == cs[0] && KeyOf(v).b == cs[1]
  {
    hide Admitted, KeyOf;
    TildeMeaning(cs, v);
  }

  /** The exclusive upper bound of `~>`: everything but the last number, plus one at the end. */
  function PessimisticUpper(cs: seq<nat>): seq<nat>
    requires |cs| >= 2
  {
    cs[..|cs| - 2] + [cs[|cs| - 2] + 1]
  }

  lemma {:induction false} OnlyDigitsAll(s: string)
    requires AllDigits(s)
    ensures OnlyDigits(s) == s
  {
    if s != "" {
      OnlyDigitsAll(s[1..]);
      assert [s[0]] + s[1..] == s;
    }
  }

  lemma PyIntNat(n: nat)
    ensures PyInt(NatText(n)) == Some(n)
    ensures IntText(n + 1) == NatText(n + 1)
  {
    hide NatText, TextNat, Strip, IntLiteral, OnlyDigits;
    var t := NatText(n);
    DigitsTrim(t);
    StripTrim(t);
    DigitsLiteral(t);
    OnlyDigitsAll(t);
    NatRoundTrip(n);
  }

  lemma DigitsLiteral(t: string)
    requires IsNumber(t)
    ensures IntLiteral(t) && t[0] != '+' && t[0] != '-'
  {
    assert forall i | 0 <= i < |t| :: t[i] in t;
  }

  lemma DigitsTrim(t: string)
    requires AllDigits(t)
    ensures Trim(t)
  {
    if t != "" { assert t[0] in t && t[|t| - 1] in t; }
  }

  lemma PessimisticBody(cs: seq<nat>)
    requires |cs| >= 2
    ensures Pessimistic(Dotted(cs)) == Comparators(Between(Dotted(cs), Dotted(PessimisticUpper(cs))))
  {
    hide NatText, BodyParts, Between, PyInt, IntText, Join;
    SugarBodyDotted(0, cs);
    var n := |cs|;
    PyIntNat(cs[n - 2]);
    assert NatTexts(cs)[..n - 1][n - 2] == NatText(cs[n - 2]);
    assert NatTexts(cs)[..n - 1][..n - 2] + [NatText(cs[n - 2] + 1)] == NatTexts(PessimisticUpper(cs));
  }

  lemma PessimisticTranslation(pad: nat, cs: seq<nat>)
    requires |cs| >= 2 && pad <= 1
    ensures NormalizeSpec("~>" + Blanks(pad) + Dotted(cs)) == Comparators(Between(Dotted(cs),
        Dotted(PessimisticUpper(cs))))
  {
    hide Dotted, Pessimistic, SugarBody, Between, IsWildcard, IsBracket, Plain, IsSpace;
    var d := Blanks(pad) + Dotted(cs);
    var text := "~>" + Blanks(pad) + Dotted(cs);
    DottedShape(cs);
    assert text == "~>" + d && text[2..] == d;
    assert text[|text| - 1] == Dotted(cs)[|Dotted(cs)| - 1] && text[0] == '~';
    assert Trim(text) by { DigitEnds(text); }
    assert text[..2] == "~>";
    SingleText(text);
    SugarBodyDotted(pad, cs);
    PessimisticBody(cs);
  }

  lemma DigitEnds(t: string)
    requires t != "" && t[0] == '~' && IsDigit(t[|t| - 1])
    ensures Trim(t)
  {
  }

  lemma PessimisticMeaning(pad: nat, cs: seq<nat>, v: string)
    requires |cs| >= 2 && pad <= 1
    ensures Admitted("~>" + Blanks(pad) + Dotted(cs), v)
         == InRange(KeyOf(v), ReleaseKey(cs), ReleaseKey(PessimisticUpper(cs)))
  {
    hide Dotted, NormalizeSpec, Satisfies, KeyOf, KeyLess, ReleaseKey;
    PessimisticTranslation(pad, cs);
    BetweenMeaning(v, cs, PessimisticUpper(cs));
  }

  function Component(k: Key, i: nat): nat {
    if i == 0 then k.a else if i == 1 then k.b else if i == 2 then k.c else k.d
  }

  /** `~> x...y` on a release: not below it and the same in all numbers but the last. */
  lemma PessimisticOnReleases(pad: nat, cs: seq<nat>, v: string)
    requires 2 <= |cs| <= 4 && pad <= 1 && KeyOf(v).pre == []
    ensures Admitted("~>" + Blanks(pad) + Dotted(cs), v)
        <==> KeyAtMost(ReleaseKey(cs), KeyOf(v)) && forall i | 0 <= i < |cs| - 1 :: Component(KeyOf(v), i) == cs[i]
  {
    hide Admitted, KeyOf, Dotted;
    PessimisticMeaning(pad, cs, v);
    var k := KeyOf(v);
    assert (forall i | 0 <= i < |cs| - 1 :: Component(k, i) == cs[i])
       <==> k.a == cs[0] && (|cs| > 2 ==> k.b == cs[1]) && (|cs| > 3 ==> k.c == cs[2]) by {
      assert Component(k, 0) == k.a && Component(k, 1) == k.b && Component(k, 2) == k.c;
    }
  }
}
