/** Wildcards, bracket ranges, comparator lists and `||`: the remaining manifest forms and what
    they admit. */
module SpecForms {
  import opened Strings
  import opened Versions
  import opened RangeText
  import opened Specs

  // ----- none of the sugar operators

  /** The first character rules out `~>`, `^` and `~`. */
  lemma NoSugar(text: string)
    requires text != "" && text[0] != '~' && text[0] != '^'
    ensures !StartsWith(text, "~>") && !StartsWith(text, "^") && !StartsWith(text, "~")
  {
    if |text| >= 2 { assert text[..2][0] == text[0]; }
    assert text[..1][0] == text[0];
  }

  lemma FirstPart(s: string, sep: char)
    requires s != "" && s[0] != sep
    ensures SplitChar(s, sep)[0] != "" && SplitChar(s, sep)[0][0] == s[0]
  {
  }

  lemma NotWildcard(text: string)
    requires text != "" && !IsDigit(text[0]) && text[0] != '.'
    ensures !IsWildcard(text)
  {
    FirstPart(text, '.');
    var first := SplitChar(text, '.')[0];
    assert first[0] in first;
  }

  // ----- wildcards

  lemma WildcardParts(ns: seq<nat>, mark: string)
    requires 1 <= |ns| <= 2 && WildcardMark(mark)
    ensures SplitChar(Join(".", NatTexts(ns) + [mark]), '.') == NatTexts(ns) + [mark]
    ensures IsWildcard(Join(".", NatTexts(ns) + [mark]))
  {
    hide NatText, Join;
    SplitCharJoin(NatTexts(ns) + [mark], '.');
  }

  function WildcardText(ns: seq<nat>, mark: string): string { Join(".", NatTexts(ns) + [mark]) }

  function WildcardUpper(ns: seq<nat>): seq<nat>
    requires 1 <= |ns| <= 2
  {
    if |ns| == 1 then [ns[0] + 1, 0, 0] else [ns[0], ns[1] + 1, 0]
  }

  lemma WildcardBounds(ns: seq<nat>, mark: string)
    requires 1 <= |ns| <= 2 && WildcardMark(mark)
    ensures IsWildcard(WildcardText(ns, mark))
    ensures Wildcard(WildcardText(ns, mark)) == Between(Dotted([At(ns, 0), At(ns, 1), 0]), Dotted(WildcardUpper(ns)))
  {
    hide NatText, Join, TextNat, Dotted, Between, IsWildcard, SplitChar, IsNumber, WildcardMark;
    WildcardParts(ns, mark);
    if |ns| == 1 {
      WildcardOne(ns[0]);
    } else {
      WildcardTwo(ns[0], ns[1]);
    }
  }

  lemma WildcardOne(a: nat)
    ensures NatText(a) + ".0.0" == Dotted([a, 0, 0]) && NatText(TextNat(NatText(a)) + 1) + ".0.0"
        == Dotted([a + 1, 0, 0])
  {
    NumberText(a);
    hide *;
    ZeroTails(NatText(a), a, 0);
    ZeroTails(NatText(a + 1), a + 1, 0);
  }

  lemma WildcardTwo(a: nat, b: nat)
    ensures NatText(a) + "." + NatText(b) + ".0" == Dotted([a, b, 0])
    ensures NatText(a) + "." + NatText(TextNat(NatText(b)) + 1) + ".0" == Dotted([a, b + 1, 0])
  {
    NumberText(b);
    hide *;
    ZeroTails(NatText(b), a, b);
    ZeroTails(NatText(b + 1), a, b + 1);
  }

  lemma WildcardShape(ns: seq<nat>, mark: string)
    requires 1 <= |ns| <= 2 && WildcardMark(mark)
    ensures var t := WildcardText(ns, mark);
            |t| >= 3 && IsDigit(t[0]) && (t[|t| - 1] == 'x' || t[|t| - 1] == 'X' || t[|t| - 1] == '*') && '|' !in t
  {
    hide NatText;
    assert NatText(ns[0])[0] in NatText(ns[0]);
    var ps := NatTexts(ns) + [mark];
    JoinTwo(".", ps[|ps| - 2], mark);
    if |ns| == 2 {
      assert ps[1..] == [ps[1], mark];
    } else {
      assert ps == [ps[0], mark];
    }
  }

  lemma WildcardTranslation(ns: seq<nat>, mark: string)
    requires 1 <= |ns| <= 2 && WildcardMark(mark)
    ensures NormalizeSpec(WildcardText(ns, mark))
         == Comparators(Between(Dotted([At(ns, 0), At(ns, 1), 0]), Dotted(WildcardUpper(ns))))
  {
    hide WildcardText, IsWildcard, Wildcard, Between, Dotted, WildcardMark, Plain, IsBracket;
    WildcardShape(ns, mark);
    NoSugar(WildcardText(ns, mark));
    SingleText(WildcardText(ns, mark));
    WildcardBounds(ns, mark);
  }

  lemma WildcardAdmits(ns: seq<nat>, mark: string, v: string)
    requires 1 <= |ns| <= 2 && WildcardMark(mark) && KeyOf(v).pre == []
    ensures Admitted(WildcardText(ns, mark), v) <==> KeyOf(v).a == ns[0] && (|ns| == 2 ==> KeyOf(v).b == ns[1])
  {
    hide WildcardText, NormalizeSpec, Satisfies, KeyOf, Dotted, WildcardMark, Between;
    WildcardTranslation(ns, mark);
    BetweenMeaning(v, [At(ns, 0), At(ns, 1), 0], WildcardUpper(ns));
  }

  lemma Marks(mark: string)
    ensures mark == "x" || mark == "X" || mark == "*" ==> WildcardMark(mark)
  {
  }

  /** `a.x` admits the releases with major number a, `a.b.*` those with major a and minor b. */
  lemma WildcardOnReleases(ns: seq<nat>, mark: string, v: string)
    requires 1 <= |ns| <= 2 && (mark == "x" || mark == "X" || mark == "*") && KeyOf(v).pre == []
    ensures Admitted(WildcardText(ns, mark), v) <==> KeyOf(v).a == ns[0] && (|ns| == 2 ==> KeyOf(v).b == ns[1])
  {
    hide *;
    Marks(mark);
    WildcardAdmits(ns, mark, v);
  }

  // ----- brackets

  function BoundText(bound: Option<seq<nat>>): string { if bound.Some? then Dotted(bound.value) else "" }

  predicate IsBound(bound: Option<seq<nat>>) { bound.Some? ==> bound.value != [] }

  lemma BoundShape(bound: Option<seq<nat>>)
    requires IsBound(bound)
    ensures AllDotted(BoundText(bound)) && Strip(BoundText(bound)) == BoundText(bound)
    ensures BoundText(bound) == "" <==> bound.None?
  {
    hide Dotted;
    if bound.Some? {
      DottedShape(bound.value);
      DottedWord(bound.value);
    } else {
      StripTrim("");
    }
  }

  function BracketText(open: char, low: Option<seq<nat>>, high: Option<seq<nat>>, close: char): string {
    [open] + (BoundText(low) + "," + BoundText(high)) + [close]
  }

  function BracketComparators(open: char, low: Option<seq<nat>>, high: Option<seq<nat>>, close: char): seq<Comparator> {
    (if low.None? then [] else [Comparator(if open == '(' then Gt else Ge, Dotted(low.value))])
    + (if high.None? then [] else [Comparator(if close == ')' then Lt else Le, Dotted(high.value))])
  }

  predicate Brackets(open: char, close: char) { (open == '[' || open == '(') && (close == ']' || close == ')') }

  lemma BracketIs(open: char, low: Option<seq<nat>>, high: Option<seq<nat>>, close: char)
    requires Brackets(open, close) && IsBound(low) && IsBound(high)
    ensures IsBracket(BracketText(open, low, high, close))
    ensures BracketTokens(BracketText(open, low, high, close))
        == ComparatorTexts(BracketComparators(open, low, high, close))
  {
    hide Dotted, BoundText, AllDotted, Strip, SplitChar;
    var text := BracketText(open, low, high, close);
    var inner := BoundText(low) + "," + BoundText(high);
    BoundShape(low);
    BoundShape(high);
    assert text[1..|text| - 1] == inner;
    assert text[0] == open && text[|text| - 1] == close;
    NoComma(low);
    NoComma(high);
    SplitCharOne(BoundText(high), ',');
    SplitCharCons(BoundText(low), ',', BoundText(high));
    assert BoundText(low) + [','] + BoundText(high) == inner;
    assert BracketBounds(text) == [BoundText(low), BoundText(high)];
    BoundTextIs(low);
    BoundTextIs(high);
  }

  lemma BoundTextIs(bound: Option<seq<nat>>)
    ensures bound.Some? ==> BoundText(bound) == Dotted(bound.value)
  {
  }

  lemma NoComma(bound: Option<seq<nat>>)
    requires IsBound(bound)
    ensures ',' !in BoundText(bound) && '|' !in BoundText(bound)
  {
    hide BoundText;
    BoundShape(bound);
  }

  lemma BracketTranslation(open: char, low: Option<seq<nat>>, high: Option<seq<nat>>, close: char)
    requires Brackets(open, close) && IsBound(low) && IsBound(high) && (low.Some? || high.Some?)
    ensures NormalizeSpec(BracketText(open, low, high, close))
         == Comparators(PrintAlternative(ComparatorTexts(BracketComparators(open, low, high, close))))
  {
    hide BoundText, IsWildcard, IsBracket, BracketTokens, ComparatorTexts, Plain;
    var text := BracketText(open, low, high, close);
    BracketIs(open, low, high, close);
    NoComma(low);
    NoComma(high);
    assert text[0] == open && text[|text| - 1] == close;
    NoSugar(text);
    NotWildcard(text);
    SingleText(text);
  }

  /** The declared interval itself. */
  predicate BracketAdmits(open: char, low: Option<seq<nat>>, high: Option<seq<nat>>, close: char, k: Key) {
    && (low.Some? ==> if open == '(' then KeyLess(ReleaseKey(low.value), k) else KeyAtMost(ReleaseKey(low.value), k))
    && (high.Some? ==> if close == ')' then KeyLess(k, ReleaseKey(high.value))
        else KeyAtMost(k, ReleaseKey(high.value)))
  }

  lemma DottedHolds(v: string, op: Op, cs: seq<nat>)
    requires cs != []
    ensures VersionWord(Dotted(cs))
    ensures Holds(v, Comparator(op, Dotted(cs))) ==
      match op
      case Lt => KeyLess(KeyOf(v), ReleaseKey(cs))
      case Le => KeyAtMost(KeyOf(v), ReleaseKey(cs))
      case Gt => KeyLess(ReleaseKey(cs), KeyOf(v))
      case Ge => KeyAtMost(ReleaseKey(cs), KeyOf(v))
      case Eq => KeyOf(v) == ReleaseKey(cs)
  {
    hide Dotted, KeyOf, KeyLess, VersionWord, ReleaseKey;
    DottedWord(cs);
    KeyOfDotted(cs);
    KeyOrder(KeyOf(v), ReleaseKey(cs), KeyOf(v));
  }

  /** `[low,high)` and its three variants, either bound optional, admit exactly their interval. */
  lemma BracketMeaning(open: char, low: Option<seq<nat>>, high: Option<seq<nat>>, close: char, v: string)
    requires Brackets(open, close) && IsBound(low) && IsBound(high) && (low.Some? || high.Some?)
    ensures Admitted(BracketText(open, low, high, close), v) == BracketAdmits(open, low, high, close, KeyOf(v))
  {
    hide BracketText, NormalizeSpec, Satisfies, KeyOf, KeyLess, Dotted, VersionWord, Holds, ReleaseKey;
    var cs := BracketComparators(open, low, high, close);
    BracketTranslation(open, low, high, close);
    if low.Some? { DottedHolds(v, cs[0].op, low.value); }
    if high.Some? { DottedHolds(v, cs[|cs| - 1].op, high.value); }
    ComparatorListMeaning(v, cs);
    assert AllComparatorsHold(v, cs) == forall i | 0 <= i < |cs| :: Holds(v, cs[i]);
  }

  // ----- comparator lists

  /** A comparator whose version is written as dotted numbers. */
  datatype Bound = Bound(op: Op, nums: seq<nat>)

  function BoundComparator(b: Bound): Comparator { Comparator(b.op, Dotted(b.nums)) }

  function BoundComparators(bs: seq<Bound>): (r: seq<Comparator>)
    ensures |r| == |bs| && forall i | 0 <= i < |bs| :: r[i] == BoundComparator(bs[i])
  {
    seq(|bs|, i requires 0 <= i < |bs| => BoundComparator(bs[i]))
  }

  function BoundTexts(bs: seq<Bound>): seq<string> { ComparatorTexts(BoundComparators(bs)) }

  /** The declaration is a list of comparators over dotted numbers, however it is spaced. */
  predicate IsBoundList(spec: string, bs: seq<Bound>) {
    && bs != [] && (forall b | b in bs :: b.nums != [])
    && var text := Strip(spec);
       text != "" && OperatorChar(text[0]) && !HasBars(text) && PlainTokens(text) == BoundTexts(bs)
  }

  predicate BoundHolds(b: Bound, k: Key) {
    match b.op
    case Lt => KeyLess(k, ReleaseKey(b.nums))
    case Le => KeyAtMost(k, ReleaseKey(b.nums))
    case Gt => KeyLess(ReleaseKey(b.nums), k)
    case Ge => KeyAtMost(ReleaseKey(b.nums), k)
    case Eq => k == ReleaseKey(b.nums)
  }

  lemma BoundIsComparator(b: Bound)
    requires b.nums != []
    ensures IsComparator(ComparatorText(BoundComparator(b)))
  {
    hide Dotted, IsLetter;
    var d := Dotted(b.nums);
    var t := OpText(b.op) + d;
    DottedShape(b.nums);
    DottedTail(d);
    OperatorLengthIs(b.op, d);
    assert t[|OpText(b.op)|..] == d;
  }

  lemma OperatorLengthIs(op: Op, d: string)
    requires d != "" && IsDigit(d[0])
    ensures OperatorLength(OpText(op) + d) == |OpText(op)|
  {
    var t := OpText(op) + d;
    assert t[0] == OpText(op)[0] && t[|OpText(op)|] == d[0];
    assert t[..2][1] == t[1];
  }

  lemma DottedTail(d: string)
    requires d != "" && IsDigit(d[0]) && AllDotted(d)
    ensures var n := RunLength(d, IsDigit);
            n > 0 && (n < |d| ==> d[n] == '.' && forall c | c in d[n..] :: TailChar(c))
  {
    var n := RunLength(d, IsDigit);
    assert forall c | c in d[n..] :: c in d;
    if n < |d| { assert d[n] in d; }
  }

  lemma BoundListTranslation(spec: string, bs: seq<Bound>)
    requires IsBoundList(spec, bs)
    ensures NormalizeSpec(spec) == Comparators(Printed(bs))
  {
    hide IsWildcard, IsBracket, IsComparator, ComparatorText, PlainTokens, HasBars, Strip;
    var text := Strip(spec);
    NoSugar(text);
    NotWildcard(text);
    NotBracket(text);
    forall t | t in BoundTexts(bs) ensures IsComparator(t) {
      var i :| 0 <= i < |bs| && t == BoundTexts(bs)[i];
      BoundIsComparator(bs[i]);
    }
  }

  lemma NotBracket(text: string)
    requires text != "" && OperatorChar(text[0])
    ensures !IsBracket(text)
  {
  }

  predicate AllBoundsHold(bs: seq<Bound>, k: Key) { forall b | b in bs :: BoundHolds(b, k) }

  /** The bounds as the range language prints them. */
  function Printed(bs: seq<Bound>): string { PrintAlternative(BoundTexts(bs)) }

  /** Printed bounds admit exactly the versions that meet all of them. */
  lemma PrintedMeaning(bs: seq<Bound>, v: string)
    requires bs != [] && forall b | b in bs :: b.nums != []
    ensures Satisfies(v, Printed(bs)) == AllBoundsHold(bs, KeyOf(v))
  {
    hide Satisfies, Dotted, VersionWord, Holds, BoundHolds;
    var cs := BoundComparators(bs);
    forall i | 0 <= i < |bs|
      ensures VersionWord(cs[i].version) && Holds(v, cs[i]) == BoundHolds(bs[i], KeyOf(v))
    {
      BoundHoldsIs(v, bs[i]);
    }
    ComparatorListMeaning(v, cs);
    assert AllComparatorsHold(v, cs) == forall i | 0 <= i < |cs| :: Holds(v, cs[i]);
  }

  /** A comparator list admits exactly the versions that meet every bound. */
  lemma BoundListMeaning(spec: string, bs: seq<Bound>, v: string)
    requires IsBoundList(spec, bs)
    ensures Admitted(spec, v) == AllBoundsHold(bs, KeyOf(v))
  {
    assert bs != [] && forall b | b in bs :: b.nums != [];
    hide IsBoundList, NormalizeSpec, Satisfies, AllBoundsHold, KeyOf;
    BoundListTranslation(spec, bs);
    PrintedMeaning(bs, v);
  }

  lemma BoundHoldsIs(v: string, b: Bound)
    requires b.nums != []
    ensures VersionWord(Dotted(b.nums))
    ensures Holds(v, BoundComparator(b)) == BoundHolds(b, KeyOf(v))
  {
    hide Dotted, VersionWord, Holds, KeyOf, KeyLess, ReleaseKey;
    DottedHolds(v, b.op, b.nums);
  }

  // ----- alternatives

  predicate NoBar(s: string) { '|' !in s }

  lemma {:induction false} NoBarJoin(sep: string, parts: seq<string>)
    requires NoBar(sep) && forall p | p in parts :: NoBar(p)
    ensures NoBar(Join(sep, parts))
  {
    if |parts| > 1 {
      assert parts[0] in parts && forall p | p in parts[1..] :: p in parts;
      NoBarJoin(sep, parts[1..]);
    }
  }

  lemma NoBarPrepend(c: char, parts: seq<string>)
    requires c != '|' && parts != [] && forall p | p in parts :: NoBar(p)
    ensures forall p | p in Prepend(c, parts) :: NoBar(p)
  {
    assert parts[0] in parts && forall p | p in parts[1..] :: p in parts;
  }

  lemma {:induction false} NoBarSplitChar(s: string, sep: char)
    requires NoBar(s)
    ensures forall p | p in SplitChar(s, sep) :: NoBar(p)
  {
    if s != "" {
      NoBarSplitChar(s[1..], sep);
      NoBarPrepend(s[0], SplitChar(s[1..], sep));
    }
  }

  lemma {:induction false} NoBarSplitTokens(s: string)
    requires NoBar(s)
    ensures forall p | p in SplitTokens(s) :: NoBar(p)
    decreases |s|
  {
    if s != "" {
      if SeparatorLength(s) > 0 {
        NoBarSplitTokens(s[SeparatorLength(s)..]);
      } else {
        NoBarSplitTokens(s[1..]);
        NoBarPrepend(s[0], SplitTokens(s[1..]));
      }
    }
  }

  lemma NoBarNumber(n: int)
    ensures NoBar(IntText(n)) && (n >= 0 ==> NoBar(NatText(n)))
  {
    if n < 0 { assert AllDigits(NatText(-n)); } else { assert AllDigits(NatText(n)); }
  }

  lemma NoBarBody(text: string)
    requires NoBar(text)
    ensures NoBar(SugarBody(text))
    ensures forall p | p in BodyParts(SugarBody(text)) :: NoBar(p)
  {
    hide Strip, SplitChar;
    NoBarSplitChar(SugarBody(text), '.');
  }

  lemma NoBarPessimistic(text: string)
    requires NoBar(text) && Pessimistic(SugarBody(text)).Comparators?
    ensures NoBar(Pessimistic(SugarBody(text)).text)
  {
    hide SugarBody, BodyParts, PyInt, IntText, Join;
    var body := SugarBody(text);
    var upper := BodyParts(body)[..|BodyParts(body)| - 1];
    var n := PyInt(upper[|upper| - 1]).value + 1;
    NoBarBody(text);
    NoBarNumber(n);
    NoBarJoin(".", upper[..|upper| - 1] + [IntText(n)]);
  }

  lemma NoBarCaretTilde(text: string)
    requires NoBar(text)
    ensures Caret(SugarBody(text)).Comparators? ==> NoBar(Caret(SugarBody(text)).text)
    ensures Tilde(SugarBody(text)).Comparators? ==> NoBar(Tilde(SugarBody(text)).text)
  {
    hide SugarBody, BodyParts, TextNat, NatText;
    var parts := BodyParts(SugarBody(text));
    NoBarBody(text);
    if parts != [] && IsNumber(parts[0]) { NoBarNumber(TextNat(parts[0]) + 1); }
    if |parts| > 1 && IsNumber(parts[1]) { NoBarNumber(TextNat(parts[1]) + 1); }
  }

  lemma NoBarWildcard(text: string)
    requires NoBar(text) && IsWildcard(text)
    ensures NoBar(Wildcard(text))
  {
    hide SplitChar, TextNat, NatText;
    var parts := SplitChar(text, '.');
    NoBarSplitChar(text, '.');
    NoBarNumber(TextNat(parts[0]) + 1);
    if |parts| == 3 { NoBarNumber(TextNat(parts[1]) + 1); }
  }

  lemma NoBarLists(text: string)
    requires NoBar(text)
    ensures IsBracket(text) ==> NoBar(Join(", ", BracketTokens(text)))
    ensures NoBar(Join(", ", PlainTokens(text)))
  {
    hide SplitChar, SplitTokens, Strip, Join;
    if IsBracket(text) {
      NoBarSplitChar(text[1..|text| - 1], ',');
      assert forall b | b in BracketBounds(text) :: NoBar(b);
      assert BracketBounds(text)[0] in BracketBounds(text) && BracketBounds(text)[1] in BracketBounds(text);
      NoBarJoin(", ", BracketTokens(text));
    }
    NoBarSplitTokens(text);
    forall i | 0 <= i < |SplitTokens(text)| ensures NoBar(StripAll(SplitTokens(text))[i]) {
      assert SplitTokens(text)[i] in SplitTokens(text);
    }
    NoBarJoin(", ", PlainTokens(text));
  }

  /** A declaration without bars translates to text without bars. */
  lemma NoBarTranslation(spec: string)
    requires NoBar(spec) && NormalizeSpec(spec).Comparators?
    ensures NoBar(NormalizeSpec(spec).text)
  {
    hide Strip, SugarBody, Pessimistic, Caret, Tilde, IsWildcard, Wildcard, IsBracket, BracketTokens, PlainTokens,
         IsComparator, Join;
    var text := Strip(spec);
    if text != "" && !AnyVersion(text) {
      if StartsWith(text, "~>") {
        NoBarPessimistic(text[2..]);
      } else if StartsWith(text, "^") || StartsWith(text, "~") {
        NoBarCaretTilde(text[1..]);
      } else if IsWildcard(text) {
        NoBarWildcard(text);
      } else {
        NoBarLists(text);
      }
    }
  }

  lemma {:induction false} RStripBlank(s: string)
    ensures RStrip(s + " ") == RStrip(s)
  {
    assert (s + " ")[..|s|] == s;
  }

  lemma LStripOne(s: string)
    ensures LStrip(" " + s) == LStrip(s)
    ensures Strip(s + " ") == Strip(s)
  {
    var n := RunLength(s, IsSpace);
    RunLengthIs(" " + s, IsSpace, n + 1);
    assert (" " + s)[n + 1..] == s[n..];
    if n == |s| {
      RunLengthIs(s + " ", IsSpace, |s| + 1);
      assert LStrip(s) == "" && LStrip(s + " ") == "";
    } else {
      RunLengthIs(s + " ", IsSpace, n);
      assert LStrip(s + " ") == LStrip(s) + " ";
      RStripBlank(LStrip(s));
    }
  }

  lemma PaddingIgnored(left: nat, s: string, right: nat, v: string)
    requires left <= 1 && right <= 1
    ensures AlternativeHolds(v, Blanks(left) + s + Blanks(right)) == AlternativeHolds(v, s)
  {
    hide LStrip, RStrip, SplitTokens, AllHold;
    var t := if left == 1 then " " + s else s;
    assert Blanks(left) + s + Blanks(right) == if right == 1 then t + " " else t;
    LStripOne(s);
    LStripOne(t);
  }

  /** Joining texts with `||` joins what they admit. */
  lemma {:induction false} JoinedTexts(left: nat, texts: seq<string>, v: string)
    requires left <= 1 && texts != [] && forall t | t in texts :: NoBar(t)
    ensures Satisfies(v, Blanks(left) + Join(" || ", texts)) == exists t | t in texts :: AlternativeHolds(v, t)
    decreases |texts|
  {
    hide AlternativeHolds, SplitBars;
    var first, rest := texts[0], texts[1..];
    assert first in texts && forall t | t in rest :: t in texts;
    if rest == [] {
      var s := Blanks(left) + first;
      PaddingIgnored(left, first, 0, v);
      assert s + Blanks(0) == s;
      SplitBarsWord(s);
      assert texts == [first];
    } else {
      JoinedTexts(1, rest, v);
      PaddingIgnored(left, first, 1, v);
      var head, tail := Blanks(left) + first + Blanks(1), Blanks(1) + Join(" || ", rest);
      assert " || " == Blanks(1) + "||" + Blanks(1);
      assert Blanks(left) + Join(" || ", texts) == head + "||" + tail;
      SplitBarsCons(head, tail);
      assert texts == [first] + rest;
    }
  }

  lemma SingleText2(t: string, v: string)
    requires NoBar(t)
    ensures Satisfies(v, t) == AlternativeHolds(v, t)
  {
    hide AlternativeHolds;
    SplitBarsWord(t);
  }

  lemma BarsTranslate(parts: seq<string>) returns (ts: seq<Translation>)
    requires |parts| >= 2 && (forall p | p in parts :: NoBar(p))
    requires Trim(Join("||", parts))
    ensures |ts| == |parts| && forall i | 0 <= i < |parts| :: ts[i] == NormalizeSpec(parts[i])
    ensures NormalizeSpec(Join("||", parts)) == JoinTranslations(ts)
  {
    hide JoinTranslations, IsSpace, NormalizeSingle;
    var spec := Join("||", parts);
    JoinedBars(parts);
    StripTrim(spec);
    SplitBarsJoin(parts);
    BarPartsShorter(spec);
    ts := NormalizeParts(parts, |spec|);
  }

  lemma JoinedBars(parts: seq<string>)
    requires |parts| >= 2
    ensures HasBars(Join("||", parts)) && !AnyVersion(Join("||", parts)) && Join("||", parts) != ""
  {
    var spec, i := Join("||", parts), |parts[0]|;
    assert spec == parts[0] + "||" + Join("||", parts[1..]);
    assert spec[i] == '|' && spec[i + 1] == '|';
    assert '|' in spec;
  }

  /** `a || b`: when every side translates, exactly the union is admitted. */
  lemma AlternativesMeaning(parts: seq<string>, v: string)
    requires |parts| >= 2 && (forall p | p in parts :: NoBar(p) && NormalizeSpec(p).Comparators?)
    requires Trim(Join("||", parts))
    ensures Admitted(Join("||", parts), v) == exists p | p in parts :: Admitted(p, v)
  {
    hide AlternativeHolds, Satisfies, NormalizeSpec, Trim, Join;
    var ts := BarsTranslate(parts);
    forall i | 0 <= i < |parts| ensures ts[i].Comparators? && NoBar(ts[i].text)
        && Satisfies(v, ts[i].text) == AlternativeHolds(v, ts[i].text) {
      assert parts[i] in parts;
      NoBarTranslation(parts[i]);
      SingleText2(ts[i].text, v);
    }
    var texts := Texts(ts);
    JoinedTexts(0, texts, v);
    assert Blanks(0) + Join(" || ", texts) == Join(" || ", texts);
    UnionOf(parts, texts, v);
  }

  lemma UnionOf(parts: seq<string>, texts: seq<string>, v: string)
    requires |parts| == |texts|
    requires forall i | 0 <= i < |parts| :: Admitted(parts[i], v) == AlternativeHolds(v, texts[i])
    ensures (exists t | t in texts :: AlternativeHolds(v, t)) == exists p | p in parts :: Admitted(p, v)
  {
    hide Admitted, AlternativeHolds;
    if t :| t in texts && AlternativeHolds(v, t) {
      var i :| 0 <= i < |texts| && texts[i] == t;
      assert parts[i] in parts;
    }
    if p :| p in parts && Admitted(p, v) {
      var i :| 0 <= i < |parts| && parts[i] == p;
      assert texts[i] in texts;
    }
  }

  /** One side that cannot be translated makes the whole declaration unknown. */
  lemma AlternativesUnknown(parts: seq<string>)
    requires |parts| >= 2 && (forall p | p in parts :: NoBar(p) && !NormalizeSpec(p).Raises?)
    requires Trim(Join("||", parts))
    ensures NormalizeSpec(Join("||", parts)).Unknown? <==> exists p | p in parts :: NormalizeSpec(p).Unknown?
  {
    hide NormalizeSpec, Trim, Join;
    var ts := BarsTranslate(parts);
    assert forall i | 0 <= i < |parts| :: parts[i] in parts && ts[i] in ts;
  }

  // ----- comparators that are misread

  lemma {:induction false} CharSurvives(s: string, sep: char, c: char)
    requires c in s && c != sep
    ensures exists p | p in SplitChar(s, sep) :: c in p
  {
    var rest := SplitChar(s[1..], sep);
    if s[0] == sep {
      CharSurvives(s[1..], sep, c);
      var p :| p in rest && c in p;
      assert p in [""] + rest;
    } else if s[0] == c {
      assert c in ([s[0]] + rest[0]);
    } else {
      CharSurvives(s[1..], sep, c);
      var p :| p in rest && c in p;
      if p == rest[0] { assert c in [s[0]] + p; } else { assert p in rest[1..]; }
    }
  }

  lemma CommaIsNoWildcard(text: string)
    requires ',' in text
    ensures !IsWildcard(text)
  {
    CharSurvives(text, '.', ',');
    hide SplitChar;
  }

  lemma ComparatorStart(t: string)
    requires IsComparator(t)
    ensures t != "" && (OperatorChar(t[0]) || t[0] == '!' || t[0] == 'v' || IsDigit(t[0]))
  {
    if |t| >= 2 { assert t[..2][0] == t[0]; }
    if |t| >= 1 { assert t[..1][0] == t[0]; }
    hide RunLength, IsLetter;
  }

  lemma ComparatorIsList(text: string)
    requires text != "" && (OperatorChar(text[0]) || text[0] == '!' || text[0] == 'v' || IsDigit(text[0]))
    ensures !AnyVersion(text) && !IsBracket(text)
  {
  }

  /** A list of comparators that is no wildcard is translated unchanged. */
  lemma PlainList(tokens: seq<string>)
    requires tokens != [] && TokenTexts(tokens) && forall t | t in tokens :: IsComparator(t)
    requires !IsWildcard(PrintAlternative(tokens))
    ensures NormalizeSpec(PrintAlternative(tokens)) == Comparators(PrintAlternative(tokens))
  {
    var text := PrintAlternative(tokens);
    assert tokens[0] in tokens;
    ComparatorStart(tokens[0]);
    hide IsWildcard, IsComparator, SplitTokens, Strip, TokenText;
    PrintedTrim(tokens);
    assert text[..|tokens[0]|][0] == text[0] == tokens[0][0];
    ComparatorIsList(text);
    NoSugar(text);
    hide StartsWith, IsSpace, AnyVersion, IsBracket;
    SingleText(text);
    PrintedAlternativeSplits(tokens);
    forall i | 0 <= i < |tokens| ensures Strip(tokens[i]) == tokens[i] && tokens[i] != "" {
      assert tokens[i] in tokens;
      TokenStrip(tokens[i]);
    }
    assert StripAll(tokens) == tokens;
    NonEmptyAll(tokens);
  }

  lemma TokenStrip(t: string)
    requires TokenText(t)
    ensures Strip(t) == t && t != ""
  {
    assert t[0] in t && t[|t| - 1] in t;
    StripTrim(t);
  }

  /** The translation keeps `!=`, and the evaluator, whose operator table lacks it, reads `=`. */
  lemma NotEqualReadsAsEqual(cs: seq<nat>, v: string)
    requires cs != []
    ensures NormalizeSpec("!=" + Dotted(cs)) == Comparators("!=" + Dotted(cs))
    ensures Admitted("!=" + Dotted(cs), v) == (KeyOf(v) == ReleaseKey(cs))
  {
    var t := "!=" + Dotted(cs);
    hide *;
    NotEqualWord(cs);
    KeyAfterEquals(cs);
    OneTokenAdmits(t, v);
    EqualityToken(v, t, cs);
  }

  /** What a declaration of one token admits when it is translated to itself. */
  lemma OneTokenAdmits(t: string, v: string)
    requires TokenText(t) && IsComparator(t) && !IsWildcard(t)
    ensures NormalizeSpec(t) == Comparators(t) && Admitted(t, v) == TokenHolds(v, t)
  {
    hide TokenText, IsComparator, IsWildcard, NormalizeSpec, Satisfies, TokenHolds;
    SingleToken(t);
    assert t != "" by { TokenStrip(t); }
    PlainList([t]);
    SingleAlternative(v, [t]);
    OneTokenHolds(v, t);
  }

  /** Such a token tests equality with what is left of it. */
  lemma EqualityToken(v: string, t: string, cs: seq<nat>)
    requires Strip(t) == t && TokenOp(t) == (Eq, 1) && KeyOf(TokenVersion(t)) == ReleaseKey(cs)
    ensures TokenHolds(v, t) == (KeyOf(v) == ReleaseKey(cs))
  {
    hide KeyOf, KeyLess, TokenOp, TokenVersion, Strip, ReleaseKey;
    KeyOrder(KeyOf(v), ReleaseKey(cs), KeyOf(v));
  }

  lemma SingleToken(t: string)
    ensures PrintAlternative([t]) == t
  {
  }

  lemma NotEqualWord(cs: seq<nat>)
    requires cs != []
    ensures var t := "!=" + Dotted(cs);
            && TokenText(t) && IsComparator(t) && !IsWildcard(t)
            && Strip(t) == t && TokenOp(t) == (Eq, 1) && TokenVersion(t) == "=" + Dotted(cs)
  {
    var d, t := Dotted(cs), "!=" + Dotted(cs);
    DottedShape(cs);
    DottedWord(cs);
    NoSpaceTail(t, "=" + d);
    NotEqualComparator(d);
    hide Dotted, Strip, IsWildcard, IsComparator, TokenVersion;
    NotWildcard(t);
    TokenStrip(t);
  }

  lemma NotEqualComparator(d: string)
    requires d != "" && IsDigit(d[0]) && AllDotted(d)
    ensures IsComparator("!=" + d)
  {
    var t := "!=" + d;
    DottedTail(d);
    hide RunLength, IsLetter, AllDotted;
    assert t[..2] == "!=" && t[2..] == d && t[0] == '!';
  }

  /** A token that starts with none of the operators loses one character. */
  lemma NoSpaceTail(t: string, rest: string)
    requires t != "" && !OperatorChar(t[0]) && t[1..] == rest && NoSpace(rest)
    ensures TokenOp(t) == (Eq, 1) && TokenVersion(t) == rest
  {
    if |t| >= 2 { assert t[..2][0] == t[0]; }
    assert t[..1][0] == t[0];
    if rest != "" { assert rest[0] in rest && rest[|rest| - 1] in rest; }
    StripTrim(rest);
    hide Strip, IsSpace;
  }

  lemma PlainBody(s: string)
    requires s != "" && Trim(s) && !VersionPrefix(s[0]) && '+' !in s && '-' !in s
    ensures KeyOf(s) == var runs := DigitRuns(s); Key(NumAt(runs, 0), NumAt(runs, 1), NumAt(runs, 2), NumAt(runs, 3),
        [])
  {
    StripTrim(s);
    RunLengthIs(s, VersionPrefix, 0);
    assert s[0..] == s;
    BeforeAll(s, '+');
    BeforeAll(s, '-');
    hide DigitRuns, Before, After, Strip, RunLength;
  }

  /** A leading dot changes nothing about the key of a number. */
  lemma KeyAfterDot(cs: seq<nat>)
    requires cs != []
    ensures KeyOf("." + Dotted(cs)) == ReleaseKey(cs)
  {
    hide *;
    DottedSigns(cs);
    KeyOfDotted(cs);
    PlainBody(Dotted(cs));
    PlainBody("." + Dotted(cs));
    SkipDot(Dotted(cs));
  }

  lemma DottedSigns(cs: seq<nat>)
    requires cs != []
    ensures var d, s := Dotted(cs), "." + Dotted(cs);
            && d != "" && Trim(d) && !VersionPrefix(d[0]) && '-' !in d && '+' !in d
            && Trim(s) && !VersionPrefix(s[0]) && '-' !in s && '+' !in s
  {
    var d := Dotted(cs);
    DottedShape(cs);
    NoSpaceDigit(d[|d| - 1]);
    NoSpaceDigit(d[0]);
    NoSpaceDigit('.');
    hide Dotted, IsSpace;
  }

  lemma NoSpaceDigit(c: char)
    ensures IsDigit(c) || c == '.' || c == 'x' || c == 'X' || c == '*' ==> !IsSpace(c)
  {
  }

  lemma KeyAfterEquals(cs: seq<nat>)
    requires cs != []
    ensures KeyOf("=" + Dotted(cs)) == ReleaseKey(cs)
  {
    var d := Dotted(cs);
    DottedShape(cs);
    KeyOfDotted(cs);
    SameBody(d);
    hide Dotted, VersionBody, DigitRuns, Before, After, SplitChar, ReleaseKey;
  }

  lemma SameBody(d: string)
    requires d != "" && Trim(d) && !VersionPrefix(d[0])
    ensures VersionBody("=" + d) == VersionBody(d)
  {
    StripTrim(d);
    StripTrim("=" + d);
    hide Strip, RunLength, IsSpace;
    RunLengthIs(d, VersionPrefix, 0);
    RunLengthIs("=" + d, VersionPrefix, 1);
    assert ("=" + d)[1..] == d && d[0..] == d;
  }

  /** How one token of a list is read. */
  predicate ReadsToken(v: string, t: string)
    requires t != ""
  {
    if OperatorChar(t[0]) then TokenHolds(v, t) else KeyOf(v) == KeyOf(t[1..])
  }

  /** A comparator list is translated unchanged, and every token without one of the evaluator's
      operators - the pattern lets bare numbers and `!=` through - then stands for the version its
      text is without the first character. */
  lemma BareTokensLoseACharacter(tokens: seq<string>, v: string)
    requires tokens != [] && TokenTexts(tokens) && forall t | t in tokens :: IsComparator(t)
    requires |tokens| == 1 ==> !IsWildcard(tokens[0])
    ensures var spec := PrintAlternative(tokens);
            && NormalizeSpec(spec) == Comparators(spec)
            && (Admitted(spec, v) <==> forall t | t in tokens :: t != "" && ReadsToken(v, t))
  {
    hide TokenText, IsComparator, IsWildcard, NormalizeSpec, Satisfies, TokenHolds, KeyOf, PrintAlternative;
    if |tokens| == 1 { OnlyToken(tokens); } else { ListIsNoWildcard(tokens); }
    PlainList(tokens);
    SingleAlternative(v, tokens);
    forall t | t in tokens ensures t != "" && TokenHolds(v, t) == ReadsToken(v, t) {
      assert TokenText(t);
      TokenStrip(t);
      if !OperatorChar(t[0]) { BareToken(v, t); }
    }
  }

  lemma OnlyToken(tokens: seq<string>)
    requires |tokens| == 1
    ensures PrintAlternative(tokens) == tokens[0]
  {
  }

  lemma ListIsNoWildcard(tokens: seq<string>)
    requires |tokens| > 1
    ensures !IsWildcard(PrintAlternative(tokens))
  {
    var text := PrintAlternative(tokens);
    assert text[|tokens[0]|] == ',';
    CommaIsNoWildcard(text);
  }

  lemma BareToken(v: string, t: string)
    requires TokenText(t) && t != "" && !OperatorChar(t[0])
    ensures TokenHolds(v, t) <==> KeyOf(v) == KeyOf(t[1..])
  {
    assert forall c | c in t[1..] :: c in t;
    hide KeyOf, KeyLess, TokenOp, TokenVersion, Strip, IsSpace;
    TokenStrip(t);
    NoSpaceTail(t, t[1..]);
    KeyOrder(KeyOf(v), KeyOf(t[1..]), KeyOf(v));
  }

  lemma {:induction false} SmallerWithoutFirst(s: string)
    requires s != "" && AllDigits(s) && s[0] != '0'
    ensures AllDigits(s[1..]) && TextNat(s[1..]) < TextNat(s)
  {
    var k := |s| - 1;
    assert forall c | c in s[..k] || c in s[1..] :: c in s;
    if k > 0 {
      SmallerWithoutFirst(s[..k]);
      assert s[1..][..k - 1] == s[..k][1..] && s[1..][k - 1] == s[k];
    } else {
      assert s[1..] == "" && s[0] in s && s[..k] == "";
    }
  }

  lemma {:induction false} FirstDigitNotZero(n: nat)
    requires n > 0
    ensures NatText(n)[0] != '0' && (n >= 10 ==> |NatText(n)| >= 2)
  {
    if n >= 10 { FirstDigitNotZero(n / 10); }
  }

  lemma EmptyKey()
    ensures KeyOf("") == Key(0, 0, 0, 0, [])
  {
    StripTrim("");
  }

  /** A number from ten on changes when its first digit is dropped. */
  lemma LongNumberChanges(cs: seq<nat>)
    requires cs != [] && cs[0] >= 10
    ensures KeyOf(Dotted(cs)[1..]) != ReleaseKey(cs)
  {
    var d, first := Dotted(cs), NatText(cs[0]);
    var rest := if |cs| == 1 then "" else "." + Dotted(cs[1..]);
    DottedUnfold(cs);
    FirstDigitNotZero(cs[0]);
    NatRoundTrip(cs[0]);
    SmallerWithoutFirst(first);
    DottedPieces(cs);
    hide Dotted, NatText, TextNat, DigitRuns, KeyOf;
    assert d[1..] == first[1..] + rest;
    PlainBody(d[1..]);
    FirstDigitRun(first[1..], rest);
  }

  lemma DottedPieces(cs: seq<nat>)
    requires cs != [] && |NatText(cs[0])| >= 2
    ensures var s := Dotted(cs)[1..];
            s != "" && Trim(s) && !VersionPrefix(s[0]) && '+' !in s && '-' !in s
  {
    var d := Dotted(cs);
    DottedShape(cs);
    DottedUnfold(cs);
    NoSpaceDigit(d[1]);
    NoSpaceDigit(d[|d| - 1]);
    hide Dotted, IsSpace, NatText;
    assert d[1] == NatText(cs[0])[1] && NatText(cs[0])[1] in NatText(cs[0]);
    assert forall c | c in d[1..] :: c in d;
  }

  /** A bare number stands for itself exactly when its first five components, where missing ones
      are 0, are one and the same digit: `0.0`, but not `1.2`. */
  lemma BareNumberIsReadExactlyWhen(cs: seq<nat>)
    requires cs != []
    ensures KeyOf(Dotted(cs)[1..]) == KeyOf(Dotted(cs))
       <==> cs[0] < 10 && At(cs, 0) == At(cs, 1) == At(cs, 2) == At(cs, 3) == At(cs, 4)
  {
    hide Dotted, KeyOf;
    KeyOfDotted(cs);
    if cs[0] >= 10 {
      LongNumberChanges(cs);
    } else {
      OneDigit(cs);
      if |cs| == 1 { EmptyKey(); } else { KeyAfterDot(cs[1..]); }
      var tail := cs[1..];
      assert At(tail, 0) == At(cs, 1) && At(tail, 1) == At(cs, 2) && At(tail, 2) == At(cs, 3)
          && At(tail, 3) == At(cs, 4);
    }
  }

  lemma OneDigit(cs: seq<nat>)
    requires cs != [] && cs[0] < 10
    ensures Dotted(cs) != "" && Dotted(cs)[1..] == if |cs| == 1 then "" else "." + Dotted(cs[1..])
  {
    DottedUnfold(cs);
    assert NatText(cs[0]) == [DigitChar(cs[0])];
    hide Dotted;
  }

  // ----- declarations that raise

  lemma {:induction false} BarPartsHaveNone(s: string)
    ensures forall p | p in SplitBars(s) :: !HasBars(p)
    ensures SplitBars(s)[0] != "" ==> s != "" && SplitBars(s)[0][0] == s[0]
    decreases |s|
  {
    if s == "" {
    } else if |s| >= 2 && s[0] == '|' && s[1] == '|' {
      BarPartsHaveNone(s[2..]);
    } else {
      BarPartsHaveNone(s[1..]);
      var first := SplitBars(s[1..])[0];
      PrependNoBars(s[0], first);
      forall p | p in SplitBars(s) ensures !HasBars(p) {
        assert p == [s[0]] + first || p in SplitBars(s[1..])[1..];
      }
    }
  }

  lemma PrependNoBars(c: char, p: string)
    ensures HasBars([c] + p) <==> HasBars(p) || (c == '|' && p != "" && p[0] == '|')
  {
    var q := [c] + p;
    BarsInside(q, p, 1);
    if c == '|' && p != "" && p[0] == '|' { assert q[0] == '|' && q[1] == '|'; }
    if HasBars(q) {
      var i :| 0 <= i < |q| - 1 && q[i] == '|' && q[i + 1] == '|';
      if i > 0 { assert p[i - 1] == '|' && p[i] == '|'; }
    }
  }

  lemma BarsInside(s: string, t: string, n: nat)
    requires n + |t| <= |s| && s[n..n + |t|] == t
    ensures HasBars(t) ==> HasBars(s)
  {
    if HasBars(t) {
      var i :| 0 <= i < |t| - 1 && t[i] == '|' && t[i + 1] == '|';
      assert s[n..n + |t|][i] == s[n + i] && s[n..n + |t|][i + 1] == s[n + i + 1];
    }
  }

  lemma {:induction false} NoBarsOnePart(s: string)
    requires !HasBars(s)
    ensures SplitBars(s) == [s]
  {
    if s != "" {
      BarsInside(s, s[1..], 1);
      if |s| >= 2 && s[0] == '|' && s[1] == '|' {
        assert false;
      } else {
        NoBarsOnePart(s[1..]);
        assert [s[0]] + s[1..] == s;
      }
    }
  }

  lemma StripKeepsNoBars(s: string)
    ensures HasBars(Strip(s)) ==> HasBars(s)
  {
    var n := RunLength(s, IsSpace);
    RStripFront(s[n..]);
    hide RunLength, RStrip, IsSpace, HasBars;
    assert s[n..][..|Strip(s)|] == s[n..n + |Strip(s)|];
    BarsInside(s, Strip(s), n);
  }

  /** `~>` in front of numbers of which the last but one is no integer literal. */
  predicate PessimisticRaises(text: string) {
    StartsWith(text, "~>") &&
    var parts := BodyParts(SugarBody(text[2..]));
    |parts| >= 2 && PyInt(parts[|parts| - 2]).None?
  }

  lemma SingleRaises(text: string)
    requires !HasBars(text) && Strip(text) == text
    ensures NormalizeSpec(text).Raises? <==> PessimisticRaises(text)
  {
    hide SugarBody, BodyParts, PyInt, IntText, Join, Caret, Tilde, IsWildcard, Wildcard, IsBracket, BracketTokens,
         Plain;
    CaretTildeNeverRaise(text);
    PlainNeverRaises(text);
    if AnyVersion(text) { assert !StartsWith(text, "~>"); }
  }

  lemma CaretTildeNeverRaise(text: string)
    ensures !Caret(text).Raises? && !Tilde(text).Raises?
    ensures forall t: string :: !Caret(t).Raises? && !Tilde(t).Raises?
  {
    hide BodyParts, TextNat, IsNumber;
  }

  lemma PlainNeverRaises(text: string)
    ensures !Plain(text).Raises?
  {
    hide PlainTokens, IsComparator;
  }

  lemma PartRaises(p: string)
    requires !HasBars(p)
    ensures NormalizeSpec(p).Raises? <==> PessimisticRaises(Strip(p))
  {
    StripKeepsNoBars(p);
    StripIdempotent(p);
    SingleRaises(Strip(p));
    NormalizeStripped(p);
  }

  lemma NormalizeStripped(p: string)
    requires !HasBars(Strip(p)) && Strip(Strip(p)) == Strip(p)
    ensures NormalizeSpec(p) == NormalizeSpec(Strip(p))
  {
    hide Strip, NormalizeSingle, AnyVersion;
  }

  lemma BarsJoin(spec: string) returns (ts: seq<Translation>)
    requires HasBars(Strip(spec)) && !AnyVersion(Strip(spec))
    ensures var parts := SplitBars(Strip(spec));
            |ts| == |parts| && forall i | 0 <= i < |parts| :: ts[i] == NormalizeSpec(parts[i])
    ensures NormalizeSpec(spec) == JoinTranslations(ts)
  {
    var text := Strip(spec);
    BarPartsShorter(text);
    hide Strip, SplitBars, AnyVersion, NormalizeSingle, HasBars, JoinTranslations;
    ts := NormalizeParts(SplitBars(text), |spec|);
    assert text != "" by { NoBarsInNothing(); }
  }

  lemma BarsRaise(spec: string)
    requires HasBars(Strip(spec)) && !AnyVersion(Strip(spec))
    ensures NormalizeSpec(spec).Raises? <==> exists p | p in SplitBars(Strip(spec)) :: NormalizeSpec(p).Raises?
  {
    var ts := BarsJoin(spec);
    hide Strip, SplitBars, AnyVersion, HasBars, NormalizeSpec;
    var parts := SplitBars(Strip(spec));
    assert (exists t | t in ts :: t.Raises?) <==> exists i | 0 <= i < |ts| :: ts[i].Raises?;
    assert (exists p | p in parts :: NormalizeSpec(p).Raises?)
       <==> exists i | 0 <= i < |parts| :: NormalizeSpec(parts[i]).Raises?;
  }

  lemma NoBarsInNothing()
    ensures !HasBars("")
  {
  }

  /** The translation raises exactly when one of the alternatives is a `~>` whose last number but
      one is no integer literal. */
  lemma RaisesExactlyWhen(spec: string)
    ensures NormalizeSpec(spec).Raises? <==> exists p | p in SplitBars(Strip(spec)) :: PessimisticRaises(Strip(p))
  {
    var text := Strip(spec);
    StripIdempotent(spec);
    BarPartsHaveNone(text);
    hide Strip, SplitBars, PessimisticRaises, NormalizeSpec;
    forall p | p in SplitBars(text) ensures NormalizeSpec(p).Raises? <==> PessimisticRaises(Strip(p)) {
      PartRaises(p);
    }
    if HasBars(text) {
      assert '|' in text;
      AnyHasNoBar(text);
      BarsRaise(spec);
    } else {
      NoBarsOnePart(text);
      NormalizeStripped(spec);
      assert text in SplitBars(text);
    }
  }

  lemma AnyHasNoBar(text: string)
    requires '|' in text
    ensures !AnyVersion(text)
  {
  }

  /** Such as every `~>` list of parts whose last but one is no integer literal. */
  lemma PessimisticRaisesOn(pad: nat, parts: seq<string>)
    requires pad <= 1 && |parts| >= 2 && PyInt(parts[|parts| - 2]).None?
    requires forall p | p in parts :: p != "" && '.' !in p
    requires var d := Join(".", parts); d != "" && Trim(d) && d[0] != 'v'
    ensures PessimisticRaises("~>" + Blanks(pad) + Join(".", parts))
  {
    var d := Join(".", parts);
    hide *;
    AfterPessimistic(pad, d);
    PartsOf(parts);
    PessimisticRaisesIs("~>" + Blanks(pad) + d, d, parts);
  }

  lemma PartsOf(parts: seq<string>)
    requires parts != [] && forall p | p in parts :: p != "" && '.' !in p
    ensures BodyParts(Join(".", parts)) == parts
  {
    hide SplitChar, NonEmpty, Join;
    SplitCharJoin(parts, '.');
    NonEmptyAll(parts);
  }

  lemma PessimisticRaisesIs(text: string, d: string, parts: seq<string>)
    requires |text| >= 2 && StartsWith(text, "~>") && SugarBody(text[2..]) == d && BodyParts(d) == parts
    requires |parts| >= 2 && PyInt(parts[|parts| - 2]).None?
    ensures PessimisticRaises(text)
  {
    hide StartsWith, SugarBody, BodyParts, PyInt;
  }

  lemma AfterPessimistic(pad: nat, d: string)
    requires pad <= 1 && d != "" && Trim(d) && d[0] != 'v'
    ensures var text := "~>" + Blanks(pad) + d; |text| >= 2 && StartsWith(text, "~>") && SugarBody(text[2..]) == d
  {
    hide IsSpace;
    var text := "~>" + Blanks(pad) + d;
    assert text == "~>" + (Blanks(pad) + d) && text[..2] == "~>" && text[2..] == Blanks(pad) + d;
    StripPadded(pad, d, 0);
    assert Blanks(pad) + d + Blanks(0) == Blanks(pad) + d;
    RunLengthIs(d, IsV, 0);
  }

  /** `~> 1.x.2` */
  lemma PessimisticCanRaise()
    ensures PessimisticRaises("~>" + Blanks(1) + Join(".", ["1", "x", "2"]))
  {
    NoIntegerLetter();
    JoinThreeParts("1", "x", "2");
    hide PyInt, PessimisticRaises, Join;
    PessimisticRaisesOn(1, ["1", "x", "2"]);
  }

  lemma NoIntegerLetter()
    ensures PyInt("x").None?
  {
    StripTrim("x");
  }

  lemma JoinThreeParts(a: string, b: string, c: string)
    ensures Join(".", [a, b, c]) == a + "." + (b + "." + c)
  {
    assert [a, b, c][1..] == [b, c];
    JoinTwo(".", b, c);
  }

  // ----- integer literals

  predicate Group(g: string) { g != "" && AllDigits(g) }

  /** What can follow the first digit of a literal. */
  predicate LiteralTail(s: string) {
    && (forall c | c in s :: DigitOrUnderscore(c)) && (s != "" ==> IsDigit(s[|s| - 1]))
    && forall i | 0 < i < |s| :: s[i] == '_' ==> s[i - 1] != '_'
  }

  lemma TailStep(s: string)
    requires s != ""
    ensures LiteralTail(s) <==>
            && LiteralTail(s[1..])
            && (IsDigit(s[0]) || (s[0] == '_' && s[1..] != "" && s[1] != '_'))
  {
    var rest := s[1..];
    assert !IsDigit('_');
    hide IsDigit;
    assert s == [s[0]] + rest && forall i | 0 <= i < |rest| :: rest[i] == s[i + 1];
    if LiteralTail(s) {
      forall c | c in rest ensures DigitOrUnderscore(c) { assert c in s; }
      forall i | 0 < i < |rest| && rest[i] == '_' ensures rest[i - 1] != '_' { assert s[i + 1] == '_'; }
      assert s[0] in s;
      assert |rest| > 0 && s[1] == '_' ==> s[0] != '_';
    }
    if LiteralTail(rest) && (IsDigit(s[0]) || (s[0] == '_' && rest != "" && s[1] != '_')) {
      forall i | 0 < i < |s| && s[i] == '_' ensures s[i - 1] != '_' {
        if i > 1 { assert rest[i - 1] == s[i] && rest[i - 2] == s[i - 1]; }
      }
      assert rest != "" ==> s[|s| - 1] == rest[|rest| - 1];
    }
  }

  lemma GroupCons(c: char, g: string)
    ensures AllDigits([c] + g) <==> IsDigit(c) && AllDigits(g)
  {
    assert forall x :: x in [c] + g <==> x == c || x in g;
  }

  lemma {:induction false} TailGroups(s: string)
    ensures var parts := SplitChar(s, '_');
            LiteralTail(s) <==> AllDigits(parts[0]) && forall g | g in parts[1..] :: Group(g)
  {
    if s != "" {
      TailStep(s);
      var rest := SplitChar(s[1..], '_');
      TailGroups(s[1..]);
      if s[1..] != "" && s[1] != '_' { FirstPart(s[1..], '_'); }
      GroupCons(s[0], rest[0]);
      assert !IsDigit('_') && AllDigits("");
      hide LiteralTail, IsDigit, AllDigits;
      if s[0] == '_' {
        assert SplitChar(s, '_') == [""] + rest && ([""] + rest)[1..] == rest;
        assert forall g :: g in rest <==> g == rest[0] || g in rest[1..];
        assert s[1..] == "" || s[1] == '_' ==> rest[0] == "";
        assert (forall g | g in rest :: Group(g)) <==> Group(rest[0]) && forall g | g in rest[1..] :: Group(g);
        assert LiteralTail(s) <==> LiteralTail(s[1..]) && rest[0] != "";
        assert AllDigits(SplitChar(s, '_')[0]);
      } else {
        assert SplitChar(s, '_') == Prepend(s[0], rest);
        assert Prepend(s[0], rest)[0] == [s[0]] + rest[0] && Prepend(s[0], rest)[1..] == rest[1..];
      }
    }
  }

  /** An integer literal is groups of digits with single underscores between them. */
  lemma IntLiteralExactlyWhen(s: string)
    ensures IntLiteral(s) <==> forall g | g in SplitChar(s, '_') :: Group(g)
  {
    TailGroups(s);
    LiteralHead(s);
    var parts := SplitChar(s, '_');
    assert forall g :: g in parts <==> g == parts[0] || g in parts[1..];
    if s != "" && s[0] != '_' { FirstPart(s, '_'); }
    assert s == "" || s[0] == '_' ==> parts[0] == "";
    hide IsDigit, SplitChar, AllDigits, LiteralTail, IntLiteral;
    assert (forall g | g in parts :: Group(g)) <==> Group(parts[0]) && forall g | g in parts[1..] :: Group(g);
  }

  lemma LiteralHead(s: string)
    ensures IntLiteral(s) <==> s != "" && s[0] != '_' && LiteralTail(s)
  {
    assert s != "" ==> s[0] in s;
    assert !IsDigit('_');
    hide IsDigit;
  }
}
