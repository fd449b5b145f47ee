/** The range language of the advisory matcher: alternatives separated by `||`, comparators
    separated by commas or by white space in front of an operator. `Satisfies` evaluates the text
    itself, character by character; the lemmas show that printing a list of alternatives and
    evaluating the print means what the list means. */
module RangeText {
  import opened Strings
  import opened Versions

  // ----- taking the text apart

  /** `text.split("||")` */
  function SplitBars(s: string): (parts: seq<string>)
    ensures parts != []
    decreases |s|
  {
    if s == "" then [""]
    else if |s| >= 2 && s[0] == '|' && s[1] == '|' then [""] + SplitBars(s[2..])
    else Prepend(s[0], SplitBars(s[1..]))
  }

  predicate OperatorChar(c: char) { c == '<' || c == '>' || c == '=' }

  /** Length of the separator the text starts with, 0 if it starts with none: a comma with the
      white space around it, or white space in front of an operator character. */
  function SeparatorLength(s: string): (n: nat)
    ensures n <= |s|
  {
    var j := RunLength(s, IsSpace);
    if j < |s| && s[j] == ',' then j + 1 + RunLength(s[j + 1..], IsSpace)
    else if 0 < j < |s| && OperatorChar(s[j]) then j
    else 0
  }

  /** `re.split` on that separator. */
  function SplitTokens(s: string): (parts: seq<string>)
    ensures parts != []
    decreases |s|
  {
    if s == "" then [""]
    else
      var n := SeparatorLength(s);
      if n > 0 then [""] + SplitTokens(s[n..]) else Prepend(s[0], SplitTokens(s[1..]))
  }

  /** The comparator tokens of one alternative. */
  function Tokens(alternative: string): (r: seq<string>)
    ensures forall t | t in r :: t != ""
  {
    NonEmpty(SplitTokens(Strip(alternative)))
  }

  // ----- comparators

  datatype Op = Lt | Le | Gt | Ge | Eq

  function OpText(op: Op): string {
    match op
    case Lt => "<"
    case Le => "<="
    case Gt => ">"
    case Ge => ">="
    case Eq => "="
  }

  /** The operator of a token and how many characters it is taken to occupy. A token that starts
      with none of the operators counts as `=`, and still loses one character. */
  function TokenOp(t: string): (Op, nat) {
    if StartsWith(t, ">=") then (Ge, 2)
    else if StartsWith(t, "<=") then (Le, 2)
    else if StartsWith(t, "==") then (Eq, 2)
    else if StartsWith(t, ">") then (Gt, 1)
    else if StartsWith(t, "<") then (Lt, 1)
    else (Eq, 1)
  }

  function TokenVersion(t: string): string {
    var n := TokenOp(t).1;
    if n <= |t| then Strip(t[n..]) else ""
  }

  predicate Compare(op: Op, v: string, rhs: string) {
    match op
    case Lt => VersionLess(v, rhs)
    case Le => !VersionLess(rhs, v)
    case Gt => VersionLess(rhs, v)
    case Ge => !VersionLess(v, rhs)
    case Eq => VersionEqual(v, rhs)
  }

  predicate TokenHolds(v: string, token: string) {
    var t := Strip(token);
    Compare(TokenOp(t).0, v, TokenVersion(t))
  }

  predicate AllHold(v: string, tokens: seq<string>) { forall t | t in tokens :: TokenHolds(v, t) }

  /** An alternative without tokens is skipped: it admits nothing. */
  predicate AlternativeHolds(v: string, alternative: string) {
    Tokens(alternative) != [] && AllHold(v, Tokens(alternative))
  }

  predicate Satisfies(v: string, spec: string) {
    exists alternative | alternative in SplitBars(spec) :: AlternativeHolds(v, alternative)
  }

  /** The `ok` flag of one comparator. */
  method CheckToken(version: string, token: string) returns (ok: bool)
    ensures ok == TokenHolds(version, token)
  {
    var t := Strip(token);
    var op, rhs := TokenOp(t).0, TokenVersion(t);
    ok := true;
    if op == Lt && !VersionLess(version, rhs) {
      ok := false;
    } else if op == Le && VersionLess(rhs, version) {
      ok := false;
    } else if op == Gt && !VersionLess(rhs, version) {
      ok := false;
    } else if op == Ge && VersionLess(version, rhs) {
      ok := false;
    } else if op == Eq && !VersionEqual(version, rhs) {
      ok := false;
    }
  }

  /** The inner loop: stops at the first comparator that fails. */
  method CheckTokens(version: string, tokens: seq<string>) returns (ok: bool)
    ensures ok == AllHold(version, tokens)
  {
    hide TokenHolds;
    ok := true;
    for j := 0 to |tokens|
      invariant ok
      invariant forall k | 0 <= k < j :: TokenHolds(version, tokens[k])
    {
      ok := CheckToken(version, tokens[j]);
      if !ok {
        return;
      }
    }
  }

  /** The evaluator: the first alternative that has tokens and whose tokens all hold. */
  method SatisfiesAffectedRange(version: string, affectedSpec: string) returns (r: bool)
    ensures r == Satisfies(version, affectedSpec)
  {
    var alternatives := SplitBars(affectedSpec);
    for i := 0 to |alternatives|
      invariant forall k | 0 <= k < i :: !AlternativeHolds(version, alternatives[k])
    {
      var tokens := Tokens(alternatives[i]);
      if tokens == [] {
        continue;
      }
      var ok := CheckTokens(version, tokens);
      if ok {
        assert alternatives[i] in SplitBars(affectedSpec) && AlternativeHolds(version, alternatives[i]);
        return true;
      }
    }
    return false;
  }

  // ----- printing, and reading back what was printed

  /** A token that the splitter keeps whole. */
  predicate TokenText(t: string) { t != "" && NoSpace(t) && ',' !in t && '|' !in t }

  predicate TokenTexts(tokens: seq<string>) { forall t | t in tokens :: TokenText(t) }

  function PrintAlternative(tokens: seq<string>): string { Join(", ", tokens) }

  function PrintAlternatives(alternatives: seq<seq<string>>): (r: seq<string>)
    ensures |r| == |alternatives|
    ensures forall i | 0 <= i < |r| :: r[i] == PrintAlternative(alternatives[i])
  {
    seq(|alternatives|, i requires 0 <= i < |alternatives| => PrintAlternative(alternatives[i]))
  }

  /** The range text for a list of alternatives. */
  function PrintRange(alternatives: seq<seq<string>>): string {
    Join(" || ", PrintAlternatives(alternatives))
  }

  /** What a list of alternatives means. */
  predicate Admits(alternatives: seq<seq<string>>, v: string) {
    exists a | a in alternatives :: a != [] && AllHold(v, a)
  }

  lemma {:induction false} SplitTokensWord(w: string, rest: string)
    requires NoSpace(w) && ',' !in w
    requires rest == "" || SeparatorLength(rest) > 0
    ensures SplitTokens(w + rest) == if rest == "" then [w] else [w] + SplitTokens(rest[SeparatorLength(rest)..])
  {
    var s := w + rest;
    if w == "" {
      assert s == rest;
    } else {
      RunLengthIs(s, IsSpace, 0);
      assert s[1..] == w[1..] + rest;
      SplitTokensWord(w[1..], rest);
      assert [w[0]] + w[1..] == w;
    }
  }

  lemma SeparatorComma(rest: string)
    requires rest != "" && !IsSpace(rest[0])
    ensures SeparatorLength(", " + rest) == 2
  {
    var s := ", " + rest;
    RunLengthIs(s, IsSpace, 0);
    assert s[1..] == " " + rest;
    RunLengthIs(s[1..], IsSpace, 1);
  }

  lemma SplitTokensCons(w: string, rest: string)
    requires NoSpace(w) && ',' !in w
    requires rest != "" && !IsSpace(rest[0])
    ensures SplitTokens(w + ", " + rest) == [w] + SplitTokens(rest)
  {
    hide SeparatorLength, SplitTokens, IsSpace;
    SeparatorComma(rest);
    SplitTokensWord(w, ", " + rest);
    assert (", " + rest)[2..] == rest;
    assert w + ", " + rest == w + (", " + rest);
  }

  lemma {:induction false} PrintedAlternativeSplits(tokens: seq<string>)
    requires tokens != [] && TokenTexts(tokens)
    ensures SplitTokens(PrintAlternative(tokens)) == tokens
  {
    hide SplitTokens;
    var w := tokens[0];
    assert TokenText(w);
    if |tokens| == 1 {
      SplitTokensWord(w, "");
      assert w + "" == w;
    } else {
      PrintedAlternativeSplits(tokens[1..]);
      PrintedTrim(tokens[1..]);
      SplitTokensCons(w, PrintAlternative(tokens[1..]));
      assert tokens == [w] + tokens[1..];
    }
  }

  lemma {:induction false} PrintedTrim(tokens: seq<string>)
    requires tokens != [] && TokenTexts(tokens)
    ensures Trim(PrintAlternative(tokens)) && StartsWith(PrintAlternative(tokens), tokens[0])
    ensures PrintAlternative(tokens) != ""
    ensures '|' !in PrintAlternative(tokens)
  {
    assert TokenText(tokens[0]);
    if |tokens| > 1 {
      PrintedTrim(tokens[1..]);
    }
  }

  lemma PrintedNoBar(tokens: seq<string>)
    requires TokenTexts(tokens)
    ensures '|' !in PrintAlternative(tokens)
  {
    if tokens != [] { PrintedTrim(tokens); }
  }

  /** One printed alternative, with at most a blank on either side, reads back as its tokens. */
  lemma PrintedTokens(left: nat, tokens: seq<string>, right: nat)
    requires TokenTexts(tokens) && left <= 1 && right <= 1
    ensures Tokens(Blanks(left) + PrintAlternative(tokens) + Blanks(right)) == tokens
  {
    hide SplitTokens, Strip;
    if tokens == [] {
      StripPadded(left, "", right);
      SplitTokensWord("", "");
      assert "" + "" == "";
      assert NonEmpty([""]) == [];
    } else {
      PrintedTrim(tokens);
      StripPadded(left, PrintAlternative(tokens), right);
      PrintedAlternativeSplits(tokens);
      assert forall t | t in tokens :: TokenText(t);
      NonEmptyAll(tokens);
      assert Strip(Blanks(left) + PrintAlternative(tokens) + Blanks(right)) == PrintAlternative(tokens);
    }
  }

  lemma {:induction false} SplitBarsWord(w: string)
    requires '|' !in w
    ensures SplitBars(w) == [w]
  {
    if w != "" {
      SplitBarsWord(w[1..]);
      assert [w[0]] + w[1..] == w;
    }
  }

  lemma {:induction false} SplitBarsCons(w: string, rest: string)
    requires '|' !in w
    ensures SplitBars(w + "||" + rest) == [w] + SplitBars(rest)
  {
    var s := w + "||" + rest;
    if w == "" {
      assert s[2..] == rest;
    } else {
      SplitBarsCons(w[1..], rest);
      assert s[0] == w[0] && w[0] in w && s[1..] == w[1..] + "||" + rest;
      assert [w[0]] + w[1..] == w;
      assert ([w[1..]] + SplitBars(rest))[1..] == SplitBars(rest);
    }
  }

  lemma {:induction false} SplitBarsJoin(parts: seq<string>)
    requires parts != [] && forall p | p in parts :: '|' !in p
    ensures SplitBars(Join("||", parts)) == parts
  {
    if |parts| == 1 {
      SplitBarsWord(parts[0]);
    } else {
      SplitBarsJoin(parts[1..]);
      SplitBarsCons(parts[0], Join("||", parts[1..]));
    }
  }

  /** The texts between the bars hold the tokens of one alternative each. */
  predicate SplitsInto(texts: seq<string>, alternatives: seq<seq<string>>) {
    |texts| == |alternatives| && forall i | 0 <= i < |texts| :: Tokens(texts[i]) == alternatives[i]
  }

  lemma {:induction false} PrintedRangeSplits(left: nat, alternatives: seq<seq<string>>)
    decreases |alternatives|
    requires left <= 1
    requires alternatives != [] && forall a | a in alternatives :: TokenTexts(a)
    ensures SplitsInto(SplitBars(Blanks(left) + PrintRange(alternatives)), alternatives)
  {
    hide SplitBars, Tokens, PrintAlternative, TokenTexts;
    var first := alternatives[0];
    var printed := PrintAlternative(first);
    PrintedNoBar(first);
    if |alternatives| == 1 {
      PrintedTokens(left, first, 0);
      var s := Blanks(left) + printed;
      assert s + Blanks(0) == s;
      SplitBarsWord(s);
    } else {
      var rest := alternatives[1..];
      PrintedRangeSplits(1, rest);
      PrintedTokens(left, first, 1);
      var head := Blanks(left) + printed + Blanks(1);
      var tail := Blanks(1) + PrintRange(rest);
      PrintedHead(left, alternatives);
      SplitBarsCons(head, tail);
      assert alternatives == [first] + rest;
    }
  }

  lemma PrintedHead(left: nat, alternatives: seq<seq<string>>)
    requires |alternatives| > 1
    ensures Blanks(left) + PrintRange(alternatives) ==
            Blanks(left) + PrintAlternative(alternatives[0]) + Blanks(1) + "||"
                + (Blanks(1) + PrintRange(alternatives[1..]))
  {
    hide PrintAlternative;
    assert PrintAlternatives(alternatives)[1..] == PrintAlternatives(alternatives[1..]);
    assert " || " == Blanks(1) + "||" + Blanks(1);
  }

  /** The compiler's round trip: the text of a list of alternatives splits back into the list. */
  lemma PrintRangeRoundTrip(alternatives: seq<seq<string>>)
    requires alternatives != [] && forall a | a in alternatives :: TokenTexts(a)
    ensures SplitsInto(SplitBars(PrintRange(alternatives)), alternatives)
  {
    hide SplitBars, PrintRange, SplitsInto;
    PrintedRangeSplits(0, alternatives);
    assert Blanks(0) + PrintRange(alternatives) == PrintRange(alternatives);
  }

  /** So it evaluates as the list. */
  lemma PrintRangeMeaning(alternatives: seq<seq<string>>, v: string)
    requires alternatives != [] && forall a | a in alternatives :: TokenTexts(a)
    ensures Satisfies(v, PrintRange(alternatives)) == Admits(alternatives, v)
  {
    hide AllHold, SplitBars, Tokens, PrintRange, TokenTexts;
    PrintRangeRoundTrip(alternatives);
    var texts := SplitBars(PrintRange(alternatives));
    assert forall i | 0 <= i < |texts| ::
        AlternativeHolds(v, texts[i]) <==> alternatives[i] != [] && AllHold(v, alternatives[i]);
  }

  // ----- comparators as data

  datatype Comparator = Comparator(op: Op, version: string)

  /** A version text that can stand on the right of an operator. */
  predicate VersionWord(w: string) { TokenText(w) && !OperatorChar(w[0]) }

  function ComparatorText(c: Comparator): string { OpText(c.op) + c.version }

  predicate Holds(v: string, c: Comparator) { Compare(c.op, v, c.version) }

  lemma ComparatorTextShape(c: Comparator)
    requires VersionWord(c.version)
    ensures TokenText(ComparatorText(c)) && Trim(ComparatorText(c)) && Trim(c.version)
  {
    var t := ComparatorText(c);
    assert t[|t| - 1] == c.version[|c.version| - 1];
    assert c.version[0] in c.version && c.version[|c.version| - 1] in c.version;
  }

  /** A printed comparator is read back with its own operator and version. */
  lemma ComparatorRoundTrip(c: Comparator)
    requires VersionWord(c.version)
    ensures TokenOp(ComparatorText(c)) == (c.op, |OpText(c.op)|)
    ensures TokenVersion(ComparatorText(c)) == c.version
  {
    hide Trim, Strip;
    ComparatorTextShape(c);
    PrintedOp(c);
    var t, n := ComparatorText(c), |OpText(c.op)|;
    assert t[n..] == c.version;
    StripTrim(c.version);
  }

  lemma PrintedOp(c: Comparator)
    requires c.version != "" && !OperatorChar(c.version[0])
    ensures TokenOp(ComparatorText(c)) == (c.op, |OpText(c.op)|)
  {
    var t := ComparatorText(c);
    assert t[0] == OpText(c.op)[0];
    assert t[|OpText(c.op)|] == c.version[0];
  }

  lemma ComparatorMeaning(v: string, c: Comparator)
    requires VersionWord(c.version)
    ensures TokenHolds(v, ComparatorText(c)) == Holds(v, c)
  {
    ComparatorTextShape(c);
    StripTrim(ComparatorText(c));
    ComparatorRoundTrip(c);
  }

  lemma DoubleEqualsToken(w: string)
    requires VersionWord(w)
    ensures TokenOp("==" + w) == (Eq, 2) && TokenVersion("==" + w) == Strip(w)
  {
    var t := "==" + w;
    assert t[0] == '=' && t[2..] == w;
    hide Strip;
  }

  lemma DoubleEqualsTrim(w: string)
    requires VersionWord(w)
    ensures Strip("==" + w) == "==" + w && Strip(w) == w
  {
    ComparatorTextShape(Comparator(Eq, w));
    var t := "==" + w;
    assert t[0] == '=' && t[|t| - 1] == w[|w| - 1];
    hide Strip;
    StripTrim(t);
    StripTrim(w);
  }

  /** The doubled sign reads as equality too. */
  lemma DoubleEqualsMeaning(v: string, w: string)
    requires VersionWord(w)
    ensures TokenHolds(v, "==" + w) == VersionEqual(v, w)
  {
    DoubleEqualsToken(w);
    DoubleEqualsTrim(w);
    hide Strip, TokenOp, TokenVersion, VersionWord, VersionEqual, VersionLess;
  }

  // ----- lists of comparators

  predicate AllComparatorsHold(v: string, cs: seq<Comparator>) { forall c | c in cs :: Holds(v, c) }

  function ComparatorTexts(cs: seq<Comparator>): (r: seq<string>)
    ensures |r| == |cs| && forall i | 0 <= i < |cs| :: r[i] == ComparatorText(cs[i])
  {
    seq(|cs|, i requires 0 <= i < |cs| => ComparatorText(cs[i]))
  }

  lemma ComparatorsMeaning(v: string, cs: seq<Comparator>)
    requires forall c | c in cs :: VersionWord(c.version)
    ensures TokenTexts(ComparatorTexts(cs))
    ensures AllHold(v, ComparatorTexts(cs)) == AllComparatorsHold(v, cs)
  {
    hide TokenHolds, Holds;
    var ts := ComparatorTexts(cs);
    forall i | 0 <= i < |cs| ensures TokenText(ts[i]) && TokenHolds(v, ts[i]) == Holds(v, cs[i]) {
      ComparatorTextShape(cs[i]);
      ComparatorMeaning(v, cs[i]);
    }
    assert AllHold(v, ts) ==> AllComparatorsHold(v, cs) by {
      if AllHold(v, ts) {
        forall c | c in cs ensures Holds(v, c) {
          var i :| 0 <= i < |cs| && cs[i] == c;
          assert ts[i] in ts;
        }
      }
    }
  }

  lemma OneTokenHolds(v: string, t: string)
    ensures AllHold(v, [t]) == TokenHolds(v, t)
  {
    hide TokenHolds;
    assert t in [t] && forall x | x in [t] :: x == t;
  }

  lemma TwoTokensHold(v: string, s: string, t: string)
    ensures AllHold(v, [s, t]) == (TokenHolds(v, s) && TokenHolds(v, t))
  {
    hide TokenHolds;
    assert s in [s, t] && t in [s, t] && forall x | x in [s, t] :: x == s || x == t;
  }

  lemma AdmitsSplit(a: seq<string>, rest: seq<seq<string>>, v: string)
    requires a != []
    ensures Admits([a] + rest, v) == (AllHold(v, a) || Admits(rest, v))
  {
    hide AllHold;
    assert ([a] + rest)[0] == a;
    assert forall x | x in rest :: x in [a] + rest;
  }

  lemma AdmitsConcat(a: seq<seq<string>>, b: seq<seq<string>>, v: string)
    ensures Admits(a + b, v) == (Admits(a, v) || Admits(b, v))
  {
    hide AllHold;
    assert forall x :: x in a + b <==> x in a || x in b;
  }

  /** One alternative of printed comparators is admitted exactly where all of them hold. */
  lemma SingleAlternative(v: string, tokens: seq<string>)
    requires tokens != [] && TokenTexts(tokens)
    ensures Satisfies(v, PrintAlternative(tokens)) == AllHold(v, tokens)
  {
    hide Satisfies, AllHold, TokenTexts, PrintAlternative;
    PrintRangeMeaning([tokens], v);
    assert PrintRange([tokens]) == PrintAlternative(tokens);
    assert tokens in [tokens] && forall a | a in [tokens] :: a == tokens;
  }

  /** A printed comparator list admits a version exactly when every comparator holds. */
  lemma ComparatorListMeaning(v: string, cs: seq<Comparator>)
    requires cs != [] && forall c | c in cs :: VersionWord(c.version)
    ensures Satisfies(v, PrintAlternative(ComparatorTexts(cs))) == AllComparatorsHold(v, cs)
  {
    hide Satisfies, AllHold, TokenTexts, VersionWord, AllComparatorsHold;
    ComparatorsMeaning(v, cs);
    SingleAlternative(v, ComparatorTexts(cs));
  }
}
