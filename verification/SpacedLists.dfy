/** Comparator lists as people write them: any white space around the commas, or white space alone; and
    which lists of words are translated at all. */
module SpacedLists {
  import opened Sequences
  import opened Strings
  import opened Versions
  import opened RangeText
  import opened Specs
  import opened SpecForms
  import opened Reporting

  /** What stands between two comparators: a comma with any number of spaces around it, or spaces. */
  datatype Gap = Comma(before: nat, after: nat) | Space(more: nat)

  function GapText(g: Gap): string {
    match g
    case Comma(before, after) => Blanks(before) + "," + Blanks(after)
    case Space(more) => Blanks(more + 1)
  }

  function Spaced(tokens: seq<string>, gaps: seq<Gap>): string
    requires |tokens| == |gaps| + 1
  {
    if gaps == [] then tokens[0] else tokens[0] + (GapText(gaps[0]) + Spaced(tokens[1..], gaps[1..]))
  }

  /** A token that can follow white space. */
  predicate Leading(t: string) { TokenText(t) && OperatorChar(t[0]) }

  lemma BlanksAreSpace(n: nat, s: string)
    requires s != "" && !IsSpace(s[0])
    ensures RunLength(Blanks(n) + s, IsSpace) == n && (Blanks(n) + s)[n..] == s && (Blanks(n) + s)[n] == s[0]
  {
    RunLengthIs(Blanks(n) + s, IsSpace, n);
  }

  lemma CommaSeparates(before: nat, after: nat, next: string)
    requires next != "" && !IsSpace(next[0])
    ensures SeparatorLength(Blanks(before) + ("," + (Blanks(after) + next))) == before + 1 + after
  {
    hide IsSpace;
    assert !IsSpace(',') by { CommaIsNoSpace(); }
    var tail := "," + (Blanks(after) + next);
    BlanksAreSpace(after, next);
    BlanksAreSpace(before, tail);
    var s := Blanks(before) + tail;
    assert s[before + 1..] == tail[1..] == Blanks(after) + next;
    hide Blanks;
  }

  lemma CommaIsNoSpace()
    ensures !IsSpace(',')
  {
  }

  lemma SpaceSeparates(n: nat, next: string)
    requires n > 0 && next != "" && OperatorChar(next[0])
    ensures SeparatorLength(Blanks(n) + next) == n
  {
    BlanksAreSpace(n, next);
    hide IsSpace, RunLength;
  }

  lemma GapSeparates(g: Gap, next: string)
    requires next != "" && OperatorChar(next[0])
    ensures SeparatorLength(GapText(g) + next) == |GapText(g)| > 0
  {
    match g
    case Comma(before, after) =>
      CommaSeparates(before, after, next);
      hide SeparatorLength;
      assert GapText(g) + next == Blanks(before) + ("," + (Blanks(after) + next));
    case Space(more) =>
      SpaceSeparates(more + 1, next);
  }

  lemma SpacedStarts(tokens: seq<string>, gaps: seq<Gap>)
    requires |tokens| == |gaps| + 1 && Leading(tokens[0])
    ensures Spaced(tokens, gaps) != "" && Spaced(tokens, gaps)[0] == tokens[0][0]
  {
  }

  /** However it is spaced, the list comes apart into its comparators. */
  lemma {:induction false} SpacedSplits(tokens: seq<string>, gaps: seq<Gap>)
    requires |tokens| == |gaps| + 1 && forall t | t in tokens :: Leading(t)
    ensures SplitTokens(Spaced(tokens, gaps)) == tokens
    decreases |gaps|
  {
    hide SplitTokens, SeparatorLength, GapText, Leading;
    var w := tokens[0];
    assert Leading(w);
    if gaps == [] {
      WholeToken(w);
      SplitTokensWord(w, "");
      assert w + "" == w && tokens == [w];
    } else {
      var next, gap := Spaced(tokens[1..], gaps[1..]), GapText(gaps[0]);
      assert tokens[1] in tokens;
      SpacedSplits(tokens[1..], gaps[1..]);
      SpacedStarts(tokens[1..], gaps[1..]);
      LeadingStarts(tokens[1]);
      GapSeparates(gaps[0], next);
      WholeToken(w);
      SplitTokensWord(w, gap + next);
      assert (gap + next)[|gap|..] == next && tokens == [w] + tokens[1..];
    }
  }

  lemma WholeToken(t: string)
    requires Leading(t)
    ensures NoSpace(t) && ',' !in t
  {
  }

  lemma LeadingStarts(t: string)
    requires Leading(t)
    ensures t != "" && OperatorChar(t[0])
  {
  }

  lemma BoundLeads(b: Bound)
    requires b.nums != []
    ensures Leading(ComparatorText(BoundComparator(b))) && Trim(ComparatorText(BoundComparator(b)))
  {
    hide Dotted, Trim;
    FirstBoundToken(b);
    BoundTextTrim(b);
  }

  lemma GapIsPlain(g: Gap)
    ensures '|' !in GapText(g)
  {
  }

  lemma {:induction false} SpacedIsPlain(tokens: seq<string>, gaps: seq<Gap>)
    requires |tokens| == |gaps| + 1 && forall t | t in tokens :: Leading(t) && Trim(t)
    ensures Trim(Spaced(tokens, gaps)) && '|' !in Spaced(tokens, gaps)
    ensures Spaced(tokens, gaps) != "" && tokens[0] <= Spaced(tokens, gaps)
    decreases |gaps|
  {
    hide GapText, IsSpace;
    var w := tokens[0];
    assert Leading(w) && Trim(w);
    if gaps != [] {
      SpacedIsPlain(tokens[1..], gaps[1..]);
      GapIsPlain(gaps[0]);
    }
  }

  lemma SpacedIsBoundList(bs: seq<Bound>, gaps: seq<Gap>)
    requires |bs| == |gaps| + 1 && forall b | b in bs :: b.nums != []
    ensures IsBoundList(Spaced(BoundTexts(bs), gaps), bs)
  {
    hide Dotted, Strip, SplitTokens, IsSpace, Leading, Spaced, Trim, ComparatorText;
    var tokens := BoundTexts(bs);
    var text := Spaced(tokens, gaps);
    forall i | 0 <= i < |tokens| ensures Leading(tokens[i]) && Trim(tokens[i]) && Strip(tokens[i]) == tokens[i] {
      BoundLeads(bs[i]);
      StripTrim(tokens[i]);
    }
    SpacedIsPlain(tokens, gaps);
    SpacedSplits(tokens, gaps);
    StripTrim(text);
    assert StripAll(tokens) == tokens;
    LeadingStarts(tokens[0]);
    assert text[0] == tokens[0][0];
    forall t | t in tokens ensures t != "" { LeadingStarts(t); }
    NonEmptyAll(tokens);
    assert !HasBars(text) by { assert '|' !in text; }
  }

  /** However its comparators are spaced, a list admits exactly the versions that meet every one. */
  lemma SpacedListMeaning(bs: seq<Bound>, gaps: seq<Gap>, v: string)
    requires |bs| == |gaps| + 1 && forall b | b in bs :: b.nums != []
    ensures Admitted(Spaced(BoundTexts(bs), gaps), v) <==> forall b | b in bs :: BoundHolds(b, KeyOf(v))
  {
    SpacedIsBoundList(bs, gaps);
    BoundListMeaning(Spaced(BoundTexts(bs), gaps), bs, v);
    hide IsBoundList, Admitted, BoundHolds;
  }

  // ----- what is no list

  predicate IsOperator(op: string) {
    op == "" || op == "=" || op == ">" || op == "<" || op == ">=" || op == "<=" || op == "==" || op == "!="
  }

  predicate IsTail(tail: string) {
    && (tail != "" ==> tail[0] == '.' || tail[0] == '-')
    && forall c | c in tail :: IsDigit(c) || IsLetter(c) || c == '.' || c == '+' || c == '-'
  }

  /** The shape of a comparator: an operator or none, a `v` or none, a number, and nothing or a tail of
      letters, digits, dots, pluses and dashes that starts with a dot or a dash. */
  predicate Shape(op: string, v: string, digits: string, tail: string) {
    IsOperator(op) && (v == "" || v == "v") && digits != "" && AllDigits(digits) && IsTail(tail)
  }

  ghost predicate IsShaped(t: string) {
    exists op, v, digits, tail :: Shape(op, v, digits, tail) && t == op + (v + (digits + tail))
  }

  lemma OperatorTaken(op: string, rest: string)
    requires IsOperator(op) && rest != "" && (rest[0] == 'v' || IsDigit(rest[0]))
    ensures OperatorLength(op + rest) == |op| && (op + rest)[|op|..] == rest
  {
    var t := op + rest;
    assert |op| >= 1 ==> t[0] == op[0];
    assert |op| == 2 ==> t[1] == op[1];
    assert t[|op|] == rest[0];
  }

  lemma NumberTaken(digits: string, tail: string)
    requires digits != "" && AllDigits(digits) && IsTail(tail)
    ensures var w := digits + tail;
            RunLength(w, IsDigit) == |digits| && w[|digits|..] == tail && IsDigit(w[0]) && w[0] != 'v'
  {
    var w := digits + tail;
    assert forall i | 0 <= i < |digits| :: w[i] == digits[i] && digits[i] in digits;
    assert tail != "" ==> w[|digits|] == tail[0];
    RunLengthIs(w, IsDigit, |digits|);
  }

  lemma ShapedIsComparator(op: string, v: string, digits: string, tail: string)
    requires Shape(op, v, digits, tail)
    ensures IsComparator(op + (v + (digits + tail)))
  {
    var w := digits + tail;
    var rest := v + w;
    NumberTaken(digits, tail);
    assert rest[0] == if v == "" then w[0] else 'v';
    assert v == "v" ==> rest[1..] == w;
    assert v == "" ==> rest == w;
    OperatorTaken(op, rest);
    assert tail != "" ==> w[|digits|] == w[|digits|..][0];
    assert forall c | c in tail :: TailChar(c);
    hide OperatorLength, RunLength, IsOperator, AllDigits, TailChar, IsDigit;
  }

  lemma OperatorIs(t: string)
    requires OperatorLength(t) <= |t|
    ensures IsOperator(t[..OperatorLength(t)])
  {
  }

  function Bare(u: string): string { if u != "" && u[0] == 'v' then u[1..] else u }

  /** What must stand behind the operator. */
  predicate Unsigned(u: string) {
    var w := Bare(u);
    var k := RunLength(w, IsDigit);
    k > 0 && (k < |w| ==> (w[k] == '.' || w[k] == '-') && forall c | c in w[k..] :: TailChar(c))
  }

  lemma UnsignedComesApart(u: string) returns (v: string, digits: string, tail: string)
    requires Unsigned(u)
    ensures Shape("", v, digits, tail) && u == v + (digits + tail)
  {
    var w := Bare(u);
    var k := RunLength(w, IsDigit);
    v := if u != "" && u[0] == 'v' then "v" else "";
    digits, tail := w[..k], w[k..];
    NumberAndTail(w, k);
    assert u == v + w;
    hide *;
    assert w == digits + tail;
    ShapeOf(v, digits, tail);
  }

  lemma ShapeOf(v: string, digits: string, tail: string)
    requires (v == "" || v == "v") && digits != "" && AllDigits(digits) && IsTail(tail)
    ensures Shape("", v, digits, tail)
  {
    hide AllDigits, IsTail;
  }

  lemma UnsignedRest(t: string)
    requires IsComparator(t)
    ensures OperatorLength(t) <= |t| && Unsigned(t[OperatorLength(t)..])
  {
    hide OperatorLength, RunLength, IsDigit, TailChar;
  }

  lemma ComparatorIsShaped(t: string)
    requires IsComparator(t)
    ensures IsShaped(t)
  {
    UnsignedRest(t);
    OperatorIs(t);
    hide *;
    var n := OperatorLength(t);
    PutBack(t, n);
    var v, digits, tail := UnsignedComesApart(t[n..]);
    ShapedBy(t, t[..n], t[n..], v, digits, tail);
  }

  lemma PutBack(t: string, n: nat)
    requires n <= |t|
    ensures t == t[..n] + t[n..]
  {
  }

  lemma ShapedBy(t: string, op: string, u: string, v: string, digits: string, tail: string)
    requires IsOperator(op) && Shape("", v, digits, tail) && t == op + u && u == v + (digits + tail)
    ensures IsShaped(t)
  {
    assert Shape(op, v, digits, tail) by { hide IsOperator, AllDigits, IsTail; }
    hide Shape;
  }

  lemma NumberAndTail(w: string, k: nat)
    requires k == RunLength(w, IsDigit) && k > 0
    requires k < |w| ==> (w[k] == '.' || w[k] == '-') && forall c | c in w[k..] :: TailChar(c)
    ensures AllDigits(w[..k]) && w[..k] != "" && IsTail(w[k..])
  {
    hide IsDigit, IsLetter;
  }

  /** Which tokens the translation lets through. */
  lemma ComparatorExactlyWhen(t: string)
    ensures IsComparator(t) <==> IsShaped(t)
  {
    if IsComparator(t) { ComparatorIsShaped(t); }
    hide IsComparator, Shape;
    if op, v, digits, tail :| Shape(op, v, digits, tail) && t == op + (v + (digits + tail)) {
      ShapedIsComparator(op, v, digits, tail);
    }
  }

  /** A list of any words that is none of the other forms is translated, unchanged, exactly when every
      word has the shape of a comparator; otherwise the declaration is unknown. */
  lemma ListTranslatesExactlyWhen(tokens: seq<string>)
    requires tokens != [] && TokenTexts(tokens)
    requires tokens[0] != "" && tokens[0][0] != '~' && tokens[0][0] != '^'
    requires var text := PrintAlternative(tokens); !IsWildcard(text) && !IsBracket(text) && !AnyVersion(text)
    ensures var text := PrintAlternative(tokens);
            NormalizeSpec(text) == if forall t | t in tokens :: IsShaped(t) then Comparators(text) else Unknown
  {
    var text := PrintAlternative(tokens);
    forall t | t in tokens ensures IsComparator(t) <==> IsShaped(t) { ComparatorExactlyWhen(t); }
    assert TokenText(tokens[0]);
    hide IsWildcard, IsComparator, IsShaped, SplitTokens, Strip, TokenText, StartsWith, IsSpace, AnyVersion, IsBracket;
    PrintedTrim(tokens);
    PrintedFirst(tokens);
    NoSugar(text);
    SingleText(text);
    PrintedAlternativeSplits(tokens);
    forall i | 0 <= i < |tokens| ensures Strip(tokens[i]) == tokens[i] && tokens[i] != "" {
      assert tokens[i] in tokens;
      TokenStrip(tokens[i]);
    }
    assert StripAll(tokens) == tokens;
    NonEmptyAll(tokens);
  }

  lemma PrintedFirst(tokens: seq<string>)
    requires tokens != [] && tokens[0] != ""
    ensures PrintAlternative(tokens) != "" && PrintAlternative(tokens)[0] == tokens[0][0]
  {
  }
}
