/** The SPDX licence expression parser and classifier, at the level of characters, and the printer
    that writes a declared licence into an SPDX document.  The grammar of Annex D of SPDX 2.3 is a
    datatype of trees: the flat parse is compared with the recursive meaning of the tree. */
module Spdx {
  import opened Sequences
  import opened Strings

  // ----- the tokenizer and the clean-up before it

  predicate IsIdChar(c: char) { IsLetter(c) || IsDigit(c) || c == '.' || c == '-' || c == '+' }

  predicate IsParen(c: char) { c == '(' || c == ')' }

  predicate IsParenOrSpace(c: char) { IsParen(c) || c == ' ' }

  /** The slash and the comma read as OR. */
  function SpellOr(s: string): string {
    if s == "" then ""
    else if s[0] == '/' || s[0] == ',' then " OR " + SpellOr(s[1..])
    else [s[0]] + SpellOr(s[1..])
  }

  /** Every run of white space becomes one space. */
  function CollapseSpace(s: string): string
    decreases |s|
  {
    if s == "" then ""
    else if IsSpace(s[0]) then " " + CollapseSpace(s[RunLength(s, IsSpace)..])
    else [s[0]] + CollapseSpace(s[1..])
  }

  function Clean(raw: string): string { CollapseSpace(SpellOr(Strip(raw))) }

  function DropRight(s: string, p: char -> bool): string {
    if s == "" || !p(s[|s| - 1]) then s else DropRight(s[..|s| - 1], p)
  }

  function StripParens(s: string): string { DropRight(s[RunLength(s, IsParenOrSpace)..], IsParenOrSpace) }

  /** The identifier-like runs and the parentheses of a text; everything else is passed over. */
  function Tokens(s: string): (tokens: seq<string>)
    decreases |s|
  {
    if s == "" then []
    else if IsIdChar(s[0]) then
      var k := RunLength(s, IsIdChar);
      [s[..k]] + Tokens(s[k..])
    else if IsParen(s[0]) then [[s[0]]] + Tokens(s[1..])
    else Tokens(s[1..])
  }

  // ----- the parser

  datatype Operator = NoOperator | OrOperator | AndOperator

  datatype LicenseExpression = LicenseExpression(raw: string, ids: seq<string>, operator: Operator,
      exceptions: seq<string>,
                                                 parseError: Option<string>)

  predicate IsUnknown(e: LicenseExpression) { e.ids == [] || e.parseError.Some? }

  predicate IsOperatorWord(token: string) { Upper(token) in ["OR", "AND", "WITH"] }

  predicate Reserved(text: string) { Upper(text) in ["UNKNOWN", "NONE", "NOASSERTION", "NULL", "N/A", "-"] }

  const NO_IDENTIFIERS := "no license identifiers found"
  const MIXED_OPERATORS := "mixed AND/OR without parentheses is ambiguous"

  function Failure(raw: string, error: Option<string>): LicenseExpression {
    LicenseExpression(raw, [], NoOperator, [], error)
  }

  /** The variables of the parser's loop, and the token that made it give up. */
  datatype Scan = Scan(ids: seq<string>, exceptions: seq<string>, operators: set<string>, expectOperand: bool,
      refused: Option<string>)

  const START := Scan([], [], {}, false, None)

  function ScanToken(st: Scan, token: string): Scan {
    if IsOperatorWord(token) then
      if st.expectOperand then st.(refused := Some(token))
      else st.(operators := st.operators + {Upper(token)}, expectOperand := Upper(token) == "WITH")
    else if token == "(" || token == ")" then st
    else if st.expectOperand then st.(exceptions := st.exceptions + [token], expectOperand := false)
    else st.(ids := st.ids + [token])
  }

  function ScanTokens(st: Scan, tokens: seq<string>): Scan
    decreases |tokens|
  {
    if tokens == [] || st.refused.Some? then st
    else ScanTokens(ScanToken(st, tokens[0]), tokens[1..])
  }

  function OperatorOf(operators: set<string>): Operator {
    if "AND" in operators then AndOperator else if "OR" in operators then OrOperator else NoOperator
  }

  function Outcome(text: string, st: Scan): LicenseExpression {
    if st.refused.Some? then Failure(text, Some("unexpected operator after WITH: " + st.refused.value))
    else if st.ids == [] then Failure(text, Some(NO_IDENTIFIERS))
    else if "AND" in st.operators && "OR" in st.operators then
      LicenseExpression(text, st.ids, NoOperator, st.exceptions, Some(MIXED_OPERATORS))
    else LicenseExpression(text, st.ids, OperatorOf(st.operators), st.exceptions, None)
  }

  function Parse(raw: string): LicenseExpression {
    var text := Clean(raw);
    if text == "" then Failure(raw, None)
    else if Reserved(text) then Failure(raw, Some("empty expression"))
    else Outcome(text, ScanTokens(START, Tokens(StripParens(text))))
  }

  method ParseExpression(raw: string) returns (e: LicenseExpression)
    ensures e == Parse(raw)
  {
    hide Clean, StripParens, Tokens;
    var text := Clean(raw);
    if text == "" || Reserved(text) {
      return LicenseExpression(raw, [], NoOperator, [], if text == "" then None else Some("empty expression"));
    }
    var tokens := Tokens(StripParens(text));
    if tokens == [] {
      return LicenseExpression(text, [], NoOperator, [], Some(NO_IDENTIFIERS));
    }
    var ids: seq<string>, exceptions: seq<string>, operators: set<string>, expectOperand := [], [], {}, false;
    for i := 0 to |tokens|
      invariant ScanTokens(START, tokens) == ScanTokens(Scan(ids, exceptions, operators, expectOperand, None),
          tokens[i..])
    {
      var token := tokens[i];
      assert tokens[i..][0] == token && tokens[i..][1..] == tokens[i + 1..];
      if Upper(token) in ["OR", "AND", "WITH"] {
        if expectOperand {
          return LicenseExpression(text, [], NoOperator, [], Some("unexpected operator after WITH: " + token));
        }
        operators := operators + {Upper(token)};
        expectOperand := Upper(token) == "WITH";
      } else if token != "(" && token != ")" {
        if expectOperand {
          exceptions := exceptions + [token];
          expectOperand := false;
        } else {
          ids := ids + [token];
        }
      }
    }
    if ids == [] {
      return LicenseExpression(text, [], NoOperator, [], Some(NO_IDENTIFIERS));
    }
    if "AND" in operators && "OR" in operators {
      return LicenseExpression(text, ids, NoOperator, exceptions, Some(MIXED_OPERATORS));
    }
    e := LicenseExpression(text, ids, OperatorOf(operators), exceptions, None);
  }

  // ----- the classifier

  datatype Class = Allowed | Warning | Unknown | Blocked

  /** Lower is more permissive. */
  function Rank(c: Class): nat {
    match c
    case Allowed => 0
    case Warning => 1
    case Unknown => 2
    case Blocked => 3
  }

  datatype PolicySets = PolicySets(allowed: set<string>, warning: set<string>, blocked: set<string>,
      unknownAction: string)

  function ClassifySingle(sets: PolicySets, id: string): Class {
    if id in sets.blocked then Blocked
    else if id in sets.warning then Warning
    else if id in sets.allowed then Allowed
    else Unknown
  }

  function UnknownClass(sets: PolicySets): Class {
    match sets.unknownAction
    case "warn" => Unknown
    case "block" => Blocked
    case "allow" => Allowed
    case _ => Unknown
  }

  function MorePermissive(a: Class, b: Class): Class { if Rank(a) <= Rank(b) then a else b }

  function Stricter(a: Class, b: Class): Class { if Rank(a) >= Rank(b) then a else b }

  /** The first of the classes sorted by rank, over the identifiers. */
  function Best(sets: PolicySets, ids: seq<string>): Class
    requires ids != []
  {
    if |ids| == 1 then ClassifySingle(sets, ids[0])
    else MorePermissive(ClassifySingle(sets, ids[0]), Best(sets, ids[1..]))
  }

  function Worst(sets: PolicySets, ids: seq<string>): Class
    requires ids != []
  {
    if |ids| == 1 then ClassifySingle(sets, ids[0])
    else Stricter(ClassifySingle(sets, ids[0]), Worst(sets, ids[1..]))
  }

  lemma {:induction false} BestAndWorst(sets: PolicySets, ids: seq<string>, id: string)
    requires id in ids
    ensures Rank(Best(sets, ids)) <= Rank(ClassifySingle(sets, id)) <= Rank(Worst(sets, ids))
  {
    if |ids| > 1 && id != ids[0] {
      BestAndWorst(sets, ids[1..], id);
    } else if |ids| > 1 {
      assert ids[1] in ids[1..];
    }
  }

  function ClassOf(sets: PolicySets, e: LicenseExpression): Class {
    if IsUnknown(e) then UnknownClass(sets)
    else if e.operator == OrOperator then Best(sets, e.ids)
    else Worst(sets, e.ids)
  }

  function Classify(sets: PolicySets, raw: string): Class { ClassOf(sets, Parse(raw)) }

  // ----- what the parser sees of a text: its words

  /** The identifier-like runs alone. */
  function Words(s: string): (words: seq<string>)
    decreases |s|
  {
    if s == "" then []
    else if IsIdChar(s[0]) then
      var k := RunLength(s, IsIdChar);
      [s[..k]] + Words(s[k..])
    else Words(s[1..])
  }

  lemma {:induction false} ScanIgnoresParens(st: Scan, s: string)
    ensures ScanTokens(st, Tokens(s)) == ScanTokens(st, Words(s))
    decreases |s|
  {
    if s == "" || st.refused.Some? {
    } else if IsIdChar(s[0]) {
      var k := RunLength(s, IsIdChar);
      assert Tokens(s)[0] == s[..k] && Tokens(s)[1..] == Tokens(s[k..]);
      assert Words(s)[0] == s[..k] && Words(s)[1..] == Words(s[k..]);
      ScanIgnoresParens(ScanToken(st, s[..k]), s[k..]);
    } else if IsParen(s[0]) {
      assert Tokens(s)[0] == [s[0]] && Tokens(s)[1..] == Tokens(s[1..]);
      assert !IsOperatorWord([s[0]]);
      ScanIgnoresParens(st, s[1..]);
    } else {
      ScanIgnoresParens(st, s[1..]);
    }
  }

  predicate IdText(w: string) { w != "" && forall c | c in w :: IsIdChar(c) }

  lemma WordsRun(run: string, rest: string)
    requires IdText(run) && (rest != "" ==> !IsIdChar(rest[0]))
    ensures Words(run + rest) == [run] + Words(rest)
  {
    RunLengthIs(run + rest, IsIdChar, |run|);
    assert (run + rest)[..|run|] == run && (run + rest)[|run|..] == rest;
  }

  lemma WordsSkipOne(c: char, rest: string)
    requires !IsIdChar(c)
    ensures Words([c] + rest) == Words(rest)
  {
    assert ([c] + rest)[1..] == rest;
  }

  lemma FirstWord(s: string) returns (run: string, rest: string)
    requires s != "" && IsIdChar(s[0])
    ensures s == run + rest && IdText(run) && (rest != "" ==> !IsIdChar(rest[0]))
    ensures Words(s) == [run] + Words(rest)
  {
    var k := RunLength(s, IsIdChar);
    run, rest := s[..k], s[k..];
  }

  /** A character that is not part of an identifier separates words. */
  lemma {:induction false} WordsSplit(a: string, c: char, b: string)
    requires !IsIdChar(c)
    ensures Words(a + [c] + b) == Words(a) + Words(b)
    decreases |a|
  {
    if a == "" {
      WordsSkipOne(c, b);
      assert a + [c] + b == [c] + b;
    } else if IsIdChar(a[0]) {
      var run, rest := FirstWord(a);
      hide Words;
      WordsSplit(rest, c, b);
      WordsRun(run, rest + [c] + b);
      Concat4(run, rest, [c], b);
    } else {
      hide Words;
      WordsSplit(a[1..], c, b);
      WordsSkipOne(a[0], a[1..] + [c] + b);
      WordsSkipOne(a[0], a[1..]);
      assert [a[0]] + a[1..] == a;
      Concat4([a[0]], a[1..], [c], b);
    }
  }

  lemma WordsOfId(w: string)
    requires IdText(w)
    ensures Words(w) == [w]
  {
    RunLengthIs(w, IsIdChar, |w|);
    assert w[..|w|] == w && Words(w[|w|..]) == [];
  }

  lemma {:induction false} WordsSkip(s: string, n: nat)
    requires n <= |s| && forall i | 0 <= i < n :: !IsIdChar(s[i])
    ensures Words(s[n..]) == Words(s)
  {
    if n > 0 {
      WordsSkip(s[1..], n - 1);
      assert s[1..][n - 1..] == s[n..];
    } else {
      assert s[n..] == s;
    }
  }

  lemma {:induction false} WordsDropRight(s: string)
    ensures Words(DropRight(s, IsParenOrSpace)) == Words(s)
  {
    if s != "" && IsParenOrSpace(s[|s| - 1]) {
      WordsDropRight(s[..|s| - 1]);
      WordsSplit(s[..|s| - 1], s[|s| - 1], "");
      assert s[..|s| - 1] + [s[|s| - 1]] + "" == s;
    }
  }

  lemma WordsStripParens(s: string)
    ensures Words(StripParens(s)) == Words(s)
  {
    WordsSkip(s, RunLength(s, IsParenOrSpace));
    WordsDropRight(s[RunLength(s, IsParenOrSpace)..]);
  }

  lemma {:induction false} CollapseIdRun(run: string, rest: string)
    requires forall c | c in run :: IsIdChar(c)
    ensures CollapseSpace(run + rest) == run + CollapseSpace(rest)
  {
    if run == "" {
      assert run + rest == rest;
    } else {
      assert run[0] in run && forall c | c in run[1..] :: c in run;
      CollapseIdRun(run[1..], rest);
      CollapseKeeps(run[0], run[1..] + rest);
      hide CollapseSpace, IsIdChar;
      assert [run[0]] + run[1..] == run;
      Concat3([run[0]], run[1..], rest);
      Concat3([run[0]], run[1..], CollapseSpace(rest));
    }
  }

  lemma CollapseKeeps(c: char, rest: string)
    requires !IsSpace(c)
    ensures CollapseSpace([c] + rest) == [c] + CollapseSpace(rest)
  {
    assert ([c] + rest)[1..] == rest;
  }

  lemma {:induction false} WordsCollapse(s: string)
    ensures Words(CollapseSpace(s)) == Words(s)
    decreases |s|
  {
    if s == "" {
    } else if IsIdChar(s[0]) {
      var k := RunLength(s, IsIdChar);
      var rest := CollapseSpace(s[k..]);
      CollapseIdRun(s[..k], s[k..]);
      assert s[..k] + s[k..] == s;
      WordsCollapse(s[k..]);
      assert rest != "" ==> !IsIdChar(rest[0]);
      WordsRun(s[..k], rest);
    } else if IsSpace(s[0]) {
      var k := RunLength(s, IsSpace);
      WordsCollapse(s[k..]);
      WordsSkip(s, k);
      assert CollapseSpace(s)[1..] == CollapseSpace(s[k..]);
    } else {
      WordsCollapse(s[1..]);
      assert CollapseSpace(s)[1..] == CollapseSpace(s[1..]);
    }
  }

  /** What the parser computes from a text without white space around it. */
  lemma ParseByWords(raw: string)
    requires Trim(raw) && Clean(raw) != "" && !Reserved(Clean(raw))
    ensures Parse(raw) == Outcome(Clean(raw), ScanTokens(START, Words(SpellOr(raw))))
  {
    StripTrim(raw);
    WordsCollapse(SpellOr(raw));
    WordsStripParens(Clean(raw));
    ScanIgnoresParens(START, StripParens(Clean(raw)));
  }

  lemma {:induction false} SpellOrConcat(a: string, b: string)
    ensures SpellOr(a + b) == SpellOr(a) + SpellOr(b)
  {
    if a == "" {
      assert a + b == b;
    } else {
      assert (a + b)[1..] == a[1..] + b;
      SpellOrConcat(a[1..], b);
    }
  }

  lemma {:induction false} SpellOrPlain(s: string)
    requires forall c | c in s :: c != '/' && c != ','
    ensures SpellOr(s) == s
  {
    if s != "" {
      assert s[0] in s && forall c | c in s[1..] :: c in s;
      SpellOrPlain(s[1..]);
      assert [s[0]] + s[1..] == s;
    }
  }

  lemma NoSlashLeft(raw: string)
    ensures '/' !in Clean(raw)
  {
    NoSlashSpelled(Strip(raw));
    NoSlashCollapsed(SpellOr(Strip(raw)));
  }

  lemma {:induction false} NoSlashSpelled(s: string)
    ensures '/' !in SpellOr(s)
  {
    if s != "" {
      NoSlashSpelled(s[1..]);
    }
  }

  lemma {:induction false} NoSlashCollapsed(s: string)
    requires '/' !in s
    ensures '/' !in CollapseSpace(s)
    decreases |s|
  {
    if s != "" {
      var step := if IsSpace(s[0]) then RunLength(s, IsSpace) else 1;
      assert forall c | c in s[step..] :: c in s;
      NoSlashCollapsed(s[step..]);
    }
  }

  lemma ReservedShape(text: string)
    requires Reserved(text)
    ensures IdText(text) || '/' in text
  {
    assert forall i | 0 <= i < |text| :: UpperChar(text[i]) == Upper(text)[i];
    if Upper(text) == "N/A" {
      assert "N/A"[1] == '/' && UpperChar(text[1]) == '/';
    } else {
      assert forall c | c in Upper(text) :: IsIdChar(c);
      forall c | c in text ensures IsIdChar(c) {
        var i :| 0 <= i < |text| && text[i] == c;
        assert UpperChar(c) == Upper(text)[i] && Upper(text)[i] in Upper(text);
      }
    }
  }

  /** A reserved word is one identifier: the entry N/A is out of reach, its slash has become OR. */
  lemma ReservedIsOneId(raw: string)
    requires Reserved(Clean(raw))
    ensures IdText(Clean(raw))
  {
    NoSlashLeft(raw);
    ReservedShape(Clean(raw));
  }

  // ----- licence expressions as trees (Annex D of SPDX 2.3)

  /** OR as the word, or in the two spellings the parser also takes. */
  datatype OrSpelling = Word | Slash | Comma

  datatype License =
    | Id(id: string)
    | With(id: string, exception: string)
    | Group(inner: License)
    | Or(left: License, right: License, spelling: OrSpelling)
    | And(left: License, right: License)

  predicate IsName(w: string) { IdText(w) && !IsOperatorWord(w) }

  predicate ValidTree(e: License) {
    match e
    case Id(id) => IsName(id)
    case With(id, exception) => IsName(id) && IsName(exception)
    case Group(inner) => ValidTree(inner)
    case Or(left, right, _) => ValidTree(left) && ValidTree(right)
    case And(left, right) => ValidTree(left) && ValidTree(right)
  }

  function OrText(spelling: OrSpelling): string {
    match spelling
    case Word => " OR "
    case Slash => "/"
    case Comma => ","
  }

  function Print(e: License): (s: string) {
    match e
    case Id(id) => id
    case With(id, exception) => id + " WITH " + exception
    case Group(inner) => "(" + Print(inner) + ")"
    case Or(left, right, spelling) => Print(left) + OrText(spelling) + Print(right)
    case And(left, right) => Print(left) + " AND " + Print(right)
  }

  /** The meaning of a tree: the consumer picks a branch of OR, both sides of AND bind, and an
      exception does not change the class of its licence. */
  function Meaning(sets: PolicySets, e: License): Class {
    match e
    case Id(id) => ClassifySingle(sets, id)
    case With(id, _) => ClassifySingle(sets, id)
    case Group(inner) => Meaning(sets, inner)
    case Or(left, right, _) => MorePermissive(Meaning(sets, left), Meaning(sets, right))
    case And(left, right) => Stricter(Meaning(sets, left), Meaning(sets, right))
  }

  predicate UsesOr(e: License) {
    match e
    case Id(_) => false
    case With(_, _) => false
    case Group(inner) => UsesOr(inner)
    case Or(_, _, _) => true
    case And(left, right) => UsesOr(left) || UsesOr(right)
  }

  predicate UsesAnd(e: License) {
    match e
    case Id(_) => false
    case With(_, _) => false
    case Group(inner) => UsesAnd(inner)
    case Or(left, right, _) => UsesAnd(left) || UsesAnd(right)
    case And(_, _) => true
  }

  /** The words of the printed tree. */
  function TreeWords(e: License): seq<string> {
    match e
    case Id(id) => [id]
    case With(id, exception) => [id, "WITH", exception]
    case Group(inner) => TreeWords(inner)
    case Or(left, right, _) => TreeWords(left) + ["OR"] + TreeWords(right)
    case And(left, right) => TreeWords(left) + ["AND"] + TreeWords(right)
  }

  function TreeIds(e: License): (ids: seq<string>)
    ensures ids != []
  {
    match e
    case Id(id) => [id]
    case With(id, _) => [id]
    case Group(inner) => TreeIds(inner)
    case Or(left, right, _) => TreeIds(left) + TreeIds(right)
    case And(left, right) => TreeIds(left) + TreeIds(right)
  }

  /** Only a bare identifier prints as a text that is one word and no parenthesis. */
  predicate ReservedTree(e: License) { e.Id? && Reserved(e.id) }

  /** The joining of two words by an operator word between two spaces. */
  lemma WordsJoined(a: string, op: string, b: string)
    requires IdText(op)
    ensures Words(a + " " + op + " " + b) == Words(a) + [op] + Words(b)
  {
    WordsSplit(a + " " + op, ' ', b);
    WordsSplit(a, ' ', op);
    WordsOfId(op);
    assert a + " " + op == a + [' '] + op;
    assert a + " " + op + " " + b == (a + " " + op) + [' '] + b;
  }

  lemma NameIsPlain(w: string)
    requires IdText(w)
    ensures SpellOr(w) == w && Words(SpellOr(w)) == [w]
  {
    SpellOrPlain(w);
    WordsOfId(w);
  }

  lemma SpellOrJoined(a: string, op: string, b: string)
    requires forall c | c in op :: c != '/' && c != ','
    ensures SpellOr(a + op + b) == SpellOr(a) + op + SpellOr(b)
  {
    SpellOrConcat(a + op, b);
    SpellOrConcat(a, op);
    SpellOrPlain(op);
  }

  lemma SpellOrOr(a: string, spelling: OrSpelling, b: string)
    ensures SpellOr(a + OrText(spelling) + b) == SpellOr(a) + " OR " + SpellOr(b)
  {
    SpellOrConcat(a + OrText(spelling), b);
    SpellOrConcat(a, OrText(spelling));
    SpelledOr(spelling);
    hide SpellOr;
  }

  lemma SpelledOr(spelling: OrSpelling)
    ensures SpellOr(OrText(spelling)) == " OR "
  {
    match spelling
    case Word => SpellOrPlain(" OR ");
    case Slash => assert "/"[1..] == "" && " OR " + "" == " OR ";
    case Comma => assert ","[1..] == "" && " OR " + "" == " OR ";
  }

  lemma WordsOr(a: string, b: string)
    ensures Words(a + " OR " + b) == Words(a) + ["OR"] + Words(b)
  {
    WordsJoined(a, "OR", b);
    hide Words;
    assert " " + "OR" + " " == " OR ";
    assert a + " " + "OR" + " " + b == a + (" " + "OR" + " ") + b;
  }

  lemma WordsAnd(a: string, b: string)
    ensures Words(a + " AND " + b) == Words(a) + ["AND"] + Words(b)
  {
    WordsJoined(a, "AND", b);
    hide Words;
    assert " " + "AND" + " " == " AND ";
    assert a + " " + "AND" + " " + b == a + (" " + "AND" + " ") + b;
  }

  lemma WordsWith(a: string, b: string)
    ensures Words(a + " WITH " + b) == Words(a) + ["WITH"] + Words(b)
  {
    WordsJoined(a, "WITH", b);
    hide Words;
    assert " " + "WITH" + " " == " WITH ";
    assert a + " " + "WITH" + " " + b == a + (" " + "WITH" + " ") + b;
  }

  lemma WordsGrouped(s: string)
    ensures SpellOr("(" + s + ")") == "(" + SpellOr(s) + ")"
    ensures Words("(" + s + ")") == Words(s)
  {
    SpellOrConcat("(" + s, ")");
    SpellOrConcat("(", s);
    SpellOrPlain("(");
    SpellOrPlain(")");
    WordsSplit("(" + s, ')', "");
    WordsSplit("", '(', s);
    assert "(" + s + [')'] + "" == "(" + s + ")";
    assert "" + ['('] + s == "(" + s;
  }

  lemma {:induction false} PrintedWords(e: License)
    requires ValidTree(e)
    ensures Words(SpellOr(Print(e))) == TreeWords(e)
  {
    hide Words, SpellOr;
    match e
    case Id(id) => NameIsPlain(id);
    case With(id, exception) =>
      SpellOrJoined(id, " WITH ", exception);
      NameIsPlain(id);
      NameIsPlain(exception);
      WordsWith(id, exception);
    case Group(inner) =>
      PrintedWords(inner);
      WordsGrouped(Print(inner));
      WordsGrouped(SpellOr(Print(inner)));
    case Or(left, right, spelling) =>
      PrintedWords(left);
      PrintedWords(right);
      SpellOrOr(Print(left), spelling, Print(right));
      WordsOr(SpellOr(Print(left)), SpellOr(Print(right)));
    case And(left, right) =>
      PrintedWords(left);
      PrintedWords(right);
      SpellOrJoined(Print(left), " AND ", Print(right));
      WordsAnd(SpellOr(Print(left)), SpellOr(Print(right)));
  }

  lemma {:induction false} PrintedTrim(e: License)
    requires ValidTree(e)
    ensures Print(e) != "" && Trim(Print(e))
    ensures e.Group? ==> Print(e)[0] == '('
  {
    match e
    case Id(id) => assert id[0] in id && id[|id| - 1] in id;
    case With(id, exception) => assert id[0] in id && exception[|exception| - 1] in exception;
    case Group(_) =>
    case Or(left, right, _) => PrintedTrim(left); PrintedTrim(right);
    case And(left, right) => PrintedTrim(left); PrintedTrim(right);
  }

  // ----- the loop over the words of a tree

  lemma {:induction false} ScanConcat(st: Scan, a: seq<string>, b: seq<string>)
    ensures ScanTokens(st, a + b) == ScanTokens(ScanTokens(st, a), b)
    decreases |a|
  {
    if a == [] || st.refused.Some? {
      assert [] + b == b;
    } else {
      assert (a + b)[0] == a[0] && (a + b)[1..] == a[1..] + b;
      ScanConcat(ScanToken(st, a[0]), a[1..], b);
    }
  }

  function TreeExceptions(e: License): seq<string> {
    match e
    case Id(_) => []
    case With(_, exception) => [exception]
    case Group(inner) => TreeExceptions(inner)
    case Or(left, right, _) => TreeExceptions(left) + TreeExceptions(right)
    case And(left, right) => TreeExceptions(left) + TreeExceptions(right)
  }

  function TreeOperators(e: License): set<string> {
    match e
    case Id(_) => {}
    case With(_, _) => {"WITH"}
    case Group(inner) => TreeOperators(inner)
    case Or(left, right, _) => TreeOperators(left) + {"OR"} + TreeOperators(right)
    case And(left, right) => TreeOperators(left) + {"AND"} + TreeOperators(right)
  }

  function Extended(st: Scan, e: License): Scan {
    Scan(st.ids + TreeIds(e), st.exceptions + TreeExceptions(e), st.operators + TreeOperators(e), false, None)
  }

  lemma ScanOne(st: Scan, token: string)
    requires st.refused.None?
    ensures ScanTokens(st, [token]) == ScanToken(st, token)
  {
    assert [token][1..] == [];
  }

  lemma OperatorWords()
    ensures forall op | op in ["OR", "AND", "WITH"] :: Upper(op) == op && IsOperatorWord(op)
  {
    assert Upper("OR") == "OR" && Upper("AND") == "AND" && Upper("WITH") == "WITH";
  }

  lemma ScanOperator(st: Scan, op: string)
    requires st.refused.None? && !st.expectOperand && op in ["OR", "AND"]
    ensures ScanTokens(st, [op]) == st.(operators := st.operators + {op})
  {
    ScanOne(st, op);
    OperatorWords();
  }

  lemma ScanWith(st: Scan, id: string, exception: string)
    requires st.refused.None? && !st.expectOperand && IsName(id) && IsName(exception)
    ensures ScanTokens(st, [id, "WITH", exception]) == Extended(st, With(id, exception))
  {
    hide Upper;
    var a := ScanToken(st, id);
    var b := ScanToken(a, "WITH");
    OperatorWords();
    assert id[0] in id && exception[0] in exception;
    assert a.operators == st.operators && b.operators == st.operators + {"WITH"};
    ScanConcat(st, [id], ["WITH", exception]);
    ScanConcat(a, ["WITH"], [exception]);
    ScanOne(st, id);
    ScanOne(a, "WITH");
    ScanOne(b, exception);
    assert [id, "WITH", exception] == [id] + ["WITH", exception] && ["WITH", exception] == ["WITH"] + [exception];
  }

  lemma {:induction false} ScanTree(st: Scan, e: License)
    requires ValidTree(e) && st.refused.None? && !st.expectOperand
    ensures ScanTokens(st, TreeWords(e)) == Extended(st, e)
    decreases e, 1
  {
    hide ScanTokens;
    match e
    case Id(id) =>
      assert id[0] in id;
      ScanOne(st, id);
      assert st.exceptions + [] == st.exceptions && st.operators + {} == st.operators;
    case With(id, exception) => ScanWith(st, id, exception);
    case Group(inner) => ScanTree(st, inner);
    case Or(left, right, _) => ScanBinary(st, e, left, "OR", right);
    case And(left, right) => ScanBinary(st, e, left, "AND", right);
  }

  lemma {:induction false} ScanBinary(st: Scan, e: License, left: License, op: string, right: License)
    requires (e.Or? || e.And?) && e.left == left && e.right == right
    requires ValidTree(left) && ValidTree(right) && st.refused.None? && !st.expectOperand
    requires op in ["OR", "AND"]
    ensures ScanTokens(st, TreeWords(left) + [op] + TreeWords(right)) ==
            Scan(st.ids + (TreeIds(left) + TreeIds(right)), st.exceptions
                + (TreeExceptions(left) + TreeExceptions(right)),
                 st.operators + (TreeOperators(left) + {op} + TreeOperators(right)), false, None)
    decreases e, 0
  {
    hide ScanTokens, TreeIds, TreeExceptions, TreeOperators, TreeWords;
    var a := Extended(st, left);
    var b := a.(operators := a.operators + {op});
    ScanTree(st, left);
    ScanOperator(a, op);
    ScanTree(b, right);
    ScanConcat(st, TreeWords(left) + [op], TreeWords(right));
    ScanConcat(st, TreeWords(left), [op]);
    assert st.operators + TreeOperators(left) + {op} + TreeOperators(right)
        == st.operators + (TreeOperators(left) + {op} + TreeOperators(right));
  }

  lemma {:induction false} TreeOperatorsAre(e: License)
    ensures "OR" in TreeOperators(e) <==> UsesOr(e)
    ensures "AND" in TreeOperators(e) <==> UsesAnd(e)
    ensures !UsesOr(e) && !UsesAnd(e) ==> |TreeIds(e)| == 1
  {
    match e
    case Id(_) =>
    case With(_, _) =>
    case Group(inner) => TreeOperatorsAre(inner);
    case Or(left, right, _) => TreeOperatorsAre(left); TreeOperatorsAre(right);
    case And(left, right) => TreeOperatorsAre(left); TreeOperatorsAre(right);
  }

  // ----- flattening keeps the meaning

  lemma {:induction false} BestConcat(sets: PolicySets, a: seq<string>, b: seq<string>)
    requires a != [] && b != []
    ensures Best(sets, a + b) == MorePermissive(Best(sets, a), Best(sets, b))
  {
    if |a| > 1 {
      BestConcat(sets, a[1..], b);
      assert (a + b)[1..] == a[1..] + b;
    } else {
      assert (a + b)[1..] == b;
    }
  }

  lemma {:induction false} WorstConcat(sets: PolicySets, a: seq<string>, b: seq<string>)
    requires a != [] && b != []
    ensures Worst(sets, a + b) == Stricter(Worst(sets, a), Worst(sets, b))
  {
    if |a| > 1 {
      WorstConcat(sets, a[1..], b);
      assert (a + b)[1..] == a[1..] + b;
    } else {
      assert (a + b)[1..] == b;
    }
  }

  lemma {:induction false} FlatMeaning(sets: PolicySets, e: License)
    ensures !UsesAnd(e) ==> Best(sets, TreeIds(e)) == Meaning(sets, e)
    ensures !UsesOr(e) ==> Worst(sets, TreeIds(e)) == Meaning(sets, e)
  {
    match e
    case Id(_) =>
    case With(_, _) =>
    case Group(inner) => FlatMeaning(sets, inner);
    case Or(left, right, _) =>
      FlatMeaning(sets, left);
      FlatMeaning(sets, right);
      BestConcat(sets, TreeIds(left), TreeIds(right));
    case And(left, right) =>
      FlatMeaning(sets, left);
      FlatMeaning(sets, right);
      WorstConcat(sets, TreeIds(left), TreeIds(right));
  }

  lemma CleanOfId(w: string)
    requires IdText(w)
    ensures Clean(w) == w
  {
    assert w[0] in w && w[|w| - 1] in w;
    StripTrim(w);
    SpellOrPlain(w);
    CollapseIdRun(w, "");
    assert w + "" == w && w + CollapseSpace("") == w;
  }

  lemma CleanKeepsTheFirst(raw: string)
    requires raw != "" && Trim(raw) && raw[0] != '/' && raw[0] != ','
    ensures Clean(raw) != "" && Clean(raw)[0] == raw[0]
  {
    StripTrim(raw);
    assert SpellOr(raw)[0] == raw[0];
  }

  lemma {:induction false} PrintedStart(e: License)
    requires ValidTree(e)
    ensures Print(e) != "" && Print(e)[0] != '/' && Print(e)[0] != ','
  {
    match e
    case Id(id) => assert id[0] in id;
    case With(id, _) => assert id[0] in id;
    case Group(_) =>
    case Or(left, _, _) => PrintedStart(left);
    case And(left, _) => PrintedStart(left);
  }

  lemma {:induction false} TreeHasWords(e: License)
    ensures TreeWords(e) != []
    ensures |TreeWords(e)| == 1 ==> e.Id? || e.Group?
  {
    match e
    case Id(_) =>
    case With(_, _) =>
    case Group(inner) => TreeHasWords(inner);
    case Or(left, right, _) => TreeHasWords(left); TreeHasWords(right);
    case And(left, right) => TreeHasWords(left); TreeHasWords(right);
  }

  lemma OnlyIdsPrintAsIds(e: License)
    requires ValidTree(e) && IdText(Clean(Print(e)))
    ensures e.Id?
  {
    PrintedTrim(e);
    PrintedStart(e);
    CleanKeepsTheFirst(Print(e));
    StripTrim(Print(e));
    WordsCollapse(SpellOr(Print(e)));
    WordsOfId(Clean(Print(e)));
    PrintedWords(e);
    TreeHasWords(e);
    assert Clean(Print(e))[0] in Clean(Print(e));
    hide Print, SpellOr, Words, TreeWords, ValidTree, CollapseSpace, Strip;
  }

  /** The printed tree is taken for a reserved word only when it is one. */
  lemma PrintedReserved(e: License)
    requires ValidTree(e)
    ensures Clean(Print(e)) != ""
    ensures Reserved(Clean(Print(e))) <==> ReservedTree(e)
  {
    if e.Id? {
      CleanOfId(e.id);
    }
    hide Reserved, Clean, Print;
    PrintedTrim(e);
    PrintedStart(e);
    CleanKeepsTheFirst(Print(e));
    if Reserved(Clean(Print(e))) {
      ReservedIsOneId(Print(e));
      OnlyIdsPrintAsIds(e);
    }
  }

  /** What parsing a printed tree gives. */
  lemma ParsedTree(e: License)
    requires ValidTree(e) && !ReservedTree(e)
    ensures Parse(Print(e)).ids == TreeIds(e)
    ensures IsUnknown(Parse(Print(e))) <==> UsesOr(e) && UsesAnd(e)
    ensures Parse(Print(e)).operator == if UsesAnd(e) && !UsesOr(e) then AndOperator
        else if UsesOr(e) && !UsesAnd(e) then OrOperator else NoOperator
  {
    PrintedReserved(e);
    PrintedTrim(e);
    ParseByWords(Print(e));
    PrintedWords(e);
    ScanTree(START, e);
    TreeOperatorsAre(e);
    hide Parse, Print, Words, SpellOr, ScanTokens, TreeWords, Clean, Reserved, TreeIds, TreeExceptions, TreeOperators;
  }

  lemma {:induction false} ChoiceHasTwo(e: License)
    ensures UsesOr(e) || UsesAnd(e) ==> |TreeIds(e)| > 1
  {
    match e
    case Id(_) =>
    case With(_, _) =>
    case Group(inner) => ChoiceHasTwo(inner);
    case Or(left, right, _) => assert |TreeIds(left)| >= 1 && |TreeIds(right)| >= 1;
    case And(left, right) => assert |TreeIds(left)| >= 1 && |TreeIds(right)| >= 1;
  }

  lemma PrintsNoUnknown(e: License)
    requires ValidTree(e) && !ReservedTree(e)
    ensures Print(e) != "UNKNOWN"
  {
    PrintedReserved(e);
    assert Upper("UNKNOWN") == "UNKNOWN";
    CleanOfId("UNKNOWN");
    hide Print, ValidTree, Clean;
  }

  /** Flattening keeps the meaning: for every tree and every policy the class of the printed text is
      the recursive meaning of the tree, unless the tree mixes AND with OR or is a bare reserved
      word.  A tree that mixes them is unknown however it is parenthesised. */
  lemma FlatteningKeepsMeaning(sets: PolicySets, e: License)
    requires ValidTree(e)
    ensures Classify(sets, Print(e)) ==
            if ReservedTree(e) || (UsesOr(e) && UsesAnd(e)) then UnknownClass(sets) else Meaning(sets, e)
  {
    hide Print, ValidTree, Meaning, TreeIds, UsesOr, UsesAnd;
    PrintedReserved(e);
    if ReservedTree(e) {
      assert IsUnknown(Parse(Print(e)));
    } else {
      ParsedTree(e);
      FlatMeaning(sets, e);
      hide Parse;
      TreeOperatorsAre(e);
      if |TreeIds(e)| == 1 {
        assert Best(sets, TreeIds(e)) == Worst(sets, TreeIds(e));
      }
    }
  }

  /** The reserved spelling N/A is never recognised: it reads as a choice of two licences, whose
      class does not depend on the action configured for unknown expressions. */
  lemma NotApplicableIsAChoice(sets: PolicySets)
    ensures Classify(sets, "N/A") == MorePermissive(ClassifySingle(sets, "N"), ClassifySingle(sets, "A"))
  {
    hide Classify, UnknownClass, Reserved;
    var e := Or(Id("N"), Id("A"), Slash);
    assert Upper("N") == "N" && Upper("A") == "A";
    assert IsName("N") && IsName("A");
    assert Print(e) == "N/A";
    hide Upper, Print;
    FlatteningKeepsMeaning(sets, e);
  }

  // ----- the declared licence of an SPDX document

  function DeclaredLicense(license: string): string {
    if license == "" || license == "UNKNOWN" then "NOASSERTION"
    else
      var e := Parse(license);
      if IsUnknown(e) then "NOASSERTION"
      else if e.operator == OrOperator && |e.ids| > 1 then Join(" OR ", e.ids)
      else if e.operator == AndOperator && |e.ids| > 1 then Join(" AND ", e.ids)
      else if e.exceptions != [] then e.ids[0] + " WITH " + e.exceptions[0]
      else e.ids[0]
  }

  /** The tree that a printed declaration is. */
  function OrTree(ids: seq<string>): License
    requires ids != []
  {
    if |ids| == 1 then Id(ids[0]) else Or(Id(ids[0]), OrTree(ids[1..]), Word)
  }

  function AndTree(ids: seq<string>): License
    requires ids != []
  {
    if |ids| == 1 then Id(ids[0]) else And(Id(ids[0]), AndTree(ids[1..]))
  }

  predicate AllNames(ids: seq<string>) { forall id | id in ids :: IsName(id) }

  lemma {:induction false} OrTreeIs(sets: PolicySets, ids: seq<string>)
    requires ids != [] && AllNames(ids)
    ensures ValidTree(OrTree(ids)) && Print(OrTree(ids)) == Join(" OR ", ids)
    ensures Meaning(sets, OrTree(ids)) == Best(sets, ids)
    ensures !UsesAnd(OrTree(ids)) && (OrTree(ids).Id? <==> |ids| == 1)
  {
    assert ids[0] in ids && forall id | id in ids[1..] :: id in ids;
    if |ids| > 1 {
      OrTreeIs(sets, ids[1..]);
    }
  }

  lemma {:induction false} AndTreeIs(sets: PolicySets, ids: seq<string>)
    requires ids != [] && AllNames(ids)
    ensures ValidTree(AndTree(ids)) && Print(AndTree(ids)) == Join(" AND ", ids)
    ensures Meaning(sets, AndTree(ids)) == Worst(sets, ids)
    ensures !UsesOr(AndTree(ids)) && (AndTree(ids).Id? <==> |ids| == 1)
  {
    assert ids[0] in ids && forall id | id in ids[1..] :: id in ids;
    if |ids| > 1 {
      AndTreeIs(sets, ids[1..]);
    }
  }

  // ----- every identifier the parser returns is a name

  predicate TokenShape(token: string) { IdText(token) || token == "(" || token == ")" }

  lemma {:induction false} TokensShaped(s: string)
    ensures forall t | t in Tokens(s) :: TokenShape(t)
    decreases |s|
  {
    if s != "" {
      var k := if IsIdChar(s[0]) then RunLength(s, IsIdChar) else 1;
      TokensShaped(s[k..]);
      forall t | t in Tokens(s) ensures TokenShape(t) {
        assert t == s[..k] || t in Tokens(s[k..]);
      }
    }
  }

  lemma {:induction false} ScannedNames(st: Scan, tokens: seq<string>)
    requires AllNames(st.ids) && AllNames(st.exceptions)
    requires forall t | t in tokens :: TokenShape(t)
    ensures AllNames(ScanTokens(st, tokens).ids) && AllNames(ScanTokens(st, tokens).exceptions)
    decreases |tokens|
  {
    if tokens != [] && st.refused.None? {
      assert tokens[0] in tokens && forall t | t in tokens[1..] :: t in tokens;
      ScannedNames(ScanToken(st, tokens[0]), tokens[1..]);
    }
  }

  lemma ParsedNames(raw: string)
    ensures AllNames(Parse(raw).ids) && AllNames(Parse(raw).exceptions)
  {
    TokensShaped(StripParens(Clean(raw)));
    ScannedNames(START, Tokens(StripParens(Clean(raw))));
    hide Clean, StripParens, Tokens, ScanTokens, IsName;
  }

  lemma ReservedIsUnknown(w: string)
    requires IdText(w) && Reserved(w)
    ensures IsUnknown(Parse(w))
  {
    CleanOfId(w);
    hide Clean, Reserved, IdText;
  }

  lemma MissingIsUnknown()
    ensures IsUnknown(Parse("")) && IsUnknown(Parse("UNKNOWN")) && IsUnknown(Parse("NOASSERTION"))
  {
    EmptyIsUnknown();
    ReservedSpellings();
    hide Parse, Reserved, IdText;
    ReservedIsUnknown("UNKNOWN");
    ReservedIsUnknown("NOASSERTION");
  }

  lemma EmptyIsUnknown()
    ensures IsUnknown(Parse(""))
  {
    assert Strip("") == "";
    hide Strip, ScanTokens, Tokens, StripParens;
  }

  lemma ReservedSpellings()
    ensures IdText("UNKNOWN") && Reserved("UNKNOWN") && IdText("NOASSERTION") && Reserved("NOASSERTION")
  {
    assert Upper("UNKNOWN") == "UNKNOWN" && Upper("NOASSERTION") == "NOASSERTION";
  }

  /** The expressions whose printed declaration keeps their class under every policy: unknown ones,
      real ORs and ANDs, and lists of one and the same identifier that does not print as a reserved word. */
  predicate DeclaredFaithfully(raw: string) {
    var e := Parse(raw);
    || IsUnknown(e)
    || (e.operator != NoOperator && |e.ids| > 1)
    || ((forall id | id in e.ids :: id == e.ids[0]) && (e.exceptions != [] || !Reserved(e.ids[0])))
  }

  /** What the printed declaration is classified as. */
  lemma DeclaredClass(sets: PolicySets, raw: string)
    ensures var e := Parse(raw);
            Classify(sets, DeclaredLicense(raw)) ==
            if IsUnknown(e) then UnknownClass(sets)
            else if e.operator != NoOperator && |e.ids| > 1 then ClassOf(sets, e)
            else if e.exceptions == [] && Reserved(e.ids[0]) then UnknownClass(sets)
            else ClassifySingle(sets, e.ids[0])
  {
    hide Reserved, TokenShape, Clean;
    var e := Parse(raw);
    ParsedNames(raw);
    MissingIsUnknown();
    if IsUnknown(e) {
    } else if e.operator == OrOperator && |e.ids| > 1 {
      OrTreeIs(sets, e.ids);
      FlatteningKeepsMeaning(sets, OrTree(e.ids));
    } else if e.operator == AndOperator && |e.ids| > 1 {
      AndTreeIs(sets, e.ids);
      FlatteningKeepsMeaning(sets, AndTree(e.ids));
    } else {
      var first := e.ids[0];
      assert first in e.ids;
      if e.exceptions != [] {
        assert e.exceptions[0] in e.exceptions;
        FlatteningKeepsMeaning(sets, With(first, e.exceptions[0]));
      } else {
        FlatteningKeepsMeaning(sets, Id(first));
      }
    }
  }

  lemma {:induction false} SameIds(sets: PolicySets, ids: seq<string>)
    requires ids != [] && forall id | id in ids :: id == ids[0]
    ensures Best(sets, ids) == Worst(sets, ids) == ClassifySingle(sets, ids[0])
  {
    if |ids| > 1 {
      assert ids[1] in ids && forall id | id in ids[1..] :: id in ids;
      SameIds(sets, ids[1..]);
    }
  }

  /** A policy that tells an expression that is not declared faithfully from its declaration. */
  lemma {:induction false} Witness(raw: string) returns (sets: PolicySets)
    requires !DeclaredFaithfully(raw)
    ensures Classify(sets, DeclaredLicense(raw)) != Classify(sets, raw)
  {
    var e := Parse(raw);
    hide Parse, Reserved, DeclaredLicense;
    if forall id | id in e.ids :: id == e.ids[0] {
      sets := PolicySets({e.ids[0]}, {}, {}, "block");
      SameIds(sets, e.ids);
    } else {
      var other :| other in e.ids && other != e.ids[0];
      sets := PolicySets({e.ids[0]}, {}, {other}, "allow");
      BestAndWorst(sets, e.ids, other);
    }
    DeclaredClass(sets, raw);
  }

  /** The printer's round trip, and exactly where it holds for every policy. */
  lemma DeclarationFaithfulExactlyWhen(raw: string)
    ensures (forall sets :: Classify(sets, DeclaredLicense(raw)) == Classify(sets, raw)) <==> DeclaredFaithfully(raw)
  {
    var e := Parse(raw);
    if DeclaredFaithfully(raw) {
      hide Parse, Reserved, DeclaredLicense;
      forall sets ensures Classify(sets, DeclaredLicense(raw)) == Classify(sets, raw) {
        DeclaredClass(sets, raw);
        if !IsUnknown(e) && forall id | id in e.ids :: id == e.ids[0] {
          SameIds(sets, e.ids);
        }
      }
    } else {
      var sets := Witness(raw);
    }
  }
}
