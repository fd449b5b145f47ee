/** The taint visitor of the Python analyzer, and a concrete semantics of taint it is compared
    with: what is tainted on an execution path when a shell call runs. */
module PythonTaint {
  import opened Strings

  // ----- syntax

  datatype Expr =
    | Name(id: string)
    | Constant(isTrue: bool)
    | Attribute(value: Expr, attr: string)
    | Subscript(value: Expr, index: Expr)
    | BinOp(left: Expr, right: Expr)
    | JoinedStr(pieces: seq<Piece>)
    | Call(func: Expr, args: seq<Expr>, keywords: seq<Keyword>, site: nat)
    | Other(children: seq<Expr>)

  /** A part of an f-string. */
  datatype Piece = Text | Formatted(value: Expr)

  datatype Keyword = Keyword(arg: Option<string>, value: Expr)

  datatype Stmt =
    | Assign(targets: seq<Expr>, value: Expr)
    | AugAssign(target: Expr, value: Expr)
    | ExprStmt(value: Expr)
    | If(test: Expr, body: seq<Stmt>, orelse: seq<Stmt>)
    | While(test: Expr, body: seq<Stmt>)

  datatype Function = Function(params: seq<string>, body: seq<Stmt>)

  // ----- tables

  const UNTRUSTED_SOURCES: set<string> := {
    "input", "sys.argv", "os.environ", "os.getenv",
    "request.args", "request.form", "request.data", "request.json",
    "request.values", "request.cookies", "request.headers",
    "flask.request.args", "flask.request.form"
  }

  const TAINT_PARAM_HINT_NAMES: set<string> := {"request", "req", "user_input", "raw_input", "payload", "data"}

  const SANITIZER_CALL_NAMES: set<string> := {
    "shlex.quote", "quote", "escape", "html.escape", "sanitize",
    "parameterize", "bleach.clean", "int", "float", "sanitize_input"
  }

  const SHELL_EXEC_FUNCS: set<string> := {
    "os.system", "os.popen", "subprocess.call", "subprocess.run",
    "subprocess.Popen", "subprocess.check_output", "subprocess.check_call",
    "commands.getoutput"
  }

  const ALWAYS_SHELL: set<string> := {"os.system", "os.popen", "commands.getoutput"}

  const DANGEROUS_EVAL_FUNCS: set<string> := {"eval", "exec", "compile"}

  const SQL_EXEC_METHODS: set<string> := {"execute", "executemany", "executescript", "raw"}

  const INSECURE_DESERIALIZE_FUNCS: set<string> := {
    "pickle.load", "pickle.loads", "cPickle.load", "cPickle.loads",
    "yaml.load", "marshal.load", "marshal.loads", "shelve.open"
  }

  predicate InTable(name: Option<string>, table: set<string>) { name.Some? && name.value in table }

  // ----- names

  /** `os.path.join` out of the attribute chain, if it ends in a name. */
  function DottedName(e: Expr): Option<string> {
    match e
    case Name(id) => Some(id)
    case Attribute(value, attr) =>
      (match DottedName(value)
       case None => None
       case Some(prefix) => Some(prefix + "." + attr))
    case _ => None
  }

  function CallName(c: Expr): Option<string>
    requires c.Call?
  {
    DottedName(c.func)
  }

  // ----- what the visitor takes to be tainted

  type Taint = map<string, string>

  predicate IsFormat(c: Expr)
    requires c.Call?
  {
    c.func.Attribute? && c.func.attr == "format"
  }

  /** The origin of the taint of an expression, if the visitor sees one. */
  function TaintOf(e: Expr, t: Taint): Option<string>
    decreases e, 1
  {
    match e
    case Name(id) => if id in t then Some(t[id]) else None
    case Attribute(_, _) =>
      if InTable(DottedName(e), UNTRUSTED_SOURCES) then Some("access of `" + DottedName(e).value + "`") else None
    case Subscript(value, _) => TaintOf(value, t)
    case BinOp(left, right) => if TaintOf(left, t).Some? then TaintOf(left, t) else TaintOf(right, t)
    case JoinedStr(pieces) => FirstTaintedPiece(pieces, t)
    case Call(func, args, _, _) =>
      if InTable(CallName(e), UNTRUSTED_SOURCES) then Some("call to `" + CallName(e).value + "`")
      else if InTable(CallName(e), SANITIZER_CALL_NAMES) then None
      else if IsFormat(e) then
        if TaintOf(func.value, t).Some? then TaintOf(func.value, t) else FirstTainted(args, t)
      else None
    case _ => None
  }

  function FirstTainted(es: seq<Expr>, t: Taint): Option<string>
    decreases es, 0
  {
    if es == [] then None
    else if TaintOf(es[0], t).Some? then TaintOf(es[0], t)
    else FirstTainted(es[1..], t)
  }

  function FirstTaintedPiece(pieces: seq<Piece>, t: Taint): Option<string>
    decreases pieces, 0
  {
    if pieces == [] then None
    else if PieceTaint(pieces[0], t).Some? then PieceTaint(pieces[0], t)
    else FirstTaintedPiece(pieces[1..], t)
  }

  function PieceTaint(p: Piece, t: Taint): Option<string>
    decreases p, 2
  {
    if p.Formatted? then TaintOf(p.value, t) else None
  }

  // ----- findings

  datatype Rule = CmdInjection | ShellTrue | EvalUse | SqlInjection | Deserialization

  datatype Finding = Finding(rule: Rule, site: nat, source: Option<string>)

  function KeywordValues(keywords: seq<Keyword>): (r: seq<Expr>)
    ensures |r| == |keywords| && forall i | 0 <= i < |r| :: r[i] == keywords[i].value
  {
    seq(|keywords|, i requires 0 <= i < |keywords| => keywords[i].value)
  }

  /** Positional arguments, then keyword values. */
  function Arguments(c: Expr): seq<Expr>
    requires c.Call?
  {
    c.args + KeywordValues(c.keywords)
  }

  predicate HasShellTrue(c: Expr)
    requires c.Call?
  {
    exists k | k in c.keywords :: k.arg == Some("shell") && k.value.Constant? && k.value.isTrue
  }

  predicate InterpretsShell(c: Expr)
    requires c.Call?
  {
    HasShellTrue(c) || InTable(CallName(c), ALWAYS_SHELL)
  }

  predicate IsShellCall(c: Expr)
    requires c.Call?
  {
    InTable(CallName(c), SHELL_EXEC_FUNCS)
  }

  predicate LooksDynamic(c: Expr)
    requires c.Call?
  {
    c.args != [] && (c.args[0].JoinedStr? || c.args[0].BinOp? || (c.args[0].Call? && IsFormat(c.args[0])))
  }

  predicate UsesSafeLoader(c: Expr)
    requires c.Call?
  {
    exists k | k in c.keywords ::
      k.arg == Some("Loader") && k.value.Attribute? && DottedName(k.value).Some?
          && Contains(DottedName(k.value).value, "SafeLoader")
  }

  function ShellFindings(c: Expr, t: Taint): seq<Finding>
    requires c.Call?
  {
    var source := FirstTainted(Arguments(c), t);
    if source.Some? && InterpretsShell(c) then [Finding(CmdInjection, c.site, source)]
    else if InterpretsShell(c) then [Finding(ShellTrue, c.site, None)]
    else []
  }

  /** What one call adds, by the first table its name is in. */
  function CallFindings(c: Expr, t: Taint): seq<Finding>
    requires c.Call?
  {
    if IsShellCall(c) then ShellFindings(c, t)
    else if InTable(CallName(c), DANGEROUS_EVAL_FUNCS) then [Finding(EvalUse, c.site, FirstTainted(Arguments(c), t))]
    else if CallName(c).Some? && c.func.Attribute? && c.func.attr in SQL_EXEC_METHODS then
      if FirstTainted(Arguments(c), t).Some? || LooksDynamic(c) then
          [Finding(SqlInjection, c.site, FirstTainted(Arguments(c), t))] else []
    else if InTable(CallName(c), INSECURE_DESERIALIZE_FUNCS) then
      if CallName(c).value == "yaml.load" && UsesSafeLoader(c) then [] else [Finding(Deserialization, c.site, None)]
    else []
  }

  /** Every call of an expression, outside in. */
  function ExprFindings(e: Expr, t: Taint): seq<Finding>
    decreases e, 1
  {
    match e
    case Name(_) => []
    case Constant(_) => []
    case Attribute(value, _) => ExprFindings(value, t)
    case Subscript(value, index) => ExprFindings(value, t) + ExprFindings(index, t)
    case BinOp(left, right) => ExprFindings(left, t) + ExprFindings(right, t)
    case JoinedStr(pieces) => PieceFindings(pieces, t)
    case Call(func, args, keywords, _) =>
      CallFindings(e, t) + ExprFindings(func, t) + ExprsFindings(args, t) + KeywordFindings(keywords, t)
    case Other(children) => ExprsFindings(children, t)
  }

  function ExprsFindings(es: seq<Expr>, t: Taint): seq<Finding>
    decreases es, 0
  {
    if es == [] then [] else ExprFindings(es[0], t) + ExprsFindings(es[1..], t)
  }

  function PieceFindings(pieces: seq<Piece>, t: Taint): seq<Finding>
    decreases pieces, 0
  {
    if pieces == [] then [] else OnePieceFindings(pieces[0], t) + PieceFindings(pieces[1..], t)
  }

  function OnePieceFindings(p: Piece, t: Taint): seq<Finding>
    decreases p, 2
  {
    if p.Formatted? then ExprFindings(p.value, t) else []
  }

  function KeywordFindings(keywords: seq<Keyword>, t: Taint): seq<Finding>
    decreases keywords, 0
  {
    if keywords == [] then [] else OneKeywordFindings(keywords[0], t) + KeywordFindings(keywords[1..], t)
  }

  function OneKeywordFindings(k: Keyword, t: Taint): seq<Finding>
    decreases k, 2
  {
    ExprFindings(k.value, t)
  }

  // ----- statements

  /** Names among the targets get the origin of the value; nothing is ever removed. */
  function MarkTargets(targets: seq<Expr>, source: string, t: Taint): Taint {
    if targets == [] then t
    else MarkTargets(targets[1..], source, if targets[0].Name? then t[targets[0].id := source] else t)
  }

  function AfterAssign(targets: seq<Expr>, value: Expr, t: Taint): Taint {
    match TaintOf(value, t)
    case None => t
    case Some(source) => MarkTargets(targets, source, t)
  }

  datatype Visited = Visited(tainted: Taint, findings: seq<Finding>)

  function VisitStmt(s: Stmt, t: Taint): Visited
    decreases s, 1
  {
    match s
    case Assign(targets, value) =>
      var t' := AfterAssign(targets, value, t);
      Visited(t', ExprsFindings(targets, t') + ExprFindings(value, t'))
    case AugAssign(target, value) => Visited(t, ExprFindings(target, t) + ExprFindings(value, t))
    case ExprStmt(value) => Visited(t, ExprFindings(value, t))
    case If(test, body, orelse) =>
      var b := VisitBody(body, t);
      var o := VisitBody(orelse, b.tainted);
      Visited(o.tainted, ExprFindings(test, t) + b.findings + o.findings)
    case While(test, body) =>
      var b := VisitBody(body, t);
      Visited(b.tainted, ExprFindings(test, t) + b.findings)
  }

  function VisitBody(body: seq<Stmt>, t: Taint): Visited
    decreases body, 0
  {
    if body == [] then Visited(t, [])
    else
      var first := VisitStmt(body[0], t);
      var rest := VisitBody(body[1..], first.tainted);
      Visited(rest.tainted, first.findings + rest.findings)
  }

  predicate IsHint(param: string) { param in TAINT_PARAM_HINT_NAMES || Contains(Lower(param), "req") }

  function ParamTaint(params: seq<string>, t: Taint): Taint {
    if params == [] then t
    else ParamTaint(params[1..], if IsHint(params[0]) then t[params[0] := "function parameter `" + params[0] + "`"]
        else t)
  }

  // ----- the visitor object

  class FunctionTaintVisitor {
    var tainted: Taint
    var findings: seq<Finding>

    constructor (shared: seq<Finding>)
      ensures tainted == map[] && findings == shared
    {
      tainted, findings := map[], shared;
    }

    method MarkParamTainted(params: seq<string>)
      modifies this`tainted
      ensures tainted == ParamTaint(params, old(tainted))
    {
      hide IsHint;
      for i := 0 to |params|
        invariant ParamTaint(params, old(tainted)) == ParamTaint(params[i..], tainted)
      {
        assert params[i..][0] == params[i] && params[i..][1..] == params[i + 1..];
        if IsHint(params[i]) {
          tainted := tainted[params[i] := "function parameter `" + params[i] + "`"];
        }
      }
      assert params[|params|..] == [];
    }

    /** The checks of `visit_Call`, without the visit of the children. */
    method CheckCall(c: Expr)
      requires c.Call?
      modifies this`findings
      ensures findings == old(findings) + CallFindings(c, tainted)
    {
      hide InTable, CallName, UsesSafeLoader, LooksDynamic, InterpretsShell, FirstTainted, Arguments;
      var name, source := CallName(c), FirstTainted(Arguments(c), tainted);
      if InTable(name, SHELL_EXEC_FUNCS) {
        if source.Some? && InterpretsShell(c) {
          findings := findings + [Finding(CmdInjection, c.site, source)];
        } else if InterpretsShell(c) {
          findings := findings + [Finding(ShellTrue, c.site, None)];
        }
      } else if InTable(name, DANGEROUS_EVAL_FUNCS) {
        findings := findings + [Finding(EvalUse, c.site, source)];
      } else if name.Some? && c.func.Attribute? && c.func.attr in SQL_EXEC_METHODS {
        if source.Some? || LooksDynamic(c) {
          findings := findings + [Finding(SqlInjection, c.site, source)];
        }
      } else if InTable(name, INSECURE_DESERIALIZE_FUNCS) {
        assert name.Some? by { TableNames(name, INSECURE_DESERIALIZE_FUNCS); }
        if !(name.value == "yaml.load" && UsesSafeLoader(c)) {
          findings := findings + [Finding(Deserialization, c.site, None)];
        }
      }
    }

    method VisitExpr(e: Expr)
      modifies this`findings
      ensures findings == old(findings) + ExprFindings(e, tainted)
      decreases e, 1
    {
      hide CallFindings;
      match e
      case Name(_) =>
      case Constant(_) =>
      case Attribute(value, _) =>
        VisitExpr(value);
      case Subscript(value, index) =>
        VisitExpr(value);
        VisitExpr(index);
      case BinOp(left, right) =>
        VisitExpr(left);
        VisitExpr(right);
      case JoinedStr(pieces) =>
        VisitPieces(pieces);
      case Call(func, args, keywords, _) =>
        CheckCall(e);
        VisitExpr(func);
        VisitExprs(args);
        VisitKeywords(keywords);
      case Other(children) =>
        VisitExprs(children);
    }

    method VisitExprs(es: seq<Expr>)
      modifies this`findings
      ensures findings == old(findings) + ExprsFindings(es, tainted)
      decreases es, 0
    {
      hide ExprFindings;
      for i := 0 to |es|
        invariant old(findings) + ExprsFindings(es, tainted) == findings + ExprsFindings(es[i..], tainted)
      {
        assert es[i..][0] == es[i] && es[i..][1..] == es[i + 1..];
        VisitExpr(es[i]);
      }
      assert es[|es|..] == [];
    }

    method VisitPieces(pieces: seq<Piece>)
      modifies this`findings
      ensures findings == old(findings) + PieceFindings(pieces, tainted)
      decreases pieces, 0
    {
      hide OnePieceFindings;
      for i := 0 to |pieces|
        invariant old(findings) + PieceFindings(pieces, tainted) == findings + PieceFindings(pieces[i..], tainted)
      {
        assert pieces[i..][0] == pieces[i] && pieces[i..][1..] == pieces[i + 1..];
        VisitPiece(pieces[i]);
      }
      assert pieces[|pieces|..] == [];
    }

    method VisitPiece(p: Piece)
      modifies this`findings
      ensures findings == old(findings) + OnePieceFindings(p, tainted)
      decreases p, 2
    {
      if p.Formatted? {
        VisitExpr(p.value);
      }
    }

    method VisitKeywords(keywords: seq<Keyword>)
      modifies this`findings
      ensures findings == old(findings) + KeywordFindings(keywords, tainted)
      decreases keywords, 0
    {
      hide OneKeywordFindings;
      for i := 0 to |keywords|
        invariant old(findings) + KeywordFindings(keywords, tainted)
            == findings + KeywordFindings(keywords[i..], tainted)
      {
        assert keywords[i..][0] == keywords[i] && keywords[i..][1..] == keywords[i + 1..];
        VisitKeyword(keywords[i]);
      }
      assert keywords[|keywords|..] == [];
    }

    method VisitKeyword(k: Keyword)
      modifies this`findings
      ensures findings == old(findings) + OneKeywordFindings(k, tainted)
      decreases k, 2
    {
      VisitExpr(k.value);
    }

    method VisitAssign(targets: seq<Expr>, value: Expr)
      modifies this
      ensures tainted == AfterAssign(targets, value, old(tainted))
      ensures findings == old(findings) + (ExprsFindings(targets, tainted) + ExprFindings(value, tainted))
    {
      hide TaintOf, ExprFindings, ExprsFindings;
      var source := TaintOf(value, tainted);
      if source.Some? {
        for i := 0 to |targets|
          invariant findings == old(findings)
          invariant MarkTargets(targets, source.value, old(tainted)) == MarkTargets(targets[i..], source.value, tainted)
        {
          assert targets[i..][0] == targets[i] && targets[i..][1..] == targets[i + 1..];
          if targets[i].Name? {
            tainted := tainted[targets[i].id := source.value];
          }
        }
        assert targets[|targets|..] == [];
      }
      VisitExprs(targets);
      VisitExpr(value);
    }

    method Visit(s: Stmt)
      modifies this
      ensures tainted == VisitStmt(s, old(tainted)).tainted
      ensures findings == old(findings) + VisitStmt(s, old(tainted)).findings
      decreases s, 1
    {
      hide ExprFindings, ExprsFindings, AfterAssign;
      match s
      case Assign(targets, value) =>
        VisitAssign(targets, value);
      case AugAssign(target, value) =>
        VisitExpr(target);
        VisitExpr(value);
      case ExprStmt(value) =>
        VisitExpr(value);
      case If(test, body, orelse) =>
        VisitExpr(test);
        VisitStmts(body);
        VisitStmts(orelse);
      case While(test, body) =>
        VisitExpr(test);
        VisitStmts(body);
    }

    method VisitStmts(body: seq<Stmt>)
      modifies this
      ensures tainted == VisitBody(body, old(tainted)).tainted
      ensures findings == old(findings) + VisitBody(body, old(tainted)).findings
      decreases body, 0
    {
      hide VisitStmt;
      for i := 0 to |body|
        invariant VisitBody(body, old(tainted)).tainted == VisitBody(body[i..], tainted).tainted
        invariant old(findings) + VisitBody(body, old(tainted)).findings
            == findings + VisitBody(body[i..], tainted).findings
      {
        assert body[i..][0] == body[i] && body[i..][1..] == body[i + 1..];
        Visit(body[i]);
      }
      assert body[|body|..] == [];
    }
  }

  lemma TableNames(name: Option<string>, table: set<string>)
    requires InTable(name, table)
    ensures name.Some?
  {
  }

  // ----- one file

  /** What the pass over one function reports. */
  function FunctionFindings(f: Function): seq<Finding> { VisitBody(f.body, ParamTaint(f.params, map[])).findings }

  function AllFunctionFindings(fs: seq<Function>): seq<Finding> {
    if fs == [] then [] else FunctionFindings(fs[0]) + AllFunctionFindings(fs[1..])
  }

  /** Every function with a fresh visitor, then the statements of the module; all visitors append to
      the same list. */
  method ScanFile(functions: seq<Function>, moduleBody: seq<Stmt>,
          structural: seq<Finding>) returns (findings: seq<Finding>)
    ensures findings == structural + AllFunctionFindings(functions) + VisitBody(moduleBody, map[]).findings
  {
    hide VisitBody, ParamTaint;
    findings := structural;
    for i := 0 to |functions|
      invariant structural + AllFunctionFindings(functions) == findings + AllFunctionFindings(functions[i..])
    {
      var f := functions[i];
      assert functions[i..][0] == f && functions[i..][1..] == functions[i + 1..];
      var visitor := new FunctionTaintVisitor(findings);
      visitor.MarkParamTainted(f.params);
      visitor.VisitStmts(f.body);
      findings := visitor.findings;
    }
    assert functions[|functions|..] == [];
    NoStatements();
    if moduleBody != [] {
      var visitor := new FunctionTaintVisitor(findings);
      visitor.VisitStmts(moduleBody);
      findings := visitor.findings;
    }
  }

  lemma NoStatements()
    ensures VisitBody([], map[]).findings == []
  {
  }
}
