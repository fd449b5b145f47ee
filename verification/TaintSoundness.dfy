/** A concrete semantics of taint - which variables hold attacker-controlled data along one
    execution path - and the theorem that the visitor misses no tainted shell call. */
module TaintSoundness {
  import opened Strings
  import opened PythonTaint

  // ----- expressions

  type Env = set<string>

  /** Whether the value of the expression can be attacker-controlled. A part hands its taint on to
      the whole, through attributes, methods called on it and every other form too; a function that
      is neither a source nor a method returns fresh data, since the analysis looks at one function
      at a time. */
  predicate Tainted(e: Expr, env: Env)
    decreases e, 1
  {
    match e
    case Name(id) => id in env
    case Attribute(value, _) => InTable(DottedName(e), UNTRUSTED_SOURCES) || Tainted(value, env)
    case Subscript(value, _) => Tainted(value, env)
    case BinOp(left, right) => Tainted(left, env) || Tainted(right, env)
    case JoinedStr(pieces) => AnyPieceTainted(pieces, env)
    case Call(func, args, keywords, _) =>
      if InTable(CallName(e), UNTRUSTED_SOURCES) then true
      else if InTable(CallName(e), SANITIZER_CALL_NAMES) then false
      else if IsFormat(e) then Tainted(func.value, env) || AnyTainted(args, env) || AnyKeywordTainted(keywords, env)
      else func.Attribute? && Tainted(func.value, env)
    case Other(children) => AnyTainted(children, env)
    case Constant(_) => false
  }

  predicate AnyTainted(es: seq<Expr>, env: Env)
    decreases es, 0
  {
    es != [] && (Tainted(es[0], env) || AnyTainted(es[1..], env))
  }

  predicate AnyPieceTainted(pieces: seq<Piece>, env: Env)
    decreases pieces, 0
  {
    pieces != [] && (PieceTainted(pieces[0], env) || AnyPieceTainted(pieces[1..], env))
  }

  predicate PieceTainted(p: Piece, env: Env)
    decreases p, 2
  {
    p.Formatted? && Tainted(p.value, env)
  }

  predicate AnyKeywordTainted(keywords: seq<Keyword>, env: Env)
    decreases keywords, 0
  {
    keywords != [] && (KeywordTainted(keywords[0], env) || AnyKeywordTainted(keywords[1..], env))
  }

  predicate KeywordTainted(k: Keyword, env: Env)
    decreases k, 2
  {
    Tainted(k.value, env)
  }

  /** The call hands its arguments to a shell: by one of the functions that always do, or by a
      `subprocess` function with the keyword argument `shell=True`. */
  predicate RunsShell(c: Expr)
    requires c.Call?
  {
    var f := DottedName(c.func);
    || f == Some("os.system") || f == Some("os.popen") || f == Some("commands.getoutput")
    || (&& (|| f == Some("subprocess.run") || f == Some("subprocess.call") || f == Some("subprocess.Popen")
            || f == Some("subprocess.check_output") || f == Some("subprocess.check_call"))
        && Keyword(Some("shell"), Constant(true)) in c.keywords)
  }

  /** Sites of the shell-interpreting calls that receive a tainted argument when the expression is
      evaluated. */
  function ExprHits(e: Expr, env: Env): set<nat>
    decreases e, 1
  {
    match e
    case Attribute(value, _) => ExprHits(value, env)
    case Subscript(value, index) => ExprHits(value, env) + ExprHits(index, env)
    case BinOp(left, right) => ExprHits(left, env) + ExprHits(right, env)
    case JoinedStr(pieces) => PiecesHits(pieces, env)
    case Call(func, args, keywords, site) =>
      CallHit(e, env) + ExprHits(func, env) + ExprsHits(args, env) + KeywordsHits(keywords, env)
    case Other(children) => ExprsHits(children, env)
    case _ => {}
  }

  function CallHit(c: Expr, env: Env): set<nat>
    requires c.Call?
    decreases c, 0
  {
    if RunsShell(c) && (AnyTainted(c.args, env) || AnyKeywordTainted(c.keywords, env))
    then {c.site} else {}
  }

  function ExprsHits(es: seq<Expr>, env: Env): set<nat>
    decreases es, 0
  {
    if es == [] then {} else ExprHits(es[0], env) + ExprsHits(es[1..], env)
  }

  function PiecesHits(pieces: seq<Piece>, env: Env): set<nat>
    decreases pieces, 0
  {
    if pieces == [] then {} else PieceHits(pieces[0], env) + PiecesHits(pieces[1..], env)
  }

  function PieceHits(p: Piece, env: Env): set<nat>
    decreases p, 2
  {
    if p.Formatted? then ExprHits(p.value, env) else {}
  }

  function KeywordsHits(keywords: seq<Keyword>, env: Env): set<nat>
    decreases keywords, 0
  {
    if keywords == [] then {} else KeywordHits(keywords[0], env) + KeywordsHits(keywords[1..], env)
  }

  function KeywordHits(k: Keyword, env: Env): set<nat>
    decreases k, 2
  {
    ExprHits(k.value, env)
  }

  // ----- statements along one path

  /** The names a target binds; a tuple binds the names in it. */
  function TargetNames(target: Expr): set<string>
    decreases target, 1
  {
    match target
    case Name(id) => {id}
    case Other(children) => TargetsNames(children)
    case _ => {}
  }

  function TargetsNames(targets: seq<Expr>): set<string>
    decreases targets, 0
  {
    if targets == [] then {} else TargetNames(targets[0]) + TargetsNames(targets[1..])
  }

  /** After part of a path: the tainted variables, the tainted shell calls so far, and the branch
      decisions that are left. */
  datatype Run = Run(env: Env, hits: set<nat>, rest: seq<bool>)

  function RunStmt(s: Stmt, env: Env, choices: seq<bool>): (r: Run)
    ensures |r.rest| <= |choices|
    decreases s, 2, 0
  {
    match s
    case Assign(targets, value) =>
      var names := TargetsNames(targets);
      Run(if Tainted(value, env) then env + names else env - names, ExprHits(value, env)
          + ExprsHits(targets, env), choices)
    case AugAssign(target, value) =>
      Run(if Tainted(value, env) then env + TargetNames(target)
          else env, ExprHits(target, env) + ExprHits(value, env), choices)
    case ExprStmt(value) => Run(env, ExprHits(value, env), choices)
    case If(test, body, orelse) =>
      var taken := choices != [] && choices[0];
      var rest := if choices == [] then [] else choices[1..];
      var r := if taken then RunBody(body, env, rest) else RunBody(orelse, env, rest);
      r.(hits := ExprHits(test, env) + r.hits)
    case While(_, _) => RunLoop(s, env, choices)
  }

  /** One more round for every leading `true`. */
  function RunLoop(s: Stmt, env: Env, choices: seq<bool>): (r: Run)
    requires s.While?
    ensures |r.rest| <= |choices|
    decreases s, 1, |choices|
  {
    if choices == [] || !choices[0] then
      Run(env, ExprHits(s.test, env), if choices == [] then [] else choices[1..])
    else
      var round := RunBody(s.body, env, choices[1..]);
      var later := RunLoop(s, round.env, round.rest);
      later.(hits := ExprHits(s.test, env) + round.hits + later.hits)
  }

  function RunBody(body: seq<Stmt>, env: Env, choices: seq<bool>): (r: Run)
    ensures |r.rest| <= |choices|
    decreases body, 0, 0
  {
    if body == [] then Run(env, {}, choices)
    else
      var first := RunStmt(body[0], env, choices);
      var later := RunBody(body[1..], first.env, first.rest);
      later.(hits := first.hits + later.hits)
  }

  // ----- the programs the visitor covers

  /** The names whose taint reaches the value of the expression. */
  function Carriers(e: Expr): set<string>
    decreases e, 1
  {
    match e
    case Name(id) => {id}
    case Attribute(value, _) => if InTable(DottedName(e), UNTRUSTED_SOURCES) then {} else Carriers(value)
    case Subscript(value, _) => Carriers(value)
    case BinOp(left, right) => Carriers(left) + Carriers(right)
    case JoinedStr(pieces) => PiecesCarriers(pieces)
    case Call(func, args, keywords, _) =>
      if InTable(CallName(e), UNTRUSTED_SOURCES) || InTable(CallName(e), SANITIZER_CALL_NAMES) then {}
      else if IsFormat(e) then Carriers(func.value) + AllCarriers(args) + KeywordsCarriers(keywords)
      else if func.Attribute? then Carriers(func.value)
      else {}
    case Other(children) => AllCarriers(children)
    case Constant(_) => {}
  }

  function AllCarriers(es: seq<Expr>): set<string>
    decreases es, 0
  {
    if es == [] then {} else Carriers(es[0]) + AllCarriers(es[1..])
  }

  function PiecesCarriers(pieces: seq<Piece>): set<string>
    decreases pieces, 0
  {
    if pieces == [] then {} else PieceCarriers(pieces[0]) + PiecesCarriers(pieces[1..])
  }

  function PieceCarriers(p: Piece): set<string>
    decreases p, 2
  {
    if p.Formatted? then Carriers(p.value) else {}
  }

  function KeywordsCarriers(keywords: seq<Keyword>): set<string>
    decreases keywords, 0
  {
    if keywords == [] then {} else KeywordCarriers(keywords[0]) + KeywordsCarriers(keywords[1..])
  }

  function KeywordCarriers(k: Keyword): set<string>
    decreases k, 2
  {
    Carriers(k.value)
  }

  /** Those of them that stand where the visitor looks: not in attributes, objects of method calls,
      keyword arguments of `format` and other forms. */
  function SeenCarriers(e: Expr): set<string>
    decreases e, 1
  {
    match e
    case Name(id) => {id}
    case Subscript(value, _) => SeenCarriers(value)
    case BinOp(left, right) => SeenCarriers(left) + SeenCarriers(right)
    case JoinedStr(pieces) => PiecesSeen(pieces)
    case Call(func, args, _, _) =>
      if InTable(CallName(e), UNTRUSTED_SOURCES) || InTable(CallName(e), SANITIZER_CALL_NAMES) then {}
      else if IsFormat(e) then SeenCarriers(func.value) + AllSeen(args)
      else {}
    case _ => {}
  }

  function AllSeen(es: seq<Expr>): set<string>
    decreases es, 0
  {
    if es == [] then {} else SeenCarriers(es[0]) + AllSeen(es[1..])
  }

  function PiecesSeen(pieces: seq<Piece>): set<string>
    decreases pieces, 0
  {
    if pieces == [] then {} else PieceSeen(pieces[0]) + PiecesSeen(pieces[1..])
  }

  function PieceSeen(p: Piece): set<string>
    decreases p, 2
  {
    if p.Formatted? then SeenCarriers(p.value) else {}
  }

  /** A source reaches the value, or one of the tainted names does. */
  predicate HasTaint(e: Expr, env: Env) { Tainted(e, {}) || Carriers(e) * env != {} }

  /** The same where the visitor looks. */
  predicate SeenTaint(e: Expr, env: Env) { TaintOf(e, map[]).Some? || SeenCarriers(e) * env != {} }

  /** What taint the value has does not escape the visitor. */
  predicate InSight(e: Expr, env: Env) { SeenTaint(e, env) || !HasTaint(e, env) }

  /** One argument has visible taint, or none has any. */
  predicate ArgumentsInSight(c: Expr, env: Env)
    requires c.Call?
  {
    (exists a | a in Arguments(c) :: SeenTaint(a, env)) || forall a | a in Arguments(c) :: !HasTaint(a, env)
  }

  /** Every shell call in the expression has its arguments in sight. */
  predicate CoveredExpr(e: Expr, env: Env)
    decreases e, 1
  {
    match e
    case Attribute(value, _) => CoveredExpr(value, env)
    case Subscript(value, index) => CoveredExpr(value, env) && CoveredExpr(index, env)
    case BinOp(left, right) => CoveredExpr(left, env) && CoveredExpr(right, env)
    case JoinedStr(pieces) => CoveredPieces(pieces, env)
    case Call(func, args, keywords, _) =>
      && (RunsShell(e) ==> ArgumentsInSight(e, env))
      && CoveredExpr(func, env) && CoveredExprs(args, env) && CoveredKeywords(keywords, env)
    case Other(children) => CoveredExprs(children, env)
    case _ => true
  }

  predicate CoveredExprs(es: seq<Expr>, env: Env)
    decreases es, 0
  {
    es != [] ==> CoveredExpr(es[0], env) && CoveredExprs(es[1..], env)
  }

  predicate CoveredPieces(pieces: seq<Piece>, env: Env)
    decreases pieces, 0
  {
    pieces != [] ==> CoveredPiece(pieces[0], env) && CoveredPieces(pieces[1..], env)
  }

  predicate CoveredPiece(p: Piece, env: Env)
    decreases p, 2
  {
    p.Formatted? ==> CoveredExpr(p.value, env)
  }

  predicate CoveredKeywords(keywords: seq<Keyword>, env: Env)
    decreases keywords, 0
  {
    keywords != [] ==> CoveredKeyword(keywords[0], env) && CoveredKeywords(keywords[1..], env)
  }

  predicate CoveredKeyword(k: Keyword, env: Env)
    decreases k, 2
  {
    CoveredExpr(k.value, env)
  }

  predicate AllNames(targets: seq<Expr>) { forall e | e in targets :: e.Name? }

  /** Plain name assignments of values in sight, expression statements, branches and loops, in the
      states the visitor meets them. */
  predicate CoveredStmt(s: Stmt, t: Taint)
    decreases s, 1
  {
    match s
    case Assign(targets, value) =>
      AllNames(targets) && InSight(value, t.Keys) && CoveredExpr(value, AfterAssign(targets, value, t).Keys)
    case AugAssign(_, _) => false
    case ExprStmt(value) => CoveredExpr(value, t.Keys)
    case If(test, body, orelse) =>
      CoveredExpr(test, t.Keys) && CoveredBody(body, t) && CoveredBody(orelse, VisitBody(body, t).tainted)
    case While(test, body) => CoveredExpr(test, t.Keys) && CoveredBody(body, t)
  }

  predicate CoveredBody(body: seq<Stmt>, t: Taint)
    decreases body, 0
  {
    body != [] ==> CoveredStmt(body[0], t) && CoveredBody(body[1..], VisitStmt(body[0], t).tainted)
  }

  predicate LoopFree(s: Stmt)
    decreases s, 1
  {
    match s
    case If(_, body, orelse) => LoopFreeBody(body) && LoopFreeBody(orelse)
    case While(_, _) => false
    case _ => true
  }

  predicate LoopFreeBody(body: seq<Stmt>)
    decreases body, 0
  {
    body != [] ==> LoopFree(body[0]) && LoopFreeBody(body[1..])
  }

  /** Visiting a loop body marks no variable that was not marked when the visitor got there. */
  predicate Settled(s: Stmt, t: Taint)
    decreases s, 1
  {
    match s
    case If(_, body, orelse) => SettledBody(body, t) && SettledBody(orelse, VisitBody(body, t).tainted)
    case While(_, body) => VisitBody(body, t).tainted.Keys == t.Keys && SettledBody(body, t)
    case _ => true
  }

  predicate SettledBody(body: seq<Stmt>, t: Taint)
    decreases body, 0
  {
    body != [] ==> Settled(body[0], t) && SettledBody(body[1..], VisitStmt(body[0], t).tainted)
  }

  // ----- expressions: the visitor's view and the concrete one

  /** What the visitor marks is tainted. */
  lemma {:induction false} MarkedIsTainted(e: Expr, t: Taint)
    ensures TaintOf(e, t).Some? ==> Tainted(e, t.Keys)
    decreases e, 1
  {
    hide InTable, DottedName;
    match e
    case Subscript(value, _) => MarkedIsTainted(value, t);
    case BinOp(left, right) => MarkedIsTainted(left, t); MarkedIsTainted(right, t);
    case JoinedStr(pieces) => MarkedPieceIsTainted(pieces, t);
    case Call(func, args, keywords, _) =>
      if IsFormat(e) {
        MarkedIsTainted(func.value, t);
        SomeMarkedIsTainted(args, t);
      }
    case _ =>
  }

  lemma {:induction false} SomeMarkedIsTainted(es: seq<Expr>, t: Taint)
    ensures FirstTainted(es, t).Some? ==> AnyTainted(es, t.Keys)
    decreases es, 0
  {
    hide TaintOf, Tainted;
    if es != [] {
      MarkedIsTainted(es[0], t);
      SomeMarkedIsTainted(es[1..], t);
    }
  }

  lemma {:induction false} MarkedPieceIsTainted(pieces: seq<Piece>, t: Taint)
    ensures FirstTaintedPiece(pieces, t).Some? ==> AnyPieceTainted(pieces, t.Keys)
    decreases pieces, 0
  {
    hide TaintOf, Tainted;
    if pieces != [] {
      PieceIsTainted(pieces[0], t);
      MarkedPieceIsTainted(pieces[1..], t);
    }
  }

  lemma {:induction false} PieceIsTainted(p: Piece, t: Taint)
    ensures PieceTaint(p, t).Some? ==> PieceTainted(p, t.Keys)
    decreases p, 2
  {
    hide TaintOf, Tainted;
    if p.Formatted? { MarkedIsTainted(p.value, t); }
  }

  /** The names decide: the value is tainted exactly when a source or a tainted name reaches it. */
  lemma {:induction false} CarriersDecide(e: Expr, env: Env)
    ensures Tainted(e, env) <==> HasTaint(e, env)
    decreases e, 1
  {
    hide InTable, DottedName;
    match e
    case Attribute(value, _) => CarriersDecide(value, env);
    case Subscript(value, _) => CarriersDecide(value, env);
    case BinOp(left, right) => CarriersDecide(left, env); CarriersDecide(right, env);
    case JoinedStr(pieces) => PiecesDecide(pieces, env);
    case Call(func, args, keywords, _) =>
      if func.Attribute? { CarriersDecide(func.value, env); }
      ListDecides(args, env);
      KeywordsDecide(keywords, env);
    case Other(children) => ListDecides(children, env);
    case _ =>
  }

  lemma {:induction false} ListDecides(es: seq<Expr>, env: Env)
    ensures AnyTainted(es, env) <==> AnyTainted(es, {}) || AllCarriers(es) * env != {}
    decreases es, 0
  {
    hide Tainted, Carriers;
    if es != [] {
      CarriersDecide(es[0], env);
      ListDecides(es[1..], env);
    }
  }

  lemma {:induction false} PiecesDecide(pieces: seq<Piece>, env: Env)
    ensures AnyPieceTainted(pieces, env) <==> AnyPieceTainted(pieces, {}) || PiecesCarriers(pieces) * env != {}
    decreases pieces, 0
  {
    hide PieceTainted, PieceCarriers;
    if pieces != [] {
      PieceDecides(pieces[0], env);
      PiecesDecide(pieces[1..], env);
    }
  }

  lemma {:induction false} PieceDecides(p: Piece, env: Env)
    ensures PieceTainted(p, env) <==> PieceTainted(p, {}) || PieceCarriers(p) * env != {}
    decreases p, 2
  {
    hide Tainted, Carriers;
    if p.Formatted? { CarriersDecide(p.value, env); }
  }

  lemma {:induction false} KeywordsDecide(keywords: seq<Keyword>, env: Env)
    ensures AnyKeywordTainted(keywords, env)
       <==> AnyKeywordTainted(keywords, {}) || KeywordsCarriers(keywords) * env != {}
    decreases keywords, 0
  {
    hide KeywordTainted, KeywordCarriers;
    if keywords != [] {
      KeywordDecides(keywords[0], env);
      KeywordsDecide(keywords[1..], env);
    }
  }

  lemma {:induction false} KeywordDecides(k: Keyword, env: Env)
    ensures KeywordTainted(k, env) <==> KeywordTainted(k, {}) || KeywordCarriers(k) * env != {}
    decreases k, 2
  {
    hide Tainted, Carriers;
    CarriersDecide(k.value, env);
  }

  /** So they do for the visitor. */
  lemma {:induction false} SeenDecide(e: Expr, t: Taint)
    ensures TaintOf(e, t).Some? <==> SeenTaint(e, t.Keys)
    decreases e, 1
  {
    hide InTable, DottedName;
    match e
    case Name(id) => assert id in t.Keys ==> id in {id} * t.Keys;
    case Subscript(value, _) => SeenDecide(value, t);
    case BinOp(left, right) => SeenDecide(left, t); SeenDecide(right, t);
    case JoinedStr(pieces) => PiecesSeenDecide(pieces, t);
    case Call(func, args, _, _) =>
      if func.Attribute? { SeenDecide(func.value, t); }
      ListSeenDecides(args, t);
    case _ =>
  }

  lemma {:induction false} ListSeenDecides(es: seq<Expr>, t: Taint)
    ensures FirstTainted(es, t).Some? <==> FirstTainted(es, map[]).Some? || AllSeen(es) * t.Keys != {}
    decreases es, 0
  {
    hide TaintOf, SeenCarriers;
    if es != [] {
      SeenDecide(es[0], t);
      ListSeenDecides(es[1..], t);
    }
  }

  lemma {:induction false} PiecesSeenDecide(pieces: seq<Piece>, t: Taint)
    ensures FirstTaintedPiece(pieces, t).Some?
       <==> FirstTaintedPiece(pieces, map[]).Some? || PiecesSeen(pieces) * t.Keys != {}
    decreases pieces, 0
  {
    hide PieceTaint, PieceSeen;
    if pieces != [] {
      PieceSeenDecides(pieces[0], t);
      PiecesSeenDecide(pieces[1..], t);
    }
  }

  lemma {:induction false} PieceSeenDecides(p: Piece, t: Taint)
    ensures PieceTaint(p, t).Some? <==> PieceTaint(p, map[]).Some? || PieceSeen(p) * t.Keys != {}
    decreases p, 2
  {
    hide TaintOf, SeenCarriers;
    if p.Formatted? { SeenDecide(p.value, t); }
  }

  /** Under given marks, the visitor is right about an expression exactly when its taint is in
      sight. */
  lemma TaintIsExact(e: Expr, t: Taint)
    ensures (TaintOf(e, t).Some? == Tainted(e, t.Keys)) <==> InSight(e, t.Keys)
  {
    hide TaintOf, Tainted, HasTaint, SeenTaint;
    CarriersDecide(e, t.Keys);
    SeenDecide(e, t);
    MarkedIsTainted(e, t);
  }

  /** The visitor is right about an expression under all marks exactly when it sees a source in it,
      or no source reaches the value and every name that does is seen. */
  lemma TaintIsExactExactlyWhen(e: Expr)
    ensures (forall t: Taint :: TaintOf(e, t).Some? == Tainted(e, t.Keys))
       <==> TaintOf(e, map[]).Some? || (!Tainted(e, {}) && Carriers(e) <= SeenCarriers(e))
  {
    hide TaintOf, Tainted, Carriers, SeenCarriers;
    var none: Taint := map[];
    assert none.Keys == {};
    if TaintOf(e, map[]).Some? || (!Tainted(e, {}) && Carriers(e) <= SeenCarriers(e)) {
      forall t: Taint ensures TaintOf(e, t).Some? == Tainted(e, t.Keys) { TaintIsExact(e, t); }
    }
    if forall t: Taint :: TaintOf(e, t).Some? == Tainted(e, t.Keys) {
      assert TaintOf(e, none).Some? == Tainted(e, none.Keys);
      forall x | x in Carriers(e) ensures x in SeenCarriers(e) || TaintOf(e, map[]).Some? {
        var t: Taint := map[x := ""];
        assert t.Keys == {x} && TaintOf(e, t).Some? == Tainted(e, t.Keys);
        CarriersDecide(e, t.Keys);
        SeenDecide(e, t);
        assert x in Carriers(e) * {x};
      }
    }
  }

  // ----- calls

  /** Sites with a command-injection finding. */
  function CmdSites(fs: seq<Finding>): set<nat> { set f | f in fs && f.rule == CmdInjection :: f.site }

  lemma CmdSitesConcat(a: seq<Finding>, b: seq<Finding>)
    ensures CmdSites(a + b) == CmdSites(a) + CmdSites(b)
  {
    assert forall f :: f in a + b <==> f in a || f in b;
  }

  lemma {:induction false} FirstIsSome(es: seq<Expr>, t: Taint)
    ensures FirstTainted(es, t).Some? <==> exists e | e in es :: TaintOf(e, t).Some?
  {
    if es != [] {
      FirstIsSome(es[1..], t);
      if e :| e in es[1..] && TaintOf(e, t).Some? { assert e in es; }
      if e :| e in es && TaintOf(e, t).Some? { assert e == es[0] || e in es[1..]; }
    }
  }

  lemma {:induction false} AnyIsSome(es: seq<Expr>, env: Env)
    ensures AnyTainted(es, env) <==> exists e | e in es :: Tainted(e, env)
  {
    if es != [] {
      AnyIsSome(es[1..], env);
      if e :| e in es[1..] && Tainted(e, env) { assert e in es; }
      if e :| e in es && Tainted(e, env) { assert e == es[0] || e in es[1..]; }
    }
  }

  lemma {:induction false} AnyKeywordIsSome(keywords: seq<Keyword>, env: Env)
    ensures AnyKeywordTainted(keywords, env) <==> AnyTainted(KeywordValues(keywords), env)
  {
    hide Tainted;
    if keywords != [] {
      AnyKeywordIsSome(keywords[1..], env);
      assert KeywordValues(keywords)[1..] == KeywordValues(keywords[1..]);
    }
  }

  /** Some argument of the call is tainted. */
  lemma ArgumentsTainted(c: Expr, env: Env)
    requires c.Call?
    ensures AnyTainted(c.args, env) || AnyKeywordTainted(c.keywords, env)
       <==> exists a | a in Arguments(c) :: Tainted(a, env)
  {
    hide Tainted, AnyTainted;
    AnyKeywordIsSome(c.keywords, env);
    AnyIsSome(c.args, env);
    AnyIsSome(KeywordValues(c.keywords), env);
    assert forall a :: a in Arguments(c) <==> a in c.args || a in KeywordValues(c.keywords);
  }

  lemma ShellCallsRunShells(c: Expr)
    requires c.Call?
    ensures IsShellCall(c) && InterpretsShell(c) <==> RunsShell(c)
  {
    ShellKeyword(c);
    hide HasShellTrue, DottedName;
  }

  lemma ShellKeyword(c: Expr)
    requires c.Call?
    ensures HasShellTrue(c) <==> Keyword(Some("shell"), Constant(true)) in c.keywords
  {
    assert forall k: Keyword | k.arg == Some("shell") && k.value.Constant? && k.value.isTrue ::
        k == Keyword(Some("shell"), Constant(true));
  }

  /** A shell-interpreting call has a command-injection finding exactly when it gets a tainted
      argument, exactly when its arguments are in sight. */
  lemma CallHitExactlyWhen(c: Expr, t: Taint)
    requires c.Call?
    ensures CmdSites(CallFindings(c, t)) == CallHit(c, t.Keys)
       <==> (RunsShell(c) ==> ArgumentsInSight(c, t.Keys))
  {
    ShellSites(c, t);
    FirstIsSome(Arguments(c), t);
    ArgumentsTainted(c, t.Keys);
    hide TaintOf, Tainted, AnyTainted, AnyKeywordTainted, RunsShell, CallFindings, CmdSites,
         Arguments, HasTaint, SeenTaint;
    forall a | a in Arguments(c)
      ensures TaintOf(a, t).Some? == SeenTaint(a, t.Keys) && Tainted(a, t.Keys) == HasTaint(a, t.Keys)
      ensures TaintOf(a, t).Some? ==> Tainted(a, t.Keys)
    {
      SeenDecide(a, t);
      CarriersDecide(a, t.Keys);
      MarkedIsTainted(a, t);
    }
  }

  lemma ShellSites(c: Expr, t: Taint)
    requires c.Call?
    ensures CmdSites(CallFindings(c, t))
         == if RunsShell(c) && FirstTainted(Arguments(c), t).Some? then {c.site} else {}
  {
    ShellCallsRunShells(c);
    hide TaintOf, InTable, CallName, UsesSafeLoader, LooksDynamic, HasShellTrue, Arguments, FirstTainted, RunsShell;
  }

  lemma {:induction false} HitsExact(e: Expr, t: Taint)
    requires CoveredExpr(e, t.Keys)
    ensures CmdSites(ExprFindings(e, t)) == ExprHits(e, t.Keys)
    decreases e, 1
  {
    hide CallFindings, CallHit, CmdSites, RunsShell, ArgumentsInSight;
    match e
    case Name(_) => NoSites();
    case Constant(_) => NoSites();
    case Attribute(value, _) => HitsExact(value, t);
    case Subscript(value, index) =>
      HitsExact(value, t);
      HitsExact(index, t);
      CmdSitesConcat(ExprFindings(value, t), ExprFindings(index, t));
    case BinOp(left, right) =>
      HitsExact(left, t);
      HitsExact(right, t);
      CmdSitesConcat(ExprFindings(left, t), ExprFindings(right, t));
    case JoinedStr(pieces) => PiecesHitsExact(pieces, t);
    case Call(func, args, keywords, _) =>
      CallHitExactlyWhen(e, t);
      HitsExact(func, t);
      ExprsHitsExact(args, t);
      KeywordsHitsExact(keywords, t);
      var a, b, c, d := CallFindings(e, t), ExprFindings(func, t), ExprsFindings(args, t), KeywordFindings(keywords, t);
      CmdSitesConcat(a, b);
      CmdSitesConcat(a + b, c);
      CmdSitesConcat(a + b + c, d);
    case Other(children) => ExprsHitsExact(children, t);
  }

  lemma NoSites()
    ensures CmdSites([]) == {}
  {
  }

  lemma {:induction false} ExprsHitsExact(es: seq<Expr>, t: Taint)
    requires CoveredExprs(es, t.Keys)
    ensures CmdSites(ExprsFindings(es, t)) == ExprsHits(es, t.Keys)
    decreases es, 0
  {
    hide ExprFindings, ExprHits, CmdSites;
    if es == [] {
      NoSites();
    } else {
      HitsExact(es[0], t);
      ExprsHitsExact(es[1..], t);
      CmdSitesConcat(ExprFindings(es[0], t), ExprsFindings(es[1..], t));
    }
  }

  lemma {:induction false} PiecesHitsExact(pieces: seq<Piece>, t: Taint)
    requires CoveredPieces(pieces, t.Keys)
    ensures CmdSites(PieceFindings(pieces, t)) == PiecesHits(pieces, t.Keys)
    decreases pieces, 0
  {
    hide OnePieceFindings, PieceHits, CmdSites;
    if pieces == [] {
      NoSites();
    } else {
      PieceHitsExact(pieces[0], t);
      PiecesHitsExact(pieces[1..], t);
      CmdSitesConcat(OnePieceFindings(pieces[0], t), PieceFindings(pieces[1..], t));
    }
  }

  lemma {:induction false} PieceHitsExact(p: Piece, t: Taint)
    requires CoveredPiece(p, t.Keys)
    ensures CmdSites(OnePieceFindings(p, t)) == PieceHits(p, t.Keys)
    decreases p, 2
  {
    hide ExprFindings, ExprHits, CmdSites;
    if p.Formatted? { HitsExact(p.value, t); } else { NoSites(); }
  }

  lemma {:induction false} KeywordsHitsExact(keywords: seq<Keyword>, t: Taint)
    requires CoveredKeywords(keywords, t.Keys)
    ensures CmdSites(KeywordFindings(keywords, t)) == KeywordsHits(keywords, t.Keys)
    decreases keywords, 0
  {
    hide OneKeywordFindings, KeywordHits, CmdSites;
    if keywords == [] {
      NoSites();
    } else {
      KeywordHitsExact(keywords[0], t);
      KeywordsHitsExact(keywords[1..], t);
      CmdSitesConcat(OneKeywordFindings(keywords[0], t), KeywordFindings(keywords[1..], t));
    }
  }

  lemma {:induction false} KeywordHitsExact(k: Keyword, t: Taint)
    requires CoveredKeyword(k, t.Keys)
    ensures CmdSites(OneKeywordFindings(k, t)) == KeywordHits(k, t.Keys)
    decreases k, 2
  {
    HitsExact(k.value, t);
  }

  // ----- more taint, more hits; variables that are not mentioned do not matter

  /** Variables occurring in an expression. */
  function Mentions(e: Expr): set<string>
    decreases e, 1
  {
    match e
    case Name(id) => {id}
    case Attribute(value, _) => Mentions(value)
    case Subscript(value, index) => Mentions(value) + Mentions(index)
    case BinOp(left, right) => Mentions(left) + Mentions(right)
    case JoinedStr(pieces) => PiecesMention(pieces)
    case Call(func, args, keywords, _) => Mentions(func) + AllMention(args) + KeywordsMention(keywords)
    case Other(children) => AllMention(children)
    case _ => {}
  }

  function AllMention(es: seq<Expr>): set<string>
    decreases es, 0
  {
    if es == [] then {} else Mentions(es[0]) + AllMention(es[1..])
  }

  function PiecesMention(pieces: seq<Piece>): set<string>
    decreases pieces, 0
  {
    if pieces == [] then {} else PieceMentions(pieces[0]) + PiecesMention(pieces[1..])
  }

  function PieceMentions(p: Piece): set<string>
    decreases p, 2
  {
    if p.Formatted? then Mentions(p.value) else {}
  }

  function KeywordsMention(keywords: seq<Keyword>): set<string>
    decreases keywords, 0
  {
    if keywords == [] then {} else KeywordMentions(keywords[0]) + KeywordsMention(keywords[1..])
  }

  function KeywordMentions(k: Keyword): set<string>
    decreases k, 2
  {
    Mentions(k.value)
  }

  /** Every variable of `vs` that is tainted in `a` is tainted in `b`. */
  predicate Within(vs: set<string>, a: Env, b: Env) { vs * a <= b }

  lemma {:induction false} Monotone(e: Expr, a: Env, b: Env)
    requires Within(Mentions(e), a, b)
    ensures Tainted(e, a) ==> Tainted(e, b)
    ensures ExprHits(e, a) <= ExprHits(e, b)
    decreases e, 1
  {
    hide InTable, DottedName, RunsShell;
    match e
    case Attribute(value, _) => Monotone(value, a, b);
    case Subscript(value, index) => Monotone(value, a, b); Monotone(index, a, b);
    case BinOp(left, right) => Monotone(left, a, b); Monotone(right, a, b);
    case JoinedStr(pieces) => PiecesMonotone(pieces, a, b);
    case Call(func, args, keywords, _) =>
      Monotone(func, a, b);
      if func.Attribute? { Monotone(func.value, a, b); }
      AllMonotone(args, a, b);
      KeywordsMonotone(keywords, a, b);
    case Other(children) => AllMonotone(children, a, b);
    case _ =>
  }

  lemma {:induction false} AllMonotone(es: seq<Expr>, a: Env, b: Env)
    requires Within(AllMention(es), a, b)
    ensures AnyTainted(es, a) ==> AnyTainted(es, b)
    ensures ExprsHits(es, a) <= ExprsHits(es, b)
    decreases es, 0
  {
    hide Tainted, ExprHits, Mentions;
    if es != [] {
      Monotone(es[0], a, b);
      AllMonotone(es[1..], a, b);
    }
  }

  lemma {:induction false} PiecesMonotone(pieces: seq<Piece>, a: Env, b: Env)
    requires Within(PiecesMention(pieces), a, b)
    ensures AnyPieceTainted(pieces, a) ==> AnyPieceTainted(pieces, b)
    ensures PiecesHits(pieces, a) <= PiecesHits(pieces, b)
    decreases pieces, 0
  {
    hide PieceTainted, PieceHits, PieceMentions;
    if pieces != [] {
      PieceMonotone(pieces[0], a, b);
      PiecesMonotone(pieces[1..], a, b);
    }
  }

  lemma {:induction false} PieceMonotone(p: Piece, a: Env, b: Env)
    requires Within(PieceMentions(p), a, b)
    ensures PieceTainted(p, a) ==> PieceTainted(p, b)
    ensures PieceHits(p, a) <= PieceHits(p, b)
    decreases p, 2
  {
    hide Tainted, ExprHits, Mentions;
    if p.Formatted? { Monotone(p.value, a, b); }
  }

  lemma {:induction false} KeywordsMonotone(keywords: seq<Keyword>, a: Env, b: Env)
    requires Within(KeywordsMention(keywords), a, b)
    ensures AnyKeywordTainted(keywords, a) ==> AnyKeywordTainted(keywords, b)
    ensures KeywordsHits(keywords, a) <= KeywordsHits(keywords, b)
    decreases keywords, 0
  {
    hide KeywordTainted, KeywordHits, KeywordMentions;
    if keywords != [] {
      KeywordMonotone(keywords[0], a, b);
      KeywordsMonotone(keywords[1..], a, b);
    }
  }

  lemma {:induction false} KeywordMonotone(k: Keyword, a: Env, b: Env)
    requires Within(KeywordMentions(k), a, b)
    ensures KeywordTainted(k, a) ==> KeywordTainted(k, b)
    ensures KeywordHits(k, a) <= KeywordHits(k, b)
    decreases k, 2
  {
    Monotone(k.value, a, b);
  }

  // ----- soundness along every path

  lemma {:induction false} MarkedTargets(targets: seq<Expr>, source: string, t: Taint)
    requires AllNames(targets)
    ensures MarkTargets(targets, source, t).Keys == t.Keys + TargetsNames(targets)
    ensures forall t' :: ExprsFindings(targets, t') == []
    ensures forall env :: ExprsHits(targets, env) == {}
  {
    if targets != [] {
      assert targets[0] in targets && forall e | e in targets[1..] :: e in targets;
      MarkedTargets(targets[1..], source, if targets[0].Name? then t[targets[0].id := source] else t);
    }
  }

  lemma AssignSound(targets: seq<Expr>, value: Expr, env: Env, t: Taint)
    requires CoveredStmt(Assign(targets, value), t) && env <= t.Keys
    ensures var r, v := RunStmt(Assign(targets, value), env, []), VisitStmt(Assign(targets, value), t);
            r.env <= v.tainted.Keys && r.hits <= CmdSites(v.findings)
  {
    var source := TaintOf(value, t);
    MarkedTargets(targets, if source.Some? then source.value else "", t);
    hide TaintOf, Tainted, ExprFindings, ExprHits, MarkTargets, CmdSites;
    TaintIsExact(value, t);
    Monotone(value, env, t.Keys);
    var t' := AfterAssign(targets, value, t);
    HitsExact(value, t');
    Monotone(value, env, t'.Keys);
    assert [] + ExprFindings(value, t') == ExprFindings(value, t');
  }

  lemma ExprSound(e: Expr, env: Env, t: Taint)
    requires CoveredExpr(e, t.Keys) && env <= t.Keys
    ensures ExprHits(e, env) <= CmdSites(ExprFindings(e, t))
  {
    hide ExprFindings, ExprHits, CmdSites, Mentions;
    HitsExact(e, t);
    Monotone(e, env, t.Keys);
  }

  lemma {:induction false} StmtSound(s: Stmt, env: Env, t: Taint, choices: seq<bool>)
    requires CoveredStmt(s, t) && Settled(s, t) && env <= t.Keys
    ensures RunStmt(s, env, choices).env <= VisitStmt(s, t).tainted.Keys
    ensures RunStmt(s, env, choices).hits <= CmdSites(VisitStmt(s, t).findings)
    decreases s, 2, 0
  {
    hide ExprFindings, ExprHits, CmdSites, CoveredExpr, Tainted, TaintOf, InSight;
    match s
    case Assign(targets, value) => AssignSound(targets, value, env, t);
    case AugAssign(_, _) =>
    case ExprStmt(value) => ExprSound(value, env, t);
    case If(test, body, orelse) =>
      var rest := if choices == [] then [] else choices[1..];
      var b := VisitBody(body, t);
      var o := VisitBody(orelse, b.tainted);
      VisitGrows(body, t);
      VisitGrows(orelse, b.tainted);
      ExprSound(test, env, t);
      BodySound(body, env, t, rest);
      BodySound(orelse, env, b.tainted, rest);
      CmdSitesConcat(ExprFindings(test, t), b.findings);
      CmdSitesConcat(ExprFindings(test, t) + b.findings, o.findings);
    case While(test, body) =>
      LoopSound(s, env, t, choices);
  }

  lemma {:induction false} LoopSound(s: Stmt, env: Env, t: Taint, choices: seq<bool>)
    requires s.While? && CoveredStmt(s, t) && Settled(s, t) && env <= t.Keys
    ensures RunLoop(s, env, choices).env <= t.Keys
    ensures RunLoop(s, env, choices).hits <= CmdSites(VisitStmt(s, t).findings)
    decreases s, 1, |choices|
  {
    hide ExprFindings, ExprHits, CmdSites, CoveredExpr;
    ExprSound(s.test, env, t);
    CmdSitesConcat(ExprFindings(s.test, t), VisitBody(s.body, t).findings);
    if choices != [] && choices[0] {
      BodySound(s.body, env, t, choices[1..]);
      var round := RunBody(s.body, env, choices[1..]);
      LoopSound(s, round.env, t, round.rest);
    }
  }

  lemma {:induction false} BodySound(body: seq<Stmt>, env: Env, t: Taint, choices: seq<bool>)
    requires CoveredBody(body, t) && SettledBody(body, t) && env <= t.Keys
    ensures RunBody(body, env, choices).env <= VisitBody(body, t).tainted.Keys
    ensures RunBody(body, env, choices).hits <= CmdSites(VisitBody(body, t).findings)
    decreases body, 0, 0
  {
    hide CmdSites, RunStmt, VisitStmt, CoveredStmt, Settled;
    if body != [] {
      var first, v := RunStmt(body[0], env, choices), VisitStmt(body[0], t);
      StmtSound(body[0], env, t, choices);
      BodySound(body[1..], first.env, v.tainted, first.rest);
      CmdSitesConcat(v.findings, VisitBody(body[1..], v.tainted).findings);
    }
  }

  lemma {:induction false} StmtGrows(s: Stmt, t: Taint)
    ensures t.Keys <= VisitStmt(s, t).tainted.Keys
    decreases s, 1
  {
    hide TaintOf, ExprFindings;
    match s
    case Assign(targets, value) => MarkGrows(targets, if TaintOf(value, t).Some? then TaintOf(value, t).value
        else "", t);
    case If(test, body, orelse) =>
      VisitGrows(body, t);
      VisitGrows(orelse, VisitBody(body, t).tainted);
    case While(test, body) => VisitGrows(body, t);
    case _ =>
  }

  lemma {:induction false} VisitGrows(body: seq<Stmt>, t: Taint)
    ensures t.Keys <= VisitBody(body, t).tainted.Keys
    decreases body, 0
  {
    hide VisitStmt;
    if body != [] {
      StmtGrows(body[0], t);
      VisitGrows(body[1..], VisitStmt(body[0], t).tainted);
    }
  }

  lemma {:induction false} MarkGrows(targets: seq<Expr>, source: string, t: Taint)
    ensures t.Keys <= MarkTargets(targets, source, t).Keys
  {
    if targets != [] {
      MarkGrows(targets[1..], source, if targets[0].Name? then t[targets[0].id := source] else t);
    }
  }

  lemma {:induction false} LoopFreeIsSettled(s: Stmt, t: Taint)
    requires LoopFree(s)
    ensures Settled(s, t)
    decreases s, 1
  {
    match s
    case If(_, body, orelse) =>
      LoopFreeBodyIsSettled(body, t);
      LoopFreeBodyIsSettled(orelse, VisitBody(body, t).tainted);
    case _ =>
  }

  lemma {:induction false} LoopFreeBodyIsSettled(body: seq<Stmt>, t: Taint)
    requires LoopFreeBody(body)
    ensures SettledBody(body, t)
    decreases body, 0
  {
    hide VisitStmt;
    if body != [] {
      LoopFreeIsSettled(body[0], t);
      LoopFreeBodyIsSettled(body[1..], VisitStmt(body[0], t).tainted);
    }
  }

  /** The parameters the visitor starts with. */
  lemma {:induction false} MarkedParams(params: seq<string>, t: Taint)
    ensures ParamTaint(params, t).Keys == t.Keys + set p | p in params && IsHint(p)
  {
    hide IsHint;
    if params != [] {
      var t' := if IsHint(params[0]) then t[params[0] := "function parameter `" + params[0] + "`"] else t;
      MarkedParams(params[1..], t');
      assert params == [params[0]] + params[1..];
    }
  }

  /** Soundness: on every path of a function whose loops mark nothing new, every shell-interpreting
      call that runs with a tainted argument has a command-injection finding. Parameters whose name
      is a hint are the attacker's. */
  lemma NoTaintedShellCallIsMissed(f: Function, env: Env, choices: seq<bool>)
    requires CoveredBody(f.body, ParamTaint(f.params, map[])) && SettledBody(f.body, ParamTaint(f.params, map[]))
    requires forall p | p in env :: p in f.params && IsHint(p)
    ensures RunBody(f.body, env, choices).hits <= CmdSites(FunctionFindings(f))
  {
    hide IsHint, CmdSites, VisitBody, RunBody;
    MarkedParams(f.params, map[]);
    BodySound(f.body, env, ParamTaint(f.params, map[]), choices);
  }

  /** Without loops nothing has to be checked beforehand. */
  lemma LoopFreeFunctionsAreSound(f: Function, env: Env, choices: seq<bool>)
    requires CoveredBody(f.body, ParamTaint(f.params, map[])) && LoopFreeBody(f.body)
    requires forall p | p in env :: p in f.params && IsHint(p)
    ensures RunBody(f.body, env, choices).hits <= CmdSites(FunctionFindings(f))
  {
    hide *;
    LoopFreeBodyIsSettled(f.body, ParamTaint(f.params, map[]));
    NoTaintedShellCallIsMissed(f, env, choices);
  }

  // ----- exactness on straight-line code

  /** Assignments to fresh names that do not occur in their own value, and expression statements. */
  predicate StraightLine(body: seq<Stmt>, bound: set<string>)
    decreases body, 0
  {
    body != [] ==>
      match body[0]
      case Assign(targets, value) =>
        && AllNames(targets) && TargetsNames(targets) !! bound && TargetsNames(targets) !! Mentions(value)
        && StraightLine(body[1..], bound + TargetsNames(targets))
      case ExprStmt(_) => StraightLine(body[1..], bound)
      case _ => false
  }

  lemma AssignExact(targets: seq<Expr>, value: Expr, t: Taint)
    requires CoveredStmt(Assign(targets, value), t)
    requires TargetsNames(targets) !! t.Keys && TargetsNames(targets) !! Mentions(value)
    ensures var r, v := RunStmt(Assign(targets, value), t.Keys, []), VisitStmt(Assign(targets, value), t);
            r.env == v.tainted.Keys && r.hits == CmdSites(v.findings) && r.rest == []
  {
    var source := TaintOf(value, t);
    MarkedTargets(targets, if source.Some? then source.value else "", t);
    hide TaintOf, Tainted, ExprFindings, ExprHits, MarkTargets, CmdSites, Mentions, TargetsNames;
    TaintIsExact(value, t);
    var t' := AfterAssign(targets, value, t);
    HitsExact(value, t');
    Monotone(value, t'.Keys, t.Keys);
    Monotone(value, t.Keys, t'.Keys);
    assert [] + ExprFindings(value, t') == ExprFindings(value, t');
  }

  lemma {:induction false} StraightLineRuns(body: seq<Stmt>, t: Taint, bound: set<string>)
    requires StraightLine(body, bound) && t.Keys <= bound && CoveredBody(body, t)
    ensures RunBody(body, t.Keys, []).hits == CmdSites(VisitBody(body, t).findings)
    decreases body, 0
  {
    hide CmdSites, ExprFindings, ExprHits, Tainted, TaintOf, CoveredExpr, InSight;
    if body == [] {
      NoSites();
    } else {
      var v := VisitStmt(body[0], t);
      match body[0]
      case Assign(targets, value) =>
        AssignExact(targets, value, t);
        MarkedTargets(targets, if TaintOf(value, t).Some? then TaintOf(value, t).value else "", t);
        StraightLineRuns(body[1..], v.tainted, bound + TargetsNames(targets));
        CmdSitesConcat(v.findings, VisitBody(body[1..], v.tainted).findings);
      case ExprStmt(value) =>
        HitsExact(value, t);
        StraightLineRuns(body[1..], t, bound);
        CmdSitesConcat(v.findings, VisitBody(body[1..], t).findings);
    }
  }

  /** Precision: when every name is assigned once, no parameter is reassigned and no value mentions
      its own target, the findings are exactly the tainted shell calls of the run in which every
      hinted parameter is attacker-controlled. */
  lemma StraightLineIsExact(f: Function)
    requires StraightLine(f.body, set p | p in f.params) && CoveredBody(f.body, ParamTaint(f.params, map[]))
    ensures CmdSites(FunctionFindings(f)) == RunBody(f.body, set p | p in f.params && IsHint(p), []).hits
  {
    hide IsHint, CmdSites, VisitBody, RunBody, StraightLine;
    MarkedParams(f.params, map[]);
    assert ParamTaint(f.params, map[]).Keys == set p | p in f.params && IsHint(p);
    StraightLineRuns(f.body, ParamTaint(f.params, map[]), set p | p in f.params);
  }

  // ----- where the conditions are needed

  /** `os.system(x)` */
  function SystemCall(arg: Expr, site: nat): Expr { Call(Attribute(Name("os"), "system"), [arg], [], site) }

  function InputCall(): Expr { Call(Name("input"), [], [], 0) }

  lemma SystemCallIs(arg: Expr, site: nat)
    ensures CallName(SystemCall(arg, site)) == Some("os.system")
    ensures RunsShell(SystemCall(arg, site))
    ensures CallName(InputCall()) == Some("input") && InTable(Some("input"), UNTRUSTED_SOURCES)
  {
    assert DottedName(Name("os")) == Some("os");
    assert "os" + "." + "system" == "os.system";
  }

  lemma SystemCallHit(x: string, site: nat, env: Env)
    ensures ExprHits(SystemCall(Name(x), site), env) == if x in env then {site} else {}
  {
    SystemCallIs(Name(x), site);
    hide InTable, RunsShell, CallName;
    assert [Name(x)][1..] == [];
    assert AnyTainted([Name(x)], env) == (x in env);
    assert ExprsHits([Name(x)], env) == {};
    var func := Attribute(Name("os"), "system");
    assert ExprHits(func.value, env) == {} && ExprHits(func, env) == {};
  }

  lemma CoveredCalls(x: string, site: nat, env: Env)
    ensures CoveredExpr(SystemCall(Name(x), site), env) && CoveredExpr(InputCall(), env) && InSight(InputCall(), env)
  {
    SystemCallIs(Name(x), site);
    InputCallHit({});
    hide InTable, CallName, RunsShell, Tainted;
    var c := SystemCall(Name(x), site);
    assert Arguments(c) == [Name(x)] by { assert KeywordValues([]) == []; }
    SeenName(x, env);
    assert ArgumentsInSight(c, env);
    assert CoveredExprs([], env) && [Name(x)][1..] == [];
    assert CoveredExpr(Name("os"), env) && CoveredExpr(c.func, env) && CoveredExprs([Name(x)], env);
    assert CoveredKeywords([], env);
    InputCovered(env);
  }

  lemma SeenName(x: string, env: Env)
    ensures SeenTaint(Name(x), env) == HasTaint(Name(x), env) == (x in env)
  {
    assert x in env ==> x in {x} * env;
  }

  lemma InputCovered(env: Env)
    ensures CoveredExpr(InputCall(), env) && InSight(InputCall(), env)
  {
    SystemCallIs(Name(""), 0);
    InputIsNoSink();
    hide InTable, CallName, RunsShell;
    assert TaintOf(InputCall(), map[]).Some?;
  }

  lemma InputCallHit(env: Env)
    ensures Tainted(InputCall(), env) && ExprHits(InputCall(), env) == {}
  {
    SystemCallIs(Name(""), 0);
    InputIsNoSink();
    hide InTable, CallName, RunsShell;
  }

  lemma InputIsNoSink()
    ensures !RunsShell(InputCall())
  {
  }

  lemma SystemCallHits(x: string, site: nat, env: Env, t: Taint)
    ensures ExprHits(SystemCall(Name(x), site), env) == if x in env then {site} else {}
    ensures CmdSites(ExprFindings(SystemCall(Name(x), site), t)) == if x in t then {site} else {}
    ensures Tainted(InputCall(), env) && ExprHits(InputCall(), env) == {}
    ensures TaintOf(InputCall(), t).Some? && CmdSites(ExprFindings(InputCall(), t)) == {}
  {
    hide *;
    CoveredCalls(x, site, t.Keys);
    SystemCallHit(x, site, env);
    SystemCallHit(x, site, t.Keys);
    HitsExact(SystemCall(Name(x), site), t);
    InputCallHit(env);
    InputCallHit(t.Keys);
    HitsExact(InputCall(), t);
    TaintIsExact(InputCall(), t);
  }

  /** `os.system(x); x = input()` */
  function SinkThenSource(x: string): seq<Stmt> {
    [ExprStmt(SystemCall(Name(x), 1)), Assign([Name(x)], InputCall())]
  }

  /** `while c: os.system(x); x = input()` - the loop body is visited once, with `x` unmarked: the
      condition on loops cannot be dropped. */
  lemma LoopIsMissed(x: string)
    ensures var loop := [While(Constant(true), SinkThenSource(x))];
            && CoveredBody(loop, map[]) && !SettledBody(loop, map[])
            && 1 in RunBody(loop, {}, [true, true]).hits && CmdSites(VisitBody(loop, map[]).findings) == {}
  {
    hide SinkThenSource, CmdSites, ExprFindings;
    var body := SinkThenSource(x);
    SinkThenSourceVisit(x, map[]);
    LoopHits(x);
    LoopTest();
    LoopVisit(body);
    LoopCovered(body);
    hide VisitBody, RunBody, CoveredBody;
    assert [While(Constant(true), body)][1..] == [];
  }

  lemma LoopHits(x: string)
    ensures 1 in RunBody([While(Constant(true), SinkThenSource(x))], {}, [true, true]).hits
  {
    hide SinkThenSource;
    var body := SinkThenSource(x);
    var w := While(Constant(true), body);
    SinkThenSourceRuns(x, {}, [true]);
    SinkThenSourceRuns(x, {x}, []);
    assert [true, true][1..] == [true] && [true][1..] == [] && {} + {x} == {x};
    assert RunLoop(w, {x}, [true]).hits >= {1};
    assert RunLoop(w, {}, [true, true]).hits >= {1};
    assert [w][1..] == [] && RunBody([w], {}, [true, true]).hits >= {1};
  }

  lemma LoopVisit(body: seq<Stmt>)
    ensures VisitBody([While(Constant(true), body)], map[]).findings == VisitBody(body, map[]).findings
  {
    LoopTest();
    hide ExprFindings;
    var w := While(Constant(true), body);
    assert [w][1..] == [];
    assert VisitBody([w], map[]).findings == VisitStmt(w, map[]).findings + [];
    assert VisitStmt(w, map[]).findings == [] + VisitBody(body, map[]).findings;
  }

  lemma LoopCovered(body: seq<Stmt>)
    requires CoveredBody(body, map[])
    ensures CoveredBody([While(Constant(true), body)], map[])
  {
    LoopTest();
    assert [While(Constant(true), body)][1..] == [];
  }

  lemma LoopTest()
    ensures ExprFindings(Constant(true), map[]) == [] && CoveredExpr(Constant(true), {})
  {
  }

  lemma OneTarget(x: string)
    ensures TargetsNames([Name(x)]) == {x} && AllNames([Name(x)])
  {
    assert [Name(x)][1..] == [];
  }

  lemma SinkThenSourceRuns(x: string, env: Env, choices: seq<bool>)
    ensures RunBody(SinkThenSource(x), env, choices) == Run(env + {x}, if x in env then {1} else {}, choices)
  {
    SystemCallHits(x, 1, env, map[]);
    OneTarget(x);
    MarkedTargets([Name(x)], "", map[]);
    hide SystemCall, InputCall, ExprHits, Tainted, ExprsHits, TargetsNames;
    var call, assign := ExprStmt(SystemCall(Name(x), 1)), Assign([Name(x)], InputCall());
    assert [call, assign][1..] == [assign] && [assign][1..] == [];
    assert RunBody([assign], env, choices) == Run(env + {x}, {}, choices);
  }

  lemma SinkThenSourceVisit(x: string, t: Taint)
    requires x !in t
    ensures CoveredBody(SinkThenSource(x), t)
    ensures VisitBody(SinkThenSource(x), t).tainted.Keys == t.Keys + {x}
    ensures CmdSites(VisitBody(SinkThenSource(x), t).findings) == {}
  {
    SystemCallHits(x, 1, {}, t);
    SourceVisit(x, t);
    CallVisit(x, t);
    SinkThenSourceCovered(x, t);
    hide SystemCall, InputCall, ExprFindings, VisitStmt, CmdSites, CoveredBody;
    var call, assign := ExprStmt(SystemCall(Name(x), 1)), Assign([Name(x)], InputCall());
    assert [call, assign][1..] == [assign] && [assign][1..] == [];
    var v, w := VisitStmt(call, t), VisitStmt(assign, t);
    assert VisitBody([assign], t) == Visited(w.tainted, w.findings + []);
    assert w.findings + [] == w.findings;
    CmdSitesConcat(v.findings, w.findings);
  }

  lemma SinkThenSourceCovered(x: string, t: Taint)
    ensures CoveredBody(SinkThenSource(x), t)
  {
    var call, assign := ExprStmt(SystemCall(Name(x), 1)), Assign([Name(x)], InputCall());
    CoveredCalls(x, 1, t.Keys);
    CoveredCalls(x, 1, AfterAssign([Name(x)], InputCall(), t).Keys);
    OneTarget(x);
    hide SystemCall, InputCall, CoveredExpr, InSight, AfterAssign;
    assert [call, assign][1..] == [assign] && [assign][1..] == [];
    assert VisitStmt(call, t).tainted == t;
    assert CoveredBody([assign], t);
  }

  lemma CallVisit(x: string, t: Taint)
    ensures VisitStmt(ExprStmt(SystemCall(Name(x), 1)), t) == Visited(t, ExprFindings(SystemCall(Name(x), 1), t))
  {
    hide ExprFindings;
  }

  lemma SourceVisit(x: string, t: Taint)
    ensures var w := VisitStmt(Assign([Name(x)], InputCall()), t);
            w.tainted.Keys == t.Keys + {x} && CmdSites(w.findings) == {}
  {
    SystemCallHits(x, 1, {}, t);
    OneTarget(x);
    var source := TaintOf(InputCall(), t).value;
    MarkedTargets([Name(x)], source, t);
    var t' := MarkTargets([Name(x)], source, t);
    SystemCallHits(x, 1, {}, t');
    hide InputCall, ExprFindings, TaintOf, MarkTargets, CmdSites, ExprsFindings, TargetsNames;
    assert [] + ExprFindings(InputCall(), t') == ExprFindings(InputCall(), t');
  }

  /** Augmented assignment and tuple targets taint a variable that the visitor does not mark. */
  lemma OtherTargetsAreMissed(x: string)
    ensures var plus, tuple := AugAssign(Name(x), InputCall()), Assign([Other([Name(x)])], InputCall());
            && x in RunStmt(plus, {}, []).env && x !in VisitStmt(plus, map[]).tainted
            && x in RunStmt(tuple, {}, []).env && x !in VisitStmt(tuple, map[]).tainted
  {
    SystemCallHits(x, 1, {}, map[]);
    OneTarget(x);
    hide InputCall, ExprFindings, ExprHits, ExprsFindings, ExprsHits, Tainted, TaintOf;
    var targets := [Other([Name(x)])];
    assert TargetNames(targets[0]) == {x} && targets[1..] == [] && TargetsNames(targets) == {x};
    NotMarked(targets, TaintOf(InputCall(), map[]).value);
  }

  lemma NotMarked(targets: seq<Expr>, source: string)
    requires |targets| == 1 && targets[0].Other?
    ensures MarkTargets(targets, source, map[]) == map[]
  {
    assert MarkTargets(targets[1..], source, map[]) == map[];
  }

  /** A shell call whose argument is tainted out of sight has no command-injection finding. */
  lemma UnseenIsMissed(e: Expr, site: nat, t: Taint)
    requires Tainted(e, t.Keys) && TaintOf(e, t).None?
    ensures site in ExprHits(SystemCall(e, site), t.Keys)
    ensures CmdSites(CallFindings(SystemCall(e, site), t)) == {}
  {
    SystemCallIs(e, site);
    hide InTable, CallName, RunsShell, Tainted, TaintOf;
    assert [e][1..] == [] && [e] + KeywordValues([]) == [e];
    assert AnyTainted([e], t.Keys) && FirstTainted([e], t).None?;
    assert CallHit(SystemCall(e, site), t.Keys) == {site};
  }

  /** `input() if c else d`, like every form the visitor does not know, hides the taint of its
      parts. */
  lemma OtherFormsAreMissed(rest: seq<Expr>, site: nat, t: Taint)
    ensures var value := Other([InputCall()] + rest);
            && site in ExprHits(SystemCall(value, site), t.Keys)
            && CmdSites(CallFindings(SystemCall(value, site), t)) == {}
  {
    InputCallHit(t.Keys);
    var value := Other([InputCall()] + rest);
    assert ([InputCall()] + rest)[0] == InputCall();
    hide InputCall, SystemCall, ExprHits, CallFindings, CmdSites;
    UnseenIsMissed(value, site, t);
  }

  /** `request.args.get(key)`: only `request.args` itself is a source. */
  function ArgsGet(key: Expr): Expr {
    Call(Attribute(Attribute(Name("request"), "args"), "get"), [key], [], 0)
  }

  lemma MethodsOfSourcesAreMissed(key: Expr, site: nat, t: Taint)
    ensures site in ExprHits(SystemCall(ArgsGet(key), site), t.Keys)
    ensures CmdSites(CallFindings(SystemCall(ArgsGet(key), site), t)) == {}
  {
    ArgsGetName(key);
    hide InTable, CallName, DottedName, SystemCall, ExprHits, CallFindings, CmdSites;
    var args := Attribute(Name("request"), "args");
    assert Tainted(args, t.Keys);
    UnseenIsMissed(ArgsGet(key), site, t);
  }

  lemma ArgsGetName(key: Expr)
    ensures InTable(DottedName(Attribute(Name("request"), "args")), UNTRUSTED_SOURCES)
    ensures !InTable(CallName(ArgsGet(key)), UNTRUSTED_SOURCES)
    ensures !InTable(CallName(ArgsGet(key)), SANITIZER_CALL_NAMES)
  {
    assert DottedName(Name("request")) == Some("request");
    assert DottedName(Attribute(Name("request"), "args")) == Some("request" + "." + "args");
    assert "request" + "." + "args" == "request.args";
    var name := "request.args" + "." + "get";
    assert CallName(ArgsGet(key)) == Some(name) && |name| == 16;
    assert forall s | s in UNTRUSTED_SOURCES || s in SANITIZER_CALL_NAMES :: |s| != 16;
  }

  /** A keyword argument of `format` taints a value that the visitor takes to be clean. */
  lemma FormatKeywordIsMissed(x: string, t: Taint)
    requires x in t
    ensures var text := Call(Attribute(Constant(false), "format"), [], [Keyword(Some("value"), Name(x))], 0);
            Tainted(text, t.Keys) && TaintOf(text, t).None?
  {
    hide InTable;
    var keyword := Keyword(Some("value"), Name(x));
    assert KeywordTainted(keyword, t.Keys);
    assert AnyKeywordTainted([keyword], t.Keys);
    var f := Attribute(Constant(false), "format");
    assert DottedName(f).None?;
    NoNameInNoTable(UNTRUSTED_SOURCES);
    NoNameInNoTable(SANITIZER_CALL_NAMES);
  }

  lemma NoNameInNoTable(table: set<string>)
    ensures !InTable(None, table)
  {
  }
}
