/** The flow tracker of the Python analyzer.  Its driver visits a function breadth first, with a queue,
    so assignments are not seen in program order; this compares the findings of that visit with those
    of a pass in program order. */
module PythonFlows {
  import opened Strings

  // ----- syntax trees

  /** The nodes of `ast` the tracker tells apart; the context and operator nodes are left out. */
  datatype Node =
    | Name(id: string)
    | Constant
    | Attribute(value: Node, attr: string)
    | Subscript(value: Node, index: Node)
    | BinOp(left: Node, right: Node)
    | JoinedStr(values: seq<Node>)
    | FormattedValue(value: Node)
    | IfExp(test: Node, body: Node, orelse: Node)
    | Starred(value: Node)
    | Display(elements: seq<Node>)
    | Call(func: Node, args: seq<Node>, keywords: seq<Node>, site: nat)
    | Keyword(arg: Option<string>, value: Node)
    | OtherExpr(children: seq<Node>)
    | Assign(targets: seq<Node>, value: Node)
    | ExprStmt(value: Node)
    | Compound(test: Node, suite: seq<Node>)
    | FunctionDef(params: seq<string>, suite: seq<Node>)

  function Size(n: Node): (s: nat)
    ensures s > 0
    decreases n
  {
    match n
    case Name(_) => 1
    case Constant => 1
    case Attribute(value, _) => 1 + Size(value)
    case Subscript(value, index) => 1 + Size(value) + Size(index)
    case BinOp(left, right) => 1 + Size(left) + Size(right)
    case JoinedStr(values) => 1 + ForestSize(values)
    case FormattedValue(value) => 1 + Size(value)
    case IfExp(test, body, orelse) => 1 + Size(test) + Size(body) + Size(orelse)
    case Starred(value) => 1 + Size(value)
    case Display(elements) => 1 + ForestSize(elements)
    case Call(func, args, keywords, _) => 1 + Size(func) + ForestSize(args) + ForestSize(keywords)
    case Keyword(_, value) => 1 + Size(value)
    case OtherExpr(children) => 1 + ForestSize(children)
    case Assign(targets, value) => 1 + ForestSize(targets) + Size(value)
    case ExprStmt(value) => 1 + Size(value)
    case Compound(test, suite) => 1 + Size(test) + ForestSize(suite)
    case FunctionDef(_, suite) => 1 + ForestSize(suite)
  }

  function ForestSize(ns: seq<Node>): nat
    decreases ns
  {
    if ns == [] then 0 else Size(ns[0]) + ForestSize(ns[1..])
  }

  /** `ast.iter_child_nodes` */
  function Children(n: Node): seq<Node> {
    match n
    case Name(_) => []
    case Constant => []
    case Attribute(value, _) => [value]
    case Subscript(value, index) => [value, index]
    case BinOp(left, right) => [left, right]
    case JoinedStr(values) => values
    case FormattedValue(value) => [value]
    case IfExp(test, body, orelse) => [test, body, orelse]
    case Starred(value) => [value]
    case Display(elements) => elements
    case Call(func, args, keywords, _) => [func] + args + keywords
    case Keyword(_, value) => [value]
    case OtherExpr(children) => children
    case Assign(targets, value) => targets + [value]
    case ExprStmt(value) => [value]
    case Compound(test, suite) => [test] + suite
    case FunctionDef(_, suite) => suite
  }

  lemma {:induction false} ForestSizeConcat(a: seq<Node>, b: seq<Node>)
    ensures ForestSize(a + b) == ForestSize(a) + ForestSize(b)
  {
    hide Size;
    if a == [] {
      assert a + b == b;
    } else {
      assert (a + b)[1..] == a[1..] + b;
      ForestSizeConcat(a[1..], b);
    }
  }

  lemma SizeOfOne(n: Node)
    ensures ForestSize([n]) == Size(n)
  {
    hide Size;
    assert [n][1..] == [];
  }

  lemma SizeOfChildren(n: Node)
    ensures ForestSize(Children(n)) == Size(n) - 1
  {
    match n
    case Call(func, args, keywords, _) =>
      ForestSizeConcat([func] + args, keywords);
      ForestSizeConcat([func], args);
      SizeOfOne(func);
    case Assign(targets, value) =>
      ForestSizeConcat(targets, [value]);
      SizeOfOne(value);
    case Compound(test, suite) =>
      ForestSizeConcat([test], suite);
      SizeOfOne(test);
    case Subscript(value, index) => SizeOfTwo(value, index);
    case BinOp(left, right) => SizeOfTwo(left, right);
    case IfExp(test, body, orelse) =>
      SizeOfTwo(body, orelse);
      assert [test, body, orelse][1..] == [body, orelse];
    case Attribute(value, _) => SizeOfOne(value);
    case FormattedValue(value) => SizeOfOne(value);
    case Starred(value) => SizeOfOne(value);
    case Keyword(_, value) => SizeOfOne(value);
    case ExprStmt(value) => SizeOfOne(value);
    case _ =>
  }

  lemma SizeOfTwo(a: Node, b: Node)
    ensures ForestSize([a, b]) == Size(a) + Size(b)
  {
    hide Size;
    assert [a, b][1..] == [b];
    SizeOfOne(b);
  }

  // ----- the breadth-first walk

  function AllChildren(ns: seq<Node>): seq<Node> {
    if ns == [] then [] else Children(ns[0]) + AllChildren(ns[1..])
  }

  lemma {:induction false} SizeOfAllChildren(ns: seq<Node>)
    ensures ForestSize(AllChildren(ns)) == ForestSize(ns) - |ns|
  {
    hide Children, Size;
    if ns != [] {
      SizeOfChildren(ns[0]);
      SizeOfAllChildren(ns[1..]);
      ForestSizeConcat(Children(ns[0]), AllChildren(ns[1..]));
    }
  }

  /** Level by level: the nodes themselves, then their children, and so on. */
  function LevelOrder(ns: seq<Node>): seq<Node>
    decreases ForestSize(ns)
  {
    if ns == [] then []
    else
      SizeOfAllChildren(ns);
      ns + LevelOrder(AllChildren(ns))
  }

  lemma {:induction false} AllChildrenConcat(a: seq<Node>, b: seq<Node>)
    ensures AllChildren(a + b) == AllChildren(a) + AllChildren(b)
  {
    hide Children;
    if a == [] {
      assert a + b == b;
    } else {
      assert (a + b)[1..] == a[1..] + b;
      AllChildrenConcat(a[1..], b);
    }
  }

  lemma AllChildrenOfOne(n: Node)
    ensures AllChildren([n]) == Children(n)
  {
    hide Children;
    assert [n][1..] == [] && Children(n) + [] == Children(n);
  }

  /** What is left to visit when the queue holds the rest of a level and then the children found so far. */
  function Pending(level: seq<Node>, found: seq<Node>): seq<Node> { level + LevelOrder(found + AllChildren(level)) }

  lemma PendingStep(n: Node, level: seq<Node>, found: seq<Node>)
    ensures Pending([n] + level, found) == [n] + Pending(level, found + Children(n))
  {
    hide LevelOrder, Children;
    AllChildrenConcat([n], level);
    AllChildrenOfOne(n);
    assert found + (Children(n) + AllChildren(level)) == (found + Children(n)) + AllChildren(level);
    assert ([n] + level) + LevelOrder(found + AllChildren([n] + level))
        == [n] + (level + LevelOrder(found + AllChildren([n] + level)));
  }

  lemma PendingNextLevel(found: seq<Node>)
    ensures Pending([], found) == Pending(found, [])
    ensures Pending(found, []) == LevelOrder(found)
  {
    assert found != [] ==> LevelOrder(found) == found + LevelOrder(AllChildren(found));
    assert found == [] ==> AllChildren(found) == [] && LevelOrder(found) == [];
    assert AllChildren([]) == [];
    hide LevelOrder, AllChildren;
    assert [] + AllChildren(found) == AllChildren(found) && found + [] == found;
    assert [] + LevelOrder(found) == LevelOrder(found);
  }

  /** `ast.walk`: a queue, whose front node is yielded after its children have joined the back. */
  method Walk(root: Node) returns (order: seq<Node>)
    ensures order == LevelOrder([root])
  {
    hide LevelOrder, Children, Size, AllChildren, Pending;
    order := [];
    var todo := [root];
    ghost var level, found := [root], [];
    PendingNextLevel([root]);
    assert order + Pending(level, found) == Pending(level, found);
    while todo != []
      invariant todo == level + found
      invariant LevelOrder([root]) == order + Pending(level, found)
      decreases ForestSize(todo)
    {
      if level == [] {
        PendingNextLevel(found);
        level, found := found, [];
      }
      var node := todo[0];
      assert todo == [node] + todo[1..] && level == [node] + level[1..];
      PendingStep(node, level[1..], found);
      QueueShrinks(node, todo[1..]);
      assert order + ([node] + Pending(level[1..], found + Children(node)))
          == (order + [node]) + Pending(level[1..], found + Children(node));
      todo := todo[1..] + Children(node);
      level, found := level[1..], found + Children(node);
      order := order + [node];
    }
    NothingPending();
    assert order + [] == order;
  }

  lemma NothingPending()
    ensures Pending([], []) == []
  {
    assert [] + AllChildren([]) == [];
  }

  lemma QueueShrinks(node: Node, rest: seq<Node>)
    ensures ForestSize(rest + Children(node)) < ForestSize([node] + rest)
  {
    hide Children, Size, ForestSize;
    ForestSizeConcat(rest, Children(node));
    ForestSizeConcat([node], rest);
    SizeOfChildren(node);
    SizeOfOne(node);
  }

  // ----- names

  function DottedName(n: Node): Option<string> {
    match n
    case Name(id) => Some(id)
    case Attribute(value, attr) =>
      (match DottedName(value)
       case None => None
       case Some(prefix) => Some(prefix + "." + attr))
    case _ => None
  }

  /** The dotted name of the called function, or nothing. */
  function CallName(n: Node): string
    requires n.Call?
  {
    var name := DottedName(n.func);
    if name.Some? then name.value else ""
  }

  /** `name.split(".")[0]` */
  function FirstPart(name: string): string {
    if name == "" || name[0] == '.' then "" else [name[0]] + FirstPart(name[1..])
  }

  /** `name.rsplit(".", 1)[-1]` */
  function LastPart(name: string): string {
    if name == "" || name[|name| - 1] == '.' then "" else LastPart(name[..|name| - 1]) + [name[|name| - 1]]
  }

  /** `name.rsplit(".", 1)[0]` if there is a dot, nothing otherwise. */
  function Receiver(name: string): string {
    if name == "" then "" else if name[|name| - 1] == '.' then name[..|name| - 1] else Receiver(name[..|name| - 1])
  }

  function ResolveName(name: string, aliases: map<string, string>): string {
    var head := FirstPart(name);
    if name == "" || head !in aliases then name
    else if |head| + 1 >= |name| then aliases[head]
    else aliases[head] + name[|head|..]
  }

  // ----- sources

  const UNTRUSTED_SOURCES: set<string> := {
    "input", "sys.argv", "os.environ", "os.getenv",
    "request.args", "request.form", "request.values", "request.data",
    "request.json", "request.cookies", "request.headers", "request.files",
    "request.GET", "request.POST", "request.META", "request.body",
    "flask.request.args", "flask.request.form",
    "socket.recv", "sys.stdin.read", "sys.stdin.readline"
  }

  const TAINTED_PARAM_HINTS: set<string> := {
    "user_input", "raw_input", "user_data", "user_path", "user_url",
    "untrusted", "attacker", "request_body", "request_data", "client_input",
    "filename_from_user", "user_filename"
  }

  predicate IsGetter(n: Node) { n.Attribute? && n.attr in ["get", "getlist", "getone"] }

  predicate PassesThrough(name: string) { name in ["str", "bytes", "format", "os.path.join", "str.format"] }

  type Taint = map<string, string>

  function Either(a: Option<string>, b: Option<string>): Option<string> { if a.Some? then a else b }

  /** The untrusted origin the tracker gives an expression. */
  function SourceOf(n: Node, t: Taint): Option<string>
    decreases n, 1
  {
    match n
    case Name(id) => if id in t then Some(t[id]) else None
    case Attribute(_, _) =>
      var dotted := DottedName(n);
      if dotted.Some? && (dotted.value in UNTRUSTED_SOURCES || FirstPart(dotted.value) in ["request", "req"]) then
        Some("access of `" + dotted.value + "`")
      else None
    case Call(func, args, keywords, _) =>
      if CallName(n) in UNTRUSTED_SOURCES then Some("call to `" + CallName(n) + "`")
      else if IsGetter(func) && SourceOf(func.value, t).Some? then SourceOf(func.value, t)
      else if PassesThrough(CallName(n)) then Either(FirstSource(args, t), FirstKeywordSource(keywords, t))
      else None
    case Subscript(value, _) => SourceOf(value, t)
    case BinOp(left, right) => Either(SourceOf(left, t), SourceOf(right, t))
    case JoinedStr(values) => FirstPieceSource(values, t)
    case IfExp(_, body, orelse) => Either(SourceOf(body, t), SourceOf(orelse, t))
    case Starred(value) => SourceOf(value, t)
    case _ => None
  }

  function FirstSource(ns: seq<Node>, t: Taint): Option<string>
    decreases ns, 0
  {
    if ns == [] then None else Either(SourceOf(ns[0], t), FirstSource(ns[1..], t))
  }

  function FirstKeywordSource(ns: seq<Node>, t: Taint): Option<string>
    decreases ns, 0
  {
    if ns == [] then None else Either(KeywordSource(ns[0], t), FirstKeywordSource(ns[1..], t))
  }

  function KeywordSource(n: Node, t: Taint): Option<string>
    decreases n, 2
  {
    if n.Keyword? then SourceOf(n.value, t) else None
  }

  function FirstPieceSource(ns: seq<Node>, t: Taint): Option<string>
    decreases ns, 0
  {
    if ns == [] then None else Either(PieceSource(ns[0], t), FirstPieceSource(ns[1..], t))
  }

  function PieceSource(n: Node, t: Taint): Option<string>
    decreases n, 2
  {
    if n.FormattedValue? then SourceOf(n.value, t) else None
  }

  // ----- sinks

  datatype SinkSpec = SinkSpec(ruleId: string, calls: seq<string>, sanitizers: seq<string>, urlPosition: bool)

  function SinkSpecs(): seq<SinkSpec> {
    [
      SinkSpec("PY-AST-PATH-TRAVERSAL",
               ["open", "io.open", "builtins.open", "Path.read_text", "Path.read_bytes", "Path.open", "Path.write_text",
                   "Path.write_bytes",
                "os.remove", "os.unlink", "os.rmdir", "shutil.copy", "shutil.copyfile", "shutil.move", "send_file",
                    "send_from_directory",
                "os.path.abspath"],
               ["secure_filename", "werkzeug.utils.secure_filename", "os.path.basename", "basename", "Path.name",
                   "os.path.realpath", "realpath"],
               false),
      SinkSpec("PY-AST-SSRF",
               ["requests.get", "requests.post", "requests.put", "requests.delete", "requests.patch",
                   "requests.request", "requests.head",
                "urllib.request.urlopen", "urlopen", "httpx.get", "httpx.post", "httpx.Client.get",
                    "httpx.AsyncClient.get",
                "aiohttp.ClientSession.get", "session.get", "session.post"],
               [], true),
      SinkSpec("PY-AST-XSS",
               ["render_template_string", "Markup", "markupsafe.Markup", "mark_safe",
                   "django.utils.safestring.mark_safe", "response.write",
                "self.write", "writer.write"],
               ["html.escape", "escape", "markupsafe.escape", "bleach.clean", "quote"], false),
      SinkSpec("PY-AST-OPEN-REDIRECT",
               ["redirect", "flask.redirect", "HttpResponseRedirect", "django.shortcuts.redirect", "Response.redirect"],
               ["url_for", "flask.url_for", "urllib.parse.urljoin", "urljoin"], false),
      SinkSpec("PY-AST-TEMPLATE-INJECTION",
               ["Template", "jinja2.Template", "render_template_string", "from_string", "django.template.Template"], [],
                   false)
    ]
  }

  const OBJECT_RECEIVERS: seq<string> := ["path", "p", "f", "fh", "session", "client", "response", "self", "parser",
      "tree",
                                          "doc", "soup", "template", "target", "dest", "src"]

  predicate LooksLikeSpecCall(name: string, spec: SinkSpec) {
    var receiver := Receiver(name);
    receiver == "" || (exists c | c in spec.calls :: FirstPart(c) == FirstPart(receiver))
        || FirstPart(receiver) in OBJECT_RECEIVERS
  }

  predicate Matches(name: string, spec: SinkSpec) {
    name in spec.calls
    || (LastPart(name) != "" && (exists c | c in spec.calls :: LastPart(c) == LastPart(name))
        && LooksLikeSpecCall(name, spec))
  }

  predicate Sanitizes(child: Node, sanitizers: seq<string>) {
    || (child.Call? && (CallName(child) in sanitizers ||
        exists s | s in sanitizers :: LastPart(s) == LastPart(CallName(child))))
    || (child.Attribute? && child.attr == "name")
  }

  predicate ContainsSanitizer(n: Node, sanitizers: seq<string>) {
    sanitizers != [] && exists child | child in LevelOrder([n]) :: Sanitizes(child, sanitizers)
  }

  function UrlKeyword(keywords: seq<Node>): seq<Node> {
    if keywords == [] then []
    else if keywords[0].Keyword? && keywords[0].arg.Some? && keywords[0].arg.value in ["url", "uri", "href",
        "location"] then [keywords[0].value]
    else UrlKeyword(keywords[1..])
  }

  /** The values of the keywords that have a name. */
  function NamedValues(keywords: seq<Node>): seq<Node> {
    if keywords == [] then []
    else if keywords[0].Keyword? && keywords[0].arg.Some? && keywords[0].arg.value != "" then
        [keywords[0].value] + NamedValues(keywords[1..])
    else NamedValues(keywords[1..])
  }

  function CandidateArguments(c: Node, spec: SinkSpec): seq<Node>
    requires c.Call?
  {
    if !spec.urlPosition then c.args + NamedValues(c.keywords)
    else if c.args != [] then [c.args[0]]
    else UrlKeyword(c.keywords)
  }

  datatype Finding = Finding(ruleId: string, site: nat, source: string)

  /** The first argument that is tainted and holds no sanitizer. */
  function FirstFlow(arguments: seq<Node>, spec: SinkSpec, site: nat, t: Taint): seq<Finding> {
    if arguments == [] then []
    else if !ContainsSanitizer(arguments[0], spec.sanitizers) && SourceOf(arguments[0], t).Some? then
      [Finding(spec.ruleId, site, SourceOf(arguments[0], t).value)]
    else FirstFlow(arguments[1..], spec, site, t)
  }

  function SpecFindings(specs: seq<SinkSpec>, c: Node, t: Taint, aliases: map<string, string>): seq<Finding>
    requires c.Call?
  {
    if specs == [] then []
    else if Matches(ResolveName(CallName(c), aliases), specs[0]) then
      FirstFlow(CandidateArguments(c, specs[0]), specs[0], c.site, t) + SpecFindings(specs[1..], c, t, aliases)
    else SpecFindings(specs[1..], c, t, aliases)
  }

  function CallFindings(c: Node, t: Taint, aliases: map<string, string>): seq<Finding>
    requires c.Call?
  {
    SpecFindings(SinkSpecs(), c, t, aliases)
  }

  /** A sink fires exactly when one of its arguments is tainted and holds no sanitizer. */
  lemma {:induction false} SinkFiresExactlyWhen(arguments: seq<Node>, spec: SinkSpec, site: nat, t: Taint)
    ensures FirstFlow(arguments, spec, site, t) != [] <==>
            exists a | a in arguments :: !ContainsSanitizer(a, spec.sanitizers) && SourceOf(a, t).Some?
    ensures |FirstFlow(arguments, spec, site, t)| <= 1
  {
    hide ContainsSanitizer, SourceOf;
    if arguments != [] {
      assert arguments[0] in arguments;
      SinkFiresExactlyWhen(arguments[1..], spec, site, t);
      assert forall a :: a in arguments <==> a == arguments[0] || a in arguments[1..];
    }
  }

  // ----- assignments

  function MarkTargets(targets: seq<Node>, source: string, t: Taint): Taint
    decreases |targets|
  {
    if targets == [] then t
    else MarkTargets(targets[1..], source, if targets[0].Name? then t[targets[0].id := source] else t)
  }

  function ClearTargets(targets: seq<Node>, t: Taint): Taint
    decreases |targets|
  {
    if targets == [] then t
    else ClearTargets(targets[1..], if targets[0].Name? then t - {targets[0].id} else t)
  }

  predicate IsLiteral(n: Node) { n.Constant? || n.Display? }

  function AfterAssign(a: Node, t: Taint): Taint
    requires a.Assign?
  {
    var source := SourceOf(a.value, t);
    if source.Some? then MarkTargets(a.targets, source.value, t)
    else if IsLiteral(a.value) then ClearTargets(a.targets, t)
    else t
  }

  // ----- the tracker

  datatype Flow = Flow(tainted: Taint, findings: seq<Finding>)

  function Visit(n: Node, st: Flow, aliases: map<string, string>): Flow {
    if n.Assign? then st.(tainted := AfterAssign(n, st.tainted))
    else if n.Call? then st.(findings := st.findings + CallFindings(n, st.tainted, aliases))
    else st
  }

  function VisitAll(order: seq<Node>, st: Flow, aliases: map<string, string>): Flow
    decreases |order|
  {
    if order == [] then st else VisitAll(order[1..], Visit(order[0], st, aliases), aliases)
  }

  predicate HintedParam(name: string) {
    name in TAINTED_PARAM_HINTS || Contains(Lower(name), "user_input") || Contains(Lower(name), "untrusted")
  }

  function ParamTaint(params: seq<string>, t: Taint): Taint
    decreases |params|
  {
    if params == [] then t
    else ParamTaint(params[1..], if HintedParam(params[0]) then t[params[0] := "function parameter `" + params[0] + "`"]
        else t)
  }

  class FlowTracker {
    var tainted: Taint
    var findings: seq<Finding>
    const aliases: map<string, string>

    ghost function State(): Flow reads this { Flow(tainted, findings) }

    constructor (aliases: map<string, string>)
      ensures State() == Flow(map[], []) && this.aliases == aliases
    {
      tainted, findings, this.aliases := map[], [], aliases;
    }

    method MarkTaintedParams(params: seq<string>)
      modifies this`tainted
      ensures tainted == ParamTaint(params, old(tainted))
    {
      hide HintedParam;
      for k := 0 to |params|
        invariant ParamTaint(params[k..], tainted) == ParamTaint(params, old(tainted))
      {
        assert params[k..][0] == params[k] && params[k..][1..] == params[k + 1..];
        if HintedParam(params[k]) {
          tainted := tainted[params[k] := "function parameter `" + params[k] + "`"];
        }
      }
    }

    method VisitAssign(a: Node)
      requires a.Assign?
      modifies this`tainted
      ensures tainted == AfterAssign(a, old(tainted))
    {
      hide SourceOf;
      var source := SourceOf(a.value, tainted);
      if source.Some? {
        for k := 0 to |a.targets|
          invariant MarkTargets(a.targets[k..], source.value, tainted)
              == MarkTargets(a.targets, source.value, old(tainted))
        {
          assert a.targets[k..][0] == a.targets[k] && a.targets[k..][1..] == a.targets[k + 1..];
          if a.targets[k].Name? {
            tainted := tainted[a.targets[k].id := source.value];
          }
        }
      } else if IsLiteral(a.value) {
        for k := 0 to |a.targets|
          invariant ClearTargets(a.targets[k..], tainted) == ClearTargets(a.targets, old(tainted))
        {
          assert a.targets[k..][0] == a.targets[k] && a.targets[k..][1..] == a.targets[k + 1..];
          if a.targets[k].Name? {
            tainted := tainted - {a.targets[k].id};
          }
        }
      }
    }

    method CheckCall(c: Node)
      requires c.Call?
      modifies this`findings
      ensures findings == old(findings) + CallFindings(c, tainted, aliases)
    {
      hide Matches, ResolveName, CandidateArguments, FirstFlow;
      var specs := SinkSpecs();
      var name := ResolveName(CallName(c), aliases);
      assert specs[0..] == specs;
      for k := 0 to |specs|
        invariant old(findings) + SpecFindings(specs, c, tainted, aliases)
            == findings + SpecFindings(specs[k..], c, tainted, aliases)
      {
        assert specs[k..][0] == specs[k] && specs[k..][1..] == specs[k + 1..];
        if !Matches(name, specs[k]) {
          continue;
        }
        var emitted := CheckArguments(CandidateArguments(c, specs[k]), specs[k], c.site);
        findings := findings + emitted;
      }
      assert specs[|specs|..] == [] && findings + [] == findings;
    }

    method CheckArguments(arguments: seq<Node>, spec: SinkSpec, site: nat) returns (emitted: seq<Finding>)
      ensures emitted == FirstFlow(arguments, spec, site, tainted)
    {
      hide ContainsSanitizer, SourceOf;
      for k := 0 to |arguments|
        invariant FirstFlow(arguments, spec, site, tainted) == FirstFlow(arguments[k..], spec, site, tainted)
      {
        assert arguments[k..][0] == arguments[k] && arguments[k..][1..] == arguments[k + 1..];
        if ContainsSanitizer(arguments[k], spec.sanitizers) {
          continue;
        }
        var source := SourceOf(arguments[k], tainted);
        if source.None? {
          continue;
        }
        return [Finding(spec.ruleId, site, source.value)];
      }
      emitted := [];
    }
  }

  /** What the tracker makes of a function. */
  function ScopeResult(f: Node, aliases: map<string, string>): Flow
    requires f.FunctionDef?
  {
    VisitAll(LevelOrder([f]), Flow(ParamTaint(f.params, map[]), []), aliases)
  }

  method RunScope(f: Node, aliases: map<string, string>) returns (findings: seq<Finding>)
    requires f.FunctionDef?
    ensures findings == ScopeResult(f, aliases).findings
  {
    hide LevelOrder, ParamTaint, AfterAssign, CallFindings;
    var tracker := new FlowTracker(aliases);
    tracker.MarkTaintedParams(f.params);
    var order := Walk(f);
    for k := 0 to |order|
      invariant VisitAll(order[k..], tracker.State(), aliases) == ScopeResult(f, aliases)
    {
      assert order[k..][0] == order[k] && order[k..][1..] == order[k + 1..];
      if order[k].Assign? {
        tracker.VisitAssign(order[k]);
      } else if order[k].Call? {
        tracker.CheckCall(order[k]);
      }
    }
    findings := tracker.findings;
  }

  // ----- a pass in program order

  /** Every finding of the calls among some nodes. */
  function CallsFindings(order: seq<Node>, t: Taint, aliases: map<string, string>): seq<Finding> {
    if order == [] then []
    else if order[0].Call? then CallFindings(order[0], t, aliases) + CallsFindings(order[1..], t, aliases)
    else CallsFindings(order[1..], t, aliases)
  }

  /** Statement by statement: the calls in a statement are made before it binds its targets. */
  function InOrder(body: seq<Node>, st: Flow, aliases: map<string, string>): Flow
    decreases |body|
  {
    if body == [] then st
    else
      var called := st.findings + CallsFindings(LevelOrder(Children(body[0])), st.tainted, aliases);
      var bound := if body[0].Assign? then AfterAssign(body[0], st.tainted) else st.tainted;
      InOrder(body[1..], Flow(bound, called), aliases)
  }

  predicate NoAssign(ns: seq<Node>) { forall n | n in LevelOrder(ns) :: !n.Assign? }

  /** A statement of a flat body: assignments to names, and expressions. */
  predicate FlatStatement(n: Node) {
    (n.Assign? || n.ExprStmt?) && (n.Assign? ==> forall e | e in n.targets :: e.Name?) && NoAssign(Children(n))
  }

  predicate Flat(body: seq<Node>) { forall n | n in body :: FlatStatement(n) }

  /** The names in a forest. */
  function NamesIn(ns: seq<Node>): set<string>
    decreases ForestSize(ns)
  {
    if ns == [] then {}
    else
      SizeOfChildren(ns[0]);
      (if ns[0].Name? then {ns[0].id} else {}) + NamesIn(Children(ns[0])) + NamesIn(ns[1..])
  }

  // ----- what an expression's origin depends on

  predicate AgreeOn(names: set<string>, t: Taint, u: Taint) {
    forall x | x in names :: (x in t <==> x in u) && (x in t ==> t[x] == u[x])
  }

  lemma {:induction false} NamesInConcat(a: seq<Node>, b: seq<Node>)
    ensures NamesIn(a + b) == NamesIn(a) + NamesIn(b)
    decreases |a|
  {
    hide Children, Size;
    if a == [] {
      assert a + b == b;
    } else {
      assert (a + b)[1..] == a[1..] + b;
      NamesInConcat(a[1..], b);
    }
  }

  lemma {:induction false} NamesInMember(ns: seq<Node>, n: Node)
    requires n in ns
    ensures NamesIn([n]) <= NamesIn(ns)
    decreases |ns|
  {
    hide Children, Size;
    if n == ns[0] {
      assert [n][1..] == [];
    } else {
      NamesInMember(ns[1..], n);
    }
  }

  lemma NamesInOne(n: Node)
    ensures NamesIn([n]) == (if n.Name? then {n.id} else {}) + NamesIn(Children(n))
  {
    hide Children, Size;
    assert [n][1..] == [];
  }

  lemma NamesInSome(ns: seq<Node>)
    requires ns != []
    ensures NamesIn(ns) == NamesIn([ns[0]]) + NamesIn(ns[1..])
  {
    hide NamesIn;
    NamesInConcat([ns[0]], ns[1..]);
    assert [ns[0]] + ns[1..] == ns;
  }

  lemma NamesInParts(n: Node)
    ensures n.Attribute? || n.Subscript? || n.Starred? || n.FormattedValue? || n.Keyword?
        ==> NamesIn([n.value]) <= NamesIn([n])
    ensures n.BinOp? ==> NamesIn([n.left]) + NamesIn([n.right]) <= NamesIn([n])
    ensures n.IfExp? ==> NamesIn([n.body]) + NamesIn([n.orelse]) <= NamesIn([n])
    ensures n.JoinedStr? ==> NamesIn(n.values) <= NamesIn([n])
    ensures n.Call? ==> NamesIn([n.func]) + NamesIn(n.args) + NamesIn(n.keywords) <= NamesIn([n])
  {
    NamesInOne(n);
    hide NamesIn;
    match n
    case Call(func, args, keywords, _) =>
      NamesInConcat([func] + args, keywords);
      NamesInConcat([func], args);
    case Subscript(value, index) => NamesInMember([value, index], value);
    case BinOp(left, right) =>
      NamesInMember([left, right], left);
      NamesInMember([left, right], right);
    case IfExp(test, body, orelse) =>
      NamesInMember([test, body, orelse], body);
      NamesInMember([test, body, orelse], orelse);
    case _ =>
  }

  /** The origin of an expression depends only on the names in it. */
  lemma {:induction false} SourceIsLocal(n: Node, t: Taint, u: Taint)
    requires AgreeOn(NamesIn([n]), t, u)
    ensures SourceOf(n, t) == SourceOf(n, u)
    decreases n, 1
  {
    hide NamesIn;
    NamesInParts(n);
    match n
    case Name(id) => NamesInOne(n);
    case Call(func, args, keywords, _) =>
      if IsGetter(func) {
        NamesInParts(func);
        SourceIsLocal(func.value, t, u);
      }
      FirstIsLocal(args, t, u);
      KeywordsAreLocal(keywords, t, u);
    case Subscript(value, _) => SourceIsLocal(value, t, u);
    case BinOp(left, right) => SourceIsLocal(left, t, u); SourceIsLocal(right, t, u);
    case JoinedStr(values) => PiecesAreLocal(values, t, u);
    case IfExp(_, body, orelse) => SourceIsLocal(body, t, u); SourceIsLocal(orelse, t, u);
    case Starred(value) => SourceIsLocal(value, t, u);
    case _ =>
  }

  lemma {:induction false} FirstIsLocal(ns: seq<Node>, t: Taint, u: Taint)
    requires AgreeOn(NamesIn(ns), t, u)
    ensures FirstSource(ns, t) == FirstSource(ns, u)
    decreases ns, 0
  {
    hide NamesIn, SourceOf;
    if ns != [] {
      NamesInSome(ns);
      SourceIsLocal(ns[0], t, u);
      FirstIsLocal(ns[1..], t, u);
    }
  }

  lemma {:induction false} KeywordsAreLocal(ns: seq<Node>, t: Taint, u: Taint)
    requires AgreeOn(NamesIn(ns), t, u)
    ensures FirstKeywordSource(ns, t) == FirstKeywordSource(ns, u)
    decreases ns, 0
  {
    hide NamesIn, SourceOf;
    if ns != [] {
      NamesInSome(ns);
      PartIsLocal(ns[0], t, u);
      KeywordsAreLocal(ns[1..], t, u);
    }
  }

  lemma {:induction false} PiecesAreLocal(ns: seq<Node>, t: Taint, u: Taint)
    requires AgreeOn(NamesIn(ns), t, u)
    ensures FirstPieceSource(ns, t) == FirstPieceSource(ns, u)
    decreases ns, 0
  {
    hide NamesIn, SourceOf;
    if ns != [] {
      NamesInSome(ns);
      PartIsLocal(ns[0], t, u);
      PiecesAreLocal(ns[1..], t, u);
    }
  }

  lemma {:induction false} PartIsLocal(n: Node, t: Taint, u: Taint)
    requires AgreeOn(NamesIn([n]), t, u)
    ensures KeywordSource(n, t) == KeywordSource(n, u) && PieceSource(n, t) == PieceSource(n, u)
    decreases n, 2
  {
    hide NamesIn, SourceOf;
    NamesInParts(n);
    if n.Keyword? || n.FormattedValue? {
      SourceIsLocal(n.value, t, u);
    }
  }

  lemma {:induction false} FlowIsLocal(arguments: seq<Node>, spec: SinkSpec, site: nat, t: Taint, u: Taint)
    requires forall a | a in arguments :: AgreeOn(NamesIn([a]), t, u)
    ensures FirstFlow(arguments, spec, site, t) == FirstFlow(arguments, spec, site, u)
  {
    hide NamesIn, SourceOf, ContainsSanitizer, AgreeOn;
    if arguments != [] {
      assert arguments[0] in arguments && forall a | a in arguments[1..] :: a in arguments;
      SourceIsLocal(arguments[0], t, u);
      FlowIsLocal(arguments[1..], spec, site, t, u);
    }
  }

  lemma {:induction false} KeywordValuesInside(keywords: seq<Node>)
    ensures forall a | a in NamedValues(keywords) + UrlKeyword(keywords) :: NamesIn([a]) <= NamesIn(keywords)
  {
    hide NamesIn;
    if keywords != [] {
      NamesInSome(keywords);
      NamesInParts(keywords[0]);
      KeywordValuesInside(keywords[1..]);
      forall a | a in NamedValues(keywords) + UrlKeyword(keywords) ensures NamesIn([a]) <= NamesIn(keywords) {
        if keywords[0].Keyword? && a == keywords[0].value {
        } else {
          assert a in NamedValues(keywords[1..]) + UrlKeyword(keywords[1..]);
        }
      }
    }
  }

  lemma CandidatesInside(c: Node, spec: SinkSpec)
    requires c.Call?
    ensures forall a | a in CandidateArguments(c, spec) :: NamesIn([a]) <= NamesIn([c])
  {
    NamesInParts(c);
    KeywordValuesInside(c.keywords);
    hide NamesIn, NamedValues, UrlKeyword;
    forall a | a in CandidateArguments(c, spec) ensures NamesIn([a]) <= NamesIn([c]) {
      if a in c.args {
        NamesInMember(c.args, a);
      } else {
        assert a in NamedValues(c.keywords) + UrlKeyword(c.keywords);
      }
    }
  }

  lemma {:induction false} SpecsAreLocal(specs: seq<SinkSpec>, c: Node, t: Taint, u: Taint, aliases: map<string,
          string>)
    requires c.Call? && AgreeOn(NamesIn([c]), t, u)
    ensures SpecFindings(specs, c, t, aliases) == SpecFindings(specs, c, u, aliases)
  {
    hide NamesIn, Matches, CandidateArguments, FirstFlow, ResolveName;
    if specs != [] {
      CandidatesInside(c, specs[0]);
      FlowIsLocal(CandidateArguments(c, specs[0]), specs[0], c.site, t, u);
      SpecsAreLocal(specs[1..], c, t, u, aliases);
    }
  }

  lemma {:induction false} CallsAreLocal(order: seq<Node>, t: Taint, u: Taint, aliases: map<string, string>)
    requires forall c | c in order && c.Call? :: AgreeOn(NamesIn([c]), t, u)
    ensures CallsFindings(order, t, aliases) == CallsFindings(order, u, aliases)
  {
    hide NamesIn, AgreeOn, SpecFindings;
    if order != [] {
      assert order[0] in order && forall n | n in order[1..] :: n in order;
      if order[0].Call? {
        SpecsAreLocal(SinkSpecs(), order[0], t, u, aliases);
      }
      CallsAreLocal(order[1..], t, u, aliases);
    }
  }

  // ----- the breadth-first visit of a flat body

  lemma {:induction false} CallsConcat(a: seq<Node>, b: seq<Node>, t: Taint, aliases: map<string, string>)
    ensures CallsFindings(a + b, t, aliases) == CallsFindings(a, t, aliases) + CallsFindings(b, t, aliases)
  {
    hide CallFindings;
    if a == [] {
      assert a + b == b;
    } else {
      assert (a + b)[0] == a[0] && (a + b)[1..] == a[1..] + b;
      CallsConcat(a[1..], b, t, aliases);
    }
  }

  /** The findings of two forests side by side are those of each, however their levels interleave. */
  lemma {:induction false} ForestsSideBySide(a: seq<Node>, b: seq<Node>, t: Taint, aliases: map<string, string>)
    ensures multiset(CallsFindings(LevelOrder(a + b), t, aliases)) ==
            multiset(CallsFindings(LevelOrder(a), t, aliases)) + multiset(CallsFindings(LevelOrder(b), t, aliases))
    decreases ForestSize(a) + ForestSize(b)
  {
    hide CallsFindings, AllChildren, ForestSize;
    if a == [] {
      assert a + b == b;
      NoFindings(t, aliases);
    } else if b == [] {
      assert a + b == a;
      NoFindings(t, aliases);
    } else {
      SizeOfAllChildren(a);
      SizeOfAllChildren(b);
      ForestsSideBySide(AllChildren(a), AllChildren(b), t, aliases);
      AllChildrenConcat(a, b);
      LevelsUnfold(a);
      LevelsUnfold(b);
      LevelsUnfold(a + b);
      hide LevelOrder;
      CallsConcat(a, LevelOrder(AllChildren(a)), t, aliases);
      CallsConcat(b, LevelOrder(AllChildren(b)), t, aliases);
      CallsConcat(a + b, LevelOrder(AllChildren(a) + AllChildren(b)), t, aliases);
      CallsConcat(a, b, t, aliases);
    }
  }

  lemma NoFindings(t: Taint, aliases: map<string, string>)
    ensures LevelOrder([]) == [] && CallsFindings([], t, aliases) == []
  {
  }

  lemma LevelsUnfold(ns: seq<Node>)
    requires ns != []
    ensures LevelOrder(ns) == ns + LevelOrder(AllChildren(ns))
  {
  }

  /** Visiting nodes that are no assignments only adds the findings of their calls. */
  lemma {:induction false} VisitCalls(order: seq<Node>, st: Flow, aliases: map<string, string>)
    requires forall n | n in order :: !n.Assign?
    ensures VisitAll(order, st, aliases) == st.(findings := st.findings + CallsFindings(order, st.tainted, aliases))
    decreases |order|
  {
    hide CallFindings;
    if order == [] {
      assert st.findings + [] == st.findings;
    } else {
      assert order[0] in order && forall n | n in order[1..] :: n in order;
      var next := Visit(order[0], st, aliases);
      VisitCalls(order[1..], next, aliases);
      if order[0].Call? {
        var here, rest := CallFindings(order[0], st.tainted, aliases), CallsFindings(order[1..], st.tainted, aliases);
        assert st.findings + (here + rest) == (st.findings + here) + rest;
      }
    }
  }

  lemma {:induction false} VisitConcat(a: seq<Node>, b: seq<Node>, st: Flow, aliases: map<string, string>)
    ensures VisitAll(a + b, st, aliases) == VisitAll(b, VisitAll(a, st, aliases), aliases)
    decreases |a|
  {
    hide Visit;
    if a == [] {
      assert a + b == b;
    } else {
      assert (a + b)[0] == a[0] && (a + b)[1..] == a[1..] + b;
      VisitConcat(a[1..], b, Visit(a[0], st, aliases), aliases);
    }
  }

  /** The taint after all the assignments of a body, in order. */
  function AssignAll(body: seq<Node>, t: Taint): Taint
    decreases |body|
  {
    if body == [] then t else AssignAll(body[1..], if body[0].Assign? then AfterAssign(body[0], t) else t)
  }

  /** Visiting the statements of a flat body makes its assignments, in program order, and nothing else. */
  lemma {:induction false} VisitStatements(body: seq<Node>, st: Flow, aliases: map<string, string>)
    requires Flat(body)
    ensures VisitAll(body, st, aliases) == st.(tainted := AssignAll(body, st.tainted))
    decreases |body|
  {
    hide AfterAssign, NoAssign, CallFindings;
    if body != [] {
      assert body[0] in body && forall n | n in body[1..] :: n in body;
      assert FlatStatement(body[0]);
      VisitStatements(body[1..], Visit(body[0], st, aliases), aliases);
    }
  }

  lemma {:induction false} FlatChildrenHoldNoAssign(body: seq<Node>)
    requires Flat(body)
    ensures NoAssign(AllChildren(body))
  {
    hide LevelOrder, Children;
    if body == [] {
      assert AllChildren(body) == [] && LevelOrder([]) == [] by { NoFindings(map[], map[]); }
    } else {
      assert body[0] in body && forall n | n in body[1..] :: n in body;
      assert FlatStatement(body[0]);
      FlatChildrenHoldNoAssign(body[1..]);
      forall n | n in LevelOrder(AllChildren(body)) ensures !n.Assign? {
        LevelsOfBoth(Children(body[0]), AllChildren(body[1..]), n);
      }
    }
  }

  lemma {:induction false} LevelsOfBoth(a: seq<Node>, b: seq<Node>, n: Node)
    requires n in LevelOrder(a + b)
    ensures n in LevelOrder(a) || n in LevelOrder(b)
    decreases ForestSize(a) + ForestSize(b)
  {
    hide ForestSize, AllChildren;
    if a == [] {
      assert a + b == b;
    } else if b == [] {
      assert a + b == a;
    } else {
      SizeOfAllChildren(a);
      SizeOfAllChildren(b);
      AllChildrenConcat(a, b);
      LevelsUnfold(a);
      LevelsUnfold(b);
      LevelsUnfold(a + b);
      hide LevelOrder;
      if n in LevelOrder(AllChildren(a) + AllChildren(b)) {
        LevelsOfBoth(AllChildren(a), AllChildren(b), n);
      }
    }
  }

  /** The breadth-first visit of a flat function: every assignment is processed, in program order,
      before any call, and every call is judged by the taint after all of them. */
  lemma FlatScope(f: Node, aliases: map<string, string>)
    requires f.FunctionDef? && Flat(f.suite)
    ensures var last := AssignAll(f.suite, ParamTaint(f.params, map[]));
            ScopeResult(f, aliases) == Flow(last, CallsFindings(LevelOrder(AllChildren(f.suite)), last, aliases))
  {
    var st := Flow(ParamTaint(f.params, map[]), []);
    var body := f.suite;
    LevelsUnfold([f]);
    AllChildrenOfOne(f);
    FlatChildrenHoldNoAssign(body);
    if body == [] {
      NoFindings(st.tainted, aliases);
      assert [f] + [] == [f] && AllChildren(body) == [];
      assert VisitAll([f][1..], st, aliases) == st;
    } else {
      LevelsUnfold(body);
      hide LevelOrder, AllChildren, ParamTaint, AssignAll, CallsFindings;
      var rest := LevelOrder(AllChildren(body));
      assert ([f] + (body + rest))[0] == f && ([f] + (body + rest))[1..] == body + rest;
      assert VisitAll([f] + (body + rest), st, aliases) == VisitAll(body + rest, st, aliases);
      VisitConcat(body, rest, st, aliases);
      VisitStatements(body, st, aliases);
      VisitCalls(rest, st.(tainted := AssignAll(body, st.tainted)), aliases);
      assert [] + CallsFindings(rest, AssignAll(body, st.tainted), aliases)
          == CallsFindings(rest, AssignAll(body, st.tainted), aliases);
    }
  }

  // ----- the order does no harm on settled bodies

  /** Every name in a call of the statement has the same taint in both. */
  predicate SettledCalls(n: Node, t: Taint, last: Taint) {
    forall c | c in LevelOrder(Children(n)) && c.Call? :: AgreeOn(NamesIn([c]), t, last)
  }

  /** Every name that a call reads has the same taint there as after the whole body. */
  predicate CallsAreSettled(body: seq<Node>, t: Taint)
    decreases |body|
  {
    body != [] ==>
      && SettledCalls(body[0], t, AssignAll(body, t))
      && CallsAreSettled(body[1..], if body[0].Assign? then AfterAssign(body[0], t) else t)
  }

  lemma {:induction false} InOrderIsLast(body: seq<Node>, st: Flow, aliases: map<string, string>)
    requires Flat(body) && CallsAreSettled(body, st.tainted)
    ensures var last := AssignAll(body, st.tainted);
            && InOrder(body, st, aliases).tainted == last
            && multiset(InOrder(body, st, aliases).findings) ==
               multiset(st.findings) + multiset(CallsFindings(LevelOrder(AllChildren(body)), last, aliases))
    decreases |body|
  {
    hide LevelOrder, CallsFindings, NamesIn, AfterAssign, AgreeOn, NoAssign;
    if body == [] {
      NoFindings(st.tainted, aliases);
    } else {
      var n, rest := body[0], body[1..];
      assert n in body && forall m | m in rest :: m in body;
      assert FlatStatement(n);
      var last := AssignAll(body, st.tainted);
      var bound := if n.Assign? then AfterAssign(n, st.tainted) else st.tainted;
      var called := st.findings + CallsFindings(LevelOrder(Children(n)), st.tainted, aliases);
      CallsAreLocal(LevelOrder(Children(n)), st.tainted, last, aliases);
      InOrderIsLast(rest, Flow(bound, called), aliases);
      ForestsSideBySide(Children(n), AllChildren(rest), last, aliases);
    }
  }

  /** On a flat body whose calls are settled, the breadth-first visit reports what a pass in program
      order reports, each finding as often, and ends with the same taint. */
  lemma BreadthFirstIsHarmless(f: Node, aliases: map<string, string>)
    requires f.FunctionDef? && Flat(f.suite) && CallsAreSettled(f.suite, ParamTaint(f.params, map[]))
    ensures var program := InOrder(f.suite, Flow(ParamTaint(f.params, map[]), []), aliases);
            && ScopeResult(f, aliases).tainted == program.tainted
            && multiset(ScopeResult(f, aliases).findings) == multiset(program.findings)
  {
    hide *;
    FlatScope(f, aliases);
    InOrderIsLast(f.suite, Flow(ParamTaint(f.params, map[]), []), aliases);
  }

  // ----- and where it does harm

  lemma OnlyTheValueCalls(n: Node, t: Taint, aliases: map<string, string>)
    requires n.Assign? && forall e | e in n.targets :: e.Name?
    ensures multiset(CallsFindings(LevelOrder(Children(n)), t, aliases))
        == multiset(CallsFindings(LevelOrder([n.value]), t, aliases))
  {
    hide LevelOrder, CallsFindings;
    ForestsSideBySide(n.targets, [n.value], t, aliases);
    NamesMakeNoCalls(n.targets, t, aliases);
  }

  lemma {:induction false} NamesMakeNoCalls(targets: seq<Node>, t: Taint, aliases: map<string, string>)
    requires forall e | e in targets :: e.Name?
    ensures CallsFindings(LevelOrder(targets), t, aliases) == []
  {
    NoFindings(t, aliases);
    if targets != [] {
      LevelsUnfold(targets);
      NamesHaveNoChildren(targets);
      assert targets + [] == targets;
      NamesAreNoCalls(targets, t, aliases);
    }
  }

  lemma {:induction false} NamesHaveNoChildren(targets: seq<Node>)
    requires forall e | e in targets :: e.Name?
    ensures AllChildren(targets) == []
  {
    if targets != [] {
      assert targets[0] in targets && forall e | e in targets[1..] :: e in targets;
      NamesHaveNoChildren(targets[1..]);
    }
  }

  lemma {:induction false} NamesAreNoCalls(targets: seq<Node>, t: Taint, aliases: map<string, string>)
    requires forall e | e in targets :: e.Name?
    ensures CallsFindings(targets, t, aliases) == []
  {
    if targets != [] {
      assert targets[0] in targets && forall e | e in targets[1..] :: e in targets;
      NamesAreNoCalls(targets[1..], t, aliases);
    }
  }

  function OpenCall(x: string, site: nat): Node { Call(Name("open"), [Name(x)], [], site) }

  function Input(): Node { Call(Name("input"), [], [], 0) }

  function Open(x: string, site: nat): Node { ExprStmt(OpenCall(x, site)) }

  function Bind(x: string, value: Node): Node { Assign([Name(x)], value) }

  lemma {:induction false} NothingTainted(specs: seq<SinkSpec>, c: Node, t: Taint, aliases: map<string, string>)
    requires c.Call? && c.keywords == [] && forall a | a in c.args :: SourceOf(a, t).None?
    ensures SpecFindings(specs, c, t, aliases) == []
  {
    hide SourceOf, Matches, ResolveName;
    if specs != [] {
      NothingTainted(specs[1..], c, t, aliases);
      forall a | a in CandidateArguments(c, specs[0]) ensures SourceOf(a, t).None? {
        assert NamedValues(c.keywords) == [] && UrlKeyword(c.keywords) == [];
      }
      SinkFiresExactlyWhen(CandidateArguments(c, specs[0]), specs[0], c.site, t);
    }
  }

  lemma NameHoldsNoSanitizer(x: string, sanitizers: seq<string>)
    ensures !ContainsSanitizer(Name(x), sanitizers)
  {
    LevelsUnfold([Name(x)]);
    AllChildrenOfOne(Name(x));
    assert [Name(x)] + [] == [Name(x)];
    NoFindings(map[], map[]);
  }

  lemma OpenMatches()
    ensures Matches("open", SinkSpecs()[0]) && !SinkSpecs()[0].urlPosition && ResolveName("open", map[]) == "open"
  {
    assert SinkSpecs()[0].calls[0] == "open";
  }

  /** Opening a tainted name is reported; opening one that is not, or reading input, is not. */
  lemma OpenFindings(x: string, site: nat, t: Taint)
    ensures x in t <==> CallFindings(OpenCall(x, site), t, map[]) != []
    ensures CallFindings(Input(), t, map[]) == []
  {
    var c := OpenCall(x, site);
    assert SourceOf(Name(x), t).Some? <==> x in t;
    NothingTainted(SinkSpecs(), Input(), t, map[]);
    if x in t {
      OpenMatches();
      NameHoldsNoSanitizer(x, SinkSpecs()[0].sanitizers);
      assert CandidateArguments(c, SinkSpecs()[0]) == [Name(x)];
      assert CallName(c) == "open";
      hide Matches, ContainsSanitizer, ResolveName;
      assert FirstFlow([Name(x)], SinkSpecs()[0], site, t) != [];
    } else {
      NothingTainted(SinkSpecs(), c, t, map[]);
    }
  }

  /** The nodes under an expression statement or a binding, seen through their calls. */
  lemma CallsOfCall(c: Node, t: Taint)
    requires c.Call? && c.keywords == [] && c.func.Name? && forall a | a in c.args :: a.Name?
    ensures CallsFindings(LevelOrder([c]), t, map[]) == CallFindings(c, t, map[])
    ensures NoAssign([c])
  {
    hide CallFindings;
    LevelsUnfold([c]);
    AllChildrenOfOne(c);
    assert Children(c) == [c.func] + c.args;
    NamesMakeNoCalls(Children(c), t, map[]);
    CallsConcat([c], LevelOrder(Children(c)), t, map[]);
    assert CallsFindings([c], t, map[]) == CallFindings(c, t, map[]) by {
      assert [c][1..] == [] && CallFindings(c, t, map[]) + [] == CallFindings(c, t, map[]);
    }
    NamesHoldNoAssign(Children(c));
    hide Children;
    assert CallFindings(c, t, map[]) + [] == CallFindings(c, t, map[]);
  }

  lemma NamesHoldNoAssign(targets: seq<Node>)
    requires forall e | e in targets :: e.Name?
    ensures NoAssign(targets)
  {
    NoFindings(map[], map[]);
    if targets != [] {
      LevelsUnfold(targets);
      NamesHaveNoChildren(targets);
      hide LevelOrder;
      assert targets + [] == targets;
    }
  }

  lemma BindingIsFlat(x: string, value: Node)
    requires NoAssign([value])
    ensures FlatStatement(Bind(x, value))
  {
    NamesHoldNoAssign([Name(x)]);
    hide LevelOrder;
    forall n | n in LevelOrder([Name(x)] + [value]) ensures !n.Assign? {
      LevelsOfBoth([Name(x)], [value], n);
    }
  }

  lemma ConstantIsQuiet(t: Taint)
    ensures NoAssign([Constant]) && CallsFindings(LevelOrder([Constant]), t, map[]) == []
  {
    LevelsUnfold([Constant]);
    AllChildrenOfOne(Constant);
    NoFindings(t, map[]);
    hide LevelOrder;
    assert [Constant] + [] == [Constant];
  }

  /** What binding a name to input, or to a literal, does to the taint. */
  lemma BindingTaint(x: string, t: Taint)
    ensures x in AfterAssign(Bind(x, Input()), t) && x !in AfterAssign(Bind(x, Constant), t)
  {
    var source := SourceOf(Input(), t);
    assert CallName(Input()) == "input" && source.Some?;
    assert SourceOf(Constant, t).None?;
    hide SourceOf;
    assert [Name(x)][1..] == [];
    assert MarkTargets([Name(x)], source.value, t) == t[x := source.value];
    assert ClearTargets([Name(x)], t) == t - {x};
  }

  lemma OpenStatement(x: string, site: nat, t: Taint)
    ensures x in t <==> CallsFindings(LevelOrder(Children(Open(x, site))), t, map[]) != []
    ensures FlatStatement(Open(x, site))
  {
    hide *;
    OpenFindings(x, site, t);
    OpenIsCall(x, site);
    CallsOfCall(OpenCall(x, site), t);
    OnlyExpression(Open(x, site));
  }

  lemma OpenIsCall(x: string, site: nat)
    ensures Open(x, site).ExprStmt? && Open(x, site).value == OpenCall(x, site)
    ensures var c := OpenCall(x, site); c.Call? && c.keywords == [] && c.func.Name? && forall a | a in c.args :: a.Name?
  {
  }

  lemma OnlyExpression(n: Node)
    requires n.ExprStmt? && NoAssign([n.value])
    ensures Children(n) == [n.value] && FlatStatement(n)
  {
  }

  lemma QuietBinding(x: string, value: Node, t: Taint)
    requires NoAssign([value]) && CallsFindings(LevelOrder([value]), t, map[]) == []
    ensures CallsFindings(LevelOrder(Children(Bind(x, value))), t, map[]) == [] && FlatStatement(Bind(x, value))
  {
    hide LevelOrder, CallsFindings, NoAssign;
    OnlyTheValueCalls(Bind(x, value), t, map[]);
    BindingIsFlat(x, value);
    EmptyMultiset(CallsFindings(LevelOrder(Children(Bind(x, value))), t, map[]));
  }

  lemma InputBinding(x: string, t: Taint)
    ensures CallsFindings(LevelOrder(Children(Bind(x, Input()))), t, map[]) == [] && FlatStatement(Bind(x, Input()))
  {
    OpenFindings(x, 0, t);
    CallsOfCall(Input(), t);
    hide LevelOrder, CallsFindings, CallFindings, NoAssign, FlatStatement, Children;
    QuietBinding(x, Input(), t);
  }

  lemma LiteralBinding(x: string, t: Taint)
    ensures CallsFindings(LevelOrder(Children(Bind(x, Constant))), t, map[]) == [] && FlatStatement(Bind(x, Constant))
  {
    ConstantIsQuiet(t);
    hide LevelOrder, CallsFindings, CallFindings, NoAssign, FlatStatement, Children;
    QuietBinding(x, Constant, t);
  }

  lemma EmptyMultiset(fs: seq<Finding>)
    requires multiset(fs) == multiset([])
    ensures fs == []
  {
    assert |multiset(fs)| == 0;
  }

  /** The breadth-first visit of a flat body with two statements. */
  lemma TwoStatements(a: Node, b: Node, last: Taint)
    requires FlatStatement(a) && FlatStatement(b) && last == AssignAll([a, b], map[])
    ensures multiset(ScopeResult(FunctionDef([], [a, b]), map[]).findings) ==
            multiset(CallsFindings(LevelOrder(Children(a)), last, map[]))
                + multiset(CallsFindings(LevelOrder(Children(b)), last, map[]))
  {
    hide LevelOrder, CallsFindings, FlatStatement, Children;
    FlatScope(FunctionDef([], [a, b]), map[]);
    ForestsSideBySide(Children(a), Children(b), last, map[]);
    AllChildrenOfOne(b);
    assert [a, b][1..] == [b];
  }

  lemma ThreeStatements(a: Node, b: Node, c: Node, last: Taint)
    requires FlatStatement(a) && FlatStatement(b) && FlatStatement(c) && last == AssignAll([a, b, c], map[])
    ensures multiset(ScopeResult(FunctionDef([], [a, b, c]), map[]).findings) ==
            multiset(CallsFindings(LevelOrder(Children(a)), last, map[]))
                + multiset(CallsFindings(LevelOrder(Children(b)), last, map[]))
            + multiset(CallsFindings(LevelOrder(Children(c)), last, map[]))
  {
    hide LevelOrder, CallsFindings, FlatStatement, Children;
    FlatScope(FunctionDef([], [a, b, c]), map[]);
    ForestsSideBySide(Children(b), Children(c), last, map[]);
    ForestsSideBySide(Children(a), Children(b) + Children(c), last, map[]);
    AllChildrenOfOne(c);
    assert [a, b, c][1..] == [b, c] && [b, c][1..] == [c];
  }

  /** A name opened before it is read from input is reported, though no run taints it in time. */
  lemma EarlyUseIsReported(x: string, site: nat)
    ensures var body := [Open(x, site), Bind(x, Input())];
            ScopeResult(FunctionDef([], body), map[]).findings != []
                && InOrder(body, Flow(map[], []), map[]).findings == []
  {
    hide LevelOrder, CallsFindings, CallFindings, AfterAssign, FlatStatement, Children, ScopeResult, SinkSpecs, InOrder;
    var use, bind := Open(x, site), Bind(x, Input());
    assert [use, bind][1..] == [bind] && [bind][1..] == [];
    var last := AfterAssign(bind, map[]);
    BindingTaint(x, map[]);
    OpenStatement(x, site, last);
    InputBinding(x, last);
    assert AssignAll([use, bind], map[]) == AssignAll([bind], map[]) == AssignAll([], last);
    TwoStatements(use, bind, last);
    assert CallsFindings(LevelOrder(Children(use)), last, map[])[0] in multiset(ScopeResult(FunctionDef([],
        [use, bind]), map[]).findings);
    OpenStatement(x, site, map[]);
    InputBinding(x, map[]);
    InOrderOfTwo(use, bind, map[], map[]);
  }

  lemma InOrderStep(n: Node, rest: seq<Node>, t: Taint, fs: seq<Finding>)
    ensures InOrder([n] + rest, Flow(t, fs), map[]) ==
            InOrder(rest, Flow(if n.Assign? then AfterAssign(n, t)
                else t, fs + CallsFindings(LevelOrder(Children(n)), t, map[])), map[])
  {
    hide LevelOrder, CallsFindings, AfterAssign, Children;
    assert ([n] + rest)[0] == n && ([n] + rest)[1..] == rest;
  }

  lemma InOrderOfTwo(a: Node, b: Node, t: Taint, u: Taint)
    requires u == if a.Assign? then AfterAssign(a, t) else t
    ensures InOrder([a, b], Flow(t, []), map[]).findings ==
            CallsFindings(LevelOrder(Children(a)), t, map[]) + CallsFindings(LevelOrder(Children(b)), u, map[])
  {
    InOrderStep(a, [b], t, []);
    var first := CallsFindings(LevelOrder(Children(a)), t, map[]);
    InOrderStep(b, [], u, first);
    hide LevelOrder, CallsFindings, AfterAssign, Children;
    assert [a] + [b] == [a, b] && [b] + [] == [b] && [] + first == first;
  }

  /** A tainted name that is opened and afterwards bound to a literal is not reported. */
  lemma LaterLiteralHidesTheFlow(x: string, site: nat)
    ensures var body := [Bind(x, Input()), Open(x, site), Bind(x, Constant)];
            ScopeResult(FunctionDef([], body), map[]).findings == []
                && InOrder(body, Flow(map[], []), map[]).findings != []
  {
    hide LevelOrder, CallsFindings, CallFindings, AfterAssign, FlatStatement, Children, ScopeResult, SinkSpecs, InOrder;
    var bind, use, reset := Bind(x, Input()), Open(x, site), Bind(x, Constant);
    assert [bind, use, reset][1..] == [use, reset] && [use, reset][1..] == [reset] && [reset][1..] == [];
    var read := AfterAssign(bind, map[]);
    var last := AfterAssign(reset, read);
    BindingTaint(x, map[]);
    BindingTaint(x, read);
    assert AssignAll([bind, use, reset], map[]) == AssignAll([use, reset], read) == AssignAll([reset], read)
        == AssignAll([], last);
    InputBinding(x, last);
    OpenStatement(x, site, last);
    LiteralBinding(x, last);
    ThreeStatements(bind, use, reset, last);
    EmptyMultiset(ScopeResult(FunctionDef([], [bind, use, reset]), map[]).findings);
    InputBinding(x, map[]);
    OpenStatement(x, site, read);
    LiteralBinding(x, read);
    InOrderOfTwo(use, reset, read, read);
    InOrderStep(bind, [use, reset], map[], []);
    assert [] + CallsFindings(LevelOrder(Children(bind)), map[], map[]) == [];
    assert [bind] + [use, reset] == [bind, use, reset];
  }

  lemma TwoChildren(a: Node, b: Node)
    ensures AllChildren([a, b]) == Children(a) + Children(b)
  {
    hide Children;
    AllChildrenOfOne(b);
    assert [a, b][1..] == [b];
  }

  lemma NextLevel(ns: seq<Node>, next: seq<Node>)
    requires ns != [] && AllChildren(ns) == next
    ensures LevelOrder(ns) == ns + LevelOrder(next)
  {
  }

  /** The body of a function with an assignment two conditions deep and a call after it. */
  function DeepFunction(x: string, site: nat): Node {
    FunctionDef([], [Compound(Constant, [Compound(Constant, [Bind(x, Input())])]), Open(x, site)])
  }

  /** What the walk visits before the assignment, and after it. */
  function BeforeDeep(x: string, site: nat): seq<Node> {
    var inner := Compound(Constant, [Bind(x, Input())]);
    [DeepFunction(x, site)] + [Compound(Constant, [inner]), Open(x, site)] + [Constant, inner, OpenCall(x, site)]
        + [Constant]
  }

  function AfterDeep(x: string): seq<Node> { [Name("open"), Name(x)] + ([Name(x), Input()] + [Name("input")]) }

  lemma DeepLevels(x: string, site: nat)
    ensures LevelOrder([DeepFunction(x, site)]) == BeforeDeep(x, site) + ([Bind(x, Input())] + AfterDeep(x))
  {
    var bind, use, call := Bind(x, Input()), Open(x, site), OpenCall(x, site);
    var inner := Compound(Constant, [bind]);
    var outer := Compound(Constant, [inner]);
    var f := DeepFunction(x, site);
    var l1, l2, l3, l4, l5 := [outer, use], [Constant, inner, call], [Constant, bind, Name("open"), Name(x)],
        [Name(x), Input()], [Name("input")];
    DeepChildren(x, site);
    hide LevelOrder, AllChildren, Children;
    NextLevel([f], l1);
    NextLevel(l1, l2);
    NextLevel(l2, l3);
    NextLevel(l3, l4);
    NextLevel(l4, l5);
    NextLevel(l5, []);
    NoFindings(map[], map[]);
    assert [f] + (l1 + (l2 + (l3 + (l4 + (l5 + []))))) == BeforeDeep(x, site) + ([bind] + AfterDeep(x));
  }

  lemma DeepChildren(x: string, site: nat)
    ensures var bind, use, call := Bind(x, Input()), Open(x, site), OpenCall(x, site);
            var inner := Compound(Constant, [bind]);
            var outer := Compound(Constant, [inner]);
            && AllChildren([DeepFunction(x, site)]) == [outer, use]
                && AllChildren([outer, use]) == [Constant, inner, call]
            && AllChildren([Constant, inner, call]) == [Constant, bind, Name("open"), Name(x)]
            && AllChildren([Constant, bind, Name("open"), Name(x)]) == [Name(x), Input()]
            && AllChildren([Name(x), Input()]) == [Name("input")] && AllChildren([Name("input")]) == []
  {
    var bind, use, call := Bind(x, Input()), Open(x, site), OpenCall(x, site);
    var inner := Compound(Constant, [bind]);
    var outer := Compound(Constant, [inner]);
    hide AllChildren;
    AllChildrenOfOne(DeepFunction(x, site));
    AllChildrenOfOne(Name("input"));
    TwoChildren(outer, use);
    TwoChildren(Name(x), Input());
    TwoChildren(Constant, inner);
    AllChildrenOfOne(call);
    AllChildrenConcat([Constant, inner], [call]);
    TwoChildren(Constant, bind);
    TwoChildren(Name("open"), Name(x));
    AllChildrenConcat([Constant, bind], [Name("open"), Name(x)]);
    assert [Constant, inner] + [call] == [Constant, inner, call];
    assert [Constant, bind] + [Name("open"), Name(x)] == [Constant, bind, Name("open"), Name(x)];
  }

  lemma {:induction false} QuietCalls(order: seq<Node>, t: Taint)
    requires forall n | n in order && n.Call? :: CallFindings(n, t, map[]) == []
    ensures CallsFindings(order, t, map[]) == []
  {
    hide CallFindings;
    if order != [] {
      assert order[0] in order && forall n | n in order[1..] :: n in order;
      QuietCalls(order[1..], t);
    }
  }

  lemma DeepVisit(x: string, site: nat)
    ensures ScopeResult(DeepFunction(x, site), map[]).findings == []
  {
    hide CallFindings, LevelOrder, AfterAssign, CallsFindings, BeforeDeep, AfterDeep, VisitAll;
    var start := Flow(map[], []);
    var before, after := BeforeDeep(x, site), AfterDeep(x);
    var read := AfterAssign(Bind(x, Input()), map[]);
    DeepLevels(x, site);
    DeepIsQuiet(x, site, read);
    VisitConcat(before, [Bind(x, Input())] + after, start, map[]);
    VisitCalls(before, start, map[]);
    VisitBinding(Bind(x, Input()), after, start, map[]);
    VisitCalls(after, Flow(read, []), map[]);
  }

  lemma DeepIsQuiet(x: string, site: nat, read: Taint)
    ensures CallsFindings(BeforeDeep(x, site), map[], map[]) == [] && CallsFindings(AfterDeep(x), read, map[]) == []
    ensures forall n | n in BeforeDeep(x, site) :: !n.Assign?
    ensures forall n | n in AfterDeep(x) :: !n.Assign?
  {
    hide CallFindings, CallsFindings;
    OpenFindings(x, site, map[]);
    OpenFindings(x, site, read);
    assert forall n | n in BeforeDeep(x, site) :: !n.Assign? && (n.Call? ==> n == OpenCall(x, site));
    assert forall n | n in AfterDeep(x) :: !n.Assign? && (n.Call? ==> n == Input());
    QuietCalls(BeforeDeep(x, site), map[]);
    QuietCalls(AfterDeep(x), read);
  }

  lemma VisitBinding(bind: Node, after: seq<Node>, st: Flow, aliases: map<string, string>)
    requires bind.Assign?
    ensures VisitAll([bind] + after, st, aliases) == VisitAll(after, st.(tainted := AfterAssign(bind, st.tainted)),
        aliases)
  {
    hide AfterAssign;
    assert ([bind] + after)[0] == bind && ([bind] + after)[1..] == after;
  }

  /** An assignment two conditions deep is processed after a call at the top: the taint it makes, which
      the run through both conditions carries to the call, is missed. */
  lemma DeepAssignmentIsMissed(x: string, site: nat)
    ensures ScopeResult(DeepFunction(x, site), map[]).findings == []
    ensures InOrder([Bind(x, Input()), Open(x, site)], Flow(map[], []), map[]).findings != []
  {
    DeepVisit(x, site);
    var bind, use := Bind(x, Input()), Open(x, site);
    var read := AfterAssign(bind, map[]);
    InputBinding(x, map[]);
    BindingTaint(x, map[]);
    OpenStatement(x, site, read);
    InOrderOfTwo(bind, use, map[], read);
    hide LevelOrder, CallsFindings, CallFindings, AfterAssign, Children, ScopeResult, InOrder, DeepFunction;
  }
}
