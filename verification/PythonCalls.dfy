/** What the taint visitor reports for one call, stated on the syntax of the call. */
module PythonCalls {
  import opened Strings
  import opened PythonTaint
  import TaintSoundness

  // ----- arguments and called chains

  /** A positional or keyword argument of the call is tainted in sight. */
  predicate ReceivesTaint(args: seq<Expr>, keywords: seq<Keyword>, t: Taint) {
    (exists e | e in args :: TaintOf(e, t).Some?) || (exists k | k in keywords :: TaintOf(k.value, t).Some?)
  }

  lemma TaintedArguments(c: Expr, t: Taint)
    requires c.Call?
    ensures FirstTainted(Arguments(c), t).Some? <==> ReceivesTaint(c.args, c.keywords, t)
  {
    hide TaintOf, FirstTainted;
    TaintSoundness.FirstIsSome(Arguments(c), t);
    var values := KeywordValues(c.keywords);
    forall k | k in c.keywords ensures k.value in Arguments(c) {
      var i :| 0 <= i < |c.keywords| && c.keywords[i] == k;
      assert values[i] == k.value;
    }
    if e :| e in Arguments(c) && TaintOf(e, t).Some? {
      if e !in c.args {
        var i :| 0 <= i < |values| && values[i] == e;
        assert c.keywords[i] in c.keywords && c.keywords[i].value == e;
      }
    }
  }

  /** `m.f(...)` */
  function Of(m: string, f: string, args: seq<Expr>, keywords: seq<Keyword>, site: nat): Expr {
    Call(Attribute(Name(m), f), args, keywords, site)
  }

  lemma OfName(m: string, f: string, args: seq<Expr>, keywords: seq<Keyword>, site: nat)
    ensures CallName(Of(m, f, args, keywords, site)) == Some(m + "." + f)
  {
    assert DottedName(Name(m)) == Some(m);
  }

  predicate NoDot(s: string) { '.' !in s }

  lemma TwoParts(a: string, x: string, b: string, y: string, text: string)
    requires (NoDot(a) && NoDot(b)) || (NoDot(x) && NoDot(y))
    requires b + "." + y == text
    ensures a + "." + x == text <==> a == b && x == y
  {
    if a + "." + x == text { SplitsOneWay(a, x, b, y, '.'); }
  }

  /** The one finding of a call. */
  predicate IsOne(fs: seq<Finding>, rule: Rule, site: nat, tainted: bool) {
    |fs| == 1 && fs[0].rule == rule && fs[0].site == site && (fs[0].source.Some? <==> tainted)
  }

  // ----- shells

  predicate AlwaysShell(m: string, f: string) {
    (m == "os" && f == "system") || (m == "os" && f == "popen") || (m == "commands" && f == "getoutput")
  }

  predicate Subprocess(m: string, f: string) {
    m == "subprocess" && (f == "run" || f == "call" || f == "Popen" || f == "check_output" || f == "check_call")
  }

  lemma AlwaysTexts(m: string, f: string)
    requires NoDot(m) || NoDot(f)
    ensures InTable(Some(m + "." + f), ALWAYS_SHELL) <==> AlwaysShell(m, f)
  {
    TwoParts(m, f, "os", "system", "os.system");
    TwoParts(m, f, "os", "popen", "os.popen");
    TwoParts(m, f, "commands", "getoutput", "commands.getoutput");
  }

  lemma SubprocessTexts(m: string, f: string)
    requires NoDot(m) || NoDot(f)
    ensures Subprocess(m, f) <==> InTable(Some(m + "." + f), SHELL_EXEC_FUNCS - ALWAYS_SHELL)
  {
    TwoParts(m, f, "subprocess", "run", "subprocess.run");
    TwoParts(m, f, "subprocess", "call", "subprocess.call");
    TwoParts(m, f, "subprocess", "Popen", "subprocess.Popen");
    TwoParts(m, f, "subprocess", "check_output", "subprocess.check_output");
    TwoParts(m, f, "subprocess", "check_call", "subprocess.check_call");
  }

  lemma ShellTexts(m: string, f: string)
    requires NoDot(m) || NoDot(f)
    ensures InTable(Some(m + "." + f), ALWAYS_SHELL) <==> AlwaysShell(m, f)
    ensures InTable(Some(m + "." + f), SHELL_EXEC_FUNCS) <==> AlwaysShell(m, f) || Subprocess(m, f)
  {
    AlwaysTexts(m, f);
    SubprocessTexts(m, f);
    hide AlwaysShell, Subprocess, NoDot;
    assert ALWAYS_SHELL <= SHELL_EXEC_FUNCS;
  }

  /** The three functions that always start a shell, and the five of `subprocess` exactly when one
      keyword is `shell=True`: command injection with a tainted argument, a warning without one. */
  lemma ShellCalls(m: string, f: string, args: seq<Expr>, keywords: seq<Keyword>, site: nat, t: Taint)
    requires AlwaysShell(m, f) || Subprocess(m, f)
    ensures var fs := CallFindings(Of(m, f, args, keywords, site), t);
            var starts := AlwaysShell(m, f) || Keyword(Some("shell"), Constant(true)) in keywords;
            && (!starts ==> fs == [])
            && (starts && ReceivesTaint(args, keywords, t) ==> IsOne(fs, CmdInjection, site, true))
            && (starts && !ReceivesTaint(args, keywords, t) ==> IsOne(fs, ShellTrue, site, false))
  {
    var c := Of(m, f, args, keywords, site);
    ShellTexts(m, f);
    TaintedArguments(c, t);
    TaintSoundness.ShellKeyword(c);
    hide InTable, ReceivesTaint, FirstTainted, HasShellTrue, Arguments;
    OfName(m, f, args, keywords, site);
  }

  // ----- sources and parameters

  /** What `m.f` reads comes from outside. */
  predicate Source(m: string, f: string) {
    || (m == "request" && (|| f == "args" || f == "form" || f == "data" || f == "json" || f == "values"
                           || f == "cookies" || f == "headers"))
    || (m == "sys" && f == "argv") || (m == "os" && (f == "environ" || f == "getenv"))
  }

  lemma RequestTexts(m: string, f: string)
    requires NoDot(m)
    ensures Source(m, f) && m == "request" <==>
            m + "." + f in {"request.args", "request.form", "request.data", "request.json", "request.values",
                            "request.cookies", "request.headers"}
  {
    TwoParts(m, f, "request", "args", "request.args");
    TwoParts(m, f, "request", "form", "request.form");
    TwoParts(m, f, "request", "data", "request.data");
    TwoParts(m, f, "request", "json", "request.json");
    TwoParts(m, f, "request", "values", "request.values");
    TwoParts(m, f, "request", "cookies", "request.cookies");
    TwoParts(m, f, "request", "headers", "request.headers");
  }

  lemma SystemTexts(m: string, f: string)
    requires NoDot(m)
    ensures Source(m, f) && m != "request" <==> m + "." + f in {"sys.argv", "os.environ", "os.getenv"}
  {
    TwoParts(m, f, "sys", "argv", "sys.argv");
    TwoParts(m, f, "os", "environ", "os.environ");
    TwoParts(m, f, "os", "getenv", "os.getenv");
  }

  lemma OtherSourceTexts(m: string, f: string)
    requires NoDot(m) && NoDot(f)
    ensures m + "." + f != "input" && m + "." + f != "flask.request.args" && m + "." + f != "flask.request.form"
  {
    TwoParts(m, f, "flask", "request.args", "flask.request.args");
    TwoParts(m, f, "flask", "request.form", "flask.request.form");
    assert (m + "." + f)[|m|] == '.' && NoDot("input");
    assert "request.args"[7] == '.' && "request.form"[7] == '.';
  }

  lemma SourceTexts(m: string, f: string)
    requires NoDot(m) && NoDot(f)
    ensures InTable(Some(m + "." + f), UNTRUSTED_SOURCES) <==> Source(m, f)
  {
    RequestTexts(m, f);
    SystemTexts(m, f);
    OtherSourceTexts(m, f);
    hide Source, NoDot;
    var s := m + "." + f;
    assert s in UNTRUSTED_SOURCES <==>
      || s in {"request.args", "request.form", "request.data", "request.json", "request.values",
               "request.cookies", "request.headers"}
      || s in {"sys.argv", "os.environ", "os.getenv"}
      || s == "input" || s == "flask.request.args" || s == "flask.request.form";
  }

  /** Attributes of a module or request are tainted exactly when they are sources, whatever is
      marked; so are calls of its functions, but for `format`. */
  lemma SourcesAreTainted(m: string, f: string, args: seq<Expr>, keywords: seq<Keyword>, site: nat, t: Taint)
    requires NoDot(m) && NoDot(f)
    ensures TaintOf(Attribute(Name(m), f), t).Some? <==> Source(m, f)
    ensures f != "format" ==> (TaintOf(Of(m, f, args, keywords, site), t).Some? <==> Source(m, f))
  {
    SourceTexts(m, f);
    OfName(m, f, args, keywords, site);
    hide InTable, Source;
    assert DottedName(Name(m)) == Some(m);
  }

  /** `flask.request.args` and `flask.request.form` are sources too. */
  lemma FlaskRequestIsTainted(t: Taint)
    ensures TaintOf(Attribute(Attribute(Name("flask"), "request"), "args"), t).Some?
    ensures TaintOf(Attribute(Attribute(Name("flask"), "request"), "form"), t).Some?
  {
    assert DottedName(Name("flask")) == Some("flask");
    assert DottedName(Attribute(Name("flask"), "request")) == Some("flask" + "." + "request");
    assert "flask" + "." + "request" + "." + "args" == "flask.request.args";
    assert "flask" + "." + "request" + "." + "form" == "flask.request.form";
  }

  /** The one plain function that is a source. */
  lemma InputIsTainted(f: string, args: seq<Expr>, keywords: seq<Keyword>, site: nat, t: Taint)
    requires NoDot(f)
    ensures TaintOf(Call(Name(f), args, keywords, site), t).Some? <==> f == "input"
  {
    BareSources(f);
    hide InTable;
    assert CallName(Call(Name(f), args, keywords, site)) == Some(f);
  }

  lemma BareSources(f: string)
    requires NoDot(f)
    ensures InTable(Some(f), UNTRUSTED_SOURCES) <==> f == "input"
  {
    assert "sys.argv"[3] == '.' && "os.environ"[2] == '.' && "os.getenv"[2] == '.';
    assert "request.args"[7] == '.' && "request.form"[7] == '.' && "request.data"[7] == '.';
    assert "request.json"[7] == '.' && "request.values"[7] == '.' && "request.cookies"[7] == '.';
    assert "request.headers"[7] == '.' && "flask.request.args"[5] == '.' && "flask.request.form"[5] == '.';
  }

  /** Three letters, in either case. */
  predicate HasReqAt(p: string, i: nat) {
    && i + 3 <= |p|
    && (p[i] == 'r' || p[i] == 'R') && (p[i + 1] == 'e' || p[i + 1] == 'E') && (p[i + 2] == 'q' || p[i + 2] == 'Q')
  }

  lemma ReqAt(p: string, i: nat)
    ensures OccursAt(Lower(p), "req", i) <==> HasReqAt(p, i)
  {
    if i + 3 <= |p| {
      assert Lower(p)[i..i + 3] == [LowerChar(p[i]), LowerChar(p[i + 1]), LowerChar(p[i + 2])];
    }
  }

  /** A parameter is taken to be tainted exactly when it has one of four names or the letters `req`
      in it. */
  lemma HintedParameters(p: string)
    ensures IsHint(p) <==>
            || p == "user_input" || p == "raw_input" || p == "payload" || p == "data"
            || exists i: nat :: HasReqAt(p, i)
  {
    ContainsSomewhere(Lower(p), "req");
    forall i: nat ensures OccursAt(Lower(p), "req", i) <==> HasReqAt(p, i) { ReqAt(p, i); }
    if p == "request" || p == "req" { assert HasReqAt(p, 0); }
    hide Contains, Lower, OccursAt, HasReqAt;
  }

  /** The sanitizer table makes no difference to the visitor: no name in it is that of a `format`
      method, and every other call of something that is no source is taken to be clean anyway. */
  lemma SanitizersMakeNoDifference(c: Expr, t: Taint)
    requires c.Call?
    ensures InTable(CallName(c), SANITIZER_CALL_NAMES) ==> !IsFormat(c)
    ensures TaintOf(c, t).Some? <==>
            || InTable(CallName(c), UNTRUSTED_SOURCES)
            || (IsFormat(c) && (TaintOf(c.func.value, t).Some? || FirstTainted(c.args, t).Some?))
  {
    if IsFormat(c) { FormatIsNoSanitizer(c); }
    hide InTable, FirstTainted, DottedName;
  }

  lemma FormatIsNoSanitizer(c: Expr)
    requires c.Call? && IsFormat(c)
    ensures !InTable(CallName(c), SANITIZER_CALL_NAMES)
  {
    if DottedName(c.func.value).Some? {
      var m := DottedName(c.func.value).value;
      assert CallName(c) == Some(m + "." + "format") && EndsInFormat(m + "." + "format");
      SanitizerNames();
    }
  }

  lemma SanitizerNames()
    ensures forall name | name in SANITIZER_CALL_NAMES :: !EndsInFormat(name)
  {
    assert "sanitize_input"[12] == 'u' && ".format"[5] == 'a';
    assert !EndsInFormat("sanitize_input") && !EndsInFormat("shlex.quote") && !EndsInFormat("html.escape");
    assert !EndsInFormat("sanitize") && !EndsInFormat("parameterize") && !EndsInFormat("bleach.clean");
  }

  predicate EndsInFormat(name: string) { |name| >= 7 && name[|name| - 7..] == ".format" }

  // ----- eval

  /** The call has a name that is in none of the tables. */
  predicate Evaluates(f: string) { f == "eval" || f == "exec" || f == "compile" }

  lemma BareNames(f: string)
    requires NoDot(f)
    ensures !InTable(Some(f), SHELL_EXEC_FUNCS) && !InTable(Some(f), INSECURE_DESERIALIZE_FUNCS)
    ensures InTable(Some(f), DANGEROUS_EVAL_FUNCS) <==> Evaluates(f)
  {
    assert forall s | s in SHELL_EXEC_FUNCS || s in INSECURE_DESERIALIZE_FUNCS :: !NoDot(s);
  }

  /** A plain name: `eval`, `exec` and `compile` are always reported, nothing else is. */
  lemma PlainCalls(f: string, args: seq<Expr>, keywords: seq<Keyword>, site: nat, t: Taint)
    requires NoDot(f)
    ensures var fs := CallFindings(Call(Name(f), args, keywords, site), t);
            && (Evaluates(f) ==> IsOne(fs, EvalUse, site, ReceivesTaint(args, keywords, t)))
            && (!Evaluates(f) ==> fs == [])
  {
    var c := Call(Name(f), args, keywords, site);
    BareNames(f);
    TaintedArguments(c, t);
    hide InTable, ReceivesTaint, FirstTainted, Arguments, Evaluates, NoDot;
    assert CallName(c) == Some(f);
  }

  // ----- queries and loaders

  predicate Query(f: string) { f == "execute" || f == "executemany" || f == "executescript" || f == "raw" }

  /** The text of the first argument is put together on the spot. */
  predicate Assembled(args: seq<Expr>) {
    && args != []
    && match args[0]
       case JoinedStr(_) => true
       case BinOp(_, _) => true
       case Call(Attribute(_, f), _, _, _) => f == "format"
       case _ => false
  }

  predicate Loads(m: string, f: string) {
    || ((m == "pickle" || m == "cPickle" || m == "marshal") && (f == "load" || f == "loads"))
    || (m == "yaml" && f == "load") || (m == "shelve" && f == "open")
  }

  lemma LoaderTexts(m: string, f: string)
    requires NoDot(m) || NoDot(f)
    ensures InTable(Some(m + "." + f), INSECURE_DESERIALIZE_FUNCS) <==> Loads(m, f)
    ensures m + "." + f == "yaml.load" <==> m == "yaml" && f == "load"
  {
    TwoParts(m, f, "pickle", "load", "pickle.load");
    TwoParts(m, f, "pickle", "loads", "pickle.loads");
    TwoParts(m, f, "cPickle", "load", "cPickle.load");
    TwoParts(m, f, "cPickle", "loads", "cPickle.loads");
    TwoParts(m, f, "marshal", "load", "marshal.load");
    TwoParts(m, f, "marshal", "loads", "marshal.loads");
    TwoParts(m, f, "yaml", "load", "yaml.load");
    TwoParts(m, f, "shelve", "open", "shelve.open");
  }

  lemma DottedIsNoEval(m: string, f: string)
    ensures !InTable(Some(m + "." + f), DANGEROUS_EVAL_FUNCS)
  {
    assert (m + "." + f)[|m|] == '.';
    assert NoDot("eval") && NoDot("exec") && NoDot("compile");
  }

  /** A query method on anything that has a name is reported exactly when an argument is tainted or
      the text is put together in the call. */
  lemma QueryCalls(owner: Expr, f: string, args: seq<Expr>, keywords: seq<Keyword>, site: nat, t: Taint)
    requires DottedName(owner).Some? && Query(f)
    ensures var fs := CallFindings(Call(Attribute(owner, f), args, keywords, site), t);
            if ReceivesTaint(args, keywords, t) || Assembled(args)
            then IsOne(fs, SqlInjection, site, ReceivesTaint(args, keywords, t)) else fs == []
  {
    var c := Call(Attribute(owner, f), args, keywords, site);
    var m := DottedName(owner).value;
    QueryTexts(m, f);
    TaintedArguments(c, t);
    hide InTable, ReceivesTaint, FirstTainted, Arguments;
    assert CallName(c) == Some(m + "." + f);
  }

  lemma QueryTexts(m: string, f: string)
    requires Query(f)
    ensures !InTable(Some(m + "." + f), SHELL_EXEC_FUNCS) && !InTable(Some(m + "." + f), DANGEROUS_EVAL_FUNCS)
    ensures f in SQL_EXEC_METHODS
  {
    ShellTexts(m, f);
    DottedIsNoEval(m, f);
    hide InTable;
  }

  /** A loader that rebuilds arbitrary objects is always reported, except `yaml.load` with a `Loader`
      whose dotted name holds `SafeLoader`. */
  lemma LoaderCalls(m: string, f: string, args: seq<Expr>, keywords: seq<Keyword>, site: nat, t: Taint)
    requires Loads(m, f)
    ensures var fs := CallFindings(Of(m, f, args, keywords, site), t);
            if m == "yaml" && NamesSafeLoader(keywords) then fs == [] else IsOne(fs, Deserialization, site, false)
  {
    var c := Of(m, f, args, keywords, site);
    LoaderIsNoShell(m, f);
    LoaderTexts(m, f);
    DottedIsNoEval(m, f);
    SafeLoaderKeyword(c);
    OfName(m, f, args, keywords, site);
    hide InTable, FirstTainted, Arguments, UsesSafeLoader, NamesSafeLoader;
  }

  predicate NamesSafeLoader(keywords: seq<Keyword>) {
    exists k | k in keywords ::
      match k
      case Keyword(Some("Loader"), Attribute(value, attr)) =>
        DottedName(value).Some? && Contains(DottedName(value).value + "." + attr, "SafeLoader")
      case _ => false
  }

  lemma SafeLoaderKeyword(c: Expr)
    requires c.Call?
    ensures UsesSafeLoader(c) <==> NamesSafeLoader(c.keywords)
  {
    hide Contains;
  }

  lemma LoaderIsNoShell(m: string, f: string)
    requires Loads(m, f)
    ensures !InTable(Some(m + "." + f), SHELL_EXEC_FUNCS) && f !in SQL_EXEC_METHODS && NoDot(m)
  {
    ShellTexts(m, f);
    hide InTable;
  }

  // ----- everything else

  /** A method called on anything without a name - another call, a subscript - is not reported. */
  lemma UnnamedObjectsAreMissed(owner: Expr, f: string, args: seq<Expr>, keywords: seq<Keyword>, site: nat, t: Taint)
    requires DottedName(owner).None?
    ensures CallFindings(Call(Attribute(owner, f), args, keywords, site), t) == []
  {
  }

  /** No other function of a module is reported. */
  lemma OtherCalls(m: string, f: string, args: seq<Expr>, keywords: seq<Keyword>, site: nat, t: Taint)
    requires NoDot(m) && !AlwaysShell(m, f) && !Subprocess(m, f) && !Query(f) && !Loads(m, f)
    ensures CallFindings(Of(m, f, args, keywords, site), t) == []
  {
    ShellTexts(m, f);
    LoaderTexts(m, f);
    DottedIsNoEval(m, f);
    OfName(m, f, args, keywords, site);
    hide InTable, FirstTainted, Arguments, AlwaysShell, Subprocess, Loads;
  }
}
