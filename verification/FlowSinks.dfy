/** The names the flow tracker goes by, stated on their parts: which calls are sinks of which rule, what
    an import alias does to them, which reads are sources, and which arguments and sanitizers count. */
module FlowSinks {
  import opened Strings
  import opened PythonFlows

  // ----- names and their parts

  predicate NoDot(s: string) { '.' !in s }

  lemma {:induction false} FirstOfText(h: string, rest: string)
    requires NoDot(h)
    ensures FirstPart(h) == h && FirstPart(h + "." + rest) == h
  {
    if h == "" {
      assert h + "." + rest == "." + rest;
    } else {
      FirstOfText(h[1..], rest);
      assert (h + "." + rest)[1..] == h[1..] + "." + rest && [h[0]] + h[1..] == h;
    }
  }

  lemma {:induction false} LastOfText(front: string, l: string)
    requires NoDot(l)
    ensures LastPart(l) == l && LastPart(front + "." + l) == l
  {
    var text := front + "." + l;
    if l != "" {
      var l' := l[..|l| - 1];
      LastOfText(front, l');
      assert text[..|text| - 1] == front + "." + l' && l' + [l[|l| - 1]] == l;
    }
  }

  lemma {:induction false} ReceiverOfText(front: string, l: string)
    requires NoDot(l)
    ensures Receiver(l) == "" && Receiver(front + "." + l) == front
  {
    var text := front + "." + l;
    if l == "" {
      assert text[..|text| - 1] == front;
    } else {
      var l' := l[..|l| - 1];
      ReceiverOfText(front, l');
      assert text[..|text| - 1] == front + "." + l';
    }
  }

  lemma TwoParts(root: string, leaf: string, text: string)
    requires NoDot(root) && NoDot(leaf) && root + "." + leaf == text
    ensures FirstPart(text) == root && LastPart(text) == leaf && Receiver(text) == root && FirstPart(root) == root
  {
    FirstOfText(root, leaf);
    LastOfText(root, leaf);
    ReceiverOfText(root, leaf);
  }

  lemma MoreParts(root: string, middle: string, leaf: string, text: string)
    requires NoDot(root) && NoDot(leaf) && root + "." + middle + "." + leaf == text
    ensures FirstPart(text) == root && LastPart(text) == leaf
    ensures Receiver(text) == root + "." + middle && FirstPart(root + "." + middle) == root
  {
    FirstOfText(root, middle);
    FirstOfText(root, middle + "." + leaf);
    LastOfText(root + "." + middle, leaf);
    ReceiverOfText(root + "." + middle, leaf);
    assert root + "." + (middle + "." + leaf) == text;
  }

  /** The name a call goes by is the chain of attributes down to a plain name; a method of anything else,
      such as another call, goes by none. */
  lemma CalledName(m: string, f: string, g: string, args: seq<Node>, keywords: seq<Node>, site: nat)
    ensures CallName(Call(Name(f), args, keywords, site)) == f
    ensures CallName(Call(Attribute(Name(m), f), args, keywords, site)) == m + "." + f
    ensures CallName(Call(Attribute(Attribute(Name(m), f), g), args, keywords, site)) == m + "." + f + "." + g
    ensures CallName(Call(Attribute(Call(Name(m), args, keywords, site), f), args, keywords, site)) == ""
  {
    assert DottedName(Name(m)) == Some(m) && DottedName(Attribute(Name(m), f)) == Some(m + "." + f);
    assert DottedName(Call(Name(m), args, keywords, site)) == None;
  }

  // ----- sinks

  function LeavesOf(spec: SinkSpec): set<string> { set c | c in spec.calls :: LastPart(c) }

  function RootsOf(spec: SinkSpec): set<string> { set c | c in spec.calls :: FirstPart(c) }

  /** A call of a plain name is a sink of a rule exactly when it is the last part of one of the rule's
      calls: `get(x)` is one for `requests.get`. */
  lemma PlainSinksExactlyWhen(f: string, spec: SinkSpec)
    requires f != "" && NoDot(f)
    ensures Matches(f, spec) <==> f in LeavesOf(spec)
  {
    LastOfText("", f);
    ReceiverOfText("", f);
    hide LastPart, FirstPart, Receiver;
    if f in spec.calls { assert LastPart(f) in LeavesOf(spec); }
  }

  /** The names of objects that are taken to own a sink of any rule. */
  predicate OwnsSinks(root: string) {
    || root == "path" || root == "p" || root == "f" || root == "fh" || root == "session" || root == "client"
    || root == "response" || root == "self" || root == "parser" || root == "tree" || root == "doc" || root == "soup"
    || root == "template" || root == "target" || root == "dest" || root == "src"
  }

  lemma Owners(root: string)
    ensures OwnsSinks(root) <==> root in OBJECT_RECEIVERS
  {
  }

  /** A call of a dotted name is one exactly when its last part is that of one of the rule's calls and
      its first part is that of one too, or the name of an object that is taken to own any sink. */
  lemma DottedSinksExactlyWhen(root: string, middle: Option<string>, leaf: string, spec: SinkSpec)
    requires root != "" && NoDot(root) && leaf != "" && NoDot(leaf)
    ensures var name := root + "." + (if middle.Some? then middle.value + "." + leaf else leaf);
            Matches(name, spec) <==> leaf in LeavesOf(spec) && (root in RootsOf(spec) || OwnsSinks(root))
  {
    var name := root + "." + (if middle.Some? then middle.value + "." + leaf else leaf);
    match middle {
      case None => TwoParts(root, leaf, name);
      case Some(m) =>
        assert root + "." + m + "." + leaf == name;
        MoreParts(root, m, leaf, name);
    }
    hide LastPart, FirstPart, Receiver;
    Owners(root);
    hide OwnsSinks, OBJECT_RECEIVERS;
    if name in spec.calls { assert LastPart(name) in LeavesOf(spec) && FirstPart(name) in RootsOf(spec); }
  }

  /** An alias stands for the first part of a name, and for nothing else in it. */
  lemma AliasesResolve(root: string, rest: string, aliases: map<string, string>)
    requires root != "" && NoDot(root) && rest != ""
    ensures ResolveName(root, aliases) == if root in aliases then aliases[root] else root
    ensures ResolveName(root + "." + rest, aliases)
         == if root in aliases then aliases[root] + "." + rest else root + "." + rest
  {
    FirstOfText(root, rest);
    hide FirstPart;
    var name := root + "." + rest;
    assert name[|root|..] == "." + rest;
    if root in aliases { assert aliases[root] + ("." + rest) == aliases[root] + "." + rest; }
  }

  // ----- arguments and sanitizers

  /** A keyword that can name the target of a request. */
  predicate NamesUrl(n: Node) {
    n.Keyword? && (n.arg == Some("url") || n.arg == Some("uri") || n.arg == Some("href") || n.arg == Some("location"))
  }

  /** Rules about targets look at the first positional argument alone or, without any, at the first
      keyword that names a target; the others at every argument but `**` ones. */
  lemma {:induction false} ArgumentsExactlyWhen(c: Node, spec: SinkSpec)
    requires c.Call?
    ensures !spec.urlPosition ==> forall a :: a in CandidateArguments(c, spec) <==>
                a in c.args || exists k | k in c.keywords :: HasName(k) && k.value == a
    ensures spec.urlPosition && c.args != [] ==> CandidateArguments(c, spec) == [c.args[0]]
    ensures spec.urlPosition && c.args == [] && (forall k | k in c.keywords :: !NamesUrl(k)) ==>
              CandidateArguments(c, spec) == []
    ensures spec.urlPosition && c.args == [] ==> forall i | 0 <= i < |c.keywords| && NamesUrl(c.keywords[i])
                && (forall j | 0 <= j < i :: !NamesUrl(c.keywords[j])) ::
              CandidateArguments(c, spec) == [c.keywords[i].value]
  {
    UrlKeywordIs(c.keywords);
    forall a ensures a in NamedValues(c.keywords) <==> exists k | k in c.keywords :: HasName(k) && k.value == a {
      NamedValuesAre(c.keywords, a);
    }
    hide UrlKeyword, NamesUrl, NamedValues, HasName;
  }

  /** A keyword argument that is no `**` one. */
  predicate HasName(n: Node) { n.Keyword? && n.arg.Some? && n.arg != Some("") }

  lemma {:induction false} NamedValuesAre(keywords: seq<Node>, a: Node)
    ensures a in NamedValues(keywords) <==> exists k | k in keywords :: HasName(k) && k.value == a
  {
    if keywords != [] {
      NamedValuesAre(keywords[1..], a);
      assert forall k :: k in keywords <==> k == keywords[0] || k in keywords[1..];
    }
  }

  lemma {:induction false} UrlKeywordIs(keywords: seq<Node>)
    ensures (forall k | k in keywords :: !NamesUrl(k)) ==> UrlKeyword(keywords) == []
    ensures forall i | 0 <= i < |keywords| && NamesUrl(keywords[i])
        && (forall j | 0 <= j < i :: !NamesUrl(keywords[j])) ::
              UrlKeyword(keywords) == [keywords[i].value]
  {
    if keywords != [] {
      UrlKeywordIs(keywords[1..]);
      assert keywords[0] in keywords && forall k | k in keywords[1..] :: k in keywords;
      forall i | 0 < i < |keywords| && NamesUrl(keywords[i]) && (forall j | 0 <= j < i :: !NamesUrl(keywords[j]))
        ensures UrlKeyword(keywords) == [keywords[i].value]
      {
        assert keywords[1..][i - 1] == keywords[i];
        assert forall j | 0 <= j < i - 1 :: keywords[1..][j] == keywords[j + 1];
      }
    }
  }

  /** `m` is `n` or a node below it. */
  predicate Within(m: Node, n: Node)
    decreases Size(n)
  {
    m == n || exists c | c in Children(n) :: (ChildIsSmaller(c, n); Within(m, c))
  }

  lemma ChildIsSmaller(c: Node, n: Node)
    requires c in Children(n)
    ensures Size(c) < Size(n)
  {
    SizeOfChildren(n);
    PartOfForest(c, Children(n));
  }

  lemma {:induction false} PartOfForest(c: Node, ns: seq<Node>)
    requires c in ns
    ensures Size(c) <= ForestSize(ns)
  {
    hide Size;
    if c != ns[0] { PartOfForest(c, ns[1..]); }
  }

  lemma {:induction false} ChildOfSome(m: Node, ns: seq<Node>)
    ensures m in AllChildren(ns) <==> exists n | n in ns :: m in Children(n)
  {
    hide Children;
    if ns != [] {
      ChildOfSome(m, ns[1..]);
      assert forall n :: n in ns <==> n == ns[0] || n in ns[1..];
    }
  }

  /** The queue reaches every node, and nothing else. */
  lemma {:induction false} LevelOrderHolds(m: Node, ns: seq<Node>)
    ensures m in LevelOrder(ns) <==> exists n | n in ns :: Within(m, n)
    decreases ForestSize(ns)
  {
    hide Children, Size;
    if ns != [] {
      SizeOfAllChildren(ns);
      LevelOrderHolds(m, AllChildren(ns));
      if c :| c in AllChildren(ns) && Within(m, c) {
        ChildOfSome(c, ns);
        var n :| n in ns && c in Children(n);
        assert Within(m, n);
      }
      if n :| n in ns && Within(m, n) {
        if m != n {
          var c :| c in Children(n) && Within(m, c);
          ChildOfSome(c, ns);
        }
      }
    }
  }

  /** A call of something with the last part of a sanitizer, or an attribute `name`. */
  predicate Cleans(m: Node, sanitizers: seq<string>) {
    || (m.Call? && exists s | s in sanitizers :: LastPart(s) == LastPart(CallName(m)))
    || (m.Attribute? && m.attr == "name")
  }

  /** For a rule with sanitizers an argument is cleaned exactly when it holds such a node, at any depth;
      the other rules know no sanitizers. */
  lemma CleanedExactlyWhen(n: Node, sanitizers: seq<string>)
    ensures ContainsSanitizer(n, sanitizers) <==>
            && sanitizers != []
            && exists m :: Within(m, n) && Cleans(m, sanitizers)
  {
    hide LastPart, LevelOrder, Within, CallName;
    forall m ensures m in LevelOrder([n]) <==> Within(m, n) { LevelOrderHolds(m, [n]); }
    forall m ensures Cleans(m, sanitizers) <==> Sanitizes(m, sanitizers) {}
  }

  // ----- sources

  /** What a call hands on: that of a source, of the object of a `get`, or of any argument of five
      conversions; every other call is clean. */
  lemma CallSources(c: Node, t: Taint)
    requires c.Call?
    ensures SourceOf(c, t).Some? <==>
            || CallName(c) in UNTRUSTED_SOURCES
            || (&& c.func.Attribute? && (c.func.attr == "get" || c.func.attr == "getlist" || c.func.attr == "getone")
                && SourceOf(c.func.value, t).Some?)
            || (&& (|| CallName(c) == "str" || CallName(c) == "bytes" || CallName(c) == "format"
                    || CallName(c) == "os.path.join" || CallName(c) == "str.format")
                && (|| (exists a | a in c.args :: SourceOf(a, t).Some?)
                    || exists k | k in c.keywords :: k.Keyword? && SourceOf(k.value, t).Some?))
  {
    SomeSource(c.args, t);
    SomeKeywordSource(c.keywords, t);
    hide FirstSource, FirstKeywordSource, CallName;
  }

  lemma {:induction false} SomeSource(ns: seq<Node>, t: Taint)
    ensures FirstSource(ns, t).Some? <==> exists a | a in ns :: SourceOf(a, t).Some?
  {
    if ns != [] {
      SomeSource(ns[1..], t);
      if a :| a in ns[1..] && SourceOf(a, t).Some? { assert a in ns; }
      if a :| a in ns && SourceOf(a, t).Some? { assert a == ns[0] || a in ns[1..]; }
    }
  }

  lemma {:induction false} SomeKeywordSource(ns: seq<Node>, t: Taint)
    ensures FirstKeywordSource(ns, t).Some? <==> exists k | k in ns :: k.Keyword? && SourceOf(k.value, t).Some?
  {
    hide SourceOf;
    if ns != [] {
      SomeKeywordSource(ns[1..], t);
      assert forall a :: a in ns <==> a == ns[0] || a in ns[1..];
    }
  }

  /** Whatever is read from `request` or `req` is a source, and so are eight other attributes. */
  lemma ReadsAreSources(n: Node, root: string, rest: string, t: Taint)
    requires n.Attribute? && DottedName(n) == Some(root + "." + rest) && NoDot(root)
    ensures root == "request" || root == "req" ==> SourceOf(n, t).Some?
    ensures root != "request" && root != "req" ==> (SourceOf(n, t).Some? <==> root + "." + rest in UNTRUSTED_SOURCES)
    ensures {"sys.argv", "os.environ", "os.getenv", "flask.request.args", "flask.request.form", "socket.recv",
             "sys.stdin.read", "sys.stdin.readline"} <= UNTRUSTED_SOURCES
  {
    FirstOfText(root, rest);
    hide FirstPart, DottedName;
  }

  /** A parameter is hinted exactly when it has one of ten names or holds one of two words, in any case
      of letters. */
  lemma HintedExactlyWhen(name: string)
    ensures HintedParam(name) <==>
            || name == "raw_input" || name == "user_data" || name == "user_path" || name == "user_url"
            || name == "attacker" || name == "request_body" || name == "request_data" || name == "client_input"
            || name == "filename_from_user" || name == "user_filename"
            || (exists i: nat :: OccursAt(Lower(name), "user_input", i))
            || (exists i: nat :: OccursAt(Lower(name), "untrusted", i))
  {
    ContainsSomewhere(Lower(name), "user_input");
    ContainsSomewhere(Lower(name), "untrusted");
    HintWords(name);
    hide Contains, OccursAt, Lower;
  }

  lemma HintWords(name: string)
    ensures name == "user_input" ==> Lower(name) == "user_input" && Contains(Lower(name), "user_input")
    ensures name == "untrusted" ==> Lower(name) == "untrusted" && Contains(Lower(name), "untrusted")
  {
    if name == "user_input" { assert Lower(name) == name && name[..|name|] == name; }
    if name == "untrusted" { assert Lower(name) == name && name[..|name|] == name; }
  }

  /** The parameters that are marked. */
  lemma {:induction false} MarkedExactlyWhen(params: seq<string>, t: Taint, p: string)
    ensures p in ParamTaint(params, t) <==> p in t || (p in params && HintedParam(p))
    decreases |params|
  {
    hide HintedParam;
    if params != [] {
      MarkedExactlyWhen(params[1..], if HintedParam(params[0]) then
          t[params[0] := "function parameter `" + params[0] + "`"] else t, p);
    }
  }
}
