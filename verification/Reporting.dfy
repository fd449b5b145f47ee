/** When the dependency scanner reports a dependency, and when the claim printed with a range
    report - every version the declaration admits is affected - is true. */
module Reporting {
  import opened Sequences
  import opened Strings
  import opened Versions
  import opened RangeText
  import opened Specs
  import opened SpecForms
  import Osv

  // ----- dependencies and advisories

  datatype Dependency = Dependency(name: string, version: Option<string>, declaredSpec: Option<string>, isPinned: bool)

  datatype Advisory = Advisory(id: string, affected: string, fixedIn: string)

  datatype Finding =
    | KnownVulnerability(name: string, advisory: string)
    | RangeExcludesFix(name: string, advisory: string)

  /** The loop body: nothing, a finding, or an exception out of the range translation. */
  datatype Decision = Skip | Report(finding: Finding) | Crash

  function Decide(dep: Dependency, advisory: Advisory): Decision {
    if dep.version.None? || dep.version.value == "" then Skip
    else if !Satisfies(dep.version.value, advisory.affected) then Skip
    else if dep.isPinned then Report(KnownVulnerability(dep.name, advisory.id))
    else
      var fixedIn := Strip(advisory.fixedIn);
      if fixedIn == "" then Report(RangeExcludesFix(dep.name, advisory.id))
      else
        match RangePermits(dep.declaredSpec, fixedIn)
        case Excludes => Report(RangeExcludesFix(dep.name, advisory.id))
        case Crashes => Crash
        case _ => Skip
  }

  function Findings(dep: Dependency, advisories: seq<Advisory>): Option<seq<Finding>> {
    if advisories == [] then Some([])
    else
      match Decide(dep, advisories[0])
      case Crash => None
      case Skip => Findings(dep, advisories[1..])
      case Report(f) =>
        match Findings(dep, advisories[1..])
        case None => None
        case Some(rest) => Some([f] + rest)
  }

  /** The advisory loop of `scan_dependencies` for one dependency; `None` is an exception. */
  method ScanDependency(dep: Dependency, advisories: seq<Advisory>) returns (findings: Option<seq<Finding>>)
    ensures findings == Findings(dep, advisories)
  {
    hide Satisfies, RangePermits, Strip;
    if dep.version.None? || dep.version.value == "" {
      NothingToScan(dep, advisories);
      return Some([]);
    }
    var found: seq<Finding> := [];
    assert advisories[0..] == advisories;
    PrefixedLaws([], [], Findings(dep, advisories));
    for i := 0 to |advisories|
      invariant Findings(dep, advisories) == Prefixed(found, Findings(dep, advisories[i..]))
    {
      var advisory := advisories[i];
      assert advisories[i..][0] == advisory && advisories[i..][1..] == advisories[i + 1..];
      PrefixedLaws(found, [KnownVulnerability(dep.name, advisory.id)], Findings(dep, advisories[i + 1..]));
      PrefixedLaws(found, [RangeExcludesFix(dep.name, advisory.id)], Findings(dep, advisories[i + 1..]));
      var affected := SatisfiesAffectedRange(dep.version.value, advisory.affected);
      if !affected {
        continue;
      }
      if !dep.isPinned {
        var fixedIn := Strip(advisory.fixedIn);
        if fixedIn != "" {
          var verdict := RangePermits(dep.declaredSpec, fixedIn);
          if verdict == Crashes {
            return None;
          }
          if verdict != Excludes {
            continue;
          }
        }
        found := found + [RangeExcludesFix(dep.name, advisory.id)];
      } else {
        found := found + [KnownVulnerability(dep.name, advisory.id)];
      }
    }
    assert advisories[|advisories|..] == [] && found + [] == found;
    return Some(found);
  }

  function Prefixed(front: seq<Finding>, rest: Option<seq<Finding>>): Option<seq<Finding>> {
    match rest
    case None => None
    case Some(r) => Some(front + r)
  }

  lemma PrefixedLaws(a: seq<Finding>, b: seq<Finding>, rest: Option<seq<Finding>>)
    ensures Prefixed([], rest) == rest
    ensures Prefixed(a, Prefixed(b, rest)) == Prefixed(a + b, rest)
  {
    if rest.Some? {
      assert [] + rest.value == rest.value;
      assert a + (b + rest.value) == a + b + rest.value;
    }
  }

  lemma {:induction false} NothingToScan(dep: Dependency, advisories: seq<Advisory>)
    requires dep.version.None? || dep.version.value == ""
    ensures Findings(dep, advisories) == Some([])
  {
    if advisories != [] {
      NothingToScan(dep, advisories[1..]);
    }
  }

  // ----- when the scan raises

  predicate MeetsAdvisory(dep: Dependency, a: Advisory)
    requires dep.version.Some?
  {
    Satisfies(dep.version.value, a.affected) && Strip(a.fixedIn) != ""
  }

  lemma CrashExactlyWhen(dep: Dependency, a: Advisory)
    ensures Decide(dep, a).Crash?
       <==> (&& !dep.isPinned && dep.version.Some? && dep.version.value != "" && MeetsAdvisory(dep, a)
             && dep.declaredSpec.Some? && dep.declaredSpec.value != "" && NormalizeSpec(dep.declaredSpec.value).Raises?)
  {
    hide Satisfies, NormalizeSpec, Strip;
  }

  /** The scan of a dependency raises exactly when it is an unpinned range with an alternative that
      the translation cannot read as numbers, and some advisory with a fix affects its candidate. */
  lemma {:induction false} ScanRaisesExactlyWhen(dep: Dependency, advisories: seq<Advisory>)
    ensures Findings(dep, advisories) == None
       <==> (&& !dep.isPinned && dep.version.Some? && dep.version.value != ""
             && (exists a | a in advisories :: MeetsAdvisory(dep, a)) && dep.declaredSpec.Some?
             && exists p | p in SplitBars(Strip(dep.declaredSpec.value)) :: PessimisticRaises(Strip(p)))
  {
    hide Decide, Satisfies, NormalizeSpec, Strip, SplitBars, PessimisticRaises, MeetsAdvisory;
    if advisories != [] {
      var a, rest := advisories[0], advisories[1..];
      assert forall x :: x in advisories <==> x == a || x in rest;
      ScanRaisesExactlyWhen(dep, rest);
      CrashExactlyWhen(dep, a);
      if dep.declaredSpec.Some? {
        RaisesExactlyWhen(dep.declaredSpec.value);
        if dep.declaredSpec.value == "" { EmptyIsUnknown(); }
      }
    }
  }

  // ----- the version a declaration stands for

  /** `\d+(?:\.\d+){0,groups}` at the start of the text. */
  function NumberPrefix(s: string, groups: nat): string
    decreases groups
  {
    var n := RunLength(s, IsDigit);
    if groups > 0 && n + 1 < |s| && s[n] == '.' && IsDigit(s[n + 1]) then
      s[..n] + "." + NumberPrefix(s[n + 1..], groups - 1)
    else s[..n]
  }

  predicate NotDigit(c: char) { !IsDigit(c) }

  predicate NoVersionWord(s: string) {
    var low := Lower(s);
    s == "" || low == "latest" || low == "*" || low == "workspace:*" || low == "x"
  }

  /** The first number behind any leading `v` and `=`. */
  function FirstNumber(s: string): Option<string> {
    var u := s[RunLength(s, VersionPrefix)..];
    var n := RunLength(u, NotDigit);
    if n == |u| then None else Some(NumberPrefix(u[n..], 3))
  }

  /** The lowest version a declaration is taken to permit. */
  function MinimumCandidate(spec: string): Option<string> {
    if NoVersionWord(Strip(spec)) then None else FirstNumber(Strip(spec))
  }

  /** How the manifest parsers turn a range declaration into a dependency. */
  function RangeDependency(name: string, spec: string): Dependency {
    Dependency(name, MinimumCandidate(spec), Some(spec), false)
  }

  lemma DigitIsAVersion(s: string, n: nat)
    requires n < |s| && IsDigit(s[n])
    ensures !NoVersionWord(s)
  {
    var low := Lower(s);
    assert low[n] == s[n] && low[n] in low;
    assert forall c | c in "workspace:*" || c in "latest" :: !IsDigit(c);
  }

  lemma FirstDigit(s: string, n: nat)
    requires n < |s| && IsDigit(s[n]) && forall i | 0 <= i < n :: !IsDigit(s[i])
    ensures FirstNumber(s) == Some(NumberPrefix(s[n..], 3))
  {
    hide RunLength, NumberPrefix;
    var r := RunLength(s, VersionPrefix);
    var u := s[r..];
    RunLengthIs(u, NotDigit, n - r);
    assert u[n - r..] == s[n..];
  }

  lemma NoDigitNoNumber(s: string)
    requires forall i | 0 <= i < |s| :: !IsDigit(s[i])
    ensures FirstNumber(s).None?
  {
    var u := s[RunLength(s, VersionPrefix)..];
    RunLengthIs(u, NotDigit, |u|);
  }

  lemma HasFirstDigit(s: string) returns (n: nat)
    requires FirstNumber(s).Some?
    ensures n < |s| && IsDigit(s[n]) && forall i | 0 <= i < n :: !IsDigit(s[i])
  {
    hide FirstNumber;
    n := RunLength(s, NotDigit);
    if n == |s| { NoDigitNoNumber(s); }
  }

  /** The text does not continue a number that stands in front of it. */
  predicate EndsNumber(rest: string) {
    rest == "" || (!IsDigit(rest[0]) && (rest[0] == '.' ==> |rest| == 1 || !IsDigit(rest[1])))
  }

  lemma NumberPrefixOne(first: string, rest: string, groups: nat)
    requires AllDigits(first) && (rest != "" ==> !IsDigit(rest[0])) && (groups == 0 || EndsNumber(rest))
    ensures NumberPrefix(first + rest, groups) == first
  {
    var s := first + rest;
    assert forall i | 0 <= i < |first| :: s[i] == first[i] && first[i] in first;
    RunLengthIs(s, IsDigit, |first|);
    assert s[..|first|] == first;
  }

  lemma NumberPrefixNext(first: string, tail: string, groups: nat)
    requires AllDigits(first) && tail != "" && IsDigit(tail[0]) && groups > 0
    ensures NumberPrefix(first + "." + tail, groups) == first + "." + NumberPrefix(tail, groups - 1)
  {
    var s := first + "." + tail;
    assert forall i | 0 <= i < |first| :: s[i] == first[i] && first[i] in first;
    RunLengthIs(s, IsDigit, |first|);
    assert s[..|first|] == first && s[|first| + 1..] == tail && s[|first|] == '.' && s[|first| + 1] == tail[0];
  }

  lemma {:induction false} NumberPrefixDotted(cs: seq<nat>, rest: string, groups: nat)
    requires cs != [] && EndsNumber(rest)
    ensures NumberPrefix(Dotted(cs) + rest, groups) == Dotted(if |cs| <= groups then cs else cs[..groups + 1])
    decreases groups
  {
    hide NatText, Dotted, NumberPrefix;
    var first := NatText(cs[0]);
    var kept := if |cs| <= groups then cs else cs[..groups + 1];
    DottedUnfold(cs);
    DottedUnfold(kept);
    if |cs| == 1 {
      NumberPrefixOne(first, rest, groups);
    } else {
      var tail := Dotted(cs[1..]) + rest;
      DottedShape(cs[1..]);
      Concat3(first + ".", Dotted(cs[1..]), rest);
      if groups == 0 {
        assert first + "." + tail == first + ("." + tail);
        NumberPrefixOne(first, "." + tail, 0);
      } else {
        NumberPrefixNext(first, tail, groups);
        NumberPrefixDotted(cs[1..], rest, groups - 1);
        assert kept[1..] == if |cs[1..]| <= groups - 1 then cs[1..] else cs[1..][..groups];
      }
    }
  }

  /** The first number of the declaration is this one; only four components of a number count. */
  predicate FirstNumberIs(spec: string, nums: seq<nat>) {
    MinimumCandidate(spec).Some? && KeyOf(MinimumCandidate(spec).value) == ReleaseKey(nums)
  }

  /** The number stands behind `n` characters that are no digits. */
  predicate NumberAt(text: string, n: nat, nums: seq<nat>) {
    var d := Dotted(nums);
    && n + |d| <= |text| && (forall i | 0 <= i < n :: !IsDigit(text[i]))
    && text[n..n + |d|] == d && EndsNumber(text[n + |d|..])
  }

  lemma CandidateAt(spec: string, n: nat, nums: seq<nat>)
    requires nums != [] && NumberAt(Strip(spec), n, nums)
    ensures FirstNumberIs(spec, nums)
  {
    hide Dotted, Strip, NumberPrefix, EndsNumber, KeyOf, ReleaseKey, NoVersionWord, FirstNumber, NumberAt, IsDigit;
    var s := Strip(spec);
    var rest := NumberAtFacts(s, n, nums);
    KeptComponents(nums);
    NumberPrefixDotted(nums, rest, 3);
    DigitIsAVersion(s, n);
    FirstDigit(s, n);
  }

  lemma NumberAtFacts(s: string, n: nat, nums: seq<nat>) returns (rest: string)
    requires nums != [] && NumberAt(s, n, nums)
    ensures n < |s| && IsDigit(s[n]) && forall i | 0 <= i < n :: !IsDigit(s[i])
    ensures s[n..] == Dotted(nums) + rest && EndsNumber(rest)
  {
    var d := Dotted(nums);
    DottedShape(nums);
    hide Dotted, EndsNumber;
    rest := s[n + |d|..];
    assert s[n] == s[n..n + |d|][0] == d[0];
    SplitAround(s, n, |d|);
  }

  lemma KeptComponents(nums: seq<nat>)
    requires nums != []
    ensures KeyOf(Dotted(if |nums| <= 3 then nums else nums[..4])) == ReleaseKey(nums)
  {
    var kept := if |nums| <= 3 then nums else nums[..4];
    KeyOfDotted(kept);
    hide KeyOf, Dotted;
    assert forall i: nat | i < 4 :: At(kept, i) == At(nums, i);
  }

  lemma SplitAround(s: string, n: nat, k: nat)
    requires n + k <= |s|
    ensures s[n..] == s[n..n + k] + s[n + k..]
  {
  }

  lemma {:induction false} NumberPrefixLonger(s: string, rest: string, groups: nat)
    requires rest == "" || !DottedChar(rest[0])
    ensures NumberPrefix(s + rest, groups) == NumberPrefix(s, groups)
    decreases groups
  {
    hide RunLength;
    var n, t := RunLength(s, IsDigit), s + rest;
    RunLengthIs(t, IsDigit, n);
    assert t[..n] == s[..n];
    if groups > 0 && n + 1 < |s| && s[n] == '.' && IsDigit(s[n + 1]) {
      NumberPrefixLonger(s[n + 1..], rest, groups - 1);
      assert t[n + 1..] == s[n + 1..] + rest;
    }
  }

  /** Further text behind a declaration, a number aside, does not change its candidate. */
  lemma CandidateOfLonger(spec: string, t: string, rest: string)
    requires Trim(t) && MinimumCandidate(t).Some? && Strip(spec) == t + rest
    requires rest == "" || !DottedChar(rest[0])
    ensures MinimumCandidate(spec) == MinimumCandidate(t)
  {
    hide Trim, Strip, NumberPrefix, DottedChar, NoVersionWord, FirstNumber;
    StripTrim(t);
    var s := t + rest;
    var n := HasFirstDigit(t);
    DigitIsAVersion(s, n);
    FirstDigit(t, n);
    FirstDigit(s, n);
    assert s[n..] == t[n..] + rest;
    NumberPrefixLonger(t[n..], rest, 3);
  }

  /** The text begins with its first token, and that token ends at a separator. */
  lemma {:induction false} FirstToken(s: string)
    ensures var t := SplitTokens(s)[0];
            |t| <= |s| && s[..|t|] == t && (|t| < |s| ==> SeparatorLength(s[|t|..]) > 0)
    decreases |s|
  {
    if s != "" {
      if SeparatorLength(s) > 0 {
        assert s[0..] == s;
      } else {
        FirstToken(s[1..]);
        var t := SplitTokens(s[1..])[0];
        assert s[..|t| + 1] == [s[0]] + s[1..][..|t|];
        assert s[|t| + 1..] == s[1..][|t|..];
      }
    }
  }

  lemma FirstTokenStripped(text: string, t: string)
    requires text != "" && !IsSpace(text[0]) && text[0] != ','
    requires TokenText(t) && PlainTokens(text) != [] && PlainTokens(text)[0] == t
    ensures |t| <= |text| && text[..|t|] == t
    ensures |t| < |text| ==> IsSpace(text[|t|]) || text[|t|] == ','
  {
    var first := SplitTokens(text)[0];
    FirstToken(text);
    FirstTokenStarts(text);
    StripFront(first);
    assert StripAll(SplitTokens(text))[0] == Strip(first) == t;
    hide SplitTokens, IsSpace, Strip;
    assert first[..|t|] == t && text[..|t|] == t;
    if |t| < |first| {
      assert text[|t|] == first[|t|];
    } else if |t| < |text| {
      SeparatorStarts(text[|t|..]);
    }
  }

  lemma SeparatorStarts(s: string)
    requires SeparatorLength(s) > 0
    ensures s != "" && (IsSpace(s[0]) || s[0] == ',')
  {
  }

  lemma FirstTokenStarts(text: string)
    requires text != "" && !IsSpace(text[0]) && text[0] != ','
    ensures SplitTokens(text)[0] != "" && SplitTokens(text)[0][0] == text[0]
  {
    RunLengthIs(text, IsSpace, 0);
  }

  // ----- declarations as bounds

  /** The declaration is rewritten into exactly these bounds. */
  predicate TranslatesTo(spec: string, bs: seq<Bound>) {
    bs != [] && (forall b | b in bs :: b.nums != []) && NormalizeSpec(spec) == Comparators(Printed(bs))
  }

  /** And its first number is that of the first bound. */
  predicate Declares(spec: string, bs: seq<Bound>) { TranslatesTo(spec, bs) && FirstNumberIs(spec, bs[0].nums) }

  lemma TranslationAdmits(spec: string, bs: seq<Bound>, v: string)
    requires TranslatesTo(spec, bs)
    ensures Admitted(spec, v) == AllBoundsHold(bs, KeyOf(v))
  {
    hide NormalizeSpec, Satisfies, AllBoundsHold, KeyOf, Printed;
    PrintedMeaning(bs, v);
  }

  /** The forms of a range declaration. */
  datatype Declaration =
    | CaretOf(nums: seq<nat>)
    | TildeOf(nums: seq<nat>)
    | PessimisticOf(pad: nat, nums: seq<nat>)
    | WildcardOf(nums: seq<nat>, mark: string)
    | BracketOf(open: char, low: Option<seq<nat>>, high: Option<seq<nat>>, close: char)
    | ListOf(text: string, bounds: seq<Bound>)

  predicate IsDeclaration(d: Declaration) {
    match d
    case CaretOf(cs) => cs != []
    case TildeOf(cs) => cs != []
    case PessimisticOf(pad, cs) => pad <= 1 && |cs| >= 2
    case WildcardOf(ns, mark) => 1 <= |ns| <= 2 && WildcardMark(mark)
    case BracketOf(open, low, high, close) =>
      Brackets(open, close) && IsBound(low) && IsBound(high) && (low.Some? || high.Some?)
    case ListOf(text, bs) => IsBoundList(text, bs)
  }

  function DeclarationText(d: Declaration): string {
    match d
    case CaretOf(cs) => "^" + Dotted(cs)
    case TildeOf(cs) => "~" + Dotted(cs)
    case PessimisticOf(pad, cs) => "~>" + Blanks(pad) + Dotted(cs)
    case WildcardOf(ns, mark) => WildcardText(ns, mark)
    case BracketOf(open, low, high, close) => BracketText(open, low, high, close)
    case ListOf(text, _) => text
  }

  function FromTo(low: seq<nat>, high: seq<nat>): seq<Bound> { [Bound(Ge, low), Bound(Lt, high)] }

  function BracketBoundList(open: char, low: Option<seq<nat>>, high: Option<seq<nat>>, close: char): seq<Bound> {
    (if low.None? then [] else [Bound(if open == '(' then Gt else Ge, low.value)])
    + (if high.None? then [] else [Bound(if close == ')' then Lt else Le, high.value)])
  }

  function DeclarationBounds(d: Declaration): seq<Bound>
    requires IsDeclaration(d)
  {
    match d
    case CaretOf(cs) => FromTo(cs, CaretUpper(cs))
    case TildeOf(cs) => FromTo(cs, TildeUpper(cs))
    case PessimisticOf(_, cs) => FromTo(cs, PessimisticUpper(cs))
    case WildcardOf(ns, _) => FromTo([At(ns, 0), At(ns, 1), 0], WildcardUpper(ns))
    case BracketOf(open, low, high, close) => BracketBoundList(open, low, high, close)
    case ListOf(_, bs) => bs
  }

  lemma FromToPrinted(low: seq<nat>, high: seq<nat>)
    ensures Printed(FromTo(low, high)) == Between(Dotted(low), Dotted(high))
  {
    hide Dotted, Join;
    var ts := BoundTexts(FromTo(low, high));
    assert ts == [">=" + Dotted(low), "<" + Dotted(high)];
    JoinTwo(", ", ts[0], ts[1]);
  }

  lemma BracketPrinted(open: char, low: Option<seq<nat>>, high: Option<seq<nat>>, close: char)
    ensures BoundTexts(BracketBoundList(open, low, high, close))
         == ComparatorTexts(BracketComparators(open, low, high, close))
  {
    hide Dotted, ComparatorText;
    assert BoundComparators(BracketBoundList(open, low, high, close)) == BracketComparators(open, low, high, close);
  }

  /** Every form is rewritten into its bounds, and its candidate is the number of the first one. */
  lemma DeclarationDeclares(d: Declaration)
    requires IsDeclaration(d)
    ensures Declares(DeclarationText(d), DeclarationBounds(d))
  {
    hide Dotted, NormalizeSpec, Printed, FirstNumberIs, IsBoundList, WildcardText, WildcardMark, BracketText, Brackets;
    match d
    case CaretOf(cs) =>
      CaretTranslation(cs);
      FromToPrinted(cs, CaretUpper(cs));
      PrefixedNumber("^", cs);
    case TildeOf(cs) =>
      TildeTranslation(cs);
      FromToPrinted(cs, TildeUpper(cs));
      PrefixedNumber("~", cs);
    case PessimisticOf(pad, cs) =>
      PessimisticTranslation(pad, cs);
      FromToPrinted(cs, PessimisticUpper(cs));
      PrefixedNumber("~>" + Blanks(pad), cs);
    case WildcardOf(ns, mark) =>
      WildcardTranslation(ns, mark);
      FromToPrinted([At(ns, 0), At(ns, 1), 0], WildcardUpper(ns));
      WildcardNumber(ns, mark);
    case BracketOf(open, low, high, close) => BracketDeclares(open, low, high, close);
    case ListOf(text, bs) =>
      BoundListTranslation(text, bs);
      BoundListNumber(text, bs);
      assert bs != [] && forall b | b in bs :: b.nums != [] by { BoundListNumbers(text, bs); }
  }

  lemma BoundListNumbers(text: string, bs: seq<Bound>)
    requires IsBoundList(text, bs)
    ensures bs != [] && forall b | b in bs :: b.nums != []
  {
  }

  lemma NumberInside(p: string, cs: seq<nat>, rest: string)
    requires cs != [] && p != "" && (forall c | c in p :: !IsDigit(c)) && EndsNumber(rest)
    requires Trim(p + Dotted(cs) + rest)
    ensures FirstNumberIs(p + Dotted(cs) + rest, cs)
  {
    var d, s := Dotted(cs), p + Dotted(cs) + rest;
    StripTrim(s);
    hide Dotted, FirstNumberIs, Strip, EndsNumber, Trim;
    assert s[|p|..|p| + |d|] == d && s[|p| + |d|..] == rest;
    assert forall i | 0 <= i < |p| :: s[i] == p[i];
    CandidateAt(s, |p|, cs);
  }

  lemma PrefixedNumber(p: string, cs: seq<nat>)
    requires cs != [] && p != "" && !IsSpace(p[0]) && forall c | c in p :: !IsDigit(c)
    ensures FirstNumberIs(p + Dotted(cs), cs)
  {
    var d := Dotted(cs);
    DottedShape(cs);
    NoSpaceDigit(d[|d| - 1]);
    hide Dotted, IsSpace, FirstNumberIs;
    assert p + d + "" == p + d;
    NumberInside(p, cs, "");
  }

  lemma {:induction false} JoinLast(ns: seq<nat>, mark: string)
    requires 1 <= |ns| <= 2
    ensures WildcardText(ns, mark) == Dotted(ns) + "." + mark
  {
    hide NatText, Join;
    DottedUnfold(ns);
    var ps := NatTexts(ns) + [mark];
    if |ns| == 2 {
      DottedUnfold(ns[1..]);
      assert ps == [NatText(ns[0]), NatText(ns[1]), mark];
      JoinThree(".", ps[0], ps[1], mark);
    } else {
      assert ps == [NatText(ns[0]), mark];
      JoinTwo(".", ps[0], mark);
    }
  }

  lemma JoinThree(sep: string, s: string, t: string, u: string)
    ensures Join(sep, [s, t, u]) == s + sep + t + sep + u
  {
    assert [s, t, u][1..] == [t, u];
    JoinTwo(sep, t, u);
  }

  lemma WildcardNumber(ns: seq<nat>, mark: string)
    requires 1 <= |ns| <= 2 && WildcardMark(mark)
    ensures FirstNumberIs(WildcardText(ns, mark), [At(ns, 0), At(ns, 1), 0])
  {
    var s, d := WildcardText(ns, mark), Dotted(ns);
    JoinLast(ns, mark);
    DottedShape(ns);
    hide WildcardText, Dotted, IsSpace, Strip, KeyOf, MinimumCandidate;
    NoSpaceDigit(s[0]);
    NoSpaceDigit(s[|s| - 1]);
    StripTrim(s);
    assert s[0..|d|] == d && s[|d|..] == "." + mark;
    CandidateAt(s, 0, ns);
    assert ReleaseKey(ns) == ReleaseKey([At(ns, 0), At(ns, 1), 0]);
  }

  lemma BracketDeclares(open: char, low: Option<seq<nat>>, high: Option<seq<nat>>, close: char)
    requires Brackets(open, close) && IsBound(low) && IsBound(high) && (low.Some? || high.Some?)
    ensures Declares(BracketText(open, low, high, close), BracketBoundList(open, low, high, close))
  {
    hide *;
    BracketPrinted(open, low, high, close);
    BracketTranslation(open, low, high, close);
    BracketNumber(open, low, high, close);
    BracketFirst(open, low, high, close);
    var bs := BracketBoundList(open, low, high, close);
    DeclaresWhen(BracketText(open, low, high, close), bs);
  }

  lemma BracketFirst(open: char, low: Option<seq<nat>>, high: Option<seq<nat>>, close: char)
    requires IsBound(low) && IsBound(high) && (low.Some? || high.Some?)
    ensures var bs := BracketBoundList(open, low, high, close);
            && bs != [] && (forall b | b in bs :: b.nums != [])
            && bs[0].nums == if low.Some? then low.value else high.value
  {
  }

  lemma DeclaresWhen(spec: string, bs: seq<Bound>)
    requires bs != [] && (forall b | b in bs :: b.nums != [])
    requires NormalizeSpec(spec) == Comparators(PrintAlternative(BoundTexts(bs))) && FirstNumberIs(spec, bs[0].nums)
    ensures Declares(spec, bs)
  {
    hide NormalizeSpec, PrintAlternative, BoundTexts, FirstNumberIs;
  }

  lemma BracketNumber(open: char, low: Option<seq<nat>>, high: Option<seq<nat>>, close: char)
    requires Brackets(open, close) && IsBound(low) && IsBound(high) && (low.Some? || high.Some?)
    ensures FirstNumberIs(BracketText(open, low, high, close), if low.Some? then low.value else high.value)
  {
    var s := BracketText(open, low, high, close);
    BoundTextIs(low);
    BoundTextIs(high);
    hide Dotted, FirstNumberIs;
    if low.Some? {
      var rest := "," + BoundText(high) + [close];
      assert s == [open] + Dotted(low.value) + rest;
      NumberInside([open], low.value, rest);
    } else {
      assert s == [open] + "," + Dotted(high.value) + [close];
      NumberInside([open] + ",", high.value, [close]);
    }
  }

  lemma FirstBoundToken(b: Bound)
    requires b.nums != []
    ensures TokenText(ComparatorText(BoundComparator(b)))
  {
    hide Dotted, VersionWord, TokenText;
    DottedWord(b.nums);
    ComparatorTextShape(BoundComparator(b));
  }

  lemma FirstTextIs(b: Bound)
    ensures ComparatorText(BoundComparator(b)) == OpText(b.op) + Dotted(b.nums)
  {
    hide Dotted;
  }

  /** The stripped text begins with the first bound, and the number ends there. */
  lemma FirstBoundText(spec: string, bs: seq<Bound>)
    requires IsBoundList(spec, bs)
    ensures var text, t := Strip(spec), OpText(bs[0].op) + Dotted(bs[0].nums);
            |t| <= |text| && text[..|t|] == t && (|t| < |text| ==> !DottedChar(text[|t|]))
  {
    var text := Strip(spec);
    FirstBoundToken(bs[0]);
    FirstTextIs(bs[0]);
    NotBlank(text[0]);
    hide PlainTokens, Strip, IsSpace, TokenText, Dotted;
    FirstTokenStripped(text, BoundTexts(bs)[0]);
    var n := |BoundTexts(bs)[0]|;
    if n < |text| { NotBlank(text[n]); }
  }

  lemma NotBlank(c: char)
    ensures OperatorChar(c) ==> !IsSpace(c) && c != ','
    ensures IsSpace(c) || c == ',' ==> !DottedChar(c)
  {
  }

  /** The candidate of a comparator list is the number of its first bound. */
  lemma BoundListNumber(spec: string, bs: seq<Bound>)
    requires IsBoundList(spec, bs)
    ensures FirstNumberIs(spec, bs[0].nums)
  {
    BoundListNumbers(spec, bs);
    hide *;
    FirstBoundText(spec, bs);
    NumberBehind(Strip(spec), bs[0].op, bs[0].nums);
    CandidateAt(spec, |OpText(bs[0].op)|, bs[0].nums);
  }

  lemma NumberBehind(text: string, op: Op, nums: seq<nat>)
    requires var t := OpText(op) + Dotted(nums);
             |t| <= |text| && text[..|t|] == t && (|t| < |text| ==> !DottedChar(text[|t|]))
    ensures NumberAt(text, |OpText(op)|, nums)
  {
    var p, d := OpText(op), Dotted(nums);
    OperatorHasNoDigit(op);
    EndsAtSeparator(text[|p| + |d|..]);
    hide OpText, Dotted, EndsNumber, DottedChar, IsDigit;
    PrefixPlaces(text, p, d);
  }
  lemma PrefixPlaces(text: string, p: string, d: string)
    requires |p + d| <= |text| && text[..|p + d|] == p + d
    ensures text[..|p|] == p && text[|p|..|p| + |d|] == d
    ensures forall i | 0 <= i < |p| :: text[i] == p[i]
  {
    assert text[..|p|] == (p + d)[..|p|] && text[|p|..|p| + |d|] == (p + d)[|p|..];
    assert forall i | 0 <= i < |p| :: text[i] == text[..|p + d|][i];
  }

  lemma OperatorHasNoDigit(op: Op)
    ensures forall i | 0 <= i < |OpText(op)| :: !IsDigit(OpText(op)[i])
  {
  }

  lemma EndsAtSeparator(rest: string)
    requires rest == "" || !DottedChar(rest[0])
    ensures EndsNumber(rest)
  {
  }

  // ----- declarations with alternatives

  /** Each part is rewritten into its list of bounds. */
  predicate AreAlternatives(parts: seq<string>, lists: seq<seq<Bound>>) {
    && parts != [] && |parts| == |lists|
    && (|parts| > 1 ==> Trim(Join("||", parts)) && forall p | p in parts :: NoBar(p))
    && forall i | 0 <= i < |parts| :: TranslatesTo(parts[i], lists[i])
  }

  lemma AlternativesAdmit(parts: seq<string>, lists: seq<seq<Bound>>, v: string)
    requires AreAlternatives(parts, lists)
    ensures Admitted(Join("||", parts), v) == exists i | 0 <= i < |lists| :: AllBoundsHold(lists[i], KeyOf(v))
  {
    hide NormalizeSpec, Satisfies, Trim, BoundHolds, KeyOf, Join, NoBar;
    forall i | 0 <= i < |parts|
      ensures NormalizeSpec(parts[i]).Comparators? && Admitted(parts[i], v) == AllBoundsHold(lists[i], KeyOf(v))
    {
      TranslationAdmits(parts[i], lists[i], v);
    }
    if |parts| == 1 {
      assert Join("||", parts) == parts[0] by { JoinOne(parts); }
    } else {
      AlternativesMeaning(parts, v);
    }
    hide Admitted, AllBoundsHold;
    assert (exists p | p in parts :: Admitted(p, v)) == exists i | 0 <= i < |parts| :: Admitted(parts[i], v);
  }

  lemma JoinOne(parts: seq<string>)
    requires |parts| == 1
    ensures Join("||", parts) == parts[0]
  {
  }

  lemma AlternativesTranslate(parts: seq<string>, lists: seq<seq<Bound>>)
    requires AreAlternatives(parts, lists)
    ensures NormalizeSpec(Join("||", parts)).Comparators? && Join("||", parts) != ""
  {
    hide NormalizeSpec, Trim, Join;
    assert forall i | 0 <= i < |parts| :: TranslatesTo(parts[i], lists[i]) && NormalizeSpec(parts[i]).Comparators?;
    if |parts| == 1 {
      JoinOne(parts);
    } else {
      var ts := BarsTranslate(parts);
    }
    if Join("||", parts) == "" { EmptyIsUnknown(); }
  }

  lemma EmptyIsUnknown()
    ensures NormalizeSpec("").Unknown?
  {
    StripTrim("");
  }

  lemma FirstOfJoin(parts: seq<string>)
    requires parts != [] && parts[0] != ""
    ensures var s := Join("||", parts);
            |s| >= |parts[0]| && s[..|parts[0]|] == parts[0] && (|s| > |parts[0]| ==> s[|parts[0]|] == '|')
  {
  }

  /** The candidate of a declaration with alternatives is that of the first one. */
  lemma CandidateOfAlternatives(parts: seq<string>, lists: seq<seq<Bound>>)
    requires AreAlternatives(parts, lists) && MinimumCandidate(parts[0]).Some?
    ensures MinimumCandidate(Join("||", parts)) == MinimumCandidate(parts[0])
  {
    if |parts| == 1 {
      JoinOne(parts);
    } else {
      var first, spec := parts[0], Join("||", parts);
      var t := FirstText(parts);
      hide *;
      CandidateOfLonger(spec, t, spec[|t|..]);
    }
  }

  /** The text of the first alternative, stripped, stands at the front and ends there. */
  lemma FirstText(parts: seq<string>) returns (t: string)
    requires |parts| > 1 && Trim(Join("||", parts)) && MinimumCandidate(parts[0]).Some?
    ensures Trim(t) && MinimumCandidate(t) == MinimumCandidate(parts[0])
    ensures var s := Join("||", parts);
            && Strip(s) == s && |t| <= |s| && s == t + s[|t|..] && (|t| < |s| ==> !DottedChar(s[|t|]))
  {
    var first, s := parts[0], Join("||", parts);
    t := Strip(first);
    assert first != "" by { if first == "" { StripTrim(""); } }
    FirstOfJoin(parts);
    StripTrim(s);
    hide MinimumCandidate, Join;
    assert first[0] == s[..|first|][0] == s[0];
    hide IsSpace, Strip;
    StripFront(first);
    StripIdempotent(first);
    SameCandidate(first);
    assert s[..|t|] == s[..|first|][..|t|] == t;
    if |t| < |s| {
      NotBlank(s[|t|]);
      NotBlank('|');
      assert s[|t|] == if |t| < |first| then s[..|first|][|t|] else '|';
    }
  }

  lemma SameCandidate(s: string)
    requires Strip(Strip(s)) == Strip(s)
    ensures MinimumCandidate(s) == MinimumCandidate(Strip(s))
  {
    hide Strip;
  }

  // ----- printed declarations

  lemma PrintedBoundList(bs: seq<Bound>)
    requires bs != [] && forall b | b in bs :: b.nums != []
    ensures IsBoundList(Printed(bs), bs)
    ensures Trim(Printed(bs)) && NoBar(Printed(bs))
  {
    hide Dotted, Strip, SplitTokens, IsSpace;
    var tokens := BoundTexts(bs);
    var text := PrintAlternative(tokens);
    forall i | 0 <= i < |tokens| ensures TokenText(tokens[i]) && Strip(tokens[i]) == tokens[i] {
      FirstBoundToken(bs[i]);
      BoundTextTrim(bs[i]);
      StripTrim(tokens[i]);
    }
    PrintedTrim(tokens);
    StripTrim(text);
    PrintedAlternativeSplits(tokens);
    assert StripAll(tokens) == tokens;
    NonEmptyAll(tokens);
    assert text[0] == tokens[0][0];
    assert !HasBars(text) by { assert '|' !in text; }
  }

  lemma BoundTextTrim(b: Bound)
    requires b.nums != []
    ensures Trim(ComparatorText(BoundComparator(b)))
  {
    hide Dotted, VersionWord, TokenText;
    DottedWord(b.nums);
    ComparatorTextShape(BoundComparator(b));
  }

  lemma PrintedTranslates(bs: seq<Bound>)
    requires bs != [] && forall b | b in bs :: b.nums != []
    ensures Declares(Printed(bs), bs) && Trim(Printed(bs)) && NoBar(Printed(bs))
  {
    hide IsBoundList, Printed, FirstNumberIs, NormalizeSpec, Trim;
    PrintedBoundList(bs);
    BoundListTranslation(Printed(bs), bs);
    BoundListNumber(Printed(bs), bs);
  }

  // ----- declarations of any version

  /** The four words for any version admit every version from 0 on, which prereleases of 0 are not. */
  lemma AnyVersionIsFromZero(spec: string, v: string)
    requires Strip(spec) == "*" || Strip(spec) == "x" || Strip(spec) == "latest" || Strip(spec) == "workspace:*"
    ensures NormalizeSpec(spec).Comparators?
    ensures Satisfies(v, NormalizeSpec(spec).text) <==> !VersionLess(v, "0")
  {
    Osv.AnyVersionText(v);
    hide Strip, Satisfies, SplitBars, HasBars;
  }
}
