/** The next version in the order, and the least version that meets given bounds: what the exact
    conditions on range reports are stated with. */
module LeastVersions {
  import opened Strings
  import opened Versions
  import opened RangeText
  import opened Specs
  import opened SpecForms

  // ----- keys with a prerelease tag

  lemma {:induction false} BeforeFirst(w: string, c: char, rest: string)
    requires c !in w
    ensures Before(w + [c] + rest, c) == w && After(w + [c] + rest, c) == rest
  {
    var s := w + [c] + rest;
    if w == "" {
      assert s[1..] == rest;
    } else {
      BeforeFirst(w[1..], c, rest);
      assert s[1..] == w[1..] + [c] + rest;
      assert [w[0]] + w[1..] == w;
    }
  }

  lemma {:induction false} BeforeHasNone(s: string, c: char)
    ensures c !in Before(s, c)
  {
    if s != "" && s[0] != c {
      BeforeHasNone(s[1..], c);
    }
  }

  lemma {:induction false} AfterIsPart(s: string, c: char)
    ensures forall x | x in After(s, c) :: x in s
  {
    if s != "" && s[0] != c {
      AfterIsPart(s[1..], c);
    }
  }

  /** A release number with a tag behind a dash. */
  lemma TaggedKey(cs: seq<nat>, tag: string)
    requires cs != [] && tag != "" && '+' !in tag && !IsSpace(tag[|tag| - 1])
    ensures KeyOf(Dotted(cs) + "-" + tag) == ReleaseKey(cs).(pre := SplitChar(tag, '.'))
  {
    var d, s := Dotted(cs), Dotted(cs) + "-" + tag;
    hide *;
    DottedPlain(cs);
    KeyOfDotted(cs);
    PlainBody(d);
    TaggedBody(d, tag);
    BeforeFirst(d, '-', tag);
    DashText(d, tag);
    TaggedNums(d, s);
  }

  lemma DottedPlain(cs: seq<nat>)
    requires cs != []
    ensures var d := Dotted(cs);
            d != "" && Trim(d) && !IsSpace(d[0]) && !VersionPrefix(d[0]) && '-' !in d && '+' !in d
  {
    var d := Dotted(cs);
    DottedShape(cs);
    NoSpaceDigit(d[|d| - 1]);
    NoSpaceDigit(d[0]);
    hide Dotted, IsSpace;
  }

  lemma DashText(d: string, tag: string)
    ensures d + "-" + tag == d + ['-'] + tag
  {
  }

  lemma TaggedBody(d: string, tag: string)
    requires d != "" && !IsSpace(d[0]) && !VersionPrefix(d[0]) && '+' !in d
    requires tag != "" && '+' !in tag && !IsSpace(tag[|tag| - 1])
    ensures VersionBody(d + "-" + tag) == d + "-" + tag
  {
    hide IsSpace, VersionBody;
    var s := d + "-" + tag;
    assert s[0] == d[0] && s[|s| - 1] == tag[|tag| - 1];
    BodyOf(s);
  }

  lemma BodyOf(s: string)
    requires s != "" && Trim(s) && !VersionPrefix(s[0]) && '+' !in s
    ensures VersionBody(s) == s
  {
    StripTrim(s);
    RunLengthIs(s, VersionPrefix, 0);
    assert s[0..] == s;
    BeforeAll(s, '+');
  }

  lemma TaggedNums(d: string, s: string)
    requires VersionBody(s) == s && Before(s, '-') == d && After(s, '-') != ""
    ensures var runs := DigitRuns(d); KeyOf(s) == Key(NumAt(runs, 0), NumAt(runs, 1), NumAt(runs, 2), NumAt(runs, 3),
        SplitChar(After(s, '-'), '.'))
  {
    hide VersionBody, DigitRuns, Before, After, SplitChar;
  }

  /** The text a prerelease is split from. */
  function Tag(v: string): string { After(VersionBody(v), '-') }

  lemma TagOf(v: string)
    requires KeyOf(v).pre != []
    ensures Tag(v) != "" && '+' !in Tag(v) && KeyOf(v).pre == SplitChar(Tag(v), '.')
  {
    var body := VersionBody(v);
    var t := Strip(v);
    BeforeHasNone(t[RunLength(t, VersionPrefix)..], '+');
    AfterIsPart(body, '-');
    hide Strip, Before, After, DigitRuns, SplitChar;
  }

  // ----- the least prerelease

  /** What a non-empty tag splits into. */
  predicate IsTag(p: seq<string>) { |p| >= 2 || (|p| == 1 && p[0] != "") }

  lemma TagShape(v: string)
    ensures KeyOf(v).pre == [] || IsTag(KeyOf(v).pre)
  {
    if KeyOf(v).pre != [] {
      hide KeyOf;
      TagOf(v);
      SplitTag(Tag(v));
    }
  }

  lemma SplitTag(tag: string)
    requires tag != ""
    ensures IsTag(SplitChar(tag, '.'))
  {
    assert tag[1..] != "" ==> SplitChar(tag[1..], '.') != [];
  }

  const LEAST_TAG := ["", ""]

  lemma LeastTag(p: seq<string>)
    requires IsTag(p)
    ensures !PreLess(p, LEAST_TAG)
  {
    assert LEAST_TAG[1..] == [""];
    assert [""][1..] == [];
    if p[0] == "" {
      assert p[1..][0] == p[1];
      assert !LexLess(p[1..], [""], StringLess);
    }
  }

  lemma DotSplits()
    ensures SplitChar(".", '.') == LEAST_TAG
  {
    assert "."[1..] == "";
  }

  /** A release number with the least tag there is. */
  function WithLeastTag(nums: seq<nat>): string { Dotted(nums) + "-" + "." }

  lemma LeastTagKey(nums: seq<nat>)
    requires nums != []
    ensures KeyOf(WithLeastTag(nums)) == ReleaseKey(nums).(pre := LEAST_TAG)
  {
    hide Dotted, KeyOf, SplitChar, ReleaseKey;
    DotSplits();
    NoSpaceDigit('.');
    TaggedKey(nums, ".");
  }

  /** Nothing is below it but what is below all its numbers. */
  lemma NothingBelowLeastTag(nums: seq<nat>, v: string)
    requires nums != []
    ensures KeyLess(KeyOf(v), KeyOf(WithLeastTag(nums))) <==> NumsLess(KeyOf(v), ReleaseKey(nums))
    ensures KeyLess(KeyOf(WithLeastTag(nums)), ReleaseKey(nums))
  {
    hide KeyOf, WithLeastTag, PreLess;
    LeastTagKey(nums);
    TagShape(v);
    if KeyOf(v).pre != [] { LeastTag(KeyOf(v).pre); }
  }

  /** The least version of all. */
  function LeastVersion(): string { WithLeastTag([0]) }

  lemma LeastIsLeast(v: string)
    ensures KeyAtMost(KeyOf(LeastVersion()), KeyOf(v))
  {
    hide KeyOf, WithLeastTag, PreLess;
    NothingBelowLeastTag([0], v);
  }

  lemma LeastBelowReleases(nums: seq<nat>)
    ensures KeyLess(KeyOf(LeastVersion()), ReleaseKey(nums))
  {
    hide KeyOf, WithLeastTag, PreLess;
    LeastTagKey([0]);
  }

  // ----- the next version

  function Numbers(k: Key): seq<nat> { [k.a, k.b, k.c, k.d] }

  /** The least version above `v`. */
  function NextAfter(v: string): string {
    var k := KeyOf(v);
    if k.pre == [] then WithLeastTag([k.a, k.b, k.c, k.d + 1]) else Dotted(Numbers(k)) + "-" + (Tag(v) + ".")
  }

  lemma {:induction false} SplitLast(tag: string)
    ensures SplitChar(tag + ".", '.') == SplitChar(tag, '.') + [""]
  {
    if tag == "" {
      assert "."[1..] == "";
    } else {
      SplitLast(tag[1..]);
      assert (tag + ".")[1..] == tag[1..] + ".";
    }
  }

  /** Behind a list of identifiers comes the list with an empty one appended. */
  lemma {:induction false} NextTag(p: seq<string>, q: seq<string>)
    ensures PreLess(p, p + [""])
    ensures PreLess(p, q) ==> !PreLess(q, p + [""])
  {
    hide StringLess;
    if p == [] {
      OnlyEmpty(q);
      assert p + [""] == [""];
    } else {
      assert (p + [""])[0] == p[0] && (p + [""])[1..] == p[1..] + [""];
      NextTag(p[1..], if q == [] then [] else q[1..]);
      if q != [] { StringsApart(p[0], q[0]); }
    }
  }

  lemma OnlyEmpty(q: seq<string>)
    ensures PreLess([], [""]) && (q != [] ==> !PreLess(q, [""]))
  {
    if q != [] {
      LeastString(q[0]);
      assert [""][1..] == [];
      assert !LexLess(q[1..], [], StringLess);
    }
  }

  lemma LeastString(s: string)
    ensures !StringLess(s, "")
  {
  }

  lemma StringsApart(s: string, t: string)
    ensures StringLess(s, t) ==> !StringLess(t, s)
  {
    LexStrictTotal(CharLess, StringLess);
  }

  lemma NextTaggedKey(v: string)
    requires KeyOf(v).pre != []
    ensures KeyOf(NextAfter(v)) == KeyOf(v).(pre := KeyOf(v).pre + [""])
  {
    TagOf(v);
    hide *;
    NextTagged(v);
    NoSpaceDigit('.');
    TaggedKey(Numbers(KeyOf(v)), Tag(v) + ".");
    SplitLast(Tag(v));
    NumbersKey(KeyOf(v));
  }

  lemma NextTagged(v: string)
    requires KeyOf(v).pre != []
    ensures NextAfter(v) == Dotted(Numbers(KeyOf(v))) + "-" + (Tag(v) + ".")
  {
    hide KeyOf, Dotted, Tag, Numbers;
  }

  lemma NumbersKey(k: Key)
    ensures Numbers(k) != [] && ReleaseKey(Numbers(k)) == k.(pre := [])
  {
  }

  lemma NextReleaseKey(v: string)
    requires KeyOf(v).pre == []
    ensures KeyOf(NextAfter(v)) == KeyOf(v).(d := KeyOf(v).d + 1, pre := LEAST_TAG)
  {
    hide KeyOf, WithLeastTag;
    var k := KeyOf(v);
    LeastTagKey([k.a, k.b, k.c, k.d + 1]);
  }

  /** Nothing lies between a version and the next one. */
  lemma NextIsNext(u: string, v: string)
    ensures KeyLess(KeyOf(u), KeyOf(v)) <==> KeyAtMost(KeyOf(NextAfter(u)), KeyOf(v))
  {
    hide KeyOf, NextAfter;
    var k, l := KeyOf(u), KeyOf(v);
    if k.pre == [] {
      NextReleaseKey(u);
      NoTagAboveRelease(k, l);
      TagShape(v);
      if l.pre != [] { LeastTag(l.pre); }
      hide PreLess;
    } else {
      NextTaggedKey(u);
      NextTag(k.pre, l.pre);
      PreOrder(k.pre, k.pre + [""], l.pre);
      hide PreLess;
    }
  }

  lemma PreOrder(p: seq<string>, q: seq<string>, r: seq<string>)
    ensures PreLess(p, q) && !PreLess(r, q) ==> PreLess(p, r)
    ensures !PreLess([], []) && !PreLess(p, [])
  {
    LexStrictTotal(CharLess, StringLess);
    LexIrreflexive(p, StringLess);
    LexTotal(p, r, StringLess);
    if PreLess(r, p) && PreLess(p, q) { LexTransitive(r, p, q, StringLess); }
  }

  lemma NoTagAboveRelease(r: Key, k: Key)
    requires r.pre == []
    ensures KeyLess(r, k) <==> NumsLess(r, k)
  {
  }

  // ----- the least version that meets a list of bounds

  predicate IsLower(b: Bound) { b.op == Ge || b.op == Gt }

  predicate IsUpper(b: Bound) { b.op == Lt || b.op == Le }

  function LeastMeeting(b: Bound): string {
    match b.op
    case Gt => NextAfter(Dotted(b.nums))
    case Ge => Dotted(b.nums)
    case Eq => Dotted(b.nums)
    case _ => LeastVersion()
  }

  /** The greatest of the least versions that meet each bound. */
  function Start(bs: seq<Bound>): string
    requires bs != []
  {
    if |bs| == 1 || VersionLess(Start(bs[1..]), LeastMeeting(bs[0])) then LeastMeeting(bs[0]) else Start(bs[1..])
  }

  lemma LeastMeets(b: Bound, v: string)
    requires b.nums != [] && BoundHolds(b, KeyOf(v))
    ensures KeyAtMost(KeyOf(LeastMeeting(b)), KeyOf(v))
  {
    hide KeyOf, KeyLess, NextAfter, LeastVersion, ReleaseKey, Dotted;
    KeyOfDotted(b.nums);
    LeastIsLeast(v);
    if b.op == Gt {
      NextIsNext(Dotted(b.nums), v);
    } else {
      KeyOrder(KeyOf(v), KeyOf(v), KeyOf(v));
    }
  }

  /** A bound that holds somewhere holds from its least version up to there. */
  lemma HoldsFromLeast(b: Bound, s: string, v: string)
    requires b.nums != [] && BoundHolds(b, KeyOf(v))
    requires KeyAtMost(KeyOf(LeastMeeting(b)), KeyOf(s)) && KeyAtMost(KeyOf(s), KeyOf(v))
    ensures BoundHolds(b, KeyOf(s))
  {
    hide KeyOf, KeyLess, NextAfter, LeastVersion, ReleaseKey, Dotted;
    KeyOfDotted(b.nums);
    KeyOrder(KeyOf(s), KeyOf(v), ReleaseKey(b.nums));
    if b.op == Gt {
      NextIsNext(Dotted(b.nums), s);
    }
  }

  lemma {:induction false} StartReaches(bs: seq<Bound>, i: nat)
    requires i < |bs|
    ensures KeyAtMost(KeyOf(LeastMeeting(bs[i])), KeyOf(Start(bs)))
  {
    hide KeyOf, KeyLess, LeastMeeting;
    var first := KeyOf(LeastMeeting(bs[0]));
    KeyOrder(first, first, first);
    if |bs| > 1 {
      var rest := KeyOf(Start(bs[1..]));
      KeyOrder(rest, first, first);
      if i > 0 {
        StartReaches(bs[1..], i - 1);
        KeyOrder(KeyOf(LeastMeeting(bs[i])), rest, first);
      }
    }
  }

  lemma {:induction false} StartIsBelow(bs: seq<Bound>, v: string)
    requires bs != [] && (forall b | b in bs :: b.nums != []) && AllBoundsHold(bs, KeyOf(v))
    ensures KeyAtMost(KeyOf(Start(bs)), KeyOf(v))
  {
    hide KeyOf, KeyLess, LeastMeeting, BoundHolds;
    assert bs[0] in bs && BoundHolds(bs[0], KeyOf(v));
    LeastMeets(bs[0], v);
    if |bs| > 1 {
      assert forall b | b in bs[1..] :: b in bs;
      StartIsBelow(bs[1..], v);
    }
  }

  /** If any version meets the bounds, the least one that does is `Start`. */
  lemma StartIsLeast(bs: seq<Bound>, v: string)
    requires bs != [] && (forall b | b in bs :: b.nums != []) && AllBoundsHold(bs, KeyOf(v))
    ensures KeyAtMost(KeyOf(Start(bs)), KeyOf(v)) && AllBoundsHold(bs, KeyOf(Start(bs)))
  {
    hide KeyOf, KeyLess, LeastMeeting, BoundHolds, Start;
    StartIsBelow(bs, v);
    forall b | b in bs ensures BoundHolds(b, KeyOf(Start(bs))) {
      var i :| 0 <= i < |bs| && bs[i] == b;
      StartReaches(bs, i);
      HoldsFromLeast(b, Start(bs), v);
    }
  }

  /** Lists without a lower bound start at the least version. */
  lemma {:induction false} StartOfUppers(bs: seq<Bound>)
    requires bs != [] && forall b | b in bs :: IsUpper(b)
    ensures Start(bs) == LeastVersion()
  {
    hide LeastVersion;
    assert bs[0] in bs;
    if |bs| > 1 {
      assert forall b | b in bs[1..] :: b in bs;
      StartOfUppers(bs[1..]);
    }
  }
}
