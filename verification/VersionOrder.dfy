/** The version order on texts: which of two printed versions is the lower one, character by
    character. */
module VersionOrder {
  import opened Strings
  import opened Versions
  import opened SpecForms
  import opened LeastVersions

  // ----- prerelease tags

  /** Text that can stand behind the dash. */
  predicate TagText(t: string) { t != "" && '+' !in t && !IsSpace(t[|t| - 1]) }

  lemma PrependKeepsOrder(c: char, a: seq<string>, b: seq<string>)
    requires a != [] && b != [] && PreLess(a, b)
    ensures PreLess(Prepend(c, a), Prepend(c, b))
  {
    var x, y := [c] + a[0], [c] + b[0];
    assert x[1..] == a[0] && y[1..] == b[0];
    assert StringLess(x, y) == StringLess(a[0], b[0]);
    assert Prepend(c, a)[1..] == a[1..] && Prepend(c, b)[1..] == b[1..];
  }

  /** A common front does not change the order of what is split behind it. */
  lemma {:induction false} FrontKeepsOrder(front: string, s: string, t: string)
    requires PreLess(SplitChar(s, '.'), SplitChar(t, '.'))
    ensures PreLess(SplitChar(front + s, '.'), SplitChar(front + t, '.'))
  {
    if front == "" {
      assert front + s == s && front + t == t;
    } else {
      FrontKeepsOrder(front[1..], s, t);
      assert (front + s)[1..] == front[1..] + s && (front + t)[1..] == front[1..] + t;
      hide PreLess;
      if front[0] == '.' {
        DotKeepsOrder(SplitChar(front[1..] + s, '.'), SplitChar(front[1..] + t, '.'));
      } else {
        PrependKeepsOrder(front[0], SplitChar(front[1..] + s, '.'), SplitChar(front[1..] + t, '.'));
      }
    }
  }

  lemma DotKeepsOrder(a: seq<string>, b: seq<string>)
    requires PreLess(a, b)
    ensures PreLess([""] + a, [""] + b)
  {
    assert ([""] + a)[1..] == a && ([""] + b)[1..] == b;
  }

  lemma TagsDecide(n: seq<nat>, s: string, t: string)
    requires n != [] && TagText(s) && TagText(t)
    ensures VersionLess(Dotted(n) + "-" + s, Dotted(n) + "-" + t) == PreLess(SplitChar(s, '.'), SplitChar(t, '.'))
  {
    hide KeyOf, Dotted, SplitChar, PreLess, IsSpace;
    TaggedKey(n, s);
    TaggedKey(n, t);
  }

  /** Prereleases of one release that agree up to a place: there the lower character decides... */
  lemma LowerCharacter(n: seq<nat>, front: string, c: char, x: string, d: char, y: string)
    requires n != [] && TagText(front + [c] + x) && TagText(front + [d] + y)
    requires c != '.' && d != '.' && c as int < d as int
    ensures VersionLess(Dotted(n) + "-" + (front + [c] + x), Dotted(n) + "-" + (front + [d] + y))
  {
    hide Dotted, KeyOf, TagText, StringLess;
    TagsDecide(n, front + [c] + x, front + [d] + y);
    assert front + [c] + x == front + ([c] + x) && front + [d] + y == front + ([d] + y);
    CharactersFirst(c, x, d, y);
    hide PreLess, SplitChar;
    FrontKeepsOrder(front, [c] + x, [d] + y);
  }

  lemma CharactersFirst(c: char, x: string, d: char, y: string)
    requires c != '.' && d != '.' && c as int < d as int
    ensures PreLess(SplitChar([c] + x, '.'), SplitChar([d] + y, '.'))
  {
    assert ([c] + x)[1..] == x && ([d] + y)[1..] == y;
    var a, b := SplitChar(x, '.'), SplitChar(y, '.');
    assert SplitChar([c] + x, '.') == Prepend(c, a) && SplitChar([d] + y, '.') == Prepend(d, b);
    assert StringLess([c] + a[0], [d] + b[0]);
  }

  /** ... or the identifier that ends there comes first, whatever follows its dot... */
  lemma ShorterIdentifier(n: seq<nat>, front: string, x: string, d: char, y: string)
    requires n != [] && TagText(front + x) && TagText(front + [d] + y)
    requires d != '.' && (x == "" || x[0] == '.')
    ensures VersionLess(Dotted(n) + "-" + (front + x), Dotted(n) + "-" + (front + [d] + y))
  {
    hide Dotted, KeyOf, TagText, StringLess;
    TagsDecide(n, front + x, front + [d] + y);
    assert front + [d] + y == front + ([d] + y);
    IdentifierEnds(x, d, y);
    hide PreLess, SplitChar;
    FrontKeepsOrder(front, x, [d] + y);
  }

  lemma IdentifierEnds(x: string, d: char, y: string)
    requires d != '.' && (x == "" || x[0] == '.')
    ensures PreLess(SplitChar(x, '.'), SplitChar([d] + y, '.'))
  {
    assert ([d] + y)[1..] == y;
    assert SplitChar(x, '.')[0] == "" && SplitChar([d] + y, '.') == Prepend(d, SplitChar(y, '.'));
    assert StringLess("", [d] + SplitChar(y, '.')[0]);
  }

  /** ... or the shorter list of identifiers. */
  lemma ShorterList(n: seq<nat>, tag: string, y: string)
    requires n != [] && TagText(tag) && TagText(tag + "." + y)
    ensures VersionLess(Dotted(n) + "-" + tag, Dotted(n) + "-" + (tag + "." + y))
  {
    hide Dotted, KeyOf, TagText;
    TagsDecide(n, tag, tag + "." + y);
    assert tag + "." + y == tag + ("." + y) && tag + "" == tag;
    ListEnds(y);
    hide PreLess, SplitChar;
    FrontKeepsOrder(tag, "", "." + y);
  }

  lemma ListEnds(y: string)
    ensures PreLess(SplitChar("", '.'), SplitChar("." + y, '.'))
  {
    assert ("." + y)[1..] == y;
    var b := SplitChar("." + y, '.');
    assert b == [""] + SplitChar(y, '.') && b[1..] == SplitChar(y, '.') && [""][1..] == [];
  }

  /** Every prerelease is below its release. */
  lemma PrereleaseIsBelow(n: seq<nat>, tag: string)
    requires n != [] && TagText(tag)
    ensures VersionLess(Dotted(n) + "-" + tag, Dotted(n))
  {
    hide KeyOf, Dotted, SplitChar, PreLess, IsSpace;
    TaggedKey(n, tag);
    KeyOfDotted(n);
  }

  /** A release number with a tag, or none. */
  function Version(n: seq<nat>, tag: string): string { if tag == "" then Dotted(n) else Dotted(n) + "-" + tag }

  /** The first of the four numbers that differs decides, whatever the tags. */
  lemma NumbersDecide(n: seq<nat>, s: string, m: seq<nat>, t: string, i: nat)
    requires n != [] && m != [] && (s == "" || TagText(s)) && (t == "" || TagText(t))
    requires i < 4 && At(n, i) < At(m, i) && forall j: nat | j < i :: At(n, j) == At(m, j)
    ensures VersionLess(Version(n, s), Version(m, t)) && !VersionLess(Version(m, t), Version(n, s))
  {
    NumbersOf(n, s);
    NumbersOf(m, t);
    FirstDifference(n, m, i);
    hide *;
    NumbersFirst(Version(n, s), ReleaseKey(n), Version(m, t), ReleaseKey(m));
  }

  lemma FirstDifference(n: seq<nat>, m: seq<nat>, i: nat)
    requires i < 4 && At(n, i) < At(m, i) && forall j: nat | j < i :: At(n, j) == At(m, j)
    ensures NumsLess(ReleaseKey(n), ReleaseKey(m))
  {
    hide At;
    assert i > 0 ==> At(n, 0) == At(m, 0);
    assert i > 1 ==> At(n, 1) == At(m, 1);
    assert i > 2 ==> At(n, 2) == At(m, 2);
  }

  lemma NumbersFirst(v: string, x: Key, w: string, y: Key)
    requires NumsEqual(KeyOf(v), x) && NumsEqual(KeyOf(w), y) && NumsLess(x, y)
    ensures VersionLess(v, w) && !VersionLess(w, v)
  {
    hide KeyOf, PreLess;
  }

  lemma NumbersOf(n: seq<nat>, tag: string)
    requires n != [] && (tag == "" || TagText(tag))
    ensures NumsEqual(KeyOf(Version(n, tag)), ReleaseKey(n))
  {
    hide KeyOf, Dotted, SplitChar, IsSpace, At;
    if tag == "" { KeyOfDotted(n); } else { TaggedKey(n, tag); }
  }

  /** A leading `v` and a build tag do not count. */
  lemma DecorationIsIgnored(n: seq<nat>, tag: string, build: string)
    requires n != [] && (tag == "" || TagText(tag)) && build != "" && !IsSpace(build[|build| - 1])
    ensures VersionEqual("v" + Version(n, tag), Version(n, tag))
    ensures VersionEqual(Version(n, tag) + "+" + build, Version(n, tag))
  {
    PlainVersion(n, tag);
    hide *;
    var v := Version(n, tag);
    SameBodyWithV(v);
    SameBodyWithBuild(v, build);
    SameBodiesAreEqual("v" + v, v);
    SameBodiesAreEqual(v + "+" + build, v);
  }

  lemma PlainVersion(n: seq<nat>, tag: string)
    requires n != [] && (tag == "" || TagText(tag))
    ensures var v := Version(n, tag); v != "" && Trim(v) && !IsSpace(v[0]) && !VersionPrefix(v[0]) && '+' !in v
  {
    DottedPlain(n);
    hide Dotted, IsSpace;
  }

  lemma SameBodiesAreEqual(v: string, w: string)
    requires VersionBody(v) == VersionBody(w)
    ensures VersionEqual(v, w)
  {
    hide VersionBody, DigitRuns, Before, After, SplitChar;
    assert KeyOf(v) == KeyOf(w);
    VersionStrictWeakOrder(v, v, w);
  }

  lemma SameBodyWithV(v: string)
    requires v != "" && Trim(v) && !VersionPrefix(v[0])
    ensures VersionBody("v" + v) == VersionBody(v)
  {
    StripTrim(v);
    StripTrim("v" + v);
    hide Strip, RunLength, IsSpace;
    RunLengthIs(v, VersionPrefix, 0);
    RunLengthIs("v" + v, VersionPrefix, 1);
    assert ("v" + v)[1..] == v && v[0..] == v;
  }

  lemma SameBodyWithBuild(v: string, build: string)
    requires v != "" && Trim(v) && !VersionPrefix(v[0]) && '+' !in v && build != "" && !IsSpace(build[|build| - 1])
    ensures VersionBody(v + "+" + build) == VersionBody(v)
  {
    var w := v + "+" + build;
    assert w == v + ['+'] + build && w[0] == v[0] && w[|w| - 1] == build[|build| - 1];
    StripTrim(v);
    StripTrim(w);
    hide Strip, RunLength, IsSpace;
    RunLengthIs(v, VersionPrefix, 0);
    RunLengthIs(w, VersionPrefix, 0);
    assert w[0..] == w && v[0..] == v;
    BeforeFirst(v, '+', build);
    BeforeAll(v, '+');
  }
}
