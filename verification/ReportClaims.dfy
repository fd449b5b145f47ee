/** Range reports on records of one interval and of two: the exact conditions on the bounds of the
    declaration, derived from those on any record, and the inputs for which the claim is false. */
module ReportClaims {
  import opened Strings
  import opened Versions
  import opened RangeText
  import opened Specs
  import opened SpecForms
  import opened LeastVersions
  import opened OsvAgreement
  import opened Reporting
  import opened RecordClaims
  import Osv

  // ----- records of one interval

  predicate ClosedInterval(o: Osv.Event, c: Osv.Event) { Osv.Alternating([o, c], None) && Osv.Closes(c) }

  predicate FixedInterval(o: Osv.Event, c: Osv.Event) { ClosedInterval(o, c) && c.fixed.Some? }

  function IntervalAdvisory(id: string, o: Osv.Event, c: Osv.Event): Advisory {
    RecordAdvisory(id, Osv.OneRange([o, c]), [])
  }

  predicate FromStart(o: Osv.Event, k: Key)
    requires o.Event? && o.introduced.Some?
  {
    o.introduced.value == "0" || KeyAtMost(KeyOf(o.introduced.value), k)
  }

  predicate BelowEnd(c: Osv.Event, k: Key)
    requires Osv.Closes(c)
  {
    if c.lastAffected.Some? then KeyAtMost(k, Osv.ClosingKey(c)) else KeyLess(k, Osv.ClosingKey(c))
  }

  /** The interval of an opening and a closing event, on keys. */
  predicate IntervalHolds(o: Osv.Event, c: Osv.Event, k: Key)
    requires o.Event? && o.introduced.Some? && Osv.Closes(c)
  {
    FromStart(o, k) && BelowEnd(c, k)
  }

  lemma IntervalOnKeys(o: Osv.Event, c: Osv.Event, v: string)
    requires o.Event? && o.introduced.Some? && Osv.Closes(c)
    ensures Osv.InInterval(o, c, v) == IntervalHolds(o, c, KeyOf(v))
  {
    hide KeyOf, KeyLess, VersionWord;
  }

  lemma OpensOf(o: Osv.Event, c: Osv.Event)
    requires ClosedInterval(o, c)
    ensures Osv.Opens(o, None) && Osv.Closes(c) && Osv.Alternating([o, c], None)
    ensures o.Event? && o.introduced.Some? && c.Event? && c.introduced.None?
  {
  }

  lemma IntervalTail(o: Osv.Event, c: Osv.Event, v: string)
    requires Osv.Opens(o, None) && Osv.Closes(c)
    ensures Osv.AdmitsTail([o, c], v) == Osv.InInterval(o, c, v)
    ensures Osv.EventAlternatives([o, c], None) != []
  {
    assert o.introduced.Some? && c.introduced.None?;
    assert [o, c] + [] == [o, c];
    hide *;
    Osv.IntervalUnfold(o, c, []);
    Osv.IntervalCompiled(o, c, None, v, []);
    Osv.NoEvents(v);
  }

  lemma FixOf(o: Osv.Event, c: Osv.Event)
    requires ClosedInterval(o, c)
    ensures Osv.FirstFixed(Osv.OneRange([o, c])) == if c.fixed.Some? then c.fixed.value else ""
    ensures c.fixed.Some? ==> Strip(c.fixed.value) == c.fixed.value != ""
  {
    hide VersionWord;
    Osv.WordStrip(Osv.ClosingComparator(c).version);
    assert [o, c][1..] == [c] && [c][1..] == [] && Osv.OneRange([o, c])[1..] == [];
    assert Osv.FirstFixedEvent([c]) == c.fixed;
    assert Osv.Opens(o, None) && o.fixed.None?;
    assert Osv.FirstFixedEvent([o, c]) == c.fixed;
  }

  /** The stored text admits exactly the interval, and the stored fix is its end, if that is a fix. */
  lemma IntervalAdvisoryMeaning(id: string, o: Osv.Event, c: Osv.Event, v: string)
    requires ClosedInterval(o, c)
    ensures o.Event? && o.introduced.Some? && Osv.Closes(c)
    ensures Satisfies(v, IntervalAdvisory(id, o, c).affected) == IntervalHolds(o, c, KeyOf(v))
    ensures IntervalAdvisory(id, o, c).fixedIn == if c.fixed.Some? then c.fixed.value else ""
  {
    OpensOf(o, c);
    hide *;
    FixOf(o, c);
    IntervalTail(o, c, v);
    IntervalOnKeys(o, c, v);
    Osv.OneRangeMeaning([o, c], v);
    IntervalText(id, o, c);
  }

  lemma IntervalText(id: string, o: Osv.Event, c: Osv.Event)
    ensures IntervalAdvisory(id, o, c) == RecordAdvisory(id, Osv.OneRange([o, c]), [])
    ensures IntervalAdvisory(id, o, c).affected == Osv.AffectedText(Osv.OneRange([o, c]), [])
    ensures IntervalAdvisory(id, o, c).fixedIn == Osv.FirstFixed(Osv.OneRange([o, c]))
  {
    hide Osv.AffectedText, Osv.FirstFixed, Osv.OneRange;
  }

  lemma EndsOfRange(events: seq<Osv.Event>)
    ensures Ends(Osv.OneRange(events), []) == EventStops(events)
  {
    Osv.SemverIsUsed(events);
    hide EventStops, Osv.UsedEvents;
    var ranges := Osv.OneRange(events);
    assert ranges[1..] == [] && RangeStops(ranges) == EventStops(events) + [];
  }

  lemma EndOfInterval(o: Osv.Event, c: Osv.Event)
    requires ClosedInterval(o, c)
    ensures Osv.WellFormed(Osv.OneRange([o, c]), []) && Osv.Closes(c)
    ensures Ends(Osv.OneRange([o, c]), []) == [Behind(c)]
  {
    OpensOf(o, c);
    EndsOfRange([o, c]);
    hide Osv.Alternating, Osv.WellFormed, Ends, Behind, Osv.Closes;
    Osv.OneRangeWellFormed([o, c]);
    assert [o, c][2..] == [];
  }

  // ----- where the bounds end

  /** For an end that is itself affected some bound must not be above it; another end must be
      excluded by the bounds. */
  predicate EndsInside(bs: seq<Bound>, c: Osv.Event)
    requires Osv.Closes(c)
  {
    if c.lastAffected.Some? then exists b | b in bs :: !IsLower(b) && KeyAtMost(ReleaseKey(b.nums), Osv.ClosingKey(c))
    else !AllBoundsHold(bs, Osv.ClosingKey(c))
  }

  /** The least version behind an end is not before it. */
  lemma BehindIsBehind(c: Osv.Event)
    requires Osv.Closes(c)
    ensures !BelowEnd(c, KeyOf(Behind(c)))
    ensures forall k | BelowEnd(c, k) :: KeyLess(k, KeyOf(Behind(c)))
  {
    EndIsAVersion(c);
    assert c.Event?;
    hide KeyOf, KeyLess, VersionWord, NextAfter, Osv.Closes;
    var end, behind := Osv.ClosingKey(c), KeyOf(Behind(c));
    KeyOrder(behind, behind, behind);
    if c.lastAffected.Some? {
      LastAffectedKey(c);
      NextIsNext(c.lastAffected.value, Behind(c));
      forall k | BelowEnd(c, k) ensures KeyLess(k, behind) { KeyOrder(k, end, behind); }
    } else {
      BehindIsEnd(c);
    }
  }

  lemma BehindIsEnd(c: Osv.Event)
    requires Osv.Closes(c) && c.Event? && c.lastAffected.None?
    ensures KeyOf(Behind(c)) == Osv.ClosingKey(c)
  {
    hide KeyOf, VersionWord;
  }

  lemma EndIsAVersion(c: Osv.Event)
    requires Osv.Closes(c)
    ensures Osv.ClosingKey(c) == KeyOf(Osv.ClosingComparator(c).version)
  {
    hide KeyOf, VersionWord;
  }

  lemma LastAffectedKey(c: Osv.Event)
    requires Osv.Closes(c) && c.lastAffected.Some?
    ensures Osv.ClosingKey(c) == KeyOf(c.lastAffected.value)
  {
    hide KeyOf, VersionWord;
  }

  lemma BehindLast(c: Osv.Event)
    requires Osv.Closes(c) && c.Event? && c.lastAffected.Some?
    ensures Behind(c) == NextAfter(c.lastAffected.value)
  {
    hide NextAfter, Osv.Closes;
  }

  /** The bounds exclude the least version behind the end exactly when they end inside, provided
      that none is above `k` from below. */
  lemma EndExcluded(bs: seq<Bound>, c: Osv.Event, k: Key)
    requires Osv.Closes(c) && Numbered(bs) && BelowEnd(c, k)
    requires forall b | b in bs && !IsUpper(b) :: KeyAtMost(ReleaseKey(b.nums), k)
    ensures !AllBoundsHold(bs, KeyOf(Behind(c))) <==> EndsInside(bs, c)
  {
    assert c.Event?;
    hide KeyOf, KeyLess, ReleaseKey, Osv.Closes, Osv.ClosingKey, BoundHolds, Behind, NextAfter;
    if c.lastAffected.Some? {
      BehindLast(c);
      LastAffectedKey(c);
      var last := c.lastAffected.value;
      forall b | b in bs
        ensures !BoundHolds(b, KeyOf(Behind(c))) <==> !IsLower(b) && KeyAtMost(ReleaseKey(b.nums), KeyOf(last))
      {
        FailsBehind(b, last, k);
      }
    } else {
      BehindIsEnd(c);
    }
  }

  /** A release is never the next version after something, so a bound fails there exactly when it is
      an upper bound, or an equality, at or below. */
  lemma FailsBehind(b: Bound, last: string, k: Key)
    requires b.nums != [] && KeyAtMost(k, KeyOf(last)) && (!IsUpper(b) ==> KeyAtMost(ReleaseKey(b.nums), k))
    ensures !BoundHolds(b, KeyOf(NextAfter(last)))
       <==> !IsLower(b) && KeyAtMost(ReleaseKey(b.nums), KeyOf(last))
  {
    hide KeyOf, KeyLess, ReleaseKey, NextAfter, Dotted;
    var r, l, n := ReleaseKey(b.nums), KeyOf(last), KeyOf(NextAfter(last));
    KeyOfDotted(b.nums);
    NextIsNext(last, Dotted(b.nums));
    NextIsNext(last, NextAfter(last));
    NextIsNoRelease(last, b.nums);
    KeyOrder(r, k, l);
    KeyOrder(r, l, n);
    KeyOrder(n, r, n);
    KeyOrder(n, n, n);
  }

  lemma NextIsNoRelease(v: string, nums: seq<nat>)
    ensures KeyOf(NextAfter(v)) != ReleaseKey(nums)
  {
    hide KeyOf, NextAfter;
    if KeyOf(v).pre == [] { NextReleaseKey(v); } else { NextTaggedKey(v); }
  }

  // ----- exactly when the claim is true

  /** The least version the bounds admit, if there is one, lies in the interval, and the bounds end
      before the interval does. */
  predicate FitsInterval(bs: seq<Bound>, o: Osv.Event, c: Osv.Event)
    requires bs != [] && o.Event? && o.introduced.Some? && Osv.Closes(c)
  {
    AllBoundsHold(bs, KeyOf(Start(bs))) ==> IntervalHolds(o, c, KeyOf(Start(bs))) && EndsInside(bs, c)
  }

  lemma FitsIntervalExactlyWhen(bs: seq<Bound>, o: Osv.Event, c: Osv.Event)
    requires ClosedInterval(o, c) && Numbered(bs)
    ensures o.Event? && o.introduced.Some? && Osv.Closes(c)
    ensures FitsRecord(bs, Osv.OneRange([o, c]), []) <==> FitsInterval(bs, o, c)
  {
    var s, b := Start(bs), Behind(c);
    var ranges := Osv.OneRange([o, c]);
    FirstIn(bs);
    IntervalText("", o, c);
    hide *;
    IntervalAdvisoryMeaning("", o, c, s);
    IntervalAdvisoryMeaning("", o, c, b);
    EndOfInterval(o, c);
    BehindIsBehind(c);
    NotInside(o, c, KeyOf(b));
    OneEnd(bs, o, c);
    FitsIs(bs, ranges, o, c);
    if AllBoundsHold(bs, KeyOf(s)) {
      if IntervalHolds(o, c, KeyOf(s)) {
        BoundsUpTo(bs, KeyOf(s));
        InsideIsBelow(o, c, KeyOf(s));
        EndExcluded(bs, c, KeyOf(s));
      }
    } else if AllBoundsHold(bs, KeyOf(b)) {
      NumberedIs(bs);
      StartIsLeast(bs, b);
    }
  }

  lemma NumberedIs(bs: seq<Bound>)
    requires Numbered(bs)
    ensures bs != [] && forall b | b in bs :: b.nums != []
  {
  }

  lemma FitsIs(bs: seq<Bound>, ranges: seq<Osv.Range>, o: Osv.Event, c: Osv.Event)
    requires bs != [] && o.Event? && o.introduced.Some? && Osv.Closes(c)
    ensures FitsRecord(bs, ranges, [])
       <==> (&& (AllBoundsHold(bs, KeyOf(Start(bs))) ==> Satisfies(Start(bs), Osv.AffectedText(ranges, [])))
             && EndsAffected(bs, ranges, []))
    ensures FitsInterval(bs, o, c)
       <==> (AllBoundsHold(bs, KeyOf(Start(bs))) ==> IntervalHolds(o, c, KeyOf(Start(bs))) && EndsInside(bs, c))
  {
    hide KeyOf, Start, Satisfies, AllBoundsHold, EndsAffected, IntervalHolds, EndsInside, Osv.Closes,
         Osv.AffectedText;
  }

  /** For an advisory of one interval: every version a declaration permits is affected exactly when
      every alternative fits the interval. */
  lemma ClaimExactlyWhen(parts: seq<string>, lists: seq<seq<Bound>>, id: string, o: Osv.Event, c: Osv.Event)
    requires ClosedInterval(o, c) && AreAlternatives(parts, lists)
    ensures o.Event? && o.introduced.Some? && Osv.Closes(c) && forall i | 0 <= i < |lists| :: lists[i] != []
    ensures Claim(Join("||", parts), IntervalAdvisory(id, o, c).affected)
       <==> forall i | 0 <= i < |lists| :: FitsInterval(lists[i], o, c)
  {
    OpensOf(o, c);
    ListsOf(parts, lists);
    NumberedLists(lists);
    hide *;
    EndOfInterval(o, c);
    IntervalText(id, o, c);
    RecordClaimExactlyWhen(parts, lists, Osv.OneRange([o, c]), []);
    forall i | 0 <= i < |lists|
      ensures FitsRecord(lists[i], Osv.OneRange([o, c]), []) == FitsInterval(lists[i], o, c)
    {
      NumberedAt(lists, i);
      FitsIntervalExactlyWhen(lists[i], o, c);
    }
  }

  /** The least version of the bounds, if the declaration admits it, is affected. */
  predicate StartIsAffected(spec: string, bs: seq<Bound>, affected: string)
    requires bs != []
  {
    Admitted(spec, Start(bs)) ==> Satisfies(Start(bs), affected)
  }

  /** Given a report against a fixed interval, the claim is true exactly when the least version of
      every alternative, if it admits any, is affected: the scanner tests only the first number. */
  lemma ReportIsSoundExactlyWhen(name: string, parts: seq<string>, lists: seq<seq<Bound>>, id: string, o: Osv.Event,
          c: Osv.Event)
    requires FixedInterval(o, c) && AreAlternatives(parts, lists)
    requires Decide(RangeDependency(name, Join("||", parts)), IntervalAdvisory(id, o, c)).Report?
    ensures forall i | 0 <= i < |lists| :: lists[i] != []
    ensures Claim(Join("||", parts), IntervalAdvisory(id, o, c).affected)
       <==> forall i | 0 <= i < |lists| :: StartIsAffected(parts[i], lists[i], IntervalAdvisory(id, o, c).affected)
  {
    FixedEvent(o, c);
    ListsOf(parts, lists);
    NumberedLists(lists);
    hide *;
    ClaimExactlyWhen(parts, lists, id, o, c);
    ReportExcludesFix(name, parts, lists, id, o, c);
    forall i | 0 <= i < |lists|
      ensures FitsInterval(lists[i], o, c) == StartIsAffected(parts[i], lists[i], IntervalAdvisory(id, o, c).affected)
    {
      PartTranslates(parts, lists, i);
      FixedStart(parts[i], lists[i], id, o, c);
    }
  }

  lemma FixedStart(spec: string, bs: seq<Bound>, id: string, o: Osv.Event, c: Osv.Event)
    requires FixedInterval(o, c) && bs != [] && TranslatesTo(spec, bs) && o.Event? && o.introduced.Some?
    requires !AllBoundsHold(bs, KeyOf(c.fixed.value))
    ensures FitsInterval(bs, o, c) == StartIsAffected(spec, bs, IntervalAdvisory(id, o, c).affected)
  {
    assert ClosedInterval(o, c);
    hide FitsInterval, AllBoundsHold, IntervalHolds, KeyOf, Start, ClosedInterval, TranslatesTo, Admitted, Satisfies,
         IntervalAdvisory;
    TranslationAdmits(spec, bs, Start(bs));
    IntervalAdvisoryMeaning(id, o, c, Start(bs));
    FixedFits(bs, o, c);
  }

  lemma FixedFits(bs: seq<Bound>, o: Osv.Event, c: Osv.Event)
    requires FixedInterval(o, c) && bs != [] && o.Event? && o.introduced.Some?
    requires !AllBoundsHold(bs, KeyOf(c.fixed.value))
    ensures FitsInterval(bs, o, c)
       <==> (AllBoundsHold(bs, KeyOf(Start(bs))) ==> IntervalHolds(o, c, KeyOf(Start(bs))))
  {
    FixedKey(c);
    hide AllBoundsHold, IntervalHolds, Osv.Closes, Osv.ClosingKey, KeyOf, Start;
  }

  lemma FixedKey(c: Osv.Event)
    requires Osv.Closes(c) && c.fixed.Some?
    ensures c.lastAffected.None? && Osv.ClosingKey(c) == KeyOf(c.fixed.value)
  {
    hide KeyOf, VersionWord;
  }

  lemma ReportExcludesFix(name: string, parts: seq<string>, lists: seq<seq<Bound>>, id: string, o: Osv.Event,
          c: Osv.Event)
    requires FixedInterval(o, c) && AreAlternatives(parts, lists)
    requires Decide(RangeDependency(name, Join("||", parts)), IntervalAdvisory(id, o, c)).Report?
    ensures forall i | 0 <= i < |lists| :: !AllBoundsHold(lists[i], KeyOf(c.fixed.value))
  {
    FixedEvent(o, c);
    hide *;
    AlternativesTranslate(parts, lists);
    FixOf(o, c);
    IntervalAdvisoryMeaning(id, o, c, "");
    ReportedExactlyWhen(name, Join("||", parts), IntervalAdvisory(id, o, c));
    FixExcluded(parts, lists, c.fixed.value);
    NoneHoldsIs(lists, KeyOf(c.fixed.value));
  }

  lemma FixedEvent(o: Osv.Event, c: Osv.Event)
    requires FixedInterval(o, c)
    ensures ClosedInterval(o, c) && o.Event? && o.introduced.Some? && Osv.Closes(c) && c.fixed.Some?
  {
    OpensOf(o, c);
  }

  // ----- one declaration without alternatives

  lemma ClaimOnInterval(spec: string, bs: seq<Bound>, id: string, o: Osv.Event, c: Osv.Event)
    requires ClosedInterval(o, c) && TranslatesTo(spec, bs)
    ensures o.Event? && o.introduced.Some? && Osv.Closes(c) && Numbered(bs) && bs != []
    ensures Claim(spec, IntervalAdvisory(id, o, c).affected) <==> FitsInterval(bs, o, c)
  {
    OpensOf(o, c);
    Alone(spec, bs);
    FirstIn(bs);
    hide *;
    ClaimExactlyWhen([spec], [bs], id, o, c);
    OneFits(bs, o, c);
  }

  lemma OneFits(bs: seq<Bound>, o: Osv.Event, c: Osv.Event)
    requires bs != [] && o.Event? && o.introduced.Some? && Osv.Closes(c)
    ensures (forall i | 0 <= i < |[bs]| :: [bs][i] != [] && FitsInterval([bs][i], o, c)) <==> FitsInterval(bs, o, c)
  {
    hide FitsInterval, Osv.Closes;
    assert [bs][0] == bs;
  }

  /** What a report on one declaration rests on. */
  lemma ReportOnInterval(name: string, spec: string, bs: seq<Bound>, id: string, o: Osv.Event, c: Osv.Event)
    requires ClosedInterval(o, c) && Declares(spec, bs)
    ensures o.Event? && o.introduced.Some? && Osv.Closes(c) && c.Event?
    ensures Decide(RangeDependency(name, spec), IntervalAdvisory(id, o, c)).Report?
       <==> (&& IntervalHolds(o, c, ReleaseKey(bs[0].nums))
             && (c.fixed.Some? ==> !AllBoundsHold(bs, KeyOf(c.fixed.value))))
  {
    OpensOf(o, c);
    DeclaresTranslates(spec, bs);
    Alone(spec, bs);
    FirstIn(bs);
    StripTrim("");
    hide *;
    FixOf(o, c);
    ReportAlone(name, spec, bs, IntervalAdvisory(id, o, c));
    KeyOfDotted(bs[0].nums);
    IntervalAdvisoryMeaning(id, o, c, Dotted(bs[0].nums));
  }

  /** For a declaration that opens with its lower bound and any advisory of one interval: given a
      report, the claim is true exactly when the bounds end before the interval does. */
  lemma OpenedReportExactlyWhen(name: string, spec: string, bs: seq<Bound>, id: string, o: Osv.Event, c: Osv.Event)
    requires ClosedInterval(o, c) && Declares(spec, bs) && OpensWithLowerBound(bs)
    requires Decide(RangeDependency(name, spec), IntervalAdvisory(id, o, c)).Report?
    ensures Osv.Closes(c)
    ensures Claim(spec, IntervalAdvisory(id, o, c).affected) <==> EndsInside(bs, c)
  {
    OpensOf(o, c);
    OpensNumbered(bs);
    var b := Behind(c);
    IntervalText(id, o, c);
    hide *;
    ReportOnInterval(name, spec, bs, id, o, c);
    EndOfInterval(o, c);
    OpenedRecordExactlyWhen(name, spec, bs, id, Osv.OneRange([o, c]), []);
    IntervalAdvisoryMeaning(id, o, c, b);
    BehindIsBehind(c);
    NotInside(o, c, KeyOf(b));
    InsideIsBelow(o, c, ReleaseKey(bs[0].nums));
    EndExcluded(bs, c, ReleaseKey(bs[0].nums));
    OneEnd(bs, o, c);
  }

  lemma NotInside(o: Osv.Event, c: Osv.Event, k: Key)
    requires o.Event? && o.introduced.Some? && Osv.Closes(c) && !BelowEnd(c, k)
    ensures !IntervalHolds(o, c, k)
  {
    hide BelowEnd, Osv.Closes, FromStart;
  }

  lemma InsideIsBelow(o: Osv.Event, c: Osv.Event, k: Key)
    requires o.Event? && o.introduced.Some? && Osv.Closes(c) && IntervalHolds(o, c, k)
    ensures BelowEnd(c, k)
  {
    hide BelowEnd, Osv.Closes, FromStart;
  }

  lemma OneEnd(bs: seq<Bound>, o: Osv.Event, c: Osv.Event)
    requires Osv.Closes(c) && Ends(Osv.OneRange([o, c]), []) == [Behind(c)]
    requires !Satisfies(Behind(c), Osv.AffectedText(Osv.OneRange([o, c]), []))
    ensures EndsAffected(bs, Osv.OneRange([o, c]), []) <==> !AllBoundsHold(bs, KeyOf(Behind(c)))
  {
    hide Osv.Closes, Ends, Osv.OneRange, Behind, Satisfies, Osv.AffectedText, AllBoundsHold, KeyOf;
    assert Behind(c) in [Behind(c)];
  }

  /** Reporting a range is sound: for an advisory with one fixed interval and a declaration of
      whatever form that opens with its lower bound, a report implies that every version the
      declaration permits is affected. */
  lemma ReportedRangeIsAffected(name: string, spec: string, bs: seq<Bound>, id: string, o: Osv.Event, c: Osv.Event)
    requires FixedInterval(o, c) && Declares(spec, bs) && OpensWithLowerBound(bs)
    requires Decide(RangeDependency(name, spec), IntervalAdvisory(id, o, c)).Report?
    ensures Claim(spec, IntervalAdvisory(id, o, c).affected)
  {
    FixedEvent(o, c);
    FixedKey(c);
    hide ClosedInterval, FixedInterval, Declares, Claim, IntervalAdvisory, Osv.Closes, Decide, KeyOf, IntervalHolds,
         AllBoundsHold, OpensWithLowerBound, Osv.ClosingKey;
    OpenedReportExactlyWhen(name, spec, bs, id, o, c);
    ReportOnInterval(name, spec, bs, id, o, c);
  }

  predicate HasLowerBound(d: Declaration)
    requires IsDeclaration(d)
  {
    match d
    case BracketOf(_, low, _, _) => low.Some?
    case ListOf(_, bs) => OpensWithLowerBound(bs)
    case _ => true
  }

  lemma LowerBoundOpens(d: Declaration)
    requires IsDeclaration(d) && HasLowerBound(d)
    ensures OpensWithLowerBound(DeclarationBounds(d))
  {
    var bs := DeclarationBounds(d);
    if !d.ListOf? {
      hide KeyLess, ReleaseKey;
      var first := ReleaseKey(bs[0].nums);
      KeyOrder(first, first, first);
      assert forall b | b in bs && !IsUpper(b) :: b == bs[0];
    }
  }

  /** The same for every declaration in one of the forms: `^`, `~`, `~>`, wildcards, brackets with
      a lower bound, and lists that open with theirs. */
  lemma ReportedDeclarationIsAffected(name: string, d: Declaration, id: string, o: Osv.Event, c: Osv.Event)
    requires FixedInterval(o, c) && IsDeclaration(d) && HasLowerBound(d)
    requires Decide(RangeDependency(name, DeclarationText(d)), IntervalAdvisory(id, o, c)).Report?
    ensures Claim(DeclarationText(d), IntervalAdvisory(id, o, c).affected)
  {
    hide *;
    DeclarationDeclares(d);
    LowerBoundOpens(d);
    ReportedRangeIsAffected(name, DeclarationText(d), DeclarationBounds(d), id, o, c);
  }

  // ----- declarations without a lower bound

  /** The interval reaches down to the least version. */
  predicate StartsAtLeast(o: Osv.Event)
    requires o.Event? && o.introduced.Some?
  {
    o.introduced.value == "0" || KeyOf(o.introduced.value) == KeyOf(LeastVersion())
  }

  lemma LeastMeetsUppers(bs: seq<Bound>)
    requires forall b | b in bs :: IsUpper(b)
    ensures AllBoundsHold(bs, KeyOf(LeastVersion()))
  {
    hide KeyOf, KeyLess, ReleaseKey, LeastVersion;
    var least := KeyOf(LeastVersion());
    forall b | b in bs ensures BoundHolds(b, least) {
      LeastBelowReleases(b.nums);
      KeyOrder(least, ReleaseKey(b.nums), least);
    }
  }

  lemma LeastIsInside(bs: seq<Bound>, o: Osv.Event, c: Osv.Event)
    requires o.Event? && o.introduced.Some? && Osv.Closes(c) && EndsInside(bs, c)
    requires forall b | b in bs :: IsUpper(b)
    ensures IntervalHolds(o, c, KeyOf(LeastVersion())) <==> StartsAtLeast(o)
  {
    assert c.Event?;
    hide KeyOf, KeyLess, ReleaseKey, LeastVersion, Osv.Closes, Osv.ClosingKey, BoundHolds;
    var least, end := KeyOf(LeastVersion()), Osv.ClosingKey(c);
    var b :| b in bs && (if c.lastAffected.Some? then KeyAtMost(ReleaseKey(b.nums), end) else !BoundHolds(b, end));
    LeastBelowReleases(b.nums);
    BelowFailing(b, least, end);
    LeastIsLeast(o.introduced.value);
    KeyOrder(KeyOf(o.introduced.value), least, least);
    KeyOrder(least, end, end);
  }

  lemma BelowFailing(b: Bound, least: Key, end: Key)
    requires IsUpper(b) && KeyLess(least, ReleaseKey(b.nums))
    requires KeyAtMost(ReleaseKey(b.nums), end) || !BoundHolds(b, end)
    ensures KeyLess(least, end)
  {
    hide KeyLess, ReleaseKey;
    var r := ReleaseKey(b.nums);
    KeyOrder(least, r, end);
    KeyOrder(r, end, end);
  }

  /** A declaration of upper bounds permits everything below: its claim is true exactly when the
      interval reaches down to the least version and the bounds end before it does. */
  lemma UpperListExactlyWhen(spec: string, bs: seq<Bound>, id: string, o: Osv.Event, c: Osv.Event)
    requires ClosedInterval(o, c) && TranslatesTo(spec, bs) && forall b | b in bs :: IsUpper(b)
    ensures o.Event? && o.introduced.Some? && Osv.Closes(c)
    ensures Claim(spec, IntervalAdvisory(id, o, c).affected) <==> StartsAtLeast(o) && EndsInside(bs, c)
  {
    hide ClosedInterval, TranslatesTo, Claim, IntervalAdvisory, Osv.Closes, KeyOf, IntervalHolds, AllBoundsHold,
         EndsInside, LeastVersion, StartsAtLeast;
    ClaimOnInterval(spec, bs, id, o, c);
    StartOfUppers(bs);
    LeastMeetsUppers(bs);
    if EndsInside(bs, c) { LeastIsInside(bs, o, c); }
  }

  /** The scanner takes the first number for the lowest version even if it is an upper bound. Such
      a report against a fixed interval is right exactly when the interval is open below. */
  lemma UpperReportExactlyWhen(name: string, spec: string, bs: seq<Bound>, id: string, o: Osv.Event, c: Osv.Event)
    requires FixedInterval(o, c) && Declares(spec, bs) && forall b | b in bs :: IsUpper(b)
    requires Decide(RangeDependency(name, spec), IntervalAdvisory(id, o, c)).Report?
    ensures o.Event? && o.introduced.Some?
    ensures Claim(spec, IntervalAdvisory(id, o, c).affected) <==> StartsAtLeast(o)
  {
    FixedEvent(o, c);
    FixedKey(c);
    hide ClosedInterval, FixedInterval, TranslatesTo, FirstNumberIs, Claim, IntervalAdvisory, Osv.Closes, Decide, KeyOf,
         IntervalHolds, AllBoundsHold, Osv.ClosingKey, StartsAtLeast;
    UpperListExactlyWhen(spec, bs, id, o, c);
    ReportOnInterval(name, spec, bs, id, o, c);
  }

  /** `<n` with n affected: it is reported, and everything below the interval is permitted and not
      affected. */
  lemma UpperBoundMisleads(name: string, nums: seq<nat>, id: string, o: Osv.Event, c: Osv.Event, v: string)
    requires FixedInterval(o, c) && nums != []
    requires o.Event? && o.introduced.Some? && Osv.Closes(c) && IntervalHolds(o, c, ReleaseKey(nums))
    requires o.introduced.value != "0" && KeyLess(KeyOf(v), KeyOf(o.introduced.value))
    ensures var spec, advisory := Printed([Bound(Lt, nums)]), IntervalAdvisory(id, o, c);
            && Decide(RangeDependency(name, spec), advisory).Report?
            && Admitted(spec, v) && !Satisfies(v, advisory.affected)
  {
    var bs := [Bound(Lt, nums)];
    var spec := Printed(bs);
    hide *;
    FixedEvent(o, c);
    FixedKey(c);
    BelowEndOf(c, ReleaseKey(nums), o);
    OneUpper(nums, KeyOf(v), KeyOf(o.introduced.value), KeyOf(c.fixed.value));
    BelowStart(o, c, KeyOf(v));
    PrintedTranslates(bs);
    DeclaresTranslates(spec, bs);
    ReportOnInterval(name, spec, bs, id, o, c);
    TranslationAdmits(spec, bs, v);
    IntervalAdvisoryMeaning(id, o, c, v);
  }

  lemma BelowEndOf(c: Osv.Event, k: Key, o: Osv.Event)
    requires o.Event? && o.introduced.Some? && Osv.Closes(c) && IntervalHolds(o, c, k)
    requires c.fixed.Some? && c.lastAffected.None? && Osv.ClosingKey(c) == KeyOf(c.fixed.value)
    ensures KeyLess(k, KeyOf(c.fixed.value))
    ensures o.introduced.value != "0" ==> KeyAtMost(KeyOf(o.introduced.value), k)
  {
    hide KeyLess, KeyOf, Osv.Closes, Osv.ClosingKey;
  }

  lemma BelowStart(o: Osv.Event, c: Osv.Event, k: Key)
    requires o.Event? && o.introduced.Some? && Osv.Closes(c)
    requires o.introduced.value != "0" && KeyLess(k, KeyOf(o.introduced.value))
    ensures !IntervalHolds(o, c, k)
  {
    hide KeyLess, KeyOf, Osv.Closes, Osv.ClosingKey;
  }

  lemma OneUpper(nums: seq<nat>, k: Key, start: Key, end: Key)
    requires KeyLess(ReleaseKey(nums), end) && KeyLess(k, start) && KeyAtMost(start, ReleaseKey(nums))
    ensures AllBoundsHold([Bound(Lt, nums)], k) && !AllBoundsHold([Bound(Lt, nums)], end)
    ensures [Bound(Lt, nums)][0].nums == nums
  {
    hide KeyLess, ReleaseKey;
    var bs := [Bound(Lt, nums)];
    KeyOrder(ReleaseKey(nums), end, end);
    KeyOrder(k, start, ReleaseKey(nums));
    assert bs[0] in bs && !BoundHolds(bs[0], end);
  }

  function FixedAt(cs: seq<nat>): Osv.Event { Osv.Event(None, Some(Dotted(cs)), None, None) }

  /** From one release to a later one. */
  lemma ReleaseInterval(low: seq<nat>, high: seq<nat>)
    requires low != [] && high != [] && KeyLess(ReleaseKey(low), ReleaseKey(high)) && Dotted(low) != "0"
    ensures var o, c := Osv.Introduced(Dotted(low)), FixedAt(high);
            && FixedInterval(o, c) && o.introduced.Some? && Osv.Closes(c)
            && forall k :: IntervalHolds(o, c, k) <==> InRange(k, ReleaseKey(low), ReleaseKey(high))
  {
    var o, c := Osv.Introduced(Dotted(low)), FixedAt(high);
    DottedWord(low);
    DottedWord(high);
    KeyOfDotted(low);
    KeyOfDotted(high);
    assert VersionLess(Dotted(low), Dotted(high));
    FixedAtIs(Dotted(high), high);
    IntroducedIs(Dotted(low));
    hide *;
    Osv.FixedFrom(Dotted(low), Dotted(high));
    ReleaseHolds(low, high);
    IsFixedInterval(o, c);
  }

  lemma IntroducedIs(w: string)
    ensures var o := Osv.Introduced(w); o.Event? && o.introduced == Some(w)
  {
  }

  lemma FixedAtIs(d: string, cs: seq<nat>)
    requires Dotted(cs) == d
    ensures FixedAt(cs) == Osv.Event(None, Some(d), None, None)
  {
  }

  lemma IsFixedInterval(o: Osv.Event, c: Osv.Event)
    requires Osv.Alternating([o, c], None) && Osv.Closes(c) && c.Event? && c.fixed.Some?
    ensures FixedInterval(o, c)
  {
    hide Osv.Alternating, Osv.Closes;
  }

  lemma ReleaseHolds(low: seq<nat>, high: seq<nat>)
    requires Dotted(low) != "0" && Osv.Closes(FixedAt(high))
    requires KeyOf(Dotted(low)) == ReleaseKey(low) && KeyOf(Dotted(high)) == ReleaseKey(high)
    ensures var o, c := Osv.Introduced(Dotted(low)), FixedAt(high);
            forall k :: IntervalHolds(o, c, k) <==> InRange(k, ReleaseKey(low), ReleaseKey(high))
  {
    FixedKey(FixedAt(high));
    hide KeyOf, KeyLess, ReleaseKey, Dotted, Osv.Closes, Osv.ClosingKey;
  }

  /** `<3.0` against everything from 1.0 up to 4.0: 0.5 is permitted and not affected. */
  lemma BelowThreeMisleads(name: string, id: string)
    ensures var spec, advisory := Printed([Bound(Lt, [3, 0])]),
                IntervalAdvisory(id, Osv.Introduced(Dotted([1, 0])), FixedAt([4, 0]));
            && Decide(RangeDependency(name, spec), advisory).Report?
            && Admitted(spec, Dotted([0, 5])) && !Satisfies(Dotted([0, 5]), advisory.affected)
  {
    BelowThreeKeys();
    hide *;
    ReleaseInterval([1, 0], [4, 0]);
    IntroducedIs(Dotted([1, 0]));
    UpperBoundMisleads(name, [3, 0], id, Osv.Introduced(Dotted([1, 0])), FixedAt([4, 0]), Dotted([0, 5]));
  }

  lemma BelowThreeKeys()
    ensures KeyLess(KeyOf(Dotted([0, 5])), KeyOf(Dotted([1, 0]))) && Dotted([1, 0]) != "0"
    ensures KeyLess(ReleaseKey([1, 0]), ReleaseKey([4, 0]))
    ensures InRange(ReleaseKey([3, 0]), ReleaseKey([1, 0]), ReleaseKey([4, 0]))
  {
    hide KeyOf, Dotted;
    KeyOfDotted([0, 5]);
    KeyOfDotted([1, 0]);
    KeyOfDotted([0]);
    Osv.ZeroDotted();
    assert ReleaseKey([1, 0]) != ReleaseKey([0]);
  }

  // ----- alternatives that mislead

  lemma BelowRelease(high: seq<nat>)
    requires high != []
    ensures var o, c := Osv.Introduced("0"), FixedAt(high);
            && FixedInterval(o, c) && o.introduced.Some? && Osv.Closes(c) && c.fixed.Some?
            && KeyOf(c.fixed.value) == ReleaseKey(high)
            && forall k :: IntervalHolds(o, c, k) <==> KeyLess(k, ReleaseKey(high))
  {
    var o, c := Osv.Introduced("0"), FixedAt(high);
    DottedWord(high);
    KeyOfDotted(high);
    FixedAtIs(Dotted(high), high);
    IntroducedIs("0");
    hide *;
    Osv.FixedFromZero(Dotted(high));
    IsFixedInterval(o, c);
    BelowHolds(high);
  }

  lemma BelowHolds(high: seq<nat>)
    requires Osv.Closes(FixedAt(high)) && KeyOf(Dotted(high)) == ReleaseKey(high)
    ensures forall k :: IntervalHolds(Osv.Introduced("0"), FixedAt(high), k) <==> KeyLess(k, ReleaseKey(high))
  {
    FixedKey(FixedAt(high));
    hide KeyOf, KeyLess, ReleaseKey, Dotted, Osv.Closes, Osv.ClosingKey;
  }

  lemma PrintedAlternatives(a: seq<Bound>, b: seq<Bound>)
    requires Numbered(a) && Numbered(b)
    ensures AreAlternatives([Printed(a), Printed(b)], [a, b]) && FirstNumberIs(Printed(a), a[0].nums)
  {
    hide Printed, IsSpace, NoBar, NormalizeSpec, FirstNumberIs;
    PrintedTranslates(a);
    PrintedTranslates(b);
    if Printed(a) == "" || Printed(b) == "" { EmptyIsUnknown(); }
    JoinTwo("||", Printed(a), Printed(b));
    var spec := Join("||", [Printed(a), Printed(b)]);
    assert spec[0] == Printed(a)[0] && spec[|spec| - 1] == Printed(b)[|Printed(b)| - 1];
  }

  /** `>=1.0, <1.5||>=3.0` against everything before 2.0: it is reported as permitting only affected
      versions, and it permits a version that is not. */
  lemma AlternativesCanMislead(name: string, id: string)
    ensures var spec := Join("||", [Printed([Bound(Ge, [1, 0]), Bound(Lt, [1, 5])]), Printed([Bound(Ge, [3, 0])])]);
            var advisory := IntervalAdvisory(id, Osv.Introduced("0"), FixedAt([2, 0]));
            && Decide(RangeDependency(name, spec), advisory).Report?
            && !Claim(spec, advisory.affected)
  {
    var a, b := [Bound(Ge, [1, 0]), Bound(Lt, [1, 5])], [Bound(Ge, [3, 0])];
    var parts, lists := [Printed(a), Printed(b)], [a, b];
    var o, c := Osv.Introduced("0"), FixedAt([2, 0]);
    var text := IntervalAdvisory(id, o, c).affected;
    MisleadingBounds(a, b);
    BelowRelease([2, 0]);
    PrintedAlternatives(a, b);
    hide *;
    FixedEvent(o, c);
    ReleaseAffected(id, o, c, [1, 0]);
    ReleaseAffected(id, o, c, [3, 0]);
    FixOf(o, c);
    IntervalAdvisoryMeaning(id, o, c, "");
    RangeReportExactlyWhen(name, parts, lists, IntervalAdvisory(id, o, c));
    NoneOfTwo(a, b, ReleaseKey([2, 0]));
    ReportIsSoundExactlyWhen(name, parts, lists, id, o, c);
    PartTranslates(parts, lists, 1);
    ReleaseAdmitted(parts[1], lists[1], [3, 0]);
    StartTested(parts[1], lists[1], text);
  }

  lemma NoneOfTwo(a: seq<Bound>, b: seq<Bound>, k: Key)
    requires !AllBoundsHold(a, k) && !AllBoundsHold(b, k)
    ensures NoneHolds([a, b], k)
  {
    hide AllBoundsHold;
  }

  lemma ReleaseAffected(id: string, o: Osv.Event, c: Osv.Event, nums: seq<nat>)
    requires ClosedInterval(o, c) && nums != []
    ensures o.Event? && o.introduced.Some? && Osv.Closes(c)
    ensures Satisfies(Dotted(nums), IntervalAdvisory(id, o, c).affected) == IntervalHolds(o, c, ReleaseKey(nums))
  {
    hide *;
    KeyOfDotted(nums);
    IntervalAdvisoryMeaning(id, o, c, Dotted(nums));
  }

  lemma ReleaseAdmitted(spec: string, bs: seq<Bound>, nums: seq<nat>)
    requires TranslatesTo(spec, bs) && nums != []
    ensures Admitted(spec, Dotted(nums)) == AllBoundsHold(bs, ReleaseKey(nums))
  {
    hide *;
    KeyOfDotted(nums);
    TranslationAdmits(spec, bs, Dotted(nums));
  }

  lemma StartTested(spec: string, bs: seq<Bound>, affected: string)
    requires bs != [] && Admitted(spec, Start(bs))
    ensures StartIsAffected(spec, bs, affected) <==> Satisfies(Start(bs), affected)
  {
    hide Admitted, Satisfies, Start;
  }

  lemma MisleadingBounds(a: seq<Bound>, b: seq<Bound>)
    requires a == [Bound(Ge, [1, 0]), Bound(Lt, [1, 5])] && b == [Bound(Ge, [3, 0])]
    ensures Numbered(a) && Numbered(b) && Start(b) == Dotted([3, 0]) && AllBoundsHold(b, ReleaseKey([3, 0]))
    ensures !AllBoundsHold(a, ReleaseKey([2, 0])) && !AllBoundsHold(b, ReleaseKey([2, 0]))
    ensures KeyLess(ReleaseKey([1, 0]), ReleaseKey([2, 0])) && !KeyLess(ReleaseKey([3, 0]), ReleaseKey([2, 0]))
  {
    hide Dotted;
    assert a[1] in a && !BoundHolds(a[1], ReleaseKey([2, 0]));
    assert b[0] in b && !BoundHolds(b[0], ReleaseKey([2, 0]));
    KeyOrder(ReleaseKey([3, 0]), ReleaseKey([3, 0]), ReleaseKey([3, 0]));
  }

  // ----- advisories without a fix

  /** `>=n` against an interval that ends with `last_affected`: there is no fix to exclude, so it is
      reported as soon as its number is affected, and its claim is never true. */
  lemma NoFixMisleads(name: string, nums: seq<nat>, id: string, o: Osv.Event, c: Osv.Event)
    requires ClosedInterval(o, c) && c.Event? && c.lastAffected.Some? && nums != []
    ensures var spec, advisory := Printed([Bound(Ge, nums)]), IntervalAdvisory(id, o, c);
            && (Decide(RangeDependency(name, spec), advisory).Report? <==> Satisfies(Dotted(nums), advisory.affected))
            && !Claim(spec, advisory.affected)
  {
    var bs := [Bound(Ge, nums)];
    OpensOf(o, c);
    OpenEnded(nums, c);
    KeyOfDotted(nums);
    hide ClosedInterval, TranslatesTo, FirstNumberIs, IntervalAdvisory, Osv.Closes, Decide, KeyOf, Printed, Satisfies,
         AllBoundsHold, IntervalHolds, Claim, EndsInside, ReleaseKey, Dotted;
    PrintedTranslates(bs);
    ReportOnInterval(name, Printed(bs), bs, id, o, c);
    ClaimOnInterval(Printed(bs), bs, id, o, c);
    IntervalAdvisoryMeaning(id, o, c, Dotted(nums));
  }

  lemma OpenEnded(nums: seq<nat>, c: Osv.Event)
    requires nums != [] && Osv.Closes(c) && c.Event?
    ensures var bs := [Bound(Ge, nums)];
            && Start(bs) == Dotted(nums) && AllBoundsHold(bs, KeyOf(Dotted(nums)))
            && (c.lastAffected.Some? ==> c.fixed.None? && !EndsInside(bs, c))
  {
    KeyOfDotted(nums);
    hide KeyOf, KeyLess, ReleaseKey, Dotted;
    KeyOrder(ReleaseKey(nums), ReleaseKey(nums), ReleaseKey(nums));
  }

  // ----- records of two intervals

  predicate TwoIntervals(o1: Osv.Event, c1: Osv.Event, o2: Osv.Event, c2: Osv.Event) {
    && Osv.Alternating([o1, c1, o2, c2], None) && Osv.Closes(c1) && Osv.Closes(c2)
    && Osv.Opens(o1, None) && Osv.Opens(o2, Some(Osv.ClosingKey(c1))) && Osv.NonEmptyInterval(o2, c2)
  }

  function TwoIntervalAdvisory(id: string, o1: Osv.Event, c1: Osv.Event, o2: Osv.Event, c2: Osv.Event): Advisory {
    RecordAdvisory(id, Osv.OneRange([o1, c1, o2, c2]), [])
  }

  /** The second interval starts at or above the end of the first, and is not empty. */
  lemma TwoIntervalsFacts(o1: Osv.Event, c1: Osv.Event, o2: Osv.Event, c2: Osv.Event)
    requires TwoIntervals(o1, c1, o2, c2)
    ensures o1.Event? && o1.introduced.Some? && o2.Event? && o2.introduced.Some?
    ensures c1.Event? && c1.introduced.None? && c2.Event? && Osv.Closes(c1) && Osv.Closes(c2)
    ensures o2.introduced.value != "0" && KeyAtMost(Osv.ClosingKey(c1), KeyOf(o2.introduced.value))
    ensures BelowEnd(c2, KeyOf(o2.introduced.value))
  {
    hide VersionWord, Osv.Alternating, KeyOf, KeyLess;
  }

  lemma TwoIntervalsTail(o1: Osv.Event, c1: Osv.Event, o2: Osv.Event, c2: Osv.Event, v: string)
    requires TwoIntervals(o1, c1, o2, c2)
    ensures o1.Event? && o1.introduced.Some? && o2.Event? && o2.introduced.Some?
    ensures Satisfies(v, Osv.AffectedText(Osv.OneRange([o1, c1, o2, c2]), []))
         == (Osv.InInterval(o1, c1, v) || Osv.InInterval(o2, c2, v))
  {
    hide Osv.Alternating, Osv.Opens, Osv.Closes, Osv.ClosingKey;
    TwoIntervalsFacts(o1, c1, o2, c2);
    var events := [o1, c1, o2, c2];
    assert o1.introduced.Some? && o2.introduced.Some? && c1.introduced.None?;
    assert events == [o1, c1] + [o2, c2];
    hide *;
    assert [o2, c2] + [] == [o2, c2];
    Osv.IntervalCompiled(o1, c1, None, v, [o2, c2]);
    Osv.IntervalCompiled(o2, c2, Some(Osv.ClosingKey(c1)), v, []);
    Osv.NoEvents(v);
    Osv.IntervalUnfold(o1, c1, [o2, c2]);
    Osv.OneRangeMeaning(events, v);
  }

  lemma FirstOfTwoFixes(o1: Osv.Event, c1: Osv.Event, o2: Osv.Event, c2: Osv.Event)
    requires TwoIntervals(o1, c1, o2, c2)
    ensures c1.Event? && c2.Event?
    ensures Osv.FirstFixed(Osv.OneRange([o1, c1, o2, c2]))
         == if c1.fixed.Some? then c1.fixed.value else if c2.fixed.Some? then c2.fixed.value else ""
  {
    hide *;
    TwoIntervalsFacts(o1, c1, o2, c2);
    ClosingFix(c1);
    ClosingFix(c2);
    OpeningFix(o1, c1, o2, c2);
    FixStep(c2, []);
    FixStep(o2, [c2]);
    FixStep(c1, [o2, c2]);
    FixStep(o1, [c1, o2, c2]);
    assert [c2] + [] == [c2] && [o2] + [c2] == [o2, c2] && [c1] + [o2, c2] == [c1, o2, c2];
    assert [o1] + [c1, o2, c2] == [o1, c1, o2, c2];
    FixOfRange([o1, c1, o2, c2]);
  }

  lemma FixStep(e: Osv.Event, rest: seq<Osv.Event>)
    requires e.Event?
    ensures Osv.FirstFixedEvent([e] + rest) == if Osv.Truthy(e.fixed) then e.fixed else Osv.FirstFixedEvent(rest)
    ensures Osv.FirstFixedEvent([]) == None
  {
    hide Osv.Truthy;
    assert ([e] + rest)[1..] == rest;
  }

  lemma FixOfRange(events: seq<Osv.Event>)
    ensures Osv.FirstFixed(Osv.OneRange(events))
         == if Osv.FirstFixedEvent(events).Some? then Osv.FirstFixedEvent(events).value else ""
  {
    hide Osv.FirstFixedEvent;
    assert Osv.OneRange(events)[1..] == [];
  }

  lemma ClosingFix(c: Osv.Event)
    requires Osv.Closes(c) && c.Event?
    ensures Osv.Truthy(c.fixed) == c.fixed.Some?
  {
    if c.fixed.Some? { FixIsWord(c); }
    hide Osv.Closes;
  }

  lemma OpeningFix(o1: Osv.Event, c1: Osv.Event, o2: Osv.Event, c2: Osv.Event)
    requires TwoIntervals(o1, c1, o2, c2)
    ensures o1.Event? && o2.Event? && !Osv.Truthy(o1.fixed) && !Osv.Truthy(o2.fixed)
  {
    hide Osv.Closes, Osv.Alternating, Osv.ClosingKey, Osv.AtOrAbove, Osv.NonEmptyInterval;
  }

  /** One of the two intervals holds. */
  predicate EitherHolds(o1: Osv.Event, c1: Osv.Event, o2: Osv.Event, c2: Osv.Event, k: Key)
    requires o1.Event? && o1.introduced.Some? && Osv.Closes(c1) && o2.Event? && o2.introduced.Some? && Osv.Closes(c2)
  {
    IntervalHolds(o1, c1, k) || IntervalHolds(o2, c2, k)
  }

  /** The stored text admits both intervals; of the fixes only the first is stored. */
  lemma TwoIntervalAdvisoryMeaning(id: string, o1: Osv.Event, c1: Osv.Event, o2: Osv.Event, c2: Osv.Event, v: string)
    requires TwoIntervals(o1, c1, o2, c2)
    ensures o1.Event? && o1.introduced.Some? && o2.Event? && o2.introduced.Some?
    ensures c1.Event? && c2.Event? && Osv.Closes(c1) && Osv.Closes(c2)
    ensures Satisfies(v, TwoIntervalAdvisory(id, o1, c1, o2, c2).affected) == EitherHolds(o1, c1, o2, c2, KeyOf(v))
    ensures TwoIntervalAdvisory(id, o1, c1, o2, c2).fixedIn
         == if c1.fixed.Some? then c1.fixed.value else if c2.fixed.Some? then c2.fixed.value else ""
    ensures TwoIntervalAdvisory(id, o1, c1, o2, c2).affected
         == Osv.AffectedText(Osv.OneRange([o1, c1, o2, c2]), [])
  {
    TwoIntervalsFacts(o1, c1, o2, c2);
    hide TwoIntervals, Osv.Closes, Satisfies, KeyOf, IntervalHolds, Osv.InInterval, Osv.AffectedText, Osv.FirstFixed;
    TwoIntervalsTail(o1, c1, o2, c2, v);
    FirstOfTwoFixes(o1, c1, o2, c2);
    IntervalOnKeys(o1, c1, v);
    IntervalOnKeys(o2, c2, v);
    RecordText(id, Osv.OneRange([o1, c1, o2, c2]), []);
  }

  lemma EndsOfTwo(o1: Osv.Event, c1: Osv.Event, o2: Osv.Event, c2: Osv.Event)
    requires TwoIntervals(o1, c1, o2, c2)
    ensures Osv.WellFormed(Osv.OneRange([o1, c1, o2, c2]), []) && Osv.Closes(c1) && Osv.Closes(c2)
    ensures Ends(Osv.OneRange([o1, c1, o2, c2]), []) == [Behind(c1), Behind(c2)]
  {
    var events := [o1, c1, o2, c2];
    EndsOfRange(events);
    hide Osv.Alternating, Osv.WellFormed, Ends, Behind, Osv.Closes, Osv.Opens, Osv.NonEmptyInterval;
    Osv.OneRangeWellFormed(events);
    assert events[2..] == [o2, c2] && [o2, c2][2..] == [];
    assert EventStops([o2, c2]) == [Behind(c2)] + [];
  }

  /** Behind the second interval nothing is affected, and behind the first only what the second
      holds. */
  lemma BehindTwo(o1: Osv.Event, c1: Osv.Event, o2: Osv.Event, c2: Osv.Event)
    requires TwoIntervals(o1, c1, o2, c2)
    ensures o1.Event? && o1.introduced.Some? && o2.Event? && o2.introduced.Some? && Osv.Closes(c1) && Osv.Closes(c2)
    ensures EitherHolds(o1, c1, o2, c2, KeyOf(Behind(c1))) == IntervalHolds(o2, c2, KeyOf(Behind(c1)))
    ensures !EitherHolds(o1, c1, o2, c2, KeyOf(Behind(c2)))
  {
    hide *;
    TwoIntervalsFacts(o1, c1, o2, c2);
    BehindIsBehind(c1);
    BehindIsBehind(c2);
    BelowNoMore(c1, KeyOf(o2.introduced.value), KeyOf(Behind(c2)));
    NotInside(o1, c1, KeyOf(Behind(c1)));
    NotInside(o1, c1, KeyOf(Behind(c2)));
    NotInside(o2, c2, KeyOf(Behind(c2)));
    EitherIs(o1, c1, o2, c2, KeyOf(Behind(c1)));
    EitherIs(o1, c1, o2, c2, KeyOf(Behind(c2)));
  }

  lemma BelowNoMore(c: Osv.Event, start: Key, k: Key)
    requires Osv.Closes(c) && KeyAtMost(Osv.ClosingKey(c), start) && KeyLess(start, k)
    ensures !BelowEnd(c, k)
  {
    assert c.Event?;
    hide Osv.Closes, Osv.ClosingKey, KeyLess;
    KeyOrder(Osv.ClosingKey(c), start, k);
    KeyOrder(Osv.ClosingKey(c), k, k);
  }

  /** The bounds exclude the least version behind the second interval, and the one behind the first
      unless the second goes on there. */
  predicate EndsEither(bs: seq<Bound>, c1: Osv.Event, o2: Osv.Event, c2: Osv.Event)
    requires Osv.Closes(c1) && o2.Event? && o2.introduced.Some? && Osv.Closes(c2)
  {
    && (AllBoundsHold(bs, KeyOf(Behind(c1))) ==> IntervalHolds(o2, c2, KeyOf(Behind(c1))))
    && !AllBoundsHold(bs, KeyOf(Behind(c2)))
  }

  lemma EndsOfTwoAffected(bs: seq<Bound>, o1: Osv.Event, c1: Osv.Event, o2: Osv.Event, c2: Osv.Event)
    requires TwoIntervals(o1, c1, o2, c2)
    ensures Osv.Closes(c1) && o2.Event? && o2.introduced.Some? && Osv.Closes(c2)
    ensures EndsAffected(bs, Osv.OneRange([o1, c1, o2, c2]), []) <==> EndsEither(bs, c1, o2, c2)
  {
    var b1, b2 := Behind(c1), Behind(c2);
    TwoIntervalsFacts(o1, c1, o2, c2);
    hide *;
    BehindTwo(o1, c1, o2, c2);
    EndsOfTwo(o1, c1, o2, c2);
    TwoIntervalAdvisoryMeaning("", o1, c1, o2, c2, b1);
    TwoIntervalAdvisoryMeaning("", o1, c1, o2, c2, b2);
    TwoEnds(bs, Osv.OneRange([o1, c1, o2, c2]), b1, b2);
    EndsEitherIs(bs, c1, o2, c2);
  }

  lemma TwoEnds(bs: seq<Bound>, ranges: seq<Osv.Range>, b1: string, b2: string)
    requires Ends(ranges, []) == [b1, b2]
    ensures EndsAffected(bs, ranges, [])
       <==> (&& (AllBoundsHold(bs, KeyOf(b1)) ==> Satisfies(b1, Osv.AffectedText(ranges, [])))
             && (AllBoundsHold(bs, KeyOf(b2)) ==> Satisfies(b2, Osv.AffectedText(ranges, []))))
  {
    hide KeyOf, Satisfies, Ends, Osv.AffectedText, AllBoundsHold;
    assert b1 in [b1, b2] && b2 in [b1, b2];
  }

  lemma EndsEitherIs(bs: seq<Bound>, c1: Osv.Event, o2: Osv.Event, c2: Osv.Event)
    requires Osv.Closes(c1) && o2.Event? && o2.introduced.Some? && Osv.Closes(c2)
    ensures EndsEither(bs, c1, o2, c2)
       <==> (&& (AllBoundsHold(bs, KeyOf(Behind(c1))) ==> IntervalHolds(o2, c2, KeyOf(Behind(c1))))
             && !AllBoundsHold(bs, KeyOf(Behind(c2))))
  {
    hide KeyOf, Behind, AllBoundsHold, IntervalHolds, Osv.Closes;
  }

  /** The least version the bounds admit, if there is one, lies in one of the intervals, and the
      bounds end with them. */
  predicate FitsEither(bs: seq<Bound>, o1: Osv.Event, c1: Osv.Event, o2: Osv.Event, c2: Osv.Event)
    requires bs != []
    requires o1.Event? && o1.introduced.Some? && Osv.Closes(c1) && o2.Event? && o2.introduced.Some? && Osv.Closes(c2)
  {
    && (AllBoundsHold(bs, KeyOf(Start(bs))) ==> EitherHolds(o1, c1, o2, c2, KeyOf(Start(bs))))
    && EndsEither(bs, c1, o2, c2)
  }

  lemma FitsEitherExactlyWhen(bs: seq<Bound>, o1: Osv.Event, c1: Osv.Event, o2: Osv.Event, c2: Osv.Event)
    requires TwoIntervals(o1, c1, o2, c2) && bs != []
    ensures o1.Event? && o1.introduced.Some? && o2.Event? && o2.introduced.Some? && Osv.Closes(c1) && Osv.Closes(c2)
    ensures FitsRecord(bs, Osv.OneRange([o1, c1, o2, c2]), []) <==> FitsEither(bs, o1, c1, o2, c2)
  {
    TwoIntervalAdvisoryMeaning("", o1, c1, o2, c2, Start(bs));
    EndsOfTwoAffected(bs, o1, c1, o2, c2);
    hide TwoIntervals, Osv.Closes, KeyOf, EitherHolds, EndsEither, EndsAffected, Satisfies, Osv.OneRange,
         Osv.AffectedText, AllBoundsHold, Start;
  }

  /** For an advisory of two intervals, however the first one ends: every permitted version is
      affected exactly when every alternative fits them. */
  lemma TwoIntervalsExactlyWhen(parts: seq<string>, lists: seq<seq<Bound>>, id: string, o1: Osv.Event, c1: Osv.Event,
          o2: Osv.Event, c2: Osv.Event)
    requires TwoIntervals(o1, c1, o2, c2) && AreAlternatives(parts, lists)
    ensures o1.Event? && o1.introduced.Some? && o2.Event? && o2.introduced.Some? && Osv.Closes(c1) && Osv.Closes(c2)
    ensures forall i | 0 <= i < |lists| :: lists[i] != []
    ensures Claim(Join("||", parts), TwoIntervalAdvisory(id, o1, c1, o2, c2).affected)
       <==> forall i | 0 <= i < |lists| :: FitsEither(lists[i], o1, c1, o2, c2)
  {
    ListsOf(parts, lists);
    NumberedLists(lists);
    var ranges := Osv.OneRange([o1, c1, o2, c2]);
    hide *;
    EndsOfTwo(o1, c1, o2, c2);
    TwoIntervalAdvisoryMeaning(id, o1, c1, o2, c2, "");
    RecordClaimExactlyWhen(parts, lists, ranges, []);
    forall i | 0 <= i < |lists| ensures FitsRecord(lists[i], ranges, []) == FitsEither(lists[i], o1, c1, o2, c2) {
      FitsEitherExactlyWhen(lists[i], o1, c1, o2, c2);
    }
  }

  /** For a declaration that opens with its lower bound: given a report, the claim is true exactly
      when the bounds end with the intervals. */
  lemma OpenedTwoIntervalsExactlyWhen(name: string, spec: string, bs: seq<Bound>, id: string, o1: Osv.Event,
          c1: Osv.Event, o2: Osv.Event, c2: Osv.Event)
    requires TwoIntervals(o1, c1, o2, c2) && Declares(spec, bs) && OpensWithLowerBound(bs)
    requires Decide(RangeDependency(name, spec), TwoIntervalAdvisory(id, o1, c1, o2, c2)).Report?
    ensures Osv.Closes(c1) && o2.Event? && o2.introduced.Some? && Osv.Closes(c2)
    ensures Claim(spec, TwoIntervalAdvisory(id, o1, c1, o2, c2).affected) <==> EndsEither(bs, c1, o2, c2)
  {
    TwoIntervalText(id, o1, c1, o2, c2);
    hide *;
    EndsOfTwo(o1, c1, o2, c2);
    TwoIntervalAdvisoryMeaning(id, o1, c1, o2, c2, "");
    OpenedRecordExactlyWhen(name, spec, bs, id, Osv.OneRange([o1, c1, o2, c2]), []);
    EndsOfTwoAffected(bs, o1, c1, o2, c2);
  }

  lemma TwoIntervalText(id: string, o1: Osv.Event, c1: Osv.Event, o2: Osv.Event, c2: Osv.Event)
    ensures TwoIntervalAdvisory(id, o1, c1, o2, c2) == RecordAdvisory(id, Osv.OneRange([o1, c1, o2, c2]), [])
  {
    hide RecordAdvisory;
  }

  /** `>=n` with n in the second interval and above the first fix is reported as excluding the
      patched release, and its claim is not true. */
  lemma FirstFixMisleads(name: string, nums: seq<nat>, id: string, o1: Osv.Event, c1: Osv.Event, o2: Osv.Event,
          c2: Osv.Event)
    requires TwoIntervals(o1, c1, o2, c2) && nums != [] && c1.Event? && c1.fixed.Some?
    requires Satisfies(Dotted(nums), TwoIntervalAdvisory(id, o1, c1, o2, c2).affected)
    requires KeyLess(KeyOf(c1.fixed.value), ReleaseKey(nums))
    ensures var spec, advisory := Printed([Bound(Ge, nums)]), TwoIntervalAdvisory(id, o1, c1, o2, c2);
            Decide(RangeDependency(name, spec), advisory).Report? && !Claim(spec, advisory.affected)
  {
    var bs := [Bound(Ge, nums)];
    var spec, advisory := Printed(bs), TwoIntervalAdvisory(id, o1, c1, o2, c2);
    TwoIntervalsFacts(o1, c1, o2, c2);
    OpenEndedAbove(nums, KeyOf(c1.fixed.value));
    PrintedTranslates(bs);
    FixIsWord(c1);
    hide *;
    TwoIntervalAdvisoryMeaning(id, o1, c1, o2, c2, Dotted(nums));
    KeyOfDotted(nums);
    ReportAlone(name, spec, bs, advisory);
    OpenedTwoIntervalsExactlyWhen(name, spec, bs, id, o1, c1, o2, c2);
    AboveFix(o1, c1, o2, c2, ReleaseKey(nums));
    NeverEnds(nums, c1, o2, c2);
  }

  lemma FixIsWord(c: Osv.Event)
    requires Osv.Closes(c) && c.Event? && c.fixed.Some?
    ensures Strip(c.fixed.value) == c.fixed.value != ""
  {
    FixedWord(c);
    hide Osv.Closes, VersionWord;
    Osv.WordStrip(c.fixed.value);
  }

  lemma FixedWord(c: Osv.Event)
    requires Osv.Closes(c) && c.Event? && c.fixed.Some?
    ensures VersionWord(c.fixed.value)
  {
    hide VersionWord;
  }

  lemma OpenEndedAbove(nums: seq<nat>, k: Key)
    requires nums != [] && KeyLess(k, ReleaseKey(nums))
    ensures var bs := [Bound(Ge, nums)];
            && Numbered(bs) && OpensWithLowerBound(bs) && bs[0].nums == nums && !AllBoundsHold(bs, k)
            && bs != [] && forall b | b in bs :: b.nums != []
  {
    hide KeyLess, ReleaseKey;
    KeyOrder(ReleaseKey(nums), ReleaseKey(nums), k);
    var bs := [Bound(Ge, nums)];
    assert bs[0] in bs && !BoundHolds(bs[0], k);
  }

  /** What is affected above the first fix lies in the second interval. */
  lemma AboveFix(o1: Osv.Event, c1: Osv.Event, o2: Osv.Event, c2: Osv.Event, k: Key)
    requires o1.Event? && o1.introduced.Some? && Osv.Closes(c1) && o2.Event? && o2.introduced.Some? && Osv.Closes(c2)
    requires EitherHolds(o1, c1, o2, c2, k) && c1.fixed.Some? && KeyLess(KeyOf(c1.fixed.value), k)
    ensures BelowEnd(c2, k)
  {
    FixedKey(c1);
    hide KeyOf, KeyLess, Osv.Closes, Osv.ClosingKey, FromStart;
    KeyOrder(KeyOf(c1.fixed.value), k, KeyOf(c1.fixed.value));
  }

  /** An open-ended list goes on behind an interval that it meets. */
  lemma NeverEnds(nums: seq<nat>, c1: Osv.Event, o2: Osv.Event, c2: Osv.Event)
    requires Osv.Closes(c1) && o2.Event? && o2.introduced.Some? && Osv.Closes(c2) && BelowEnd(c2, ReleaseKey(nums))
    ensures !EndsEither([Bound(Ge, nums)], c1, o2, c2)
  {
    BehindIsBehind(c2);
    hide KeyLess, ReleaseKey, Osv.Closes, KeyOf, Behind, BelowEnd, IntervalHolds;
    KeyOrder(ReleaseKey(nums), KeyOf(Behind(c2)), KeyOf(Behind(c2)));
  }

  function LastAffectedAt(cs: seq<nat>): Osv.Event { Osv.Event(None, None, Some(Dotted(cs)), None) }

  /** Everything up to a release, and from a later one up to a fix. */
  lemma UpToAndFrom(last: seq<nat>, low: seq<nat>, high: seq<nat>)
    requires last != [] && low != [] && high != [] && Dotted(low) != "0"
    requires KeyAtMost(ReleaseKey(last), ReleaseKey(low)) && KeyLess(ReleaseKey(low), ReleaseKey(high))
    ensures var o1, c1, o2, c2 := Osv.Introduced("0"), LastAffectedAt(last), Osv.Introduced(Dotted(low)), FixedAt(high);
            && TwoIntervals(o1, c1, o2, c2) && o1.introduced.Some? && o2.introduced.Some?
            && Osv.Closes(c1) && Osv.Closes(c2) && c1.fixed.None? && c2.fixed == Some(Dotted(high))
            && forall k :: EitherHolds(o1, c1, o2, c2, k)
                 <==> KeyAtMost(k, ReleaseKey(last)) || InRange(k, ReleaseKey(low), ReleaseKey(high))
  {
    DottedWord(last);
    DottedWord(low);
    DottedWord(high);
    KeyOfDotted(last);
    KeyOfDotted(low);
    KeyOfDotted(high);
    IntroducedIs("0");
    IntroducedIs(Dotted(low));
    FixedAtIs(Dotted(high), high);
    LastAffectedAtIs(last);
    assert !VersionLess(Dotted(low), Dotted(last)) && VersionLess(Dotted(low), Dotted(high));
    hide *;
    Osv.TwoAlternating(Dotted(last), Dotted(low), Dotted(high));
    AreTwoIntervals(Osv.Introduced("0"), LastAffectedAt(last), Osv.Introduced(Dotted(low)), FixedAt(high));
    UpToHolds(last);
    ReleaseHolds(low, high);
    var o1, c1, o2, c2 := Osv.Introduced("0"), LastAffectedAt(last), Osv.Introduced(Dotted(low)), FixedAt(high);
    forall k ensures EitherHolds(o1, c1, o2, c2, k) == (IntervalHolds(o1, c1, k) || IntervalHolds(o2, c2, k)) {
      EitherIs(o1, c1, o2, c2, k);
    }
  }

  lemma EitherIs(o1: Osv.Event, c1: Osv.Event, o2: Osv.Event, c2: Osv.Event, k: Key)
    requires o1.Event? && o1.introduced.Some? && Osv.Closes(c1) && o2.Event? && o2.introduced.Some? && Osv.Closes(c2)
    ensures EitherHolds(o1, c1, o2, c2, k) == (IntervalHolds(o1, c1, k) || IntervalHolds(o2, c2, k))
  {
    hide IntervalHolds, Osv.Closes;
  }

  lemma LastAffectedAtIs(cs: seq<nat>)
    ensures LastAffectedAt(cs) == Osv.Event(None, None, Some(Dotted(cs)), None)
  {
  }

  lemma AreTwoIntervals(o1: Osv.Event, c1: Osv.Event, o2: Osv.Event, c2: Osv.Event)
    requires Osv.Alternating([o1, c1, o2, c2], None) && Osv.Closes(c1) && Osv.Closes(c2) && o1 == Osv.Introduced("0")
    requires Osv.Opens(o2, Some(Osv.ClosingKey(c1))) && Osv.NonEmptyInterval(o2, c2)
    ensures TwoIntervals(o1, c1, o2, c2)
  {
    hide Osv.Alternating, Osv.Closes, Osv.NonEmptyInterval, Osv.ClosingKey;
  }

  lemma UpToHolds(last: seq<nat>)
    requires Osv.Closes(LastAffectedAt(last)) && KeyOf(Dotted(last)) == ReleaseKey(last)
    ensures forall k :: IntervalHolds(Osv.Introduced("0"), LastAffectedAt(last), k) <==> KeyAtMost(k, ReleaseKey(last))
  {
    LastAffectedKey(LastAffectedAt(last));
    hide KeyOf, KeyLess, ReleaseKey, Dotted, Osv.Closes, Osv.ClosingKey;
  }

  /** `>=1.0, <2.2` against everything up to 1.5 and everything from 2.0 up to the fix 2.5: 2.5 is
      excluded, so it is reported, and 1.7 is permitted and not affected. */
  lemma GapMisleads(name: string, id: string)
    ensures var spec := Printed([Bound(Ge, [1, 0]), Bound(Lt, [2, 2])]);
            var advisory := TwoIntervalAdvisory(id, Osv.Introduced("0"), LastAffectedAt([1, 5]),
                Osv.Introduced(Dotted([2, 0])), FixedAt([2, 5]));
            && Decide(RangeDependency(name, spec), advisory).Report?
            && Admitted(spec, Dotted([1, 7])) && !Satisfies(Dotted([1, 7]), advisory.affected)
  {
    var bs := [Bound(Ge, [1, 0]), Bound(Lt, [2, 2])];
    var spec := Printed(bs);
    var o1, c1, o2, c2 := Osv.Introduced("0"), LastAffectedAt([1, 5]), Osv.Introduced(Dotted([2, 0])), FixedAt([2, 5]);
    GapKeys(bs);
    UpToAndFrom([1, 5], [2, 0], [2, 5]);
    DottedWord([2, 5]);
    PrintedTranslates(bs);
    DeclaresTranslates(spec, bs);
    hide *;
    KeyOfDotted([1, 0]);
    KeyOfDotted([1, 7]);
    KeyOfDotted([2, 5]);
    TwoIntervalAdvisoryMeaning(id, o1, c1, o2, c2, Dotted([1, 0]));
    TwoIntervalAdvisoryMeaning(id, o1, c1, o2, c2, Dotted([1, 7]));
    ReportAlone(name, spec, bs, TwoIntervalAdvisory(id, o1, c1, o2, c2));
    ReleaseAdmitted(spec, bs, [1, 7]);
  }

  lemma GapKeys(bs: seq<Bound>)
    requires bs == [Bound(Ge, [1, 0]), Bound(Lt, [2, 2])]
    ensures bs != [] && bs[0].nums == [1, 0] && forall b | b in bs :: b.nums != []
    ensures AllBoundsHold(bs, ReleaseKey([1, 7])) && !AllBoundsHold(bs, ReleaseKey([2, 5]))
    ensures KeyAtMost(ReleaseKey([1, 0]), ReleaseKey([1, 5])) && !KeyAtMost(ReleaseKey([1, 7]), ReleaseKey([1, 5]))
    ensures KeyAtMost(ReleaseKey([1, 5]), ReleaseKey([2, 0])) && KeyLess(ReleaseKey([2, 0]), ReleaseKey([2, 5]))
    ensures !InRange(ReleaseKey([1, 7]), ReleaseKey([2, 0]), ReleaseKey([2, 5])) && Dotted([2, 0]) != "0"
  {
    GapOrder();
    TwoIsNotZero();
    assert bs[0] in bs && bs[1] in bs && forall b | b in bs :: b == bs[0] || b == bs[1];
    hide Dotted, KeyLess, ReleaseKey;
  }

  lemma TwoIsNotZero()
    ensures Dotted([2, 0]) != "0"
  {
    hide KeyOf, Dotted;
    KeyOfDotted([2, 0]);
    KeyOfDotted([0]);
    Osv.ZeroDotted();
    assert ReleaseKey([2, 0]) != ReleaseKey([0]);
  }

  lemma GapOrder()
    ensures KeyAtMost(ReleaseKey([1, 0]), ReleaseKey([1, 7])) && KeyLess(ReleaseKey([1, 7]), ReleaseKey([2, 2]))
    ensures !KeyLess(ReleaseKey([2, 5]), ReleaseKey([2, 2]))
    ensures KeyAtMost(ReleaseKey([1, 0]), ReleaseKey([1, 5])) && !KeyAtMost(ReleaseKey([1, 7]), ReleaseKey([1, 5]))
    ensures KeyAtMost(ReleaseKey([1, 5]), ReleaseKey([2, 0])) && KeyLess(ReleaseKey([2, 0]), ReleaseKey([2, 5]))
    ensures !KeyAtMost(ReleaseKey([2, 0]), ReleaseKey([1, 7]))
  {
    hide PreLess;
  }
}
