/** Exactly when the text compiled from an OSV record and the evaluation of the OSV schema agree. */
module OsvAgreement {
  import opened Strings
  import opened Versions
  import opened RangeText
  import opened LeastVersions
  import opened Osv

  // ----- what a record holds besides ranges that are open from the beginning

  /** One of the intervals between an opening and a closing event, or the last opening. */
  predicate EventsHold(events: seq<Event>, v: string)
    decreases |events|
  {
    events != [] && events[0].Event? && events[0].introduced.Some? &&
    if |events| == 1 then events[0].introduced.value != "0" && !VersionLess(v, events[0].introduced.value)
    else (Closes(events[1]) && InInterval(events[0], events[1], v)) || EventsHold(events[2..], v)
  }

  predicate RecordHolds(ranges: seq<Range>, versions: seq<string>, v: string) {
    (exists r | r in ranges :: EventsHold(UsedEvents(r), v)) || exists w | w in versions :: VersionEqual(v, w)
  }

  lemma {:induction false} EventsHoldExact(events: seq<Event>, floor: Option<Key>, v: string)
    requires Alternating(events, floor)
    ensures AdmitsTail(events, v) == EventsHold(events, v)
    decreases |events|
  {
    hide KeyOf, VersionLess, VersionWord, AdmitsTail, InInterval, NonEmptyInterval, ClosingKey, AtOrAbove;
    if events == [] {
      NoEvents(v);
    } else if |events| == 1 {
      assert events == [events[0]];
      LastOpeningHolds(events[0], floor, v);
    } else {
      var o, c, later := events[0], events[1], events[2..];
      assert events == [o, c] + later;
      IntervalCompiled(o, c, floor, v, later);
      EventsHoldExact(later, Some(ClosingKey(c)), v);
    }
  }

  lemma LastOpeningHolds(o: Event, floor: Option<Key>, v: string)
    requires Opens(o, floor)
    ensures AdmitsTail([o], v) == (o.introduced.value != "0" && !VersionLess(v, o.introduced.value))
  {
    hide VersionLess, VersionWord, EventAlternatives, AllHold;
    if o.introduced.value == "0" {
      OpenAdmitsNothing([o]);
    } else {
      hide AdmitsTail;
      OnlyOpeningAdmits(o, floor, v);
    }
  }

  lemma {:induction false} RangesHoldExact(ranges: seq<Range>, v: string)
    requires forall r | r in ranges :: Alternating(UsedEvents(r), None)
    ensures Admits(RangeAlternatives(ranges), v) == exists r | r in ranges :: EventsHold(UsedEvents(r), v)
  {
    hide Alternating, UsedEvents, EventsHold, AllHold, EventAlternatives;
    if ranges != [] {
      var first, rest := ranges[0], ranges[1..];
      assert first in ranges && forall r | r in rest :: r in ranges;
      assert ranges == [first] + rest;
      RangesHoldExact(rest, v);
      EventsHoldExact(UsedEvents(first), None, v);
      AdmitsConcat(EventAlternatives(UsedEvents(first), None), RangeAlternatives(rest), v);
    }
  }

  /** The compiled alternatives admit what the record holds. */
  lemma RecordHoldsExact(ranges: seq<Range>, versions: seq<string>, v: string)
    requires WellFormed(ranges, versions)
    ensures Admits(Alternatives(ranges, versions), v) == RecordHolds(ranges, versions, v)
  {
    hide Alternating, VersionWord, VersionEqual, EventsHold, AllHold, UsedEvents;
    RangesHoldExact(ranges, v);
    ExplicitAgree(versions, v);
    AdmitsConcat(RangeAlternatives(ranges), ExplicitAlternatives(versions), v);
  }

  // ----- where what a record admits can stop

  /** The least version behind a closing event. */
  function Behind(c: Event): string
    requires Closes(c)
  {
    if c.lastAffected.Some? then NextAfter(c.lastAffected.value) else ClosingComparator(c).version
  }

  function EventStops(events: seq<Event>): seq<string>
    decreases |events|
  {
    if |events| < 2 || !Closes(events[1]) then [] else [Behind(events[1])] + EventStops(events[2..])
  }

  function RangeStops(ranges: seq<Range>): seq<string> {
    if ranges == [] then [] else EventStops(UsedEvents(ranges[0])) + RangeStops(ranges[1..])
  }

  function ExplicitStops(versions: seq<string>): seq<string> {
    if versions == [] then [] else [NextAfter(versions[0])] + ExplicitStops(versions[1..])
  }

  /** The least version behind every end and every listed version. */
  function Ends(ranges: seq<Range>, versions: seq<string>): seq<string> {
    RangeStops(ranges) + ExplicitStops(versions)
  }

  /** Those and version 0. */
  function Stops(ranges: seq<Range>, versions: seq<string>): seq<string> { ["0"] + Ends(ranges, versions) }

  ghost predicate StopBetween(stops: seq<string>, p: string, v: string) {
    exists s | s in stops :: KeyLess(KeyOf(p), KeyOf(s)) && KeyAtMost(KeyOf(s), KeyOf(v))
  }

  lemma StopIn(a: seq<string>, b: seq<string>, p: string, v: string)
    requires StopBetween(a, p, v) || StopBetween(b, p, v)
    ensures StopBetween(a + b, p, v)
  {
    hide KeyOf, KeyLess;
    var s :| (s in a || s in b) && KeyLess(KeyOf(p), KeyOf(s)) && KeyAtMost(KeyOf(s), KeyOf(v));
    assert s in a + b;
  }

  /** A version above one in the interval, but not in it, is not below the stop. */
  lemma BehindEnd(o: Event, c: Event, p: string, v: string)
    requires o.Event? && o.introduced.Some? && Closes(c)
    requires InInterval(o, c, p) && !InInterval(o, c, v) && KeyAtMost(KeyOf(p), KeyOf(v))
    ensures StopBetween([Behind(c)], p, v)
  {
    hide KeyOf, KeyLess, VersionWord, NextAfter;
    var start, end, stop := KeyOf(o.introduced.value), KeyOf(ClosingComparator(c).version), KeyOf(Behind(c));
    KeyOrder(start, KeyOf(p), KeyOf(v));
    if c.lastAffected.Some? {
      NextIsNext(c.lastAffected.value, v);
      NextIsNext(c.lastAffected.value, Behind(c));
      KeyOrder(KeyOf(p), end, stop);
      KeyOrder(stop, stop, stop);
    }
    assert Behind(c) in [Behind(c)];
  }

  lemma {:induction false} EventsStop(events: seq<Event>, floor: Option<Key>, p: string, v: string)
    requires Alternating(events, floor) && KeyAtMost(KeyOf(p), KeyOf(v))
    requires EventsHold(events, p) && !EventsHold(events, v)
    ensures StopBetween(EventStops(events), p, v)
    decreases |events|
  {
    hide KeyOf, KeyLess, VersionWord, InInterval, NonEmptyInterval, ClosingKey, AtOrAbove, Behind, StopBetween;
    if |events| == 1 {
      KeyOrder(KeyOf(events[0].introduced.value), KeyOf(p), KeyOf(v));
    } else {
      var o, c, later := events[0], events[1], events[2..];
      if InInterval(o, c, p) {
        BehindEnd(o, c, p, v);
      } else {
        EventsStop(later, Some(ClosingKey(c)), p, v);
      }
      StopIn([Behind(c)], EventStops(later), p, v);
    }
  }

  lemma {:induction false} RangesStop(ranges: seq<Range>, p: string, v: string)
    requires forall r | r in ranges :: Alternating(UsedEvents(r), None)
    requires KeyAtMost(KeyOf(p), KeyOf(v))
    requires exists r | r in ranges :: EventsHold(UsedEvents(r), p)
    requires forall r | r in ranges :: !EventsHold(UsedEvents(r), v)
    ensures StopBetween(RangeStops(ranges), p, v)
  {
    hide Alternating, UsedEvents, EventsHold, KeyOf, KeyLess, StopBetween, EventStops;
    var first, rest := ranges[0], ranges[1..];
    assert first in ranges && forall r | r in rest :: r in ranges;
    if EventsHold(UsedEvents(first), p) {
      EventsStop(UsedEvents(first), None, p, v);
    } else {
      RangesStop(rest, p, v);
    }
    StopIn(EventStops(UsedEvents(first)), RangeStops(rest), p, v);
  }

  lemma {:induction false} ExplicitStop(versions: seq<string>, p: string, v: string)
    requires KeyLess(KeyOf(p), KeyOf(v)) && exists w | w in versions :: VersionEqual(p, w)
    ensures StopBetween(ExplicitStops(versions), p, v)
  {
    hide KeyOf, KeyLess, VersionEqual, StopBetween, NextAfter;
    if VersionEqual(p, versions[0]) {
      BehindVersion(p, versions[0], v);
    } else {
      ExplicitStop(versions[1..], p, v);
    }
    StopIn([NextAfter(versions[0])], ExplicitStops(versions[1..]), p, v);
  }

  lemma BehindVersion(p: string, w: string, v: string)
    requires VersionEqual(p, w) && KeyLess(KeyOf(p), KeyOf(v))
    ensures StopBetween([NextAfter(w)], p, v)
  {
    hide KeyOf, KeyLess, NextAfter;
    VersionStrictWeakOrder(p, w, v);
    var s := NextAfter(w);
    NextIsNext(w, v);
    NextIsNext(w, s);
    KeyOrder(KeyOf(s), KeyOf(s), KeyOf(s));
    assert s in [s];
  }

  /** Between a version the record holds and a later one it does not, there is an end. */
  lemma RecordStops(ranges: seq<Range>, versions: seq<string>, p: string, v: string)
    requires WellFormed(ranges, versions) && KeyAtMost(KeyOf(p), KeyOf(v))
    requires RecordHolds(ranges, versions, p) && !RecordHolds(ranges, versions, v)
    ensures StopBetween(Ends(ranges, versions), p, v)
  {
    hide Alternating, VersionWord, UsedEvents, KeyOf, KeyLess, VersionEqual, StopBetween, EventsHold;
    if exists r | r in ranges :: EventsHold(UsedEvents(r), p) {
      RangesStop(ranges, p, v);
    } else {
      var w :| w in versions && VersionEqual(p, w);
      DifferFrom(p, w, v);
      ExplicitStop(versions, p, v);
    }
    StopIn(RangeStops(ranges), ExplicitStops(versions), p, v);
  }

  lemma DifferFrom(p: string, w: string, v: string)
    requires VersionEqual(p, w) && !VersionEqual(v, w) && KeyAtMost(KeyOf(p), KeyOf(v))
    ensures KeyLess(KeyOf(p), KeyOf(v))
  {
    hide KeyOf, KeyLess;
    VersionStrictWeakOrder(p, w, w);
    VersionStrictWeakOrder(v, w, w);
    KeyOrder(KeyOf(p), KeyOf(v), KeyOf(p));
  }

  // ----- the last stop

  /** The last of the stops that are not above `v`. */
  lemma {:induction false} LastStop(stops: seq<string>, v: string) returns (p: string)
    requires stops != [] && KeyAtMost(KeyOf(stops[0]), KeyOf(v))
    ensures p in stops && KeyAtMost(KeyOf(stops[0]), KeyOf(p)) && KeyAtMost(KeyOf(p), KeyOf(v))
    ensures !StopBetween(stops, p, v)
    decreases |stops|
  {
    hide KeyOf, KeyLess;
    var first, second := stops[0], if |stops| > 1 then stops[1] else stops[0];
    var a, b, k := KeyOf(first), KeyOf(second), KeyOf(v);
    KeyOrder(a, a, a);
    if |stops| == 1 {
      p := first;
      assert forall s | s in stops :: s == first;
    } else {
      KeyOrder(a, b, k);
      var rest := if KeyAtMost(b, k) && KeyAtMost(a, b) then stops[1..] else [first] + stops[2..];
      p := LastStop(rest, v);
      KeyOrder(a, b, KeyOf(p));
      KeyOrder(b, a, KeyOf(p));
      forall s | s in stops && KeyLess(KeyOf(p), KeyOf(s)) ensures !KeyAtMost(KeyOf(s), k) {
        assert s in rest || s == first || s == second;
        KeyOrder(KeyOf(p), a, KeyOf(p));
        KeyOrder(KeyOf(p), b, a);
        KeyOrder(KeyOf(p), b, KeyOf(p));
      }
    }
  }

  /** The record holds 0 and every stop above it, or there is nothing to compile. */
  predicate CoversFromZero(ranges: seq<Range>, versions: seq<string>) {
    || Alternatives(ranges, versions) == []
    || forall s | s in Stops(ranges, versions) && AtLeastZero(s) :: RecordHolds(ranges, versions, s)
  }

  /** Then it holds every version from 0. */
  lemma StopsSuffice(ranges: seq<Range>, versions: seq<string>, v: string)
    requires WellFormed(ranges, versions) && CoversFromZero(ranges, versions) && AtLeastZero(v)
    ensures Alternatives(ranges, versions) == [] || RecordHolds(ranges, versions, v)
  {
    hide WellFormed, KeyOf, KeyLess, Ends, StopBetween, RecordHolds, Alternatives;
    var p := LastStop(Stops(ranges, versions), v);
    assert AtLeastZero(p);
    if Alternatives(ranges, versions) != [] && !RecordHolds(ranges, versions, v) {
      RecordStops(ranges, versions, p, v);
      StopIn(["0"], Ends(ranges, versions), p, v);
    }
  }

  /** What the text accepts, on the events and versions of the record. */
  lemma TextHolds(ranges: seq<Range>, versions: seq<string>, v: string)
    requires WellFormed(ranges, versions)
    ensures Satisfies(v, AffectedText(ranges, versions))
         == if Alternatives(ranges, versions) == [] then AtLeastZero(v) else RecordHolds(ranges, versions, v)
  {
    hide *;
    TextMeaning(ranges, versions, v);
    RecordHoldsExact(ranges, versions, v);
  }

  /** Between a version the text accepts and a later one it does not, there is an end it does not
      accept either. */
  lemma TextEnds(ranges: seq<Range>, versions: seq<string>, p: string, v: string) returns (s: string)
    requires WellFormed(ranges, versions) && KeyAtMost(KeyOf(p), KeyOf(v))
    requires Satisfies(p, AffectedText(ranges, versions)) && !Satisfies(v, AffectedText(ranges, versions))
    ensures s in Ends(ranges, versions) && !Satisfies(s, AffectedText(ranges, versions))
    ensures KeyLess(KeyOf(p), KeyOf(s)) && KeyAtMost(KeyOf(s), KeyOf(v))
  {
    hide WellFormed, KeyOf, KeyLess, Ends, Satisfies, AffectedText;
    EndBetween(ranges, versions, p, v);
    var ends := Ends(ranges, versions);
    var x :| x in ends && KeyLess(KeyOf(p), KeyOf(x)) && KeyAtMost(KeyOf(x), KeyOf(v));
    s := LastStop([x] + ends, v);
    KeyOrder(KeyOf(s), KeyOf(x), KeyOf(x));
    KeyOrder(KeyOf(p), KeyOf(x), KeyOf(s));
    if Satisfies(s, AffectedText(ranges, versions)) {
      EndBetween(ranges, versions, s, v);
      StopIn([x], ends, s, v);
    }
  }

  lemma EndBetween(ranges: seq<Range>, versions: seq<string>, p: string, v: string)
    requires WellFormed(ranges, versions) && KeyAtMost(KeyOf(p), KeyOf(v))
    requires Satisfies(p, AffectedText(ranges, versions)) && !Satisfies(v, AffectedText(ranges, versions))
    ensures StopBetween(Ends(ranges, versions), p, v)
  {
    hide WellFormed, KeyOf, KeyLess, Ends, StopBetween, RecordHolds, Alternatives, Satisfies, AffectedText;
    TextHolds(ranges, versions, p);
    TextHolds(ranges, versions, v);
    KeyOrder(KeyOf("0"), KeyOf(p), KeyOf(v));
    if Alternatives(ranges, versions) != [] { RecordStops(ranges, versions, p, v); }
  }

  /** For every record the schema allows: the text agrees with the schema on all versions from 0
      exactly when the record has a range that is open from the beginning and holds 0 and every
      stop besides it, or has none and compiles to at least one alternative. */
  lemma AgreesExactlyWhen(ranges: seq<Range>, versions: seq<string>)
    requires WellFormed(ranges, versions)
    ensures (forall v | AtLeastZero(v) ::
        Satisfies(v, AffectedText(ranges, versions)) == OsvAffected(ranges, versions, v))
        <==> if HasOpenFromZero(ranges) then CoversFromZero(ranges, versions) else Alternatives(ranges, versions) != []
  {
    hide Satisfies, AffectedText, OsvAffected, WellFormed, Alternatives, HasOpenFromZero, AtLeastZero, Stops,
         RecordHolds;
    forall v ensures HasOpenFromZero(ranges) ==> OsvAffected(ranges, versions, v) {
      if HasOpenFromZero(ranges) { OpenFromZeroAffectsAll(ranges, versions, v); }
    }
    forall v ensures Satisfies(v, AffectedText(ranges, versions))
        == if Alternatives(ranges, versions) == [] then AtLeastZero(v) else RecordHolds(ranges, versions, v)
    {
      TextHolds(ranges, versions, v);
    }
    if HasOpenFromZero(ranges) {
      if CoversFromZero(ranges, versions) {
        forall v | AtLeastZero(v) ensures Satisfies(v, AffectedText(ranges, versions)) {
          StopsSuffice(ranges, versions, v);
        }
      }
    } else {
      forall v ensures Satisfies(v, AffectedText(ranges, versions))
          == (OsvAffected(ranges, versions, v) || (Alternatives(ranges, versions) == [] && AtLeastZero(v)))
          && (Alternatives(ranges, versions) == [] ==> !OsvAffected(ranges, versions, v))
      {
        CompilationPreservesMeaning(ranges, versions, v);
      }
      ReleaseAtLeastZero(0);
      assert AtLeastZero(Dotted([0]));
    }
  }

  /** Without ranges that stay open above a start of their own, that is: a range is open from the
      beginning exactly when nothing else stands in the record. */
  lemma BoundedAgreesExactlyWhen(ranges: seq<Range>, versions: seq<string>)
    requires WellFormed(ranges, versions)
    requires forall r | r in ranges :: Bounded(UsedEvents(r)) || OpenFromZero(UsedEvents(r))
    ensures (forall v | AtLeastZero(v) ::
        Satisfies(v, AffectedText(ranges, versions)) == OsvAffected(ranges, versions, v))
        <==> (HasOpenFromZero(ranges) <==> Alternatives(ranges, versions) == [])
  {
    hide Satisfies, AffectedText, OsvAffected, WellFormed, Alternatives, HasOpenFromZero, AtLeastZero, Stops, Bounded,
         OpenFromZero, UsedEvents, RecordHolds;
    AgreesExactlyWhen(ranges, versions);
    if HasOpenFromZero(ranges) && Alternatives(ranges, versions) != [] {
      var v := OpenFromZeroIsLost(ranges, versions);
    }
  }
}
