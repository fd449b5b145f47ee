/** The OSV converter: event lists become range text. The text is evaluated by `RangeText` and
    compared with the evaluation algorithm of the OSV schema. */
module Osv {
  import opened Strings
  import opened Versions
  import opened RangeText

  // ----- OSV records

  /** One event object; anything that is not an object is skipped. */
  datatype Event =
    | NotAnEvent
    | Event(introduced: Option<string>, fixed: Option<string>, lastAffected: Option<string>, limit: Option<string>)

  /** One range object with its type and, if that is a list, its events. */
  datatype Range = NotARange | Range(kind: string, events: Option<seq<Event>>)

  predicate IsGit(r: Range) { r.Range? && Upper(r.kind) == "GIT" }

  /** The events a range contributes. */
  function UsedEvents(r: Range): seq<Event> {
    if r.NotARange? || IsGit(r) || r.events.None? then [] else r.events.value
  }

  predicate FromTheBeginning(introduced: string) { Strip(introduced) == "0" || Strip(introduced) == "" }

  // ----- the alternatives of a record

  function LowerToken(lower: Option<string>): seq<string> {
    match lower
    case None => []
    case Some(x) => [">=" + x]
  }

  predicate Truthy(s: Option<string>) { s.Some? && s.value != "" }

  function UpperToken(e: Event): seq<string>
    requires e.Event?
  {
    if Truthy(e.fixed) then ["<" + Strip(e.fixed.value)]
    else if Truthy(e.lastAffected) then ["<=" + Strip(e.lastAffected.value)]
    else if e.limit.Some? then ["<" + Strip(e.limit.value)]
    else []
  }

  /** The alternative appended for an event that closes a range. */
  function ClosingAlternative(lower: Option<string>, e: Event): (a: seq<string>)
    requires e.Event?
    ensures a != []
  {
    var tokens := LowerToken(lower) + UpperToken(e);
    if tokens == [] then [">=0"] else tokens
  }

  function NewLower(introduced: string): Option<string> {
    if FromTheBeginning(introduced) then None else Some(Strip(introduced))
  }

  /** The alternatives the remaining events of a range produce when `lower` is pending. */
  function EventAlternatives(events: seq<Event>, lower: Option<string>): (r: seq<seq<string>>)
    ensures forall a | a in r :: a != []
  {
    if events == [] then
      if lower.Some? then [LowerToken(lower)] else []
    else if events[0].NotAnEvent? then EventAlternatives(events[1..], lower)
    else if events[0].introduced.Some? then EventAlternatives(events[1..], NewLower(events[0].introduced.value))
    else [ClosingAlternative(lower, events[0])] + EventAlternatives(events[1..], None)
  }

  function RangeAlternatives(ranges: seq<Range>): (r: seq<seq<string>>)
    ensures forall a | a in r :: a != []
  {
    if ranges == [] then []
    else EventAlternatives(UsedEvents(ranges[0]), None) + RangeAlternatives(ranges[1..])
  }

  function ExplicitAlternatives(versions: seq<string>): (r: seq<seq<string>>)
    ensures forall a | a in r :: a != []
  {
    if versions == [] then []
    else (if Strip(versions[0]) == "" then [] else [["=" + Strip(versions[0])]]) + ExplicitAlternatives(versions[1..])
  }

  function Alternatives(ranges: seq<Range>, versions: seq<string>): (r: seq<seq<string>>)
    ensures forall a | a in r :: a != []
  {
    RangeAlternatives(ranges) + ExplicitAlternatives(versions)
  }

  /** The expression stored with the advisory. */
  function AffectedText(ranges: seq<Range>, versions: seq<string>): string {
    var alternatives := Alternatives(ranges, versions);
    if alternatives == [] then ">=0" else PrintRange(alternatives)
  }

  lemma SingleToken(t: string)
    ensures PrintAlternative([t]) == t
  {
  }

  lemma PrintAppend(a: seq<seq<string>>, b: seq<seq<string>>)
    ensures PrintAlternatives(a + b) == PrintAlternatives(a) + PrintAlternatives(b)
  {
  }

  /** The inner loop: walks the events of one range with a pending lower bound. */
  method CompileEvents(events: seq<Event>) returns (alternatives: seq<string>)
    ensures alternatives == PrintAlternatives(EventAlternatives(events, None))
  {
    hide NewLower, Strip, PrintAlternative, PrintAlternatives;
    assert PrintAlternatives([]) == [];
    alternatives := [];
    var lower: Option<string> := None;
    for i := 0 to |events|
      invariant PrintAlternatives(EventAlternatives(events, None))
             == alternatives + PrintAlternatives(EventAlternatives(events[i..], lower))
    {
      var event := events[i];
      assert events[i..][0] == event && events[i..][1..] == events[i + 1..];
      if event.NotAnEvent? {
        continue;
      }
      if event.introduced.Some? {
        lower := NewLower(event.introduced.value);
        continue;
      }
      var tokens := LowerToken(lower) + UpperToken(event);
      var alternative := if tokens == [] then [">=0"] else tokens;
      PrintOne(alternative, EventAlternatives(events[i + 1..], None));
      alternatives := alternatives + [PrintAlternative(alternative)];
      lower := None;
    }
    assert events[|events|..] == [];
    if lower.Some? {
      PrintOne([">=" + lower.value], []);
      assert [LowerToken(lower)] == [[">=" + lower.value]] + [];
      assert PrintAlternative([">=" + lower.value]) == ">=" + lower.value by { SingleToken(">=" + lower.value); }
      alternatives := alternatives + [">=" + lower.value];
    }
  }

  lemma UsedOrSkipped(r: Range)
    ensures r.NotARange? || Upper(r.kind) == "GIT" || r.events.None? ==> EventAlternatives(UsedEvents(r), None) == []
    ensures r.Range? && Upper(r.kind) != "GIT" && r.events.Some? ==> UsedEvents(r) == r.events.value
  {
    hide Upper;
  }

  lemma PrintOne(a: seq<string>, rest: seq<seq<string>>)
    ensures PrintAlternatives([a] + rest) == [PrintAlternative(a)] + PrintAlternatives(rest)
  {
    hide PrintAlternative;
  }

  lemma PrintRangeStep(ranges: seq<Range>, i: nat)
    requires i < |ranges|
    ensures PrintAlternatives(RangeAlternatives(ranges[i..])) ==
            PrintAlternatives(EventAlternatives(UsedEvents(ranges[i]), None))
                + PrintAlternatives(RangeAlternatives(ranges[i + 1..]))
  {
    hide EventAlternatives, UsedEvents, PrintAlternatives;
    assert ranges[i..][0] == ranges[i] && ranges[i..][1..] == ranges[i + 1..];
    PrintAppend(EventAlternatives(UsedEvents(ranges[i]), None), RangeAlternatives(ranges[i + 1..]));
  }

  /** The compiler: appends to a list of printed alternatives and joins them at the end. */
  method AffectedRangeFromOsv(ranges: seq<Range>, versions: seq<string>) returns (text: string)
    ensures text == AffectedText(ranges, versions)
  {
    hide EventAlternatives, UsedEvents, PrintAlternative, PrintAlternatives, RangeAlternatives, ExplicitAlternatives,
         Upper, Strip, Join;
    NothingPrinted();
    var alternatives: seq<string> := [];
    assert ranges[0..] == ranges;
    for i := 0 to |ranges|
      invariant PrintAlternatives(RangeAlternatives(ranges))
             == alternatives + PrintAlternatives(RangeAlternatives(ranges[i..]))
    {
      var r := ranges[i];
      PrintRangeStep(ranges, i);
      UsedOrSkipped(r);
      ghost var rest := PrintAlternatives(RangeAlternatives(ranges[i + 1..]));
      assert [] + rest == rest;
      if r.NotARange? {
        continue;
      }
      if Upper(r.kind) == "GIT" {
        continue;
      }
      if r.events.None? {
        continue;
      }
      var compiled := CompileEvents(r.events.value);
      assert alternatives + (compiled + rest) == (alternatives + compiled) + rest;
      alternatives := alternatives + compiled;
    }
    assert ranges[|ranges|..] == [] && alternatives + [] == alternatives;
    alternatives := alternatives + PrintAlternatives(ExplicitAlternatives(versions));
    PrintAppend(RangeAlternatives(ranges), ExplicitAlternatives(versions));
    PrintedLength(Alternatives(ranges, versions));
    if alternatives == [] {
      text := ">=0";
    } else {
      text := Join(" || ", alternatives);
    }
  }

  lemma NothingPrinted()
    ensures RangeAlternatives([]) == [] && PrintAlternatives([]) == []
  {
  }

  lemma PrintedLength(alternatives: seq<seq<string>>)
    ensures PrintAlternatives(alternatives) == [] <==> alternatives == []
  {
  }

  /** The first `fixed` value of the record, whichever range it belongs to. */
  function FirstFixedEvent(events: seq<Event>): Option<string> {
    if events == [] then None
    else if events[0].Event? && Truthy(events[0].fixed) then events[0].fixed
    else FirstFixedEvent(events[1..])
  }

  function FirstFixed(ranges: seq<Range>): string {
    if ranges == [] then ""
    else
      var own := if ranges[0].Range? && ranges[0].events.Some? then FirstFixedEvent(ranges[0].events.value) else None;
      if own.Some? then own.value else FirstFixed(ranges[1..])
  }

  // ----- the evaluation algorithm of the OSV schema

  /** The flag of the schema's loop over the events of one range, in ascending order. */
  predicate Vulnerable(events: seq<Event>, v: string, flag: bool) {
    if events == [] then flag
    else if events[0].NotAnEvent? then Vulnerable(events[1..], v, flag)
    else Vulnerable(events[1..], v, EventFlag(events[0], v, flag))
  }

  predicate EventFlag(e: Event, v: string, flag: bool)
    requires e.Event?
  {
    if e.introduced.Some? && (FromTheBeginning(e.introduced.value) || !VersionLess(v, e.introduced.value)) then true
    else if e.fixed.Some? && !VersionLess(v, e.fixed.value) then false
    else if e.lastAffected.Some? && VersionLess(e.lastAffected.value, v) then false
    else flag
  }

  predicate HasLimit(e: Event) { e.Event? && e.limit.Some? }

  /** No limit events, or below one of them. */
  predicate BeforeLimits(events: seq<Event>, v: string) {
    (forall e | e in events :: !HasLimit(e)) || exists e | e in events :: HasLimit(e) && VersionLess(v, e.limit.value)
  }

  predicate IncludedInRange(r: Range, v: string) {
    Vulnerable(UsedEvents(r), v, false) && BeforeLimits(UsedEvents(r), v)
  }

  /** Commit ranges take no part: their events are not versions. */
  predicate OsvAffected(ranges: seq<Range>, versions: seq<string>, v: string) {
    (exists w | w in versions :: VersionEqual(v, w)) || exists r | r in ranges :: IncludedInRange(r, v)
  }

  // ----- records the schema allows

  function Introduced(x: string): Event { Event(Some(x), None, None, None) }

  /** The event that closes an interval: `fixed`, `last_affected`, or `limit`. */
  predicate Closes(e: Event) {
    || (e.Event? && e == Event(None, e.fixed, None, None) && e.fixed.Some? && VersionWord(e.fixed.value))
    || (e.Event? && e == Event(None, None, e.lastAffected, None) && e.lastAffected.Some?
        && VersionWord(e.lastAffected.value))
    || (e.Event? && e == Event(None, None, None, e.limit) && e.limit.Some? && VersionWord(e.limit.value))
  }

  function ClosingComparator(e: Event): Comparator
    requires Closes(e)
  {
    if e.fixed.Some? then Comparator(Lt, e.fixed.value)
    else if e.lastAffected.Some? then Comparator(Le, e.lastAffected.value)
    else Comparator(Lt, e.limit.value)
  }

  function ClosingKey(e: Event): Key
    requires Closes(e)
  {
    KeyOf(ClosingComparator(e).version)
  }

  predicate AtOrAbove(floor: Option<Key>, k: Key) { floor.Some? ==> KeyAtMost(floor.value, k) }

  /** The opening event: the beginning of time (first event only) or a version not below what
      came before. */
  predicate Opens(e: Event, floor: Option<Key>) {
    && e.Event? && e.introduced.Some? && e == Introduced(e.introduced.value)
    && (if e.introduced.value == "0" then floor.None?
        else VersionWord(e.introduced.value) && AtOrAbove(floor, KeyOf(e.introduced.value)))
  }

  /** The interval from `o` to `c` is not empty. */
  predicate NonEmptyInterval(o: Event, c: Event)
    requires Opens(o, None) && Closes(c)
  {
    o.introduced.value == "0" || Holds(o.introduced.value, ClosingComparator(c))
  }

  /** Ascending events that alternate between opening and closing; the last interval may stay
      open, and a limit may only come last. */
  predicate Alternating(events: seq<Event>, floor: Option<Key>)
    decreases |events|
  {
    events == [] ||
    (&& Opens(events[0], floor)
     && (|events| == 1 ||
         (&& Closes(events[1]) && NonEmptyInterval(events[0], events[1])
          && (events[1].limit.Some? ==> |events| == 2)
          && Alternating(events[2..], Some(ClosingKey(events[1]))))))
  }

  /** Everything before a fix is a record the schema allows. */
  lemma FixedFromZero(w: string)
    requires VersionWord(w)
    ensures var c := Event(None, Some(w), None, None);
            Closes(c) && Alternating([Introduced("0"), c], None)
  {
    hide VersionWord, KeyOf, ClosingComparator, Compare;
    var o, c := Introduced("0"), Event(None, Some(w), None, None);
    var events := [o, c];
    assert events[0] == o && events[1] == c && events[2..] == [];
    assert Opens(o, None) && Closes(c);
    assert Alternating([], Some(ClosingKey(c)));
  }

  /** And so is everything from one version up to a later fix. */
  lemma FixedFrom(low: string, high: string)
    requires VersionWord(low) && VersionWord(high) && low != "0" && VersionLess(low, high)
    ensures var c := Event(None, Some(high), None, None);
            Closes(c) && Alternating([Introduced(low), c], None)
  {
    hide VersionWord, VersionLess, KeyOf;
    var o, c := Introduced(low), Event(None, Some(high), None, None);
    var events := [o, c];
    assert events[0] == o && events[1] == c && events[2..] == [];
    assert Opens(o, None) && Closes(c);
    assert Alternating([], Some(ClosingKey(c)));
  }

  /** And everything up to a version with everything from a later one up to a fix. */
  lemma TwoAlternating(last: string, low: string, high: string)
    requires VersionWord(last) && VersionWord(low) && VersionWord(high) && low != "0"
    requires !VersionLess(low, last) && VersionLess(low, high)
    ensures var c, d := Event(None, None, Some(last), None), Event(None, Some(high), None, None);
            && Closes(c) && Closes(d) && Opens(Introduced(low), Some(ClosingKey(c)))
            && NonEmptyInterval(Introduced(low), d) && Alternating([Introduced("0"), c, Introduced(low), d], None)
  {
    hide VersionWord, KeyOf, KeyLess;
    var o, c, p, d := Introduced("0"), Event(None, None, Some(last), None), Introduced(low),
        Event(None, Some(high), None, None);
    var events := [o, c, p, d];
    assert Opens(o, None) && Closes(c) && Closes(d) && Opens(p, Some(ClosingKey(c)));
    assert events[2..] == [p, d] && [p, d][2..] == [];
    assert Alternating([], Some(ClosingKey(d)));
    assert Alternating([p, d], Some(ClosingKey(c)));
  }

  predicate WellFormed(ranges: seq<Range>, versions: seq<string>) {
    && (forall r | r in ranges :: Alternating(UsedEvents(r), None))
    && (forall w | w in versions :: VersionWord(w))
  }

  // ----- one range

  lemma WordStrip(w: string)
    requires VersionWord(w)
    ensures Strip(w) == w && w != ""
  {
    assert w[0] in w && w[|w| - 1] in w;
    StripTrim(w);
  }

  lemma OpensZero(e: Event, floor: Option<Key>)
    requires Opens(e, floor)
    ensures e.introduced.value == "0" <==> FromTheBeginning(e.introduced.value)
    ensures NewLower(e.introduced.value) == if e.introduced.value == "0" then None else e.introduced
  {
    if e.introduced.value == "0" {
      StripTrim("0");
    } else {
      WordStrip(e.introduced.value);
    }
  }

  /** The comparators of the interval an opening and a closing event span. */
  function IntervalComparators(o: Event, c: Event): seq<Comparator>
    requires o.Event? && o.introduced.Some? && Closes(c)
  {
    (if o.introduced.value == "0" then [] else [Comparator(Ge, o.introduced.value)]) + [ClosingComparator(c)]
  }

  lemma ClosingToken(c: Event)
    requires Closes(c)
    ensures UpperToken(c) == [ComparatorText(ClosingComparator(c))]
    ensures VersionWord(ClosingComparator(c).version)
  {
    hide VersionWord, Strip;
    WordStrip(ClosingComparator(c).version);
  }

  lemma IntervalAlternative(o: Event, c: Event, floor: Option<Key>)
    requires Opens(o, floor) && Closes(c)
    ensures ClosingAlternative(NewLower(o.introduced.value), c) == ComparatorTexts(IntervalComparators(o, c))
    ensures forall k | k in IntervalComparators(o, c) :: VersionWord(k.version)
  {
    hide Closes, VersionWord, NewLower, ClosingComparator, UpperToken, ComparatorText, LowerToken, ComparatorTexts;
    OpeningComparator(o, floor);
    ClosingToken(c);
    var cc := ClosingComparator(c);
    OneText(cc);
    if o.introduced.value == "0" {
      assert IntervalComparators(o, c) == [cc];
      assert [] + [ComparatorText(cc)] == [ComparatorText(cc)];
    } else {
      var oc := Comparator(Ge, o.introduced.value);
      TwoTexts(oc, cc);
      assert IntervalComparators(o, c) == [oc, cc];
      assert [ComparatorText(oc)] + [ComparatorText(cc)] == [ComparatorText(oc), ComparatorText(cc)];
    }
  }

  lemma OneText(c: Comparator)
    ensures ComparatorTexts([c]) == [ComparatorText(c)]
  {
    hide ComparatorText;
  }

  lemma TwoTexts(c: Comparator, d: Comparator)
    ensures ComparatorTexts([c, d]) == [ComparatorText(c), ComparatorText(d)]
  {
    hide ComparatorText;
    assert [c, d][1..] == [d];
  }

  lemma OpeningComparator(o: Event, floor: Option<Key>)
    requires Opens(o, floor)
    ensures LowerToken(NewLower(o.introduced.value))
         == if o.introduced.value == "0" then [] else [ComparatorText(Comparator(Ge, o.introduced.value))]
    ensures o.introduced.value != "0" ==> VersionWord(o.introduced.value)
  {
    hide VersionWord, NewLower, FromTheBeginning;
    OpensZero(o, floor);
  }

  // ----- one range against the schema

  /** Whether the version lies in the closed-off interval. */
  predicate InInterval(o: Event, c: Event, v: string)
    requires o.Event? && o.introduced.Some? && Closes(c)
  {
    (o.introduced.value == "0" || !VersionLess(v, o.introduced.value)) && Holds(v, ClosingComparator(c))
  }

  lemma IntervalComparatorsHold(o: Event, c: Event, v: string)
    requires o.Event? && o.introduced.Some? && Closes(c)
    ensures AllComparatorsHold(v, IntervalComparators(o, c)) == InInterval(o, c, v)
  {
    hide Closes, VersionLess, ClosingComparator;
    var cs := IntervalComparators(o, c);
    if o.introduced.value == "0" {
      assert cs == [ClosingComparator(c)];
    } else {
      assert cs == [Comparator(Ge, o.introduced.value), ClosingComparator(c)];
      assert cs[0] in cs && cs[1] in cs;
    }
  }

  lemma IntervalMeaning(o: Event, c: Event, floor: Option<Key>, v: string)
    requires Opens(o, floor) && Closes(c)
    ensures AllHold(v, ClosingAlternative(NewLower(o.introduced.value), c)) == InInterval(o, c, v)
  {
    hide Closes, VersionWord, TokenTexts, AllHold, NewLower, ClosingAlternative, ClosingComparator,
         AllComparatorsHold, InInterval, IntervalComparators, ComparatorTexts;
    IntervalAlternative(o, c, floor);
    ComparatorsMeaning(v, IntervalComparators(o, c));
    IntervalComparatorsHold(o, c, v);
  }

  /** Nothing at or above the floor changes the flag of a version that is below it, or that is at
      it and already counted. */
  lemma {:induction false} FlagStays(events: seq<Event>, floor: Key, v: string, flag: bool)
    requires Alternating(events, Some(floor))
    requires if flag then KeyAtMost(KeyOf(v), floor) else KeyLess(KeyOf(v), floor)
    ensures Vulnerable(events, v, flag) == flag
    decreases |events|
  {
    hide EventFlag, KeyOf, KeyLess, VersionWord, ClosingComparator;
    if events != [] {
      var o := events[0];
      OpenBelow(o, floor, v, flag);
      if |events| > 1 {
        var c := events[1];
        StepBelow(o, c, floor, v, flag);
        FlagStays(events[2..], ClosingKey(c), v, flag);
        assert events[1..][0] == c && events[1..][1..] == events[2..];
      }
    }
  }

  lemma OpenBelow(o: Event, floor: Key, v: string, flag: bool)
    requires Opens(o, Some(floor))
    requires if flag then KeyAtMost(KeyOf(v), floor) else KeyLess(KeyOf(v), floor)
    ensures EventFlag(o, v, flag) == flag
  {
    hide KeyOf, KeyLess, VersionWord, Strip;
    OpensZero(o, Some(floor));
    KeyOrder(KeyOf(v), floor, KeyOf(o.introduced.value));
  }

  lemma StepBelow(o: Event, c: Event, floor: Key, v: string, flag: bool)
    requires Opens(o, Some(floor)) && Closes(c) && NonEmptyInterval(o, c)
    requires if flag then KeyAtMost(KeyOf(v), floor) else KeyLess(KeyOf(v), floor)
    ensures EventFlag(c, v, flag) == flag
    ensures if flag then KeyAtMost(KeyOf(v), ClosingKey(c)) else KeyLess(KeyOf(v), ClosingKey(c))
    ensures c.limit.Some? ==> KeyLess(KeyOf(v), ClosingKey(c))
  {
    hide KeyOf, KeyLess, VersionWord;
    var low, high := KeyOf(o.introduced.value), ClosingKey(c);
    KeyOrder(KeyOf(v), floor, low);
    KeyOrder(KeyOf(v), low, high);
    KeyOrder(high, KeyOf(v), low);
  }

  predicate AdmitsTail(events: seq<Event>, v: string) { Admits(EventAlternatives(events, None), v) }

  /** Below the floor no limit has been passed. */
  lemma {:induction false} LimitsAhead(events: seq<Event>, floor: Key, v: string)
    requires Alternating(events, Some(floor)) && KeyAtMost(KeyOf(v), floor)
    ensures BeforeLimits(events, v)
    decreases |events|
  {
    hide KeyOf, KeyLess, VersionWord, ClosingComparator;
    if |events| > 1 {
      var o, c := events[0], events[1];
      StepBelow(o, c, floor, v, true);
      if c.limit.Some? {
        LimitKey(c);
        assert c in events && VersionLess(v, c.limit.value);
      } else {
        LimitsAhead(events[2..], ClosingKey(c), v);
        assert events == [o, c] + events[2..];
      }
    }
  }

  lemma LimitKey(c: Event)
    requires Closes(c) && c.limit.Some?
    ensures forall v: string :: VersionLess(v, c.limit.value) == KeyLess(KeyOf(v), ClosingKey(c))
  {
    hide KeyOf, KeyLess, VersionWord;
  }

  /** Introduced at the beginning and never closed. */
  predicate OpenFromZero(events: seq<Event>) { events == [Introduced("0")] }

  lemma OnlyOpeningAlternative(o: Event, floor: Option<Key>)
    requires Opens(o, floor) && o.introduced.value != "0"
    ensures EventAlternatives([o], None) == [[ComparatorText(Comparator(Ge, o.introduced.value))]]
  {
    hide VersionWord, NewLower, FromTheBeginning, Strip;
    OpensZero(o, floor);
    assert [o][1..] == [];
  }

  lemma OnlyOpeningAdmits(o: Event, floor: Option<Key>, v: string)
    requires Opens(o, floor) && o.introduced.value != "0"
    ensures AdmitsTail([o], v) == !VersionLess(v, o.introduced.value)
  {
    hide VersionWord, TokenHolds, VersionLess, AllHold, ComparatorText, EventAlternatives;
    var c := Comparator(Ge, o.introduced.value);
    var t := ComparatorText(c);
    ComparatorMeaning(v, c);
    OnlyOpeningAlternative(o, floor);
    OneTokenHolds(v, t);
    AdmitsSplit([t], [], v);
    assert [[t]] + [] == [[t]];
  }

  lemma OnlyOpeningIncluded(o: Event, floor: Option<Key>, v: string)
    requires Opens(o, floor) && o.introduced.value != "0"
    ensures Vulnerable([o], v, false) == !VersionLess(v, o.introduced.value)
    ensures BeforeLimits([o], v)
  {
    hide VersionWord, VersionLess, Strip;
    OpensZero(o, floor);
    assert [o][1..] == [];
  }

  /** The flag after both events of an interval, for a version that is not before its start. */
  lemma IntervalFlag(o: Event, c: Event, floor: Option<Key>, v: string, later: seq<Event>)
    requires Opens(o, floor) && Closes(c) && NonEmptyInterval(o, c)
    ensures Vulnerable([o, c] + later, v, false)
         == Vulnerable(later, v, InInterval(o, c, v) || (c.limit.Some?
             && (o.introduced.value == "0" || !VersionLess(v, o.introduced.value))))
  {
    hide VersionWord, Strip, KeyOf, KeyLess;
    OpensZero(o, floor);
    var low, high := KeyOf(o.introduced.value), ClosingKey(c);
    KeyOrder(KeyOf(v), low, high);
    KeyOrder(low, high, KeyOf(v));
    var s := [o, c] + later;
    assert s[0] == o && s[1..] == [c] + later && s[1..][0] == c && s[1..][1..] == later;
  }

  /** One range: the schema's loop and the compiled alternatives agree on every version. */
  lemma {:induction false} RangeAgrees(events: seq<Event>, floor: Option<Key>, v: string)
    requires Alternating(events, floor) && !OpenFromZero(events)
    ensures (Vulnerable(events, v, false) && BeforeLimits(events, v)) == AdmitsTail(events, v)
    decreases |events|
  {
    hide VersionWord, VersionLess, AdmitsTail, Vulnerable, BeforeLimits, InInterval, NonEmptyInterval, ClosingKey,
         AtOrAbove;
    if |events| == 1 {
      assert events == [events[0]];
      OnlyOpeningAdmits(events[0], floor, v);
      OnlyOpeningIncluded(events[0], floor, v);
    } else if events != [] {
      var o, c, later := events[0], events[1], events[2..];
      assert events == [o, c] + later;
      IntervalFlag(o, c, floor, v, later);
      IntervalCompiled(o, c, floor, v, later);
      RangeAgrees(later, Some(ClosingKey(c)), v);
      IntervalCase(o, c, floor, v, later);
    } else {
      NoEvents(v);
    }
  }

  lemma NoEvents(v: string)
    ensures !Vulnerable([], v, false) && !AdmitsTail([], v)
  {
  }

  lemma IntervalCompiled(o: Event, c: Event, floor: Option<Key>, v: string, later: seq<Event>)
    requires Opens(o, floor) && Closes(c)
    ensures AdmitsTail([o, c] + later, v) == (InInterval(o, c, v) || AdmitsTail(later, v))
  {
    assert c.introduced.None?;
    hide Opens, Closes, NewLower, AllHold, ClosingAlternative, InInterval, EventAlternatives;
    IntervalMeaning(o, c, floor, v);
    IntervalUnfold(o, c, later);
    AdmitsSplit(ClosingAlternative(NewLower(o.introduced.value), c), EventAlternatives(later, None), v);
  }

  lemma IntervalUnfold(o: Event, c: Event, later: seq<Event>)
    requires o.Event? && o.introduced.Some? && c.Event? && c.introduced.None?
    ensures EventAlternatives([o, c] + later, None)
         == [ClosingAlternative(NewLower(o.introduced.value), c)] + EventAlternatives(later, None)
  {
    hide NewLower, ClosingAlternative;
    assert ([o, c] + later)[1..] == [c] + later && ([c] + later)[1..] == later;
  }

  lemma IntervalCase(o: Event, c: Event, floor: Option<Key>, v: string, later: seq<Event>)
    requires Opens(o, floor) && Closes(c) && NonEmptyInterval(o, c)
    requires Alternating(later, Some(ClosingKey(c)))
    requires c.limit.Some? ==> later == []
    requires (Vulnerable(later, v, false) && BeforeLimits(later, v)) == AdmitsTail(later, v)
    ensures (Vulnerable([o, c] + later, v, false) && BeforeLimits([o, c] + later, v))
         == (InInterval(o, c, v) || AdmitsTail(later, v))
  {
    hide KeyOf, KeyLess, VersionWord, AdmitsTail, Alternating;
    IntervalFlag(o, c, floor, v, later);
    LimitsConcat(o, c, v, later);
    if InInterval(o, c, v) {
      KeyOrder(KeyOf(v), ClosingKey(c), ClosingKey(c));
      FlagStays(later, ClosingKey(c), v, true);
      LimitsAhead(later, ClosingKey(c), v);
    }
  }

  lemma LimitsConcat(o: Event, c: Event, v: string, later: seq<Event>)
    requires o.Event? && o.limit.None? && c.Event?
    requires c.limit.Some? ==> later == []
    ensures BeforeLimits([o, c] + later, v)
         == if c.limit.Some? then VersionLess(v, c.limit.value) else BeforeLimits(later, v)
  {
    hide VersionLess;
    var events := [o, c] + later;
    assert forall e :: e in events <==> e == o || e == c || e in later;
    assert !HasLimit(o) && c in events;
    if c.limit.Some? {
      assert HasLimit(c);
    } else {
      assert !HasLimit(c);
      assert forall e | HasLimit(e) :: e in events <==> e in later;
    }
  }

  // ----- whole records

  predicate HasOpenFromZero(ranges: seq<Range>) { exists r | r in ranges :: OpenFromZero(UsedEvents(r)) }

  lemma {:induction false} RangesAgree(ranges: seq<Range>, v: string)
    requires forall r | r in ranges :: Alternating(UsedEvents(r), None)
    requires !HasOpenFromZero(ranges)
    ensures Admits(RangeAlternatives(ranges), v) == exists r | r in ranges :: IncludedInRange(r, v)
  {
    hide Alternating, UsedEvents, OpenFromZero, Vulnerable, BeforeLimits, AllHold, EventAlternatives;
    if ranges != [] {
      var first, rest := ranges[0], ranges[1..];
      assert first in ranges && forall r | r in rest :: r in ranges;
      assert ranges == [first] + rest;
      RangesAgree(rest, v);
      RangeAgrees(UsedEvents(first), None, v);
      AdmitsConcat(EventAlternatives(UsedEvents(first), None), RangeAlternatives(rest), v);
    }
  }

  lemma {:induction false} ExplicitAgree(versions: seq<string>, v: string)
    requires forall w | w in versions :: VersionWord(w)
    ensures Admits(ExplicitAlternatives(versions), v) == exists w | w in versions :: VersionEqual(v, w)
  {
    hide VersionWord, VersionEqual, AllHold, TokenHolds, Strip;
    if versions != [] {
      var w, rest := versions[0], versions[1..];
      assert w in versions && forall x | x in rest :: x in versions;
      assert versions == [w] + rest;
      WordStrip(w);
      ExplicitAgree(rest, v);
      ComparatorMeaning(v, Comparator(Eq, w));
      OneTokenHolds(v, "=" + w);
      AdmitsSplit(["=" + w], ExplicitAlternatives(rest), v);
    }
  }

  lemma {:induction false} EventTokens(events: seq<Event>, floor: Option<Key>)
    requires Alternating(events, floor)
    ensures forall a | a in EventAlternatives(events, None) :: TokenTexts(a)
    decreases |events|
  {
    hide Opens, Closes, NonEmptyInterval, ClosingKey, TokenTexts, EventAlternatives;
    if |events| == 1 {
      assert events == [events[0]];
      OpenTokens(events[0], floor);
    } else if events != [] {
      var o, c, later := events[0], events[1], events[2..];
      assert events == [o, c] + later;
      IntervalTokens(o, c, floor, later);
      EventTokens(later, Some(ClosingKey(c)));
    } else {
      NoAlternatives();
    }
  }

  lemma NoAlternatives()
    ensures EventAlternatives([], None) == []
  {
  }

  lemma OpenTokens(o: Event, floor: Option<Key>)
    requires Opens(o, floor)
    ensures forall a | a in EventAlternatives([o], None) :: TokenTexts(a)
  {
    hide VersionWord, TokenTexts, NewLower, ComparatorText;
    if o.introduced.value == "0" {
      OpensZero(o, floor);
      assert EventAlternatives([o], None) == [] by { assert [o][1..] == []; }
    } else {
      OnlyOpeningAlternative(o, floor);
      OpeningToken(o, floor);
    }
  }

  lemma OpeningToken(o: Event, floor: Option<Key>)
    requires Opens(o, floor) && o.introduced.value != "0"
    ensures TokenTexts([ComparatorText(Comparator(Ge, o.introduced.value))])
  {
    hide VersionWord, TokenText;
    ComparatorTextShape(Comparator(Ge, o.introduced.value));
  }

  lemma IntervalTokens(o: Event, c: Event, floor: Option<Key>, later: seq<Event>)
    requires Opens(o, floor) && Closes(c)
    ensures forall a | a in EventAlternatives([o, c] + later, None) ::
        a in EventAlternatives(later, None) || TokenTexts(a)
  {
    assert c.introduced.None?;
    IntervalAlternative(o, c, floor);
    ComparatorsMeaning("", IntervalComparators(o, c));
    hide *;
    IntervalUnfold(o, c, later);
  }

  lemma {:induction false} RangeTokens(ranges: seq<Range>)
    requires forall r | r in ranges :: Alternating(UsedEvents(r), None)
    ensures forall a | a in RangeAlternatives(ranges) :: TokenTexts(a)
  {
    hide Alternating, UsedEvents, TokenTexts, EventAlternatives;
    if ranges != [] {
      assert ranges[0] in ranges && forall r | r in ranges[1..] :: r in ranges;
      EventTokens(UsedEvents(ranges[0]), None);
      RangeTokens(ranges[1..]);
    }
  }

  lemma {:induction false} ExplicitTokens(versions: seq<string>)
    requires forall w | w in versions :: VersionWord(w)
    ensures forall a | a in ExplicitAlternatives(versions) :: TokenTexts(a)
  {
    hide VersionWord, Strip, TokenText;
    if versions != [] {
      assert versions[0] in versions && forall w | w in versions[1..] :: w in versions;
      WordStrip(versions[0]);
      ComparatorTextShape(Comparator(Eq, versions[0]));
      ExplicitTokens(versions[1..]);
    }
  }

  predicate AtLeastZero(v: string) { !VersionLess(v, "0") }

  lemma AnyVersionText(v: string)
    ensures Satisfies(v, ">=0") == AtLeastZero(v)
  {
    hide TokenHolds, VersionLess, AllHold, Satisfies, TokenText, Strip;
    var c, a := Comparator(Ge, "0"), [">=0"];
    assert VersionWord("0") by { ZeroWord(); }
    ComparatorMeaning(v, c);
    ComparatorTextShape(c);
    assert ComparatorText(c) == ">=0";
    OneTokenHolds(v, ">=0");
    assert TokenTexts(a);
    PrintRangeMeaning([a], v);
    assert PrintRange([a]) == ">=0";
    AdmitsSplit(a, [], v);
    assert [a] + [] == [a];
    assert PrintAlternatives([a]) == [">=0"];
  }

  /** An event without any of the keys, which the schema does not allow, makes everything from 0
      affected. */
  lemma EmptyEventAffectsAll(r: Range, v: string)
    requires r.Range? && !IsGit(r) && r.events == Some([Event(None, None, None, None)])
    ensures Satisfies(v, AffectedText([r], [])) <==> AtLeastZero(v)
  {
    EmptyEventAlternative(r);
    hide Satisfies, Alternatives, AtLeastZero;
    SingleToken(">=0");
    assert PrintAlternatives([[">=0"]]) == [">=0"];
    AnyVersionText(v);
  }

  lemma EmptyEventAlternative(r: Range)
    requires r.Range? && !IsGit(r) && r.events == Some([Event(None, None, None, None)])
    ensures Alternatives([r], []) == [[">=0"]]
  {
    var e := Event(None, None, None, None);
    assert [r][1..] == [] && [e][1..] == [];
    assert ClosingAlternative(None, e) == [">=0"];
    assert EventAlternatives([e], None) == [[">=0"]];
    assert RangeAlternatives([r]) == [[">=0"]];
  }

  lemma ZeroWord()
    ensures VersionWord("0")
  {
  }

  /** What the stored text means, for every record the schema allows and every version: the
      alternatives it was built from, or every version from 0 when there were none. */
  lemma TextMeaning(ranges: seq<Range>, versions: seq<string>, v: string)
    requires WellFormed(ranges, versions)
    ensures Satisfies(v, AffectedText(ranges, versions))
         == if Alternatives(ranges, versions) == [] then AtLeastZero(v) else Admits(Alternatives(ranges, versions), v)
  {
    hide Satisfies, TokenTexts, Alternating, VersionWord, AtLeastZero;
    var alternatives := Alternatives(ranges, versions);
    if alternatives == [] {
      AnyVersionText(v);
    } else {
      RangeTokens(ranges);
      ExplicitTokens(versions);
      PrintRangeMeaning(alternatives, v);
    }
  }

  /** The compiler preserves meaning: without an open-ended `introduced: 0`, the text accepts
      exactly the versions the schema's evaluation marks as affected - and everything from 0 when
      there is nothing to compile. */
  lemma CompilationPreservesMeaning(ranges: seq<Range>, versions: seq<string>, v: string)
    requires WellFormed(ranges, versions) && !HasOpenFromZero(ranges)
    ensures Satisfies(v, AffectedText(ranges, versions))
         == (OsvAffected(ranges, versions, v) || (Alternatives(ranges, versions) == [] && AtLeastZero(v)))
    ensures Alternatives(ranges, versions) == [] ==> !OsvAffected(ranges, versions, v)
  {
    hide Satisfies, Admits, Alternating, VersionWord, VersionEqual, IncludedInRange, AtLeastZero;
    TextMeaning(ranges, versions, v);
    RangesAgree(ranges, v);
    ExplicitAgree(versions, v);
    AdmitsConcat(RangeAlternatives(ranges), ExplicitAlternatives(versions), v);
    AdmitsNothing(v);
  }

  lemma AdmitsNothing(v: string)
    ensures !Admits([], v)
  {
  }

  lemma OpenFromZeroAffectsAll(ranges: seq<Range>, versions: seq<string>, v: string)
    requires HasOpenFromZero(ranges)
    ensures OsvAffected(ranges, versions, v)
  {
    hide UsedEvents;
    var r :| r in ranges && OpenFromZero(UsedEvents(r));
    OpenFromZeroIncludes(v);
    assert IncludedInRange(r, v);
  }

  lemma OpenFromZeroIncludes(v: string)
    ensures Vulnerable([Introduced("0")], v, false) && BeforeLimits([Introduced("0")], v)
  {
    StripTrim("0");
    hide VersionLess, Strip;
    assert [Introduced("0")][1..] == [];
  }

  // ----- where the text misses versions

  /** Every interval of the range is closed. */
  predicate Bounded(events: seq<Event>) { |events| % 2 == 0 }

  lemma AboveInterval(o: Event, c: Event, m: nat)
    requires o.Event? && o.introduced.Some? && Closes(c) && m > ClosingKey(c).a
    ensures !InInterval(o, c, Dotted([m]))
  {
    KeyOfDotted([m]);
    hide KeyOf, VersionWord, PreLess;
  }

  lemma {:induction false} AboveEvents(events: seq<Event>, floor: Option<Key>) returns (n: nat)
    requires Alternating(events, floor) && Bounded(events)
    ensures forall m: nat | m >= n :: !AdmitsTail(events, Dotted([m]))
    decreases |events|
  {
    hide Opens, Closes, AdmitsTail, NonEmptyInterval, AtOrAbove, ClosingKey, Dotted;
    if events == [] {
      n := 0;
      forall m: nat | m >= n ensures !AdmitsTail(events, Dotted([m])) { NoEvents(Dotted([m])); }
    } else {
      var o, c, later := events[0], events[1], events[2..];
      n := AboveEvents(later, Some(ClosingKey(c)));
      var top := ClosingKey(c).a + 1;
      n := if n < top then top else n;
      assert events == [o, c] + later;
      forall m: nat | m >= n ensures !AdmitsTail(events, Dotted([m])) { AboveStep(o, c, floor, m, later); }
    }
  }

  lemma AboveStep(o: Event, c: Event, floor: Option<Key>, m: nat, later: seq<Event>)
    requires Opens(o, floor) && Closes(c) && m > ClosingKey(c).a
    ensures AdmitsTail([o, c] + later, Dotted([m])) == AdmitsTail(later, Dotted([m]))
  {
    hide Closes, ClosingKey, AdmitsTail, InInterval, Dotted, VersionWord;
    AboveInterval(o, c, m);
    IntervalCompiled(o, c, floor, Dotted([m]), later);
  }

  lemma {:induction false} AboveRanges(ranges: seq<Range>) returns (n: nat)
    requires forall r | r in ranges :: Alternating(UsedEvents(r), None)
    requires forall r | r in ranges :: Bounded(UsedEvents(r)) || OpenFromZero(UsedEvents(r))
    ensures forall m: nat | m >= n :: !Admits(RangeAlternatives(ranges), Dotted([m]))
  {
    hide Alternating, UsedEvents, AllHold, Dotted, EventAlternatives, Bounded;
    n := 0;
    if ranges != [] {
      var first, rest := ranges[0], ranges[1..];
      assert first in ranges && forall r | r in rest :: r in ranges;
      n := AboveRanges(rest);
      var k := AboveFirst(UsedEvents(first));
      n := if n < k then k else n;
      forall m: nat | m >= n ensures !Admits(RangeAlternatives(ranges), Dotted([m])) {
        AdmitsConcat(EventAlternatives(UsedEvents(first), None), RangeAlternatives(rest), Dotted([m]));
      }
    }
  }

  lemma AboveFirst(events: seq<Event>) returns (n: nat)
    requires Alternating(events, None) && (Bounded(events) || OpenFromZero(events))
    ensures forall m: nat | m >= n :: !Admits(EventAlternatives(events, None), Dotted([m]))
  {
    hide EventAlternatives, Opens, Closes, Alternating, AllHold, Dotted;
    if Bounded(events) {
      n := AboveEvents(events, None);
      forall m: nat | m >= n ensures !Admits(EventAlternatives(events, None), Dotted([m])) {
        assert !AdmitsTail(events, Dotted([m]));
      }
    } else {
      n := 0;
      OpenAdmitsNothing(events);
    }
  }

  lemma OpenAdmitsNothing(events: seq<Event>)
    requires OpenFromZero(events)
    ensures EventAlternatives(events, None) == []
  {
    StripTrim("0");
    assert events[1..] == [];
    hide Strip;
  }

  lemma {:induction false} AboveExplicit(versions: seq<string>) returns (n: nat)
    ensures forall m: nat, w | m >= n && w in versions :: !VersionEqual(Dotted([m]), w)
  {
    n := 0;
    if versions != [] {
      n := AboveExplicit(versions[1..]);
      var top := KeyOf(versions[0]).a + 1;
      n := if n < top then top else n;
      forall m: nat, w | m >= n && w in versions ensures !VersionEqual(Dotted([m]), w) {
        if w == versions[0] {
          KeyOfDotted([m]);
          hide KeyOf, PreLess;
        } else {
          assert w in versions[1..];
        }
      }
    }
  }

  /** An open-ended `introduced: 0` is lost as soon as the record has another alternative: the
      text then misses a version, unless some range of the record is itself unbounded above. */
  lemma OpenFromZeroIsLost(ranges: seq<Range>, versions: seq<string>) returns (v: string)
    requires WellFormed(ranges, versions) && HasOpenFromZero(ranges)
    requires Alternatives(ranges, versions) != []
    requires forall r | r in ranges :: Bounded(UsedEvents(r)) || OpenFromZero(UsedEvents(r))
    ensures AtLeastZero(v) && OsvAffected(ranges, versions, v) && !Satisfies(v, AffectedText(ranges, versions))
  {
    hide Alternating, Satisfies, VersionWord, UsedEvents, OpenFromZero, AllHold, VersionEqual;
    var n := AboveRanges(ranges);
    var k := AboveExplicit(versions);
    var m := if n < k then k else n;
    v := Dotted([m]);
    OpenFromZeroAffectsAll(ranges, versions, v);
    TextMeaning(ranges, versions, v);
    ExplicitAgree(versions, v);
    AdmitsConcat(RangeAlternatives(ranges), ExplicitAlternatives(versions), v);
    ReleaseAtLeastZero(m);
  }

  lemma ReleaseAtLeastZero(m: nat)
    ensures AtLeastZero(Dotted([m]))
  {
    hide KeyOf, Dotted;
    KeyOfDotted([m]);
    KeyOfDotted([0]);
    ZeroDotted();
  }

  lemma ZeroDotted()
    ensures Dotted([0]) == "0"
  {
    hide Dotted, NatText;
    DottedUnfold([0]);
    NatTextZero(0);
  }

  // ----- records of one range

  function OneRange(events: seq<Event>): seq<Range> { [Range("SEMVER", Some(events))] }

  lemma SemverIsUsed(events: seq<Event>)
    ensures UsedEvents(OneRange(events)[0]) == events
  {
    assert Upper("SEMVER")[0] == 'S' && "GIT"[0] == 'G';
  }

  lemma OneRangeAlternatives(events: seq<Event>)
    ensures Alternatives(OneRange(events), []) == EventAlternatives(events, None)
  {
    hide UsedEvents, EventAlternatives;
    SemverIsUsed(events);
    var e, ranges := EventAlternatives(events, None), OneRange(events);
    assert ranges[1..] == [] && e + [] == e;
    assert RangeAlternatives(ranges) == e + RangeAlternatives([]);
  }

  lemma OneRangeWellFormed(events: seq<Event>)
    requires Alternating(events, None)
    ensures WellFormed(OneRange(events), [])
  {
    hide UsedEvents, Alternating;
    SemverIsUsed(events);
  }

  lemma OneRangeMeaning(events: seq<Event>, v: string)
    requires Alternating(events, None) && EventAlternatives(events, None) != []
    ensures Satisfies(v, AffectedText(OneRange(events), [])) == AdmitsTail(events, v)
  {
    OneRangeAlternatives(events);
    OneRangeWellFormed(events);
    hide Alternating, WellFormed, Alternatives, EventAlternatives, Satisfies, AffectedText, Admits;
    TextMeaning(OneRange(events), [], v);
  }
}
