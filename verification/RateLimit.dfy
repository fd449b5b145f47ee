/** The sliding-window rate limiter: the in-memory log, the database log it must agree with, and
    the limiter on top. Times are real numbers; one operation runs at a time. */
module RateLimit {

  // ----- one key: the log of hit times

  /** The log without its leading hits at or before the cutoff. */
  function Pruned(bucket: seq<real>, cutoff: real): seq<real> {
    if bucket != [] && bucket[0] <= cutoff then Pruned(bucket[1..], cutoff) else bucket
  }

  function Max(a: int, b: int): int { if a < b then b else a }

  /** `int(x)`: truncation toward zero. */
  function Truncate(x: real): int { if x >= 0.0 then x.Floor else -((-x).Floor) }

  /** Seconds until the oldest of the `limit` most recent hits leaves the window. */
  function RetryFrom(times: seq<real>, now: real, window: real, limit: nat): (r: int)
    requires limit >= 1
    ensures r == 0 <==> times == []
  {
    if times == [] then 0
    else Max(1, Truncate(times[Max(0, |times| - limit)] + window - now) + 1)
  }

  // ----- the in-memory store

  type Hits = map<string, seq<real>>

  function BucketOf(hits: Hits, key: string): seq<real> { if key in hits then hits[key] else [] }

  function Recorded(bucket: seq<real>, now: real, window: real): seq<real> { Pruned(bucket, now - window) + [now] }

  class InMemoryStore {
    var hits: Hits

    constructor ()
      ensures hits == map[]
    {
      hits := map[];
    }

    /** Pops from the front of the bucket. */
    static method Prune(bucket: seq<real>, now: real, window: real) returns (pruned: seq<real>)
      ensures pruned == Pruned(bucket, now - window)
    {
      var cutoff := now - window;
      pruned := bucket;
      while pruned != [] && pruned[0] <= cutoff
        invariant Pruned(pruned, cutoff) == Pruned(bucket, cutoff)
      {
        pruned := pruned[1..];
      }
    }

    method RecordAndCount(key: string, now: real, window: real) returns (count: nat)
      modifies this
      ensures hits == old(hits)[key := Recorded(BucketOf(old(hits), key), now, window)]
      ensures count == |hits[key]|
    {
      var bucket := Prune(BucketOf(hits, key), now, window);
      hits := hits[key := bucket + [now]];
      count := |hits[key]|;
    }

    method Reset(key: string)
      modifies this
      ensures hits == old(hits) - {key}
    {
      hits := hits - {key};
    }

    /** Prunes the bucket in place, if there is one. */
    method RetryAfter(key: string, now: real, window: real, limit: nat) returns (seconds: int)
      requires limit >= 1
      modifies this
      ensures hits == AfterRetry(old(hits), key, now, window)
      ensures seconds == RetryFrom(Pruned(BucketOf(old(hits), key), now - window), now, window, limit)
    {
      if key !in hits || hits[key] == [] {
        return 0;
      }
      var bucket := Prune(hits[key], now, window);
      hits := hits[key := bucket];
      if bucket == [] {
        return 0;
      }
      var index := Max(0, |bucket| - limit);
      seconds := Max(1, Truncate(bucket[index] + window - now) + 1);
    }
  }

  function AfterRetry(hits: Hits, key: string, now: real, window: real): Hits {
    if BucketOf(hits, key) == [] then hits else hits[key := Pruned(hits[key], now - window)]
  }

  // ----- the database store

  datatype Row = Row(key: string, hitAt: real)

  /** `DELETE WHERE key = :key AND hit_at <= :cutoff` */
  function DeleteUpTo(table: seq<Row>, key: string, cutoff: real): seq<Row> {
    if table == [] then []
    else if table[0].key == key && table[0].hitAt <= cutoff then DeleteUpTo(table[1..], key, cutoff)
    else [table[0]] + DeleteUpTo(table[1..], key, cutoff)
  }

  /** `DELETE WHERE key = :key` */
  function DeleteKey(table: seq<Row>, key: string): seq<Row> {
    if table == [] then []
    else if table[0].key == key then DeleteKey(table[1..], key)
    else [table[0]] + DeleteKey(table[1..], key)
  }

  /** `SELECT hit_at WHERE key = :key AND hit_at > :cutoff`, in table order. */
  function SelectAfter(table: seq<Row>, key: string, cutoff: real): seq<real> {
    if table == [] then []
    else if table[0].key == key && table[0].hitAt > cutoff then [table[0].hitAt] + SelectAfter(table[1..], key, cutoff)
    else SelectAfter(table[1..], key, cutoff)
  }

  function InsertTime(x: real, times: seq<real>): seq<real> {
    if times == [] || x <= times[0] then [x] + times else [times[0]] + InsertTime(x, times[1..])
  }

  /** `ORDER BY hit_at` */
  function OrderByTime(times: seq<real>): seq<real> {
    if times == [] then [] else InsertTime(times[0], OrderByTime(times[1..]))
  }

  class DatabaseStore {
    var table: seq<Row>

    constructor ()
      ensures table == []
    {
      table := [];
    }

    method RecordAndCount(key: string, now: real, window: real) returns (count: nat)
      modifies this
      ensures table == DeleteUpTo(old(table), key, now - window) + [Row(key, now)]
      ensures count == |SelectAfter(table, key, now - window)|
    {
      var cutoff := now - window;
      table := DeleteUpTo(table, key, cutoff);
      table := table + [Row(key, now)];
      count := |SelectAfter(table, key, cutoff)|;
    }

    method Reset(key: string)
      modifies this
      ensures table == DeleteKey(old(table), key)
    {
      table := DeleteKey(table, key);
    }

    method RetryAfter(key: string, now: real, window: real, limit: nat) returns (seconds: int)
      requires limit >= 1
      ensures seconds == RetryFrom(OrderByTime(SelectAfter(table, key, now - window)), now, window, limit)
    {
      var rows := OrderByTime(SelectAfter(table, key, now - window));
      if rows == [] {
        return 0;
      }
      var index := Max(0, |rows| - limit);
      seconds := Max(1, Truncate(rows[index] + window - now) + 1);
    }
  }

  // ----- sequences of store operations

  datatype Op =
    | RecordOp(key: string, now: real)
    | RetryOp(key: string, now: real, limit: nat)
    | ResetOp(key: string)

  /** What the caller sees. */
  datatype Response = Count(n: nat) | Seconds(s: int) | Done

  /** The window configured for each key. */
  type Windows = string -> real

  function MemStep(hits: Hits, op: Op, windows: Windows): (Hits, Response)
    requires op.RetryOp? ==> op.limit >= 1
  {
    match op
    case RecordOp(key, now) =>
      var bucket := Recorded(BucketOf(hits, key), now, windows(key));
      (hits[key := bucket], Count(|bucket|))
    case RetryOp(key, now, limit) =>
      (AfterRetry(hits, key, now, windows(key)),
       Seconds(RetryFrom(Pruned(BucketOf(hits, key), now - windows(key)), now, windows(key), limit)))
    case ResetOp(key) => (hits - {key}, Done)
  }

  function DbStep(table: seq<Row>, op: Op, windows: Windows): (seq<Row>, Response)
    requires op.RetryOp? ==> op.limit >= 1
  {
    match op
    case RecordOp(key, now) =>
      var t := DeleteUpTo(table, key, now - windows(key)) + [Row(key, now)];
      (t, Count(|SelectAfter(t, key, now - windows(key))|))
    case RetryOp(key, now, limit) =>
      (table, Seconds(RetryFrom(OrderByTime(SelectAfter(table, key, now - windows(key))), now, windows(key), limit)))
    case ResetOp(key) => (DeleteKey(table, key), Done)
  }

  predicate LimitsPositive(ops: seq<Op>) { forall op | op in ops :: op.RetryOp? ==> op.limit >= 1 }

  function MemResponses(hits: Hits, ops: seq<Op>, windows: Windows): (r: seq<Response>)
    requires LimitsPositive(ops)
    ensures |r| == |ops|
    decreases |ops|
  {
    if ops == [] then []
    else
      assert ops[0] in ops && forall op | op in ops[1..] :: op in ops;
      var (h, r) := MemStep(hits, ops[0], windows);
      [r] + MemResponses(h, ops[1..], windows)
  }

  function DbResponses(table: seq<Row>, ops: seq<Op>, windows: Windows): (r: seq<Response>)
    requires LimitsPositive(ops)
    ensures |r| == |ops|
    decreases |ops|
  {
    if ops == [] then []
    else
      assert ops[0] in ops && forall op | op in ops[1..] :: op in ops;
      var (t, r) := DbStep(table, ops[0], windows);
      [r] + DbResponses(t, ops[1..], windows)
  }

  /** Times never go back. */
  predicate Timely(ops: seq<Op>, last: real)
    decreases |ops|
  {
    ops != [] ==>
      if ops[0].ResetOp? then Timely(ops[1..], last)
      else last <= ops[0].now && Timely(ops[1..], ops[0].now)
  }

  // ----- the two stores hold the same window

  /** Non-decreasing times, none after `last`. */
  predicate Ascending(times: seq<real>, last: real) {
    times != [] ==> times[0] <= (if |times| > 1 then times[1] else last) && Ascending(times[1..], last)
  }

  function TimesOf(table: seq<Row>, key: string): seq<real> {
    if table == [] then []
    else if table[0].key == key then [table[0].hitAt] + TimesOf(table[1..], key)
    else TimesOf(table[1..], key)
  }

  /** Keeping the times after the cutoff. */
  function KeepAfter(times: seq<real>, cutoff: real): seq<real> {
    if times == [] then []
    else if times[0] > cutoff then [times[0]] + KeepAfter(times[1..], cutoff)
    else KeepAfter(times[1..], cutoff)
  }

  /** The two logs of a key agree from the start of the window on, now and at any later time. */
  ghost predicate SameWindow(bucket: seq<real>, rows: seq<real>, last: real, window: real) {
    && Ascending(bucket, last) && Ascending(rows, last)
    && forall cutoff | cutoff >= last - window :: KeepAfter(bucket, cutoff) == KeepAfter(rows, cutoff)
  }

  ghost predicate SameWindows(hits: Hits, table: seq<Row>, last: real, windows: Windows) {
    forall key :: SameWindow(BucketOf(hits, key), TimesOf(table, key), last, windows(key))
  }

  lemma {:induction false} SelectIsKeep(table: seq<Row>, key: string, cutoff: real)
    ensures SelectAfter(table, key, cutoff) == KeepAfter(TimesOf(table, key), cutoff)
  {
    if table != [] {
      SelectIsKeep(table[1..], key, cutoff);
    }
  }

  lemma {:induction false} DeletedTimes(table: seq<Row>, key: string, cutoff: real, other: string)
    ensures TimesOf(DeleteUpTo(table, key, cutoff), other)
         == if other == key then KeepAfter(TimesOf(table, key), cutoff) else TimesOf(table, other)
  {
    if table != [] {
      DeletedTimes(table[1..], key, cutoff, other);
    }
  }

  lemma {:induction false} ResetTimes(table: seq<Row>, key: string, other: string)
    ensures TimesOf(DeleteKey(table, key), other) == if other == key then [] else TimesOf(table, other)
  {
    if table != [] {
      ResetTimes(table[1..], key, other);
    }
  }

  lemma {:induction false} AppendedTimes(table: seq<Row>, row: Row, key: string)
    ensures TimesOf(table + [row], key) == TimesOf(table, key) + if row.key == key then [row.hitAt] else []
  {
    if table == [] {
      assert table + [row] == [row] && [row][1..] == [];
    } else {
      assert (table + [row])[1..] == table[1..] + [row];
      AppendedTimes(table[1..], row, key);
    }
  }

  lemma {:induction false} KeepAppend(times: seq<real>, x: real, cutoff: real)
    ensures KeepAfter(times + [x], cutoff) == KeepAfter(times, cutoff) + if x > cutoff then [x] else []
  {
    if times == [] {
      assert times + [x] == [x] && [x][1..] == [];
    } else {
      assert (times + [x])[1..] == times[1..] + [x];
      KeepAppend(times[1..], x, cutoff);
    }
  }

  /** Keeping less afterwards is keeping less at once. */
  lemma {:induction false} KeepTwice(times: seq<real>, early: real, late: real)
    requires early <= late
    ensures KeepAfter(KeepAfter(times, early), late) == KeepAfter(times, late)
  {
    if times != [] {
      KeepTwice(times[1..], early, late);
    }
  }

  /** In a log in order, popping from the front is keeping what is after the cutoff, and ordering
      changes nothing. */
  lemma {:induction false} InOrder(times: seq<real>, last: real, cutoff: real)
    requires Ascending(times, last)
    ensures Pruned(times, cutoff) == KeepAfter(times, cutoff)
    ensures times != [] && times[0] > cutoff ==> KeepAfter(times, cutoff) == times
    ensures OrderByTime(times) == times
  {
    if times != [] {
      InOrder(times[1..], last, cutoff);
      assert [times[0]] + times[1..] == times;
    }
  }

  lemma {:induction false} KeepInOrder(times: seq<real>, last: real, cutoff: real, now: real)
    requires Ascending(times, last) && last <= now
    ensures Ascending(KeepAfter(times, cutoff), now)
    ensures Ascending(KeepAfter(times, cutoff) + [now], now)
  {
    if times != [] {
      KeepInOrder(times[1..], last, cutoff, now);
      if times[0] > cutoff {
        InOrder(times[1..], last, cutoff);
        assert KeepAfter(times, cutoff) == times by { InOrder(times, last, cutoff); }
        LaterInOrder(times, last, now);
      }
    }
  }

  lemma {:induction false} LaterInOrder(times: seq<real>, last: real, now: real)
    requires Ascending(times, last) && last <= now
    ensures Ascending(times, now) && Ascending(times + [now], now)
  {
    if times != [] {
      LaterInOrder(times[1..], last, now);
      assert (times + [now])[1..] == times[1..] + [now];
    } else {
      assert times + [now] == [now];
    }
  }

  /** After a hit the two logs are equal, and all of it is in the window. */
  lemma RecordedSame(bucket: seq<real>, rows: seq<real>, last: real, window: real, now: real)
    requires SameWindow(bucket, rows, last, window) && last <= now && window > 0.0
    ensures Recorded(bucket, now, window) == KeepAfter(rows, now - window) + [now]
    ensures KeepAfter(Recorded(bucket, now, window), now - window) == Recorded(bucket, now, window)
    ensures Ascending(Recorded(bucket, now, window), now)
  {
    InOrder(bucket, last, now - window);
    KeepTwice(bucket, now - window, now - window);
    KeepAppend(KeepAfter(bucket, now - window), now, now - window);
    KeepInOrder(bucket, last, now - window, now);
  }

  lemma RetrySame(bucket: seq<real>, rows: seq<real>, last: real, window: real, now: real)
    requires SameWindow(bucket, rows, last, window) && last <= now
    ensures OrderByTime(KeepAfter(rows, now - window)) == Pruned(bucket, now - window)
    ensures SameWindow(Pruned(bucket, now - window), rows, now, window)
  {
    InOrder(bucket, last, now - window);
    KeepInOrder(rows, last, now - window, now);
    KeepInOrder(bucket, last, now - window, now);
    InOrder(KeepAfter(rows, now - window), now, now);
    LaterInOrder(rows, last, now);
    forall cutoff | cutoff >= now - window
      ensures KeepAfter(Pruned(bucket, now - window), cutoff) == KeepAfter(rows, cutoff)
    {
      KeepTwice(bucket, now - window, cutoff);
    }
  }

  lemma WaitSame(bucket: seq<real>, rows: seq<real>, last: real, window: real, now: real)
    requires SameWindow(bucket, rows, last, window) && last <= now
    ensures SameWindow(bucket, rows, now, window)
  {
    LaterInOrder(rows, last, now);
    LaterInOrder(bucket, last, now);
  }

  // ----- the refinement

  function OpTime(op: Op, last: real): real { if op.ResetOp? then last else op.now }

  lemma StepSame(hits: Hits, table: seq<Row>, last: real, op: Op, windows: Windows, key: string)
    requires SameWindows(hits, table, last, windows) && last <= OpTime(op, last) && windows(op.key) > 0.0
    requires op.RetryOp? ==> op.limit >= 1
    ensures SameWindow(BucketOf(MemStep(hits, op, windows).0, key), TimesOf(DbStep(table, op, windows).0, key),
        OpTime(op, last), windows(key))
    ensures key == op.key ==> MemStep(hits, op, windows).1 == DbStep(table, op, windows).1
  {
    hide SameWindow, MemStep, DbStep;
    assert SameWindow(BucketOf(hits, key), TimesOf(table, key), last, windows(key));
    match op
    case RecordOp(_, _) => RecordStepSame(hits, table, last, op, windows, key);
    case RetryOp(_, _, _) => RetryStepSame(hits, table, last, op, windows, key);
    case ResetOp(_) => ResetStepSame(hits, table, last, op, windows, key);
  }

  lemma RecordStepSame(hits: Hits, table: seq<Row>, last: real, op: Op, windows: Windows, key: string)
    requires op.RecordOp? && last <= op.now && windows(op.key) > 0.0
    requires SameWindow(BucketOf(hits, key), TimesOf(table, key), last, windows(key))
    ensures SameWindow(BucketOf(MemStep(hits, op, windows).0, key), TimesOf(DbStep(table, op, windows).0, key), op.now,
        windows(key))
    ensures key == op.key ==> MemStep(hits, op, windows).1 == DbStep(table, op, windows).1
  {
    hide SameWindow, KeepAfter, Recorded, DeleteUpTo, SelectAfter, TimesOf;
    var w, k, now := windows(op.key), op.key, op.now;
    var bucket, rows := BucketOf(hits, key), TimesOf(table, key);
    DeletedTimes(table, k, now - w, key);
    AppendedTimes(DeleteUpTo(table, k, now - w), Row(k, now), key);
    if k == key {
      SelectIsKeep(DeleteUpTo(table, k, now - w) + [Row(k, now)], k, now - w);
      RecordedSame(bucket, rows, last, w, now);
      SameLog(Recorded(bucket, now, w), now, w);
    } else {
      WaitSame(bucket, rows, last, windows(key), now);
      assert rows + [] == rows;
    }
  }

  lemma RetryStepSame(hits: Hits, table: seq<Row>, last: real, op: Op, windows: Windows, key: string)
    requires op.RetryOp? && last <= op.now && windows(op.key) > 0.0 && op.limit >= 1
    requires SameWindow(BucketOf(hits, key), TimesOf(table, key), last, windows(key))
    ensures SameWindow(BucketOf(MemStep(hits, op, windows).0, key), TimesOf(DbStep(table, op, windows).0, key), op.now,
        windows(key))
    ensures key == op.key ==> MemStep(hits, op, windows).1 == DbStep(table, op, windows).1
  {
    hide SameWindow, Pruned, KeepAfter, RetryFrom, OrderByTime, SelectAfter, TimesOf;
    var w, k, now := windows(op.key), op.key, op.now;
    var bucket, rows := BucketOf(hits, key), TimesOf(table, key);
    WaitSame(bucket, rows, last, windows(key), now);
    if k == key {
      SelectIsKeep(table, k, now - w);
      RetrySame(bucket, rows, last, w, now);
      NoBucket(now - w);
    }
  }

  lemma ResetStepSame(hits: Hits, table: seq<Row>, last: real, op: Op, windows: Windows, key: string)
    requires op.ResetOp? && SameWindow(BucketOf(hits, key), TimesOf(table, key), last, windows(key))
    ensures SameWindow(BucketOf(MemStep(hits, op, windows).0, key), TimesOf(DbStep(table, op, windows).0, key), last,
        windows(key))
    ensures key == op.key ==> MemStep(hits, op, windows).1 == DbStep(table, op, windows).1
  {
    hide SameWindow, DeleteKey, TimesOf;
    ResetTimes(table, op.key, key);
    if op.key == key {
      EmptyInOrder(last);
      SameLog([], last, windows(key));
    }
  }

  lemma SameLog(log: seq<real>, last: real, window: real)
    ensures Ascending(log, last) ==> SameWindow(log, log, last, window)
  {
  }

  lemma EmptyInOrder(last: real)
    ensures Ascending([], last)
  {
  }

  lemma NoBucket(cutoff: real)
    ensures Pruned([], cutoff) == []
  {
  }

  /** Refinement: for operations in time order and a positive window per key, the in-memory store
      answers exactly as the database store. */
  lemma {:induction false} StoresAgreeFrom(hits: Hits, table: seq<Row>, last: real, ops: seq<Op>, windows: Windows)
    requires SameWindows(hits, table, last, windows) && Timely(ops, last) && LimitsPositive(ops)
    requires forall key :: windows(key) > 0.0
    ensures MemResponses(hits, ops, windows) == DbResponses(table, ops, windows)
    decreases |ops|
  {
    hide SameWindow, MemStep, DbStep;
    if ops != [] {
      assert ops[0] in ops && forall op | op in ops[1..] :: op in ops;
      var h, t := MemStep(hits, ops[0], windows), DbStep(table, ops[0], windows);
      forall key ensures SameWindow(BucketOf(h.0, key), TimesOf(t.0, key), OpTime(ops[0], last), windows(key)) {
        StepSame(hits, table, last, ops[0], windows, key);
      }
      StepSame(hits, table, last, ops[0], windows, ops[0].key);
      StoresAgreeFrom(h.0, t.0, OpTime(ops[0], last), ops[1..], windows);
    }
  }

  lemma StoresAgree(start: real, ops: seq<Op>, windows: Windows)
    requires Timely(ops, start) && LimitsPositive(ops) && forall key :: windows(key) > 0.0
    ensures MemResponses(map[], ops, windows) == DbResponses([], ops, windows)
  {
    StoresAgreeFrom(map[], [], start, ops, windows);
  }

  function FiveSeconds(key: string): real { 5.0 }

  /** A clock that steps back breaks the agreement: the front of the deque shields an older hit
      behind it. */
  lemma ClockMustNotStepBack(key: string)
    ensures var ops, windows := [RecordOp(key, 10.0), RecordOp(key, 3.0), RecordOp(key, 9.0)], FiveSeconds;
            MemResponses(map[], ops, windows)[2] == Count(3) && DbResponses([], ops, windows)[2] == Count(2)
  {
    var w := FiveSeconds;
    var a, b, c := RecordOp(key, 10.0), RecordOp(key, 3.0), RecordOp(key, 9.0);
    var ops := [a, b, c];
    assert ops[1..] == [b, c] && [b, c][1..] == [c];
    var h2: Hits := map[key := [10.0, 3.0]];
    var t2 := [Row(key, 10.0), Row(key, 3.0)];
    DequeStepsBack(key);
    TableStepsBack(key);
    hide MemStep, DbStep;
    assert MemResponses(h2, [c], w) == [Count(3)] && DbResponses(t2, [c], w) == [Count(2)];
  }

  lemma DequeStepsBack(key: string)
    ensures var h1, h2: Hits := map[key := [10.0]], map[key := [10.0, 3.0]];
            && MemStep(map[], RecordOp(key, 10.0), FiveSeconds).0 == h1
            && MemStep(h1, RecordOp(key, 3.0), FiveSeconds).0 == h2
            && MemStep(h2, RecordOp(key, 9.0), FiveSeconds).1 == Count(3)
  {
    assert [] + [10.0] == [10.0] && [10.0] + [3.0] == [10.0, 3.0] && [10.0, 3.0] + [9.0] == [10.0, 3.0, 9.0];
  }

  lemma TableStepsBack(key: string)
    ensures var t1, t2 := [Row(key, 10.0)], [Row(key, 10.0), Row(key, 3.0)];
            && DbStep([], RecordOp(key, 10.0), FiveSeconds).0 == t1
            && DbStep(t1, RecordOp(key, 3.0), FiveSeconds).0 == t2
            && DbStep(t2, RecordOp(key, 9.0), FiveSeconds).1 == Count(2)
  {
    var t1, t2, t3 := [Row(key, 10.0)], [Row(key, 10.0), Row(key, 3.0)], [Row(key, 10.0), Row(key, 9.0)];
    assert t1[1..] == [] && t2[1..] == [Row(key, 3.0)] && t3[1..] == [Row(key, 9.0)];
    assert [Row(key, 3.0)][1..] == [] && [Row(key, 9.0)][1..] == [];
    assert DeleteUpTo([], key, -2.0) == [] && DeleteUpTo(t1, key, -2.0) == t1 && t1 + [Row(key, 3.0)] == t2;
    assert DbStep([], RecordOp(key, 10.0), FiveSeconds).0 == [] + t1;
    assert DbStep(t1, RecordOp(key, 3.0), FiveSeconds).0 == t2;
    assert DeleteUpTo([], key, 4.0) == [] && DeleteUpTo([Row(key, 3.0)], key, 4.0) == [];
    assert DeleteUpTo(t2, key, 4.0) == t1 && t1 + [Row(key, 9.0)] == t3;
    assert DbStep(t2, RecordOp(key, 9.0), FiveSeconds).0 == t3;
    assert SelectAfter(t3[1..], key, 4.0) == [9.0] && SelectAfter(t3, key, 4.0) == [10.0, 9.0];
  }

  // ----- the limiter

  datatype Decision = Decision(allowed: bool, remaining: int, retryAfter: int, limit: int)

  /** The decision on the count and the pruned bucket after a hit was recorded. */
  function Decide(bucket: seq<real>, limit: int, window: real, now: real): Decision
    requires limit >= 1
  {
    if |bucket| <= limit then Decision(true, limit - |bucket|, 0, limit)
    else Decision(false, 0, Max(1, RetryFrom(Pruned(bucket, now - window), now, window, limit)), limit)
  }

  /** The decision of one check on the store's log. */
  function CheckDecision(hits: Hits, key: string, limit: int, window: real, now: real): Decision {
    if limit <= 0 then Decision(true, limit, 0, limit)
    else Decide(Recorded(BucketOf(hits, key), now, window), limit, window, now)
  }

  /** The log after one check: the hit is recorded whether or not it is allowed, and a blocked check
      prunes once more for the retry time. */
  function AfterCheck(hits: Hits, key: string, limit: int, window: real, now: real): Hits {
    var bucket := Recorded(BucketOf(hits, key), now, window);
    if limit <= 0 then hits
    else hits[key := if |bucket| <= limit then bucket else Pruned(bucket, now - window)]
  }

  class RateLimiter {
    const store: InMemoryStore
    const enabled: bool
    var blocked: nat

    constructor (store: InMemoryStore, enabled: bool)
      ensures this.store == store && this.enabled == enabled && blocked == 0
    {
      this.store, this.enabled, blocked := store, enabled, 0;
    }

    method Check(key: string, limit: int, window: real, now: real) returns (d: Decision)
      modifies this`blocked, store
      ensures d == if enabled then CheckDecision(old(store.hits), key, limit, window, now)
          else Decision(true, limit, 0, limit)
      ensures store.hits == if enabled then AfterCheck(old(store.hits), key, limit, window, now) else old(store.hits)
      ensures blocked == old(blocked) + if d.allowed then 0 else 1
    {
      if !enabled || limit <= 0 {
        return Decision(true, limit, 0, limit);
      }
      var count := store.RecordAndCount(key, now, window);
      if count <= limit {
        return Decision(true, limit - count, 0, limit);
      }
      blocked := blocked + 1;
      var retryAfter := store.RetryAfter(key, now, window, limit);
      return Decision(false, 0, Max(1, retryAfter), limit);
    }

    method Reset(key: string)
      modifies store
      ensures store.hits == if enabled then old(store.hits) - {key} else old(store.hits)
    {
      if !enabled {
        return;
      }
      store.Reset(key);
    }
  }

  // ----- runs of the limiter

  datatype Event = Check(key: string, now: real) | Clear(key: string)

  /** The limit and the window of a key. */
  datatype Limit = Limit(max: nat, window: real)

  type Limits = string -> Limit

  function NextHits(hits: Hits, e: Event, limits: Limits): Hits {
    match e
    case Clear(key) => hits - {key}
    case Check(key, now) => AfterCheck(hits, key, limits(key).max, limits(key).window, now)
  }

  function HitsAfter(events: seq<Event>, limits: Limits): Hits {
    if events == [] then map[]
    else NextHits(HitsAfter(events[..|events| - 1], limits), events[|events| - 1], limits)
  }

  /** The decision the limiter takes on the last event of a run. */
  predicate LastAllowed(events: seq<Event>, limits: Limits)
    requires events != [] && events[|events| - 1].Check?
  {
    var e, before := events[|events| - 1], HitsAfter(events[..|events| - 1], limits);
    CheckDecision(before, e.key, limits(e.key).max, limits(e.key).window, e.now).allowed
  }

  /** The times at which the key was checked since it was last cleared. */
  function Since(events: seq<Event>, key: string): seq<real> {
    if events == [] then []
    else
      var e, before := events[|events| - 1], Since(events[..|events| - 1], key);
      if e.key != key then before else if e.Clear? then [] else before + [e.now]
  }

  /** Times never go back along the run, and none is after `last`. */
  predicate InTimeOrder(events: seq<Event>, last: real) {
    events != [] ==>
      var e := events[|events| - 1];
      InTimeOrder(events[..|events| - 1], if e.Check? then e.now else last) && (e.Check? ==> e.now <= last)
  }

  /** After any run the bucket of a key agrees with all hits since the last reset, as far as the
      current and later windows reach. */
  lemma {:induction false} BucketIsWindow(events: seq<Event>, last: real, limits: Limits, key: string)
    requires InTimeOrder(events, last) && limits(key).max > 0 && limits(key).window > 0.0
    ensures SameWindow(BucketOf(HitsAfter(events, limits), key), Since(events, key), last, limits(key).window)
  {
    hide SameWindow, Recorded, Pruned;
    if events == [] {
      SameLog([], last, limits(key).window);
      EmptyInOrder(last);
    } else {
      var e, front := events[|events| - 1], events[..|events| - 1];
      var w := limits(key).window;
      BucketIsWindow(front, if e.Check? then e.now else last, limits, key);
      var bucket, rows := BucketOf(HitsAfter(front, limits), key), Since(front, key);
      if e.key != key {
        WaitSame(bucket, rows, if e.Check? then e.now else last, w, last);
      } else if e.Clear? {
        SameLog([], last, w);
        EmptyInOrder(last);
      } else {
        CheckedSame(bucket, rows, w, e.now);
        var b := Recorded(bucket, e.now, w);
        WaitSame(if |b| <= limits(key).max then b else Pruned(b, e.now - w), rows + [e.now], e.now, w, last);
      }
    }
  }

  lemma CheckedSame(bucket: seq<real>, rows: seq<real>, window: real, now: real)
    requires SameWindow(bucket, rows, now, window) && window > 0.0
    ensures var b := Recorded(bucket, now, window);
            SameWindow(b, rows + [now], now, window) && Pruned(b, now - window) == b
  {
    var b := Recorded(bucket, now, window);
    RecordedSame(bucket, rows, now, window, now);
    LaterInOrder(rows, now, now);
    InOrder(b, now, now - window);
    hide Recorded, KeepAfter, Pruned, Ascending;
    forall cutoff | cutoff >= now - window ensures KeepAfter(b, cutoff) == KeepAfter(rows + [now], cutoff) {
      KeptAfterRecord(rows, now, window, cutoff);
    }
  }

  lemma KeptAfterRecord(rows: seq<real>, now: real, window: real, cutoff: real)
    requires cutoff >= now - window
    ensures KeepAfter(KeepAfter(rows, now - window) + [now], cutoff) == KeepAfter(rows + [now], cutoff)
  {
    hide KeepAfter;
    KeepAppend(rows, now, cutoff);
    KeepAppend(KeepAfter(rows, now - window), now, cutoff);
    KeepTwice(rows, now - window, cutoff);
  }

  /** A check is allowed exactly when fewer than `limit` hits since the last reset lie in the
      trailing window. */
  lemma AllowedExactlyWhen(events: seq<Event>, limits: Limits)
    requires events != [] && events[|events| - 1].Check?
    requires var e := events[|events| - 1];
             InTimeOrder(events, e.now) && limits(e.key).max > 0 && limits(e.key).window > 0.0
    ensures var e := events[|events| - 1];
            LastAllowed(events, limits)
            <==> |KeepAfter(Since(events[..|events| - 1], e.key), e.now - limits(e.key).window)| < limits(e.key).max
  {
    var e, front := events[|events| - 1], events[..|events| - 1];
    var w := limits(e.key).window;
    BucketIsWindow(front, e.now, limits, e.key);
    RecordedSame(BucketOf(HitsAfter(front, limits), e.key), Since(front, e.key), e.now, w, e.now);
  }

  /** What is left after a check: the limit less the hits since the last reset in the trailing window,
      this one and the blocked ones included, and nothing when there are more. */
  lemma RemainingIsLimitLessHits(events: seq<Event>, limits: Limits)
    requires events != [] && events[|events| - 1].Check?
    requires var e := events[|events| - 1];
             InTimeOrder(events, e.now) && limits(e.key).max > 0 && limits(e.key).window > 0.0
    ensures var e := events[|events| - 1];
            var before, max, window := HitsAfter(events[..|events| - 1], limits), limits(e.key).max,
                limits(e.key).window;
            var d := CheckDecision(before, e.key, max, window, e.now);
            && d.remaining == Max(0, max - |KeepAfter(Since(events, e.key), e.now - window)|)
            && d.limit == max && (d.retryAfter == 0 <==> d.allowed)
  {
    var e, front := events[|events| - 1], events[..|events| - 1];
    var w := limits(e.key).window;
    BucketIsWindow(front, e.now, limits, e.key);
    RecordedSame(BucketOf(HitsAfter(front, limits), e.key), Since(front, e.key), e.now, w, e.now);
    KeepAppend(Since(front, e.key), e.now, e.now - w);
    hide SameWindow, KeepAfter, HitsAfter, InTimeOrder, RetryFrom;
  }

  /** A key with no limit is always admitted, and its checks leave no trace. */
  lemma {:induction false} UnlimitedKeys(events: seq<Event>, limits: Limits, key: string, now: real)
    requires limits(key).max == 0
    ensures key !in HitsAfter(events, limits)
    ensures CheckDecision(HitsAfter(events, limits), key, 0, limits(key).window, now) == Decision(true, 0, 0, 0)
  {
    hide Recorded, Pruned;
    if events != [] { UnlimitedKeys(events[..|events| - 1], limits, key, now); }
  }

  /** How many of the checks `from` to the end of the run were allowed for the key in [a, b). */
  function AllowedIn(events: seq<Event>, from: nat, limits: Limits, key: string, a: real, b: real): nat {
    if |events| <= from then 0
    else
      var e := events[|events| - 1];
      AllowedIn(events[..|events| - 1], from, limits, key, a, b)
      + if e.Check? && e.key == key && a <= e.now < b && LastAllowed(events, limits) then 1 else 0
  }

  predicate NotCleared(events: seq<Event>, from: nat, key: string) {
    forall n | from <= n < |events| :: events[n] != Clear(key)
  }

  lemma {:induction false} AllowedAreHits(events: seq<Event>, from: nat, limits: Limits, key: string, a: real, b: real,
          cutoff: real)
    requires NotCleared(events, from, key) && cutoff < a
    ensures AllowedIn(events, from, limits, key, a, b) <= |KeepAfter(Since(events, key), cutoff)|
  {
    hide LastAllowed;
    if |events| > from {
      var front, e := events[..|events| - 1], events[|events| - 1];
      AllowedAreHits(front, from, limits, key, a, b, cutoff);
      if e.key == key { KeepAppend(Since(front, key), e.now, cutoff); }
    }
  }

  /** Window safety over whole runs: in no half-open interval of one window's length are more than
      `limit` checks of a key allowed between two resets, although blocked checks are recorded
      too. */
  lemma {:induction false} WindowSafety(events: seq<Event>, from: nat, limits: Limits, key: string, a: real, b: real,
          last: real)
    requires InTimeOrder(events, last) && NotCleared(events, from, key)
    requires limits(key).max > 0 && limits(key).window > 0.0 && b - a <= limits(key).window
    ensures AllowedIn(events, from, limits, key, a, b) <= limits(key).max
    decreases |events|
  {
    hide LastAllowed;
    if |events| > from {
      var front, e := events[..|events| - 1], events[|events| - 1];
      WindowSafety(front, from, limits, key, a, b, if e.Check? then e.now else last);
      if e.Check? && e.key == key && a <= e.now < b && LastAllowed(events, limits) {
        NowInOrder(events, last);
        AllowedExactlyWhen(events, limits);
        AllowedAreHits(front, from, limits, key, a, b, e.now - limits(key).window);
      }
    }
  }

  lemma NowInOrder(events: seq<Event>, last: real)
    requires InTimeOrder(events, last) && events != [] && events[|events| - 1].Check?
    ensures InTimeOrder(events, events[|events| - 1].now)
  {
  }

  // ----- the retry time

  /** When the limiter next admits a hit: the oldest of the `limit` most recent hits plus the window. */
  function Release(bucket: seq<real>, window: real, limit: nat): real
    requires 1 <= limit <= |bucket|
  {
    bucket[|bucket| - limit] + window
  }

  lemma {:induction false} AscendingAt(times: seq<real>, last: real, i: nat, j: nat)
    requires Ascending(times, last) && i <= j < |times|
    ensures times[i] <= times[j] <= last
    decreases |times|
  {
    if i > 0 {
      AscendingAt(times[1..], last, i - 1, j - 1);
    } else if j > 0 {
      AscendingAt(times[1..], last, 0, j - 1);
    } else if |times| > 1 {
      AscendingAt(times[1..], last, 0, 0);
    }
  }

  /** Fewer than `limit` hits are left exactly when the `limit`-th from the end has gone. */
  lemma {:induction false} FewerLeft(times: seq<real>, last: real, cutoff: real, limit: nat)
    requires Ascending(times, last) && 1 <= limit <= |times|
    ensures |KeepAfter(times, cutoff)| < limit <==> times[|times| - limit] <= cutoff
    decreases |times|
  {
    hide Ascending, KeepAfter;
    InOrder(times, last, cutoff);
    if times[0] <= cutoff { KeepUnfold(times, cutoff); }
    KeepShorter(times[1..], cutoff);
    AscendingAt(times, last, 0, |times| - limit);
    hide OrderByTime, Pruned;
    if |times| > limit {
      TailInOrder(times, last);
      FewerLeft(times[1..], last, cutoff, limit);
      assert times[1..][|times| - 1 - limit] == times[|times| - limit];
    }
  }

  lemma TailInOrder(times: seq<real>, last: real)
    requires times != [] && Ascending(times, last)
    ensures Ascending(times[1..], last)
  {
  }

  lemma KeepUnfold(times: seq<real>, cutoff: real)
    requires times != [] && times[0] <= cutoff
    ensures KeepAfter(times, cutoff) == KeepAfter(times[1..], cutoff)
  {
  }

  lemma {:induction false} KeepShorter(times: seq<real>, cutoff: real)
    ensures |KeepAfter(times, cutoff)| <= |times|
  {
    if times != [] { KeepShorter(times[1..], cutoff); }
  }

  /** After a blocked check at `now` that left `bucket`, and no further hits, a check at `later` is
      allowed exactly from the release time on. */
  lemma BlockedUntilRelease(bucket: seq<real>, now: real, later: real, window: real, limit: nat)
    requires Ascending(bucket, now) && now <= later && 1 <= limit < |bucket|
    ensures Decide(Recorded(bucket, later, window), limit, window, later).allowed
       <==> later >= Release(bucket, window, limit)
  {
    hide Ascending, KeepAfter, Pruned, RetryFrom;
    InOrder(bucket, now, later - window);
    FewerLeft(bucket, now, later - window, limit);
  }

  /** The advertised wait ends after the release time and at most one second after it. */
  lemma RetryAfterIsTight(bucket: seq<real>, now: real, window: real, limit: nat)
    requires Ascending(bucket, now) && Pruned(bucket, now - window) == bucket && 1 <= limit < |bucket|
    ensures var retry := Decide(bucket, limit, window, now).retryAfter as real;
            Release(bucket, window, limit) < now + retry <= Release(bucket, window, limit) + 1.0
  {
    var i := |bucket| - limit;
    StillInside(bucket, now - window);
    AscendingAt(bucket, now, 0, i);
    var x := bucket[i] + window - now;
    assert x > 0.0 && x.Floor as real <= x < x.Floor as real + 1.0;
  }

  lemma StillInside(bucket: seq<real>, cutoff: real)
    requires bucket != [] && Pruned(bucket, cutoff) == bucket
    ensures bucket[0] > cutoff
  {
    if bucket[0] <= cutoff { PrunedShorter(bucket[1..], cutoff); }
  }

  lemma {:induction false} PrunedShorter(bucket: seq<real>, cutoff: real)
    ensures |Pruned(bucket, cutoff)| <= |bucket|
  {
    if bucket != [] && bucket[0] <= cutoff { PrunedShorter(bucket[1..], cutoff); }
  }

  /** The decision and the bucket of a blocked check at the end of a run. */
  lemma BlockedBucket(events: seq<Event>, limits: Limits)
    requires events != [] && events[|events| - 1].Check?
    requires var e := events[|events| - 1]; InTimeOrder(events, e.now) && limits(e.key).window > 0.0
    requires !LastAllowed(events, limits)
    ensures var e := events[|events| - 1];
            var bucket, l, before := BucketOf(HitsAfter(events, limits), e.key), limits(e.key),
                HitsAfter(events[..|events| - 1], limits);
            && Ascending(bucket, e.now) && Pruned(bucket, e.now - l.window) == bucket && 1 <= l.max < |bucket|
            && CheckDecision(before, e.key, l.max, l.window, e.now) == Decide(bucket, l.max, l.window, e.now)
  {
    var e, front := events[|events| - 1], events[..|events| - 1];
    var l, before := limits(e.key), HitsAfter(front, limits);
    BucketIsWindow(front, e.now, limits, e.key);
    hide SameWindow, Pruned, Ascending;
    CheckedSame(BucketOf(before, e.key), Since(front, e.key), l.window, e.now);
    RecordedInOrder(BucketOf(before, e.key), Since(front, e.key), l.window, e.now);
  }

  lemma RecordedInOrder(bucket: seq<real>, rows: seq<real>, window: real, now: real)
    requires SameWindow(bucket, rows, now, window) && window > 0.0
    ensures Ascending(Recorded(bucket, now, window), now)
  {
    RecordedSame(bucket, rows, now, window, now);
  }

  /** Retry time over whole runs: after a run that ends with a blocked check, the next check of the
      key, if nothing happens in between, is allowed exactly from the release time on; and the
      advertised wait ends after that time, by at most one second. */
  lemma RetryAfterIsExact(events: seq<Event>, limits: Limits, later: real)
    requires events != [] && events[|events| - 1].Check?
    requires var e := events[|events| - 1]; InTimeOrder(events, e.now) && limits(e.key).window > 0.0 && e.now <= later
    requires !LastAllowed(events, limits)
    ensures var e := events[|events| - 1];
            var bucket, l := BucketOf(HitsAfter(events, limits), e.key), limits(e.key);
            var before := HitsAfter(events[..|events| - 1], limits);
            var retry := CheckDecision(before, e.key, l.max, l.window, e.now).retryAfter as real;
            && 1 <= l.max <= |bucket|
            && (LastAllowed(events + [Check(e.key, later)], limits) <==> later >= Release(bucket, l.window, l.max))
            && Release(bucket, l.window, l.max) < e.now + retry <= Release(bucket, l.window, l.max) + 1.0
  {
    var e := events[|events| - 1];
    var bucket, l := BucketOf(HitsAfter(events, limits), e.key), limits(e.key);
    BlockedBucket(events, limits);
    hide Pruned, Ascending, NextHits, Decide;
    RetryAfterIsTight(bucket, e.now, l.window, l.max);
    BlockedUntilRelease(bucket, e.now, later, l.window, l.max);
    var longer := events + [Check(e.key, later)];
    assert longer[..|longer| - 1] == events;
  }
}
