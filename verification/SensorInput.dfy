/** Batches of sensor reports: parsing by a table of report lengths, the time references
    inside a batch, and the unwrapping of 32-bit host times to 64 bits. */
module SensorInput {
  import opened Basics

  const BASE_TIMESTAMP_REF := 0xFB
  const TIMESTAMP_REBASE := 0xFA
  const FLUSH_COMPLETED := 0xEF
  const TIMEBASE_END := 5
  const MAX_SENSOR_EVENT_LEN := 16
  const MAX_PAYLOAD_IN := 384

  // ------------------------------------------------------------------- parsing

  /** The report lengths that the hub advertised. */
  datatype Length = Length(id: byte, len: byte)

  function ReportLen(table: seq<Length>, id: byte): byte {
    if table == [] then 0 else if table[0].id == id then table[0].len else ReportLen(table[1..], id)
  }

  lemma {:induction false} ReportLenSkips(table: seq<Length>, n: nat, id: byte)
    requires n <= |table| && forall i :: 0 <= i < n ==> table[i].id != id
    ensures ReportLen(table, id) == ReportLen(table[n..], id)
  {
    if n > 0 {
      ReportLenSkips(table[1..], n - 1, id);
      assert table[1..][n - 1..] == table[n..];
    }
  }

  /** The length is that of the first entry with the id, and 0 when there is none. */
  lemma ReportLenIs(table: seq<Length>, id: byte)
    ensures forall k :: 0 <= k < |table| && table[k].id == id && (forall i :: 0 <= i < k ==> table[i].id != id) ==>
              ReportLen(table, id) == table[k].len
    ensures (forall i :: 0 <= i < |table| ==> table[i].id != id) ==> ReportLen(table, id) == 0
  {
    forall k | 0 <= k < |table| && table[k].id == id && (forall i :: 0 <= i < k ==> table[i].id != id)
      ensures ReportLen(table, id) == table[k].len
    {
      ReportLenSkips(table, k, id);
    }
    if forall i :: 0 <= i < |table| ==> table[i].id != id {
      ReportLenSkips(table, |table|, id);
      assert table[|table|..] == [];
    }
  }

  /** The lengths leave room for the fields that are read, and for the event's copy. */
  predicate Sane(table: seq<Length>) {
    forall id: byte :: var n := ReportLen(table, id);
      n > 0 ==> if id == BASE_TIMESTAMP_REF || id == TIMESTAMP_REBASE then n >= TIMEBASE_END
                else if id == FLUSH_COMPLETED then true
                else 4 <= n <= MAX_SENSOR_EVENT_LEN
  }

  /** No report reaches past the end, up to the first unknown id. */
  predicate Parsable(table: seq<Length>, payload: seq<byte>)
    decreases |payload|
  {
    payload == [] ||
    var n: int := ReportLen(table, payload[0]);
    n == 0 || (n <= |payload| && Parsable(table, payload[n..]))
  }

  /** The reports before the first unknown id. */
  function Split(table: seq<Length>, payload: seq<byte>): (reports: seq<seq<byte>>)
    requires Parsable(table, payload)
    decreases |payload|
  {
    if payload == [] then []
    else
      var n: int := ReportLen(table, payload[0]);
      if n == 0 then [] else [payload[..n]] + Split(table, payload[n..])
  }

  /** Whether an unknown id ends the parsing. */
  predicate Stops(table: seq<Length>, payload: seq<byte>)
    requires Parsable(table, payload)
    decreases |payload|
  {
    payload != [] &&
    var n: int := ReportLen(table, payload[0]);
    n == 0 || Stops(table, payload[n..])
  }

  predicate IsReport(table: seq<Length>, r: seq<byte>) {
    r != [] && |r| == ReportLen(table, r[0])
  }

  /** Any concatenation of known reports is split into just those reports; what follows an
      unknown id is not looked at. */
  lemma {:induction false} SplitConcat(table: seq<Length>, reports: seq<seq<byte>>, tail: seq<byte>)
    requires forall r :: r in reports ==> IsReport(table, r)
    requires tail == [] || ReportLen(table, tail[0]) == 0
    ensures Parsable(table, Flatten(reports) + tail)
    ensures Split(table, Flatten(reports) + tail) == reports
    ensures Stops(table, Flatten(reports) + tail) <==> tail != []
    decreases |reports|
  {
    if reports == [] {
      assert Flatten(reports) + tail == tail;
    } else {
      var r, rest := reports[0], Flatten(reports[1..]) + tail;
      SplitConcat(table, reports[1..], tail);
      ConcatAssociates(r, Flatten(reports[1..]), tail);
      SplitOne(table, r, rest);
      assert [r] + reports[1..] == reports;
    }
  }

  lemma SplitOne(table: seq<Length>, r: seq<byte>, rest: seq<byte>)
    requires IsReport(table, r) && Parsable(table, rest)
    ensures Parsable(table, r + rest)
    ensures Split(table, r + rest) == [r] + Split(table, rest)
    ensures Stops(table, r + rest) <==> Stops(table, rest)
  {
    var p := r + rest;
    assert p[0] == r[0] && p[..|r|] == r && p[|r|..] == rest;
  }

  // --------------------------------------------------------------------- clock

  /** The last host time and how often it ran over. */
  datatype Clock = Clock(last: u32, rollovers: u32)

  /** The clock stands at the given 64-bit time. */
  predicate Tracks(c: Clock, t: nat) {
    t == c.rollovers * TWO_TO_32 + c.last
  }

  function Tick(c: Clock, host: u32): Clock {
    Clock(host, if host < c.last then (c.rollovers + 1) % TWO_TO_32 else c.rollovers)
  }

  const TIME_LIMIT: int := 0x1_0000_0000_0000_0000

  /** The low 32 bits of a time. */
  function Low(t: nat): u32 {
    t % TWO_TO_32
  }

  /** Unwrapping follows a time that does not go back exactly when it moves on by less than
      2^32 since the last call. */
  lemma TickTracks(c: Clock, t: nat, t': nat)
    requires Tracks(c, t) && t <= t' < TIME_LIMIT
    ensures Tracks(Tick(c, Low(t')), t') <==> t' - t < TWO_TO_32
  {
    var a, b := t' / TWO_TO_32, t' % TWO_TO_32;
    assert t' == a * TWO_TO_32 + b;
    assert a < TWO_TO_32;
    assert c.rollovers <= a;
    if t' - t < TWO_TO_32 {
      assert a == c.rollovers || a == c.rollovers + 1;
    } else if a == c.rollovers + 1 {
      assert b >= c.last;
    }
  }

  function TickAll(c: Clock, times: seq<nat>): Clock
    decreases |times|
  {
    if times == [] then c else TickAll(Tick(c, Low(times[0])), times[1..])
  }

  /** Times that do not go back and move on by less than 2^32 each time. */
  predicate Steady(t: nat, times: seq<nat>)
    decreases |times|
  {
    times == [] || (t <= times[0] < t + TWO_TO_32 && times[0] < TIME_LIMIT && Steady(times[0], times[1..]))
  }

  /** From power-up on, the clock stands at the true time after every call. */
  lemma {:induction false} ClockFollows(c: Clock, t: nat, times: seq<nat>, k: nat)
    requires Tracks(c, t) && Steady(t, times) && k < |times|
    ensures Tracks(TickAll(c, times[..k + 1]), times[k])
    decreases k
  {
    TickTracks(c, t, times[0]);
    var rest := times[..k + 1][1..];
    assert rest == times[1..][..k];
    if k == 0 {
      assert rest == [];
    } else {
      ClockFollows(Tick(c, Low(times[0])), times[0], times[1..], k - 1);
      assert times[1..][..k - 1 + 1] == rest;
    }
  }

  // -------------------------------------------------------------------- events

  datatype Event =
    | Sensor(reportId: byte, report: seq<byte>, timestamp: nat)
    | Flush(flushed: seq<byte>)

  function ReadU32(r: seq<byte>): u32
    requires |r| >= TIMEBASE_END
  {
    (r[1] as int) + (r[2] as int) * 0x100 + (r[3] as int) * 0x1_0000 + (r[4] as int) * 0x100_0000
  }

  /** The 14-bit delay of a sensor report. */
  function Delay(r: seq<byte>): nat
    requires |r| >= 4
  {
    (r[2] / 4) * 0x100 + r[3] as int
  }

  /** The emitted time: all of the sum below the 32-bit boundary wraps. */
  function Stamp(c: Clock, host: u32, reference: int, delay: nat): nat {
    c.rollovers * TWO_TO_32 + (host + (reference + delay) * 100) % TWO_TO_32
  }

  /** The stamp is the true time plus the offset exactly when their sum does not leave the
      time's 32-bit period: there is no carry or borrow. */
  lemma StampExact(c: Clock, t: nat, reference: int, delay: nat)
    requires Tracks(c, t)
    ensures Stamp(c, c.last, reference, delay) == t + 100 * (reference + delay)
       <==> 0 <= c.last + 100 * (reference + delay) < TWO_TO_32
  {
  }

  predicate IsSensor(r: seq<byte>) {
    r != [] && r[0] != BASE_TIMESTAMP_REF && r[0] != TIMESTAMP_REBASE && r[0] != FLUSH_COMPLETED
  }

  predicate Readable(r: seq<byte>) {
    && r != []
    && (r[0] == BASE_TIMESTAMP_REF || r[0] == TIMESTAMP_REBASE ==> |r| >= TIMEBASE_END)
    && (IsSensor(r) ==> 4 <= |r| <= MAX_SENSOR_EVENT_LEN)
  }

  predicate AllReadable(reports: seq<seq<byte>>) {
    forall i :: 0 <= i < |reports| ==> Readable(reports[i])
  }

  /** The reference of the code: 32 bits, starting at 0 in each batch. */
  function NextReference(reference: u32, r: seq<byte>): u32
    requires Readable(r)
  {
    if r[0] == BASE_TIMESTAMP_REF then -(ReadU32(r) as int) % TWO_TO_32
    else if r[0] == TIMESTAMP_REBASE then (reference + ReadU32(r)) % TWO_TO_32
    else reference
  }

  function NextClock(c: Clock, host: u32, r: seq<byte>): Clock {
    if IsSensor(r) then Tick(c, host) else c
  }

  function EventsOf(c: Clock, host: u32, reference: u32, r: seq<byte>): seq<Event>
    requires Readable(r)
  {
    if r[0] == FLUSH_COMPLETED then [Flush(r)]
    else if IsSensor(r) then [Sensor(r[0], r, Stamp(Tick(c, host), host, reference, Delay(r)))]
    else []
  }

  function ClockAfter(c: Clock, host: u32, reports: seq<seq<byte>>): Clock
    requires AllReadable(reports)
    decreases |reports|
  {
    if reports == [] then c else ClockAfter(NextClock(c, host, reports[0]), host, reports[1..])
  }

  function Events(c: Clock, host: u32, reference: u32, reports: seq<seq<byte>>): seq<Event>
    requires AllReadable(reports)
    decreases |reports|
  {
    if reports == [] then []
    else
      EventsOf(c, host, reference, reports[0])
      + Events(NextClock(c, host, reports[0]), host, NextReference(reference, reports[0]), reports[1..])
  }

  /** A base report, id 251, sets the reference to minus its four bytes, low byte first; a
      rebase, id 250, adds them; no other report moves it. Neither is an event or a reading
      of the clock, and a flush report, id 239, is passed on as it is. */
  lemma ReferencesOnBytes(c: Clock, host: u32, reference: u32, r: seq<byte>)
    requires Readable(r)
    ensures r[0] in {250, 251} ==>
              && |r| >= 5
              && var b := (r[1] as int) + 256 * (r[2] as int) + 65536 * (r[3] as int) + 16777216 * (r[4] as int);
              && NextReference(reference, r) ==
                 (if r[0] == 250 then (reference + b) % 4294967296 else if b == 0 then 0 else 4294967296 - b)
              && EventsOf(c, host, reference, r) == []
    ensures r[0] !in {250, 251} ==> NextReference(reference, r) == reference
    ensures r[0] == 239 ==> EventsOf(c, host, reference, r) == [Flush(r)]
    ensures r[0] in {239, 250, 251} ==> NextClock(c, host, r) == c
  {
    hide ReadU32, Stamp, Delay, Tick;
    if r[0] in {250, 251} {
      U32OnBytes(r);
      Negated(ReadU32(r));
    }
  }

  lemma U32OnBytes(r: seq<byte>)
    requires |r| >= 5
    ensures ReadU32(r) == (r[1] as int) + 256 * (r[2] as int) + 65536 * (r[3] as int) + 16777216 * (r[4] as int)
  {
  }

  lemma Negated(b: u32)
    ensures -(b as int) % 4294967296 == if b == 0 then 0 else 4294967296 - b
  {
  }

  // --------------------------------------------------- what the batch should say

  /** A rebase counts as a signed number. */
  function Signed(x: u32): int {
    if x < TWO_TO_32 / 2 then x else x - TWO_TO_32
  }

  /** The time reference after a report: minus the base, moved by the rebases since. */
  function Moved(reference: int, r: seq<byte>): int
    requires Readable(r)
  {
    if r[0] == BASE_TIMESTAMP_REF then -(ReadU32(r) as int)
    else if r[0] == TIMESTAMP_REBASE then reference + Signed(ReadU32(r))
    else reference
  }

  function IdealOf(t: nat, reference: int, r: seq<byte>): seq<(seq<byte>, int)>
    requires Readable(r)
  {
    if IsSensor(r) then [(r, t + 100 * (reference + Delay(r)))] else []
  }

  /** One event for each sensor report, in order, each stamped with the time of the batch
      plus 100 microseconds for each unit of its reference and delay. */
  function Ideal(t: nat, reference: int, reports: seq<seq<byte>>): seq<(seq<byte>, int)>
    requires AllReadable(reports)
    decreases |reports|
  {
    if reports == [] then []
    else
      IdealOf(t, reference, reports[0]) + Ideal(t, Moved(reference, reports[0]), reports[1..])
  }

  predicate InPeriodOf(t: nat, reference: int, r: seq<byte>)
    requires Readable(r)
  {
    IsSensor(r) ==> 0 <= Low(t) + 100 * (reference + Delay(r)) < TWO_TO_32
  }

  /** No stamp of the batch leaves the 32-bit period of its time. */
  predicate InPeriod(t: nat, reference: int, reports: seq<seq<byte>>)
    requires AllReadable(reports)
    decreases |reports|
  {
    reports == [] ||
    (&& InPeriodOf(t, reference, reports[0])
     && InPeriod(t, Moved(reference, reports[0]), reports[1..]))
  }

  /** The sensor events, as the reports and times they carry. */
  function Sensed(events: seq<Event>): seq<(seq<byte>, int)> {
    if events == [] then [] else Carried(events[0]) + Sensed(events[1..])
  }

  function Carried(e: Event): seq<(seq<byte>, int)> {
    if e.Sensor? then [(e.report, e.timestamp)] else []
  }

  lemma SensedNothing()
    ensures Sensed([]) == []
  {
  }

  lemma {:induction false} SensedSplit(a: seq<Event>, b: seq<Event>)
    ensures Sensed(a + b) == Sensed(a) + Sensed(b)
  {
    hide Carried;
    if a == [] {
      assert a + b == b;
    } else {
      SensedSplit(a[1..], b);
      assert (a + b)[0] == a[0] && (a + b)[1..] == a[1..] + b;
      ConcatAssociates(Carried(a[0]), Sensed(a[1..]), Sensed(b));
    }
  }

  predicate Agree(reference: u32, ideal: int) {
    reference == ideal % TWO_TO_32
  }

  lemma ReferenceAgrees(reference: u32, ideal: int, r: seq<byte>)
    requires Readable(r) && Agree(reference, ideal)
    ensures Agree(NextReference(reference, r), Moved(ideal, r))
  {
  }

  lemma StampOf(c: Clock, t: nat, reference: u32, ideal: int, delay: nat)
    requires Tracks(c, t) && Agree(reference, ideal)
    ensures c.last == Low(t)
    ensures Stamp(c, c.last, reference, delay) == t + 100 * (ideal + delay)
       <==> 0 <= c.last + 100 * (ideal + delay) < TWO_TO_32
  {
    WrapSame(c.last, reference, ideal, delay);
    StampExact(c, t, ideal, delay);
  }

  lemma WrapSame(host: u32, reference: u32, ideal: int, delay: nat)
    requires Agree(reference, ideal)
    ensures (host + (reference + delay) * 100) % TWO_TO_32 == (host + (ideal + delay) * 100) % TWO_TO_32
  {
    var q := ideal / TWO_TO_32;
    assert ideal == q * TWO_TO_32 + reference;
    Wraps(host + (reference + delay) * 100, 100 * q);
  }

  lemma Wraps(x: int, k: int)
    ensures (x + k * TWO_TO_32) % TWO_TO_32 == x % TWO_TO_32
  {
    var a, b := x / TWO_TO_32, x % TWO_TO_32;
    assert x + k * TWO_TO_32 == (a + k) * TWO_TO_32 + b;
  }

  /** One report: an event just for a sensor report, and the right stamp just in period. */
  lemma ReportIsStep(c: Clock, t: nat, reference: u32, ideal: int, r: seq<byte>)
    requires Readable(r) && Agree(reference, ideal) && Tracks(Tick(c, Low(t)), t)
    ensures var sensed, wanted := Sensed(EventsOf(c, Low(t), reference, r)), IdealOf(t, ideal, r);
            && SameReports(sensed, wanted)
            && (sensed == wanted <==> InPeriodOf(t, ideal, r))
  {
    hide ReadU32, Stamp, Tracks, Delay, Agree, Low;
    if IsSensor(r) {
      var c' := Tick(c, Low(t));
      var stamp := Stamp(c', Low(t), reference, Delay(r));
      StampOf(c', t, reference, ideal, Delay(r));
      var e := Sensor(r[0], r, stamp);
      assert [e][1..] == [];
      assert Sensed([e]) == [(r, stamp as int)];
    } else if r[0] == FLUSH_COMPLETED {
      assert [Flush(r)][1..] == [];
    }
  }

  /** A sensor report on its bytes: the upper six bits of byte 2 and byte 3 are the delay. Its
      event carries the id and the report, and when nothing leaves the 32-bit period of the
      batch's time, it is stamped with that time plus 100 microseconds for each unit of
      reference and delay. */
  lemma SensorOnBytes(c: Clock, t0: nat, t: nat, reference: u32, ideal: int, r: seq<byte>, hi: nat, acc: nat, lo: byte)
    requires Readable(r) && r[0] !in {239, 250, 251} && |r| >= 4
    requires hi < 64 && acc < 4 && r[2] == 4 * hi + acc && r[3] == lo
    requires t0 == c.rollovers * 4294967296 + c.last && t0 <= t < t0 + 4294967296 && t < 0x1_0000_0000_0000_0000
    requires reference == ideal % 4294967296
    requires 0 <= t % 4294967296 + 100 * (ideal + 256 * hi + lo) < 4294967296
    ensures EventsOf(c, t % 4294967296, reference, r) == [Sensor(r[0], r, t + 100 * (ideal + 256 * hi + lo))]
    ensures NextClock(c, t % 4294967296, r).last == t % 4294967296
    ensures t == NextClock(c, t % 4294967296, r).rollovers * 4294967296 + t % 4294967296
  {
    DelayOnBytes(r, hi, acc, lo);
    TickTracks(c, t0, t);
    StampOf(Tick(c, Low(t)), t, reference, ideal, 256 * hi + lo);
  }

  lemma DelayOnBytes(r: seq<byte>, hi: nat, acc: nat, lo: byte)
    requires |r| >= 4 && hi < 64 && acc < 4 && r[2] == 4 * hi + acc && r[3] == lo
    ensures Delay(r) == 256 * hi + lo
  {
  }

  /** And what the ideal batch says on bytes: one entry for a sensor report, and the reference
      moved by a base, or by a rebase taken as a signed number. */
  lemma IdealOnBytes(t: nat, reference: int, r: seq<byte>)
    requires Readable(r)
    ensures r[0] in {250, 251} ==>
              && |r| >= 5
              && var b := (r[1] as int) + 256 * (r[2] as int) + 65536 * (r[3] as int) + 16777216 * (r[4] as int);
              Moved(reference, r) ==
                if r[0] == 251 then -b else if b < 2147483648 then reference + b else reference + b - 4294967296
    ensures r[0] !in {250, 251} ==> Moved(reference, r) == reference
    ensures r[0] in {239, 250, 251} ==> IdealOf(t, reference, r) == []
    ensures r[0] !in {239, 250, 251} ==>
              && |r| >= 4
              && IdealOf(t, reference, r) == [(r, t + 100 * (reference + 256 * ((r[2] as int) / 4) + r[3] as int))]
  {
  }

  /** A whole batch: the handler emits exactly one event for each sensor report, in order,
      and the stamps are all as they should be exactly when none leaves the 32-bit period. */
  lemma {:induction false} BatchIsFold(c: Clock, t0: nat, t: nat, reference: u32, ideal: int, reports: seq<seq<byte>>)
    requires AllReadable(reports)
    requires Tracks(c, t0) && t0 <= t < t0 + TWO_TO_32 && t < TIME_LIMIT && Agree(reference, ideal)
    ensures var sensed, wanted := Sensed(Events(c, Low(t), reference, reports)), Ideal(t, ideal, reports);
            && SameReports(sensed, wanted)
            && (sensed == wanted <==> InPeriod(t, ideal, reports))
    ensures Tracks(ClockAfter(c, Low(t), reports), if exists r :: r in reports && IsSensor(r) then t else t0)
    decreases |reports|
  {
    hide ReadU32, Tick, Low, Tracks, Agree, EventsOf, IdealOf, InPeriodOf, Sensed, Moved, NextReference;
    if reports == [] {
      SensedNothing();
    } else {
      var r, rest := reports[0], reports[1..];
      assert reports == [r] + rest && Readable(r);
      ReferenceAgrees(reference, ideal, r);
      TickTracks(c, t0, t);
      var c', reference', ideal' := NextClock(c, Low(t), r), NextReference(reference, r), Moved(ideal, r);
      BatchIsFold(c', if IsSensor(r) then t else t0, t, reference', ideal', rest);
      ReportIsStep(c, t, reference, ideal, r);
      SensedSplit(EventsOf(c, Low(t), reference, r), Events(c', Low(t), reference', rest));
      JoinEqual(Sensed(EventsOf(c, Low(t), reference, r)), IdealOf(t, ideal, r),
                Sensed(Events(c', Low(t), reference', rest)), Ideal(t, ideal', rest));
    }
  }

  /** The same reports in the same order, whatever their stamps. */
  predicate SameReports(a: seq<(seq<byte>, int)>, b: seq<(seq<byte>, int)>) {
    |a| == |b| && forall i :: 0 <= i < |a| ==> a[i].0 == b[i].0
  }

  lemma JoinEqual<T>(a: seq<T>, b: seq<T>, x: seq<T>, y: seq<T>)
    requires |a| == |b|
    ensures a + x == b + y <==> a == b && x == y
  {
    assert (a + x)[..|a|] == a && (a + x)[|a|..] == x;
    assert (b + y)[..|b|] == b && (b + y)[|b|..] == y;
  }

  // ---------------------------------------------------------------------- runs

  /** A received batch: its reports and the true time it was received. */
  datatype Batch = Batch(reports: seq<seq<byte>>, t: nat)

  predicate HasSensor(b: Batch) {
    exists r :: r in b.reports && IsSensor(r)
  }

  /** Batches whose times do not go back and are less than 2^32 after the last batch that
      carried a sensor report. */
  predicate SteadyBatches(t0: nat, bs: seq<Batch>)
    decreases |bs|
  {
    bs == [] ||
    (&& AllReadable(bs[0].reports) && t0 <= bs[0].t < t0 + TWO_TO_32 && bs[0].t < TIME_LIMIT
     && SteadyBatches(if HasSensor(bs[0]) then bs[0].t else t0, bs[1..]))
  }

  function RunEvents(c: Clock, t0: nat, bs: seq<Batch>): seq<Event>
    requires SteadyBatches(t0, bs)
    decreases |bs|
  {
    if bs == [] then []
    else
      Events(c, Low(bs[0].t), 0, bs[0].reports)
      + RunEvents(ClockAfter(c, Low(bs[0].t), bs[0].reports), if HasSensor(bs[0]) then bs[0].t else t0, bs[1..])
  }

  function RunIdeal(t0: nat, bs: seq<Batch>): seq<(seq<byte>, int)>
    requires SteadyBatches(t0, bs)
    decreases |bs|
  {
    if bs == [] then []
    else Ideal(bs[0].t, 0, bs[0].reports) + RunIdeal(if HasSensor(bs[0]) then bs[0].t else t0, bs[1..])
  }

  predicate RunInPeriod(t0: nat, bs: seq<Batch>)
    requires SteadyBatches(t0, bs)
    decreases |bs|
  {
    bs == [] ||
    (InPeriod(bs[0].t, 0, bs[0].reports) && RunInPeriod(if HasSensor(bs[0]) then bs[0].t else t0, bs[1..]))
  }

  /** Over any run of batches the events are the sensor reports in order, with exactly the
      right 64-bit times if and only if no stamp leaves the 32-bit period of its batch. */
  lemma {:induction false} RunIsFold(c: Clock, t0: nat, bs: seq<Batch>)
    requires Tracks(c, t0) && SteadyBatches(t0, bs)
    ensures var sensed, wanted := Sensed(RunEvents(c, t0, bs)), RunIdeal(t0, bs);
            && SameReports(sensed, wanted)
            && (sensed == wanted <==> RunInPeriod(t0, bs))
    decreases |bs|
  {
    hide Events, Ideal, InPeriod, ClockAfter, Tracks, Low, Sensed;
    if bs == [] {
      SensedNothing();
    } else {
      var b := bs[0];
      BatchIsFold(c, t0, b.t, 0, 0, b.reports);
      var t' := if HasSensor(b) then b.t else t0;
      var c' := ClockAfter(c, Low(b.t), b.reports);
      RunIsFold(c', t', bs[1..]);
      SensedSplit(Events(c, Low(b.t), 0, b.reports), RunEvents(c', t', bs[1..]));
      JoinEqual(Sensed(Events(c, Low(b.t), 0, b.reports)), Ideal(b.t, 0, b.reports),
                Sensed(RunEvents(c', t', bs[1..])), RunIdeal(t', bs[1..]));
    }
  }

  // --------------------------------------------------------------- the handler

  /** A known report of a sane table can be read. */
  lemma SplitReadable(table: seq<Length>, payload: seq<byte>)
    requires Sane(table) && Parsable(table, payload)
    ensures AllReadable(Split(table, payload))
    decreases |payload|
  {
    if payload != [] && ReportLen(table, payload[0]) > 0 {
      SplitReadable(table, payload[ReportLen(table, payload[0])..]);
    }
  }

  const MAX_REPORT_IDS := 64

  class Handler {
    const report: array<Length>
    var unknownReportIds: u32
    var lastHostInt: u32
    var rollovers: u32
    var log: seq<Event>

    constructor ()
      ensures report.Length == MAX_REPORT_IDS && fresh(report)
      ensures Tracks(Clock(lastHostInt, rollovers), 0) && unknownReportIds == 0 && log == []
    {
      report := new Length[MAX_REPORT_IDS](_ => Length(0, 0));
      unknownReportIds, lastHostInt, rollovers, log := 0, 0, 0, [];
    }

    method GetReportLen(reportId: byte) returns (len: byte)
      ensures len == ReportLen(report[..], reportId)
    {
      var n := 0;
      while n < report.Length
        invariant 0 <= n <= report.Length && forall i :: 0 <= i < n ==> report[i].id != reportId
      {
        if report[n].id == reportId {
          ReportLenSkips(report[..], n, reportId);
          return report[n].len;
        }
        n := n + 1;
      }
      ReportLenSkips(report[..], n, reportId);
      return 0;
    }

    method ToUSTimestamp(hostInt: u32, referenceDelta: u32, delay: nat) returns (timestamp: nat)
      modifies `lastHostInt, `rollovers
      ensures Clock(lastHostInt, rollovers) == Tick(old(Clock(lastHostInt, rollovers)), hostInt)
      ensures timestamp == Stamp(Clock(lastHostInt, rollovers), hostInt, referenceDelta, delay)
    {
      if hostInt < lastHostInt {
        rollovers := (rollovers + 1) % TWO_TO_32;
      }
      lastHostInt := hostInt;
      timestamp := rollovers * TWO_TO_32;
      timestamp := timestamp + (hostInt + (referenceDelta + delay) * 100) % TWO_TO_32;
    }

    /** One batch. Its events and the clock are those of its reports, read in order; an
        unknown report id ends the batch and is counted. */
    method Input(payload: seq<byte>, timestamp: u32)
      requires Sane(report[..]) && Parsable(report[..], payload) && |payload| <= MAX_PAYLOAD_IN
      modifies `unknownReportIds, `lastHostInt, `rollovers, `log
      ensures var reports := Split(report[..], payload);
              && AllReadable(reports)
              && log == old(log) + Events(old(Clock(lastHostInt, rollovers)), timestamp, 0, reports)
              && Clock(lastHostInt, rollovers) == ClockAfter(old(Clock(lastHostInt, rollovers)), timestamp, reports)
      ensures unknownReportIds == (old(unknownReportIds) + (if Stops(report[..], payload) then 1 else 0)) % 0x1_0000_0000
    {
      hide Sane, Parsable, Split, Stops, ReportLen, Events, ClockAfter, NextClock, NextReference, EventsOf, ReadU32;
      ghost var table := report[..];
      ghost var c0 := Clock(lastHostInt, rollovers);
      SplitReadable(table, payload);
      ghost var left := Split(table, payload);
      var cursor, referenceDelta := 0, 0;
      assert payload[0..] == payload;
      while cursor < |payload|
        invariant 0 <= cursor <= |payload| && Parsable(table, payload[cursor..])
        invariant Stops(table, payload[cursor..]) == Stops(table, payload)
        invariant left == Split(table, payload[cursor..]) && AllReadable(left)
        invariant unknownReportIds == old(unknownReportIds)
        invariant log + Events(Clock(lastHostInt, rollovers), timestamp, referenceDelta, left)
               == old(log) + Events(c0, timestamp, 0, Split(table, payload))
        invariant ClockAfter(Clock(lastHostInt, rollovers), timestamp, left) == ClockAfter(c0, timestamp, Split(table, payload))
      {
        SplitNext(table, payload, cursor);
        var len := GetReportLen(payload[cursor]);
        if len == 0 {
          EventsEnd(Clock(lastHostInt, rollovers), timestamp, referenceDelta);
          unknownReportIds := (unknownReportIds + 1) % TWO_TO_32;
          return;
        }
        EventsNext(Clock(lastHostInt, rollovers), timestamp, referenceDelta, left);
        referenceDelta := One(payload[cursor..cursor + len], timestamp, referenceDelta);
        left := left[1..];
        cursor := cursor + len;
      }
      SplitEnd(table, payload, cursor);
      EventsEnd(Clock(lastHostInt, rollovers), timestamp, referenceDelta);
    }

    /** One report of the batch. */
    method One(r: seq<byte>, timestamp: u32, reference: u32) returns (referenceDelta: u32)
      requires Readable(r)
      modifies `lastHostInt, `rollovers, `log
      ensures referenceDelta == NextReference(reference, r)
      ensures Clock(lastHostInt, rollovers) == NextClock(old(Clock(lastHostInt, rollovers)), timestamp, r)
      ensures log == old(log) + EventsOf(old(Clock(lastHostInt, rollovers)), timestamp, reference, r)
      ensures r[0] in {250, 251} ==> log == old(log)
      ensures r[0] == 239 ==> log == old(log) + [Flush(r)]
      ensures r[0] !in {239, 250, 251} ==>
                && |r| >= 4 && lastHostInt == timestamp && referenceDelta == reference
                && var delay := 256 * ((r[2] as int) / 4) + r[3] as int;
                   var stamp := rollovers * 4294967296 + (timestamp + 100 * (reference + delay)) % 4294967296;
                   log == old(log) + [Sensor(r[0], r, stamp)]
    {
      referenceDelta := reference;
      if r[0] == BASE_TIMESTAMP_REF {
        referenceDelta := -(ReadU32(r) as int) % TWO_TO_32;
      } else if r[0] == TIMESTAMP_REBASE {
        referenceDelta := (referenceDelta + ReadU32(r)) % TWO_TO_32;
      } else if r[0] == FLUSH_COMPLETED {
        log := log + [Flush(r)];
      } else {
        var stamp := ToUSTimestamp(timestamp, referenceDelta, Delay(r));
        log := log + [Sensor(r[0], r, stamp)];
      }
    }
  }

  lemma SplitEnd(table: seq<Length>, payload: seq<byte>, cursor: int)
    requires cursor == |payload|
    ensures Parsable(table, payload[cursor..]) && Split(table, payload[cursor..]) == [] && !Stops(table, payload[cursor..])
  {
  }

  lemma SplitNext(table: seq<Length>, payload: seq<byte>, cursor: nat)
    requires cursor < |payload| && Parsable(table, payload[cursor..])
    ensures var n, left := ReportLen(table, payload[cursor]), payload[cursor..];
            if n == 0 then Split(table, left) == [] && Stops(table, left)
            else
              && cursor + n <= |payload| && Parsable(table, payload[cursor + n..])
              && Split(table, left) == [payload[cursor..cursor + n]] + Split(table, payload[cursor + n..])
              && Stops(table, left) == Stops(table, payload[cursor + n..])
  {
    hide ReportLen;
    var n, left: seq<byte> := ReportLen(table, payload[cursor]), payload[cursor..];
    assert left[0] == payload[cursor];
    if n > 0 {
      assert left[n..] == payload[cursor + n..] && left[..n] == payload[cursor..cursor + n];
    }
  }

  lemma EventsEnd(c: Clock, host: u32, reference: u32)
    ensures Events(c, host, reference, []) == [] && ClockAfter(c, host, []) == c
  {
  }

  lemma EventsNext(c: Clock, host: u32, reference: u32, reports: seq<seq<byte>>)
    requires AllReadable(reports) && reports != []
    ensures var c' := NextClock(c, host, reports[0]);
            && Events(c, host, reference, reports)
               == EventsOf(c, host, reference, reports[0]) + Events(c', host, NextReference(reference, reports[0]), reports[1..])
            && ClockAfter(c, host, reports) == ClockAfter(c', host, reports[1..])
  {
  }
}
