/** A record written to flash and read back through the driver. */
module FlashTransfer {
  import opened Basics
  import Frs
  import opened Sh2

  lemma {:induction false} WritesConcat(a: seq<Report>, b: seq<Report>)
    ensures Writes(a + b) == Writes(a) + Writes(b)
  {
    if a == [] {
      assert a + b == b;
    } else {
      var first := if a[0].FrsWriteResp? then [a[0].writeStatus] else [];
      WritesConcat(a[1..], b);
      assert (a + b)[0] == a[0] && (a + b)[1..] == a[1..] + b;
      ConcatAssociates(first, Writes(a[1..]), Writes(b));
    }
  }

  lemma {:induction false} ReadsConcat(a: seq<Report>, b: seq<Report>)
    ensures Reads(a + b) == Reads(a) + Reads(b)
  {
    if a == [] {
      assert a + b == b;
    } else {
      var first := if a[0].FrsReadResp? then [a[0].read] else [];
      ReadsConcat(a[1..], b);
      assert (a + b)[0] == a[0] && (a + b)[1..] == a[1..] + b;
      ConcatAssociates(first, Reads(a[1..]), Reads(b));
    }
  }

  lemma {:induction false} AllReportsSplit(rounds: seq<Round>, k: nat)
    requires k <= |rounds|
    ensures AllReports(rounds) == AllReports(rounds[..k]) + AllReports(rounds[k..])
    decreases k
  {
    if k == 0 {
      assert rounds[..0] == [] && rounds[0..] == rounds;
    } else {
      AllReportsSplit(rounds[1..], k - 1);
      assert rounds[..k][1..] == rounds[1..][..k - 1] && rounds[1..][k - 1..] == rounds[k..];
      ConcatAssociates(rounds[0].reports, AllReports(rounds[..k][1..]), AllReports(rounds[k..]));
    }
  }

  /** The responses of the first rounds are the first responses. */
  lemma WritesSoFar(rounds: seq<Round>, k: nat)
    requires k <= |rounds|
    ensures Writes(AllReports(rounds[..k])) <= Writes(AllReports(rounds))
    ensures k == |rounds| ==> Writes(AllReports(rounds[..k])) == Writes(AllReports(rounds))
  {
    AllReportsSplit(rounds, k);
    WritesConcat(AllReports(rounds[..k]), AllReports(rounds[k..]));
    assert k == |rounds| ==> rounds[..k] == rounds;
  }

  lemma ReadsSoFar(rounds: seq<Round>, k: nat)
    requires k <= |rounds|
    ensures Reads(AllReports(rounds[..k])) <= Reads(AllReports(rounds))
    ensures k == |rounds| ==> Reads(AllReports(rounds[..k])) == Reads(AllReports(rounds))
  {
    AllReportsSplit(rounds, k);
    ReadsConcat(AllReports(rounds[..k]), AllReports(rounds[k..]));
    assert k == |rounds| ==> rounds[..k] == rounds;
  }

  /** A good write is over once the driver stops, and not before all its responses came. */
  lemma {:induction false} WriteFinished(record: seq<u32>, rounds: seq<Round>, polls: nat, waiting: bool)
    requires |record| < TWO_TO_16 && polls <= |rounds| && (waiting ==> polls == |rounds|)
    requires Frs.GoodWrite(record, Writes(AllReports(rounds)))
    requires Frs.WriteRun(Frs.WriteStart(record), Writes(AllReports(rounds[..polls]))).active == waiting
    ensures !waiting && Writes(AllReports(rounds[..polls])) == Writes(AllReports(rounds))
  {
    hide Frs.GoodWrite, Frs.WriteRun;
    var all, part := Writes(AllReports(rounds)), Writes(AllReports(rounds[..polls]));
    WritesSoFar(rounds, polls);
    assert all[..|part|] == part;
    Frs.WriteEndsAtConfirmation(record, all, |part|);
  }

  lemma {:induction false} ReadFinished(record: seq<u32>, buffer: seq<u32>, rounds: seq<Round>, polls: nat,
                                        waiting: bool)
    requires 0 < |record| <= |buffer| < TWO_TO_16 && polls <= |rounds| && (waiting ==> polls == |rounds|)
    requires Frs.GoodRead(Reads(AllReports(rounds)), record)
    requires Frs.AllWithin(Reads(AllReports(rounds[..polls])), |buffer|)
    requires Frs.ReadRun(Frs.ReadStart(buffer, |buffer|), Reads(AllReports(rounds[..polls]))).active == waiting
    ensures !waiting && Reads(AllReports(rounds[..polls])) == Reads(AllReports(rounds))
  {
    hide Frs.Carries, Frs.ReadRun, Frs.Plain;
    var all, part := Reads(AllReports(rounds)), Reads(AllReports(rounds[..polls]));
    ReadsSoFar(rounds, polls);
    assert all[..|part|] == part;
    if |part| < |all| {
      Frs.StillReading(Frs.ReadStart(buffer, |buffer|), all, record, |part|);
    } else {
      Frs.ReadBack(Frs.ReadStart(buffer, |buffer|), all, record);
    }
  }

  // ------------------------------------------------------------------ the hub

  /** The hub's flash: its records, and the one being written. */
  datatype Flash = Flash(records: map<u16, seq<u32>>, writing: Option<u16>)

  /** An announced write blanks its record to the new length; data goes to the record last
      announced. */
  function Take(f: Flash, r: Request): Flash {
    match r
    case FrsWriteReq(length, id) => Flash(f.records[id := seq(length, _ => 0)], Some(id))
    case FrsWriteData(data) =>
      if f.writing.Some? && f.writing.value in f.records
      then f.(records := f.records[f.writing.value := Frs.Store(f.records[f.writing.value], data)])
      else f
    case _ => f
  }

  function TakeAll(f: Flash, requests: seq<Request>): Flash
    decreases |requests|
  {
    if requests == [] then f else TakeAll(Take(f, requests[0]), requests[1..])
  }

  lemma {:induction false} TakeAllConcat(f: Flash, a: seq<Request>, b: seq<Request>)
    ensures TakeAll(f, a + b) == TakeAll(TakeAll(f, a), b)
    decreases |a|
  {
    if a == [] {
      assert a + b == b;
    } else {
      assert (a + b)[0] == a[0] && (a + b)[1..] == a[1..] + b;
      TakeAllConcat(Take(f, a[0]), a[1..], b);
    }
  }

  /** Data requests reach the record that was announced, and no other. */
  lemma {:induction false} DataTaken(f: Flash, id: u16, data: seq<Frs.DataReq>)
    requires f.writing == Some(id) && id in f.records
    ensures TakeAll(f, Wrap(data)) == f.(records := f.records[id := Frs.StoreAll(f.records[id], data)])
    decreases |data|
  {
    if data == [] {
      assert f.records[id := f.records[id]] == f.records;
    } else {
      var f' := Take(f, FrsWriteData(data[0]));
      assert Wrap(data)[0] == FrsWriteData(data[0]) && Wrap(data)[1..] == Wrap(data[1..]);
      DataTaken(f', id, data[1..]);
      assert f'.records[id := Frs.StoreAll(f'.records[id], data[1..])]
          == f.records[id := Frs.StoreAll(f.records[id], data)];
    }
  }

  /** What the hub holds after the requests of a good write: the record, the others as before. */
  lemma RecordTaken(f: Flash, id: u16, record: seq<u32>, statuses: seq<byte>)
    requires |record| < TWO_TO_16 && Frs.GoodWrite(record, statuses)
    ensures var requests := [FrsWriteReq(|record|, id)] + Wrap(Frs.WriteSent(Frs.WriteStart(record), statuses));
            TakeAll(f, requests) == Flash(f.records[id := record], Some(id))
  {
    hide Frs.GoodWrite, Frs.WriteSent, Wrap;
    var blank := seq(|record|, _ => 0);
    var data := Frs.WriteSent(Frs.WriteStart(record), statuses);
    var f' := Flash(f.records[id := blank], Some(id));
    TakeAllConcat(f, [FrsWriteReq(|record|, id)], Wrap(data));
    assert [FrsWriteReq(|record|, id)][1..] == [];
    assert TakeAll(f, [FrsWriteReq(|record|, id)]) == TakeAll(f', []);
    DataTaken(f', id, data);
    Frs.WriteStoresRecord(record, statuses, blank);
    assert f'.records[id := record] == f.records[id := record];
  }

  /** A hub that prompts and confirms the write, keeps what the driver sends it, and answers
      a read with what it holds: then both calls return, both with success, and the caller
      gets back the words it wrote and their number, whatever else the hub reports in
      between. The driver sends the announcement, every pair of the record once and in order,
      and one request for the same record. */
  method WriteAndReadBack(d: Driver, recordId: u16, record: array<u32>, words: u16, flash: Flash,
                          writeRounds: seq<Round>,
                          buffer: array<u32>, count: WordCell, answer: seq<u32> -> seq<Round>)
    returns (wrote: int, read: int)
    requires d.Valid() && d.pOp == None && d.answers == []
    requires 0 < words <= record.Length && words <= buffer.Length == count.value && record != buffer
    requires Frs.GoodWrite(record[..words], Writes(AllReports(writeRounds)))
    requires forall held :: |held| == words as int ==>
               Frs.GoodRead(Reads(AllReports(answer(held))), held) && ReadsWithin(AllReports(answer(held)), buffer.Length)
    modifies d, buffer, count
    ensures wrote == SH2_OK && read == SH2_OK && d.Valid() && d.pOp == None
    ensures count.value == words && buffer[..words] == record[..words] == old(record[..words])
    ensures d.sent == old(d.sent) + [FrsWriteReq(words, recordId)] + Wrap(Frs.Pairs(record[..words], 0)) + [FrsReadReq(recordId)]
    ensures TakeAll(flash, d.sent[|old(d.sent)|..]).records == flash.records[recordId := record[..words]]
  {
    hide Frs.GoodWrite, Frs.GoodRead, Frs.WriteRun, Frs.WriteSent, Frs.ReadRun, Frs.StoreAll, Frs.Pairs;
    hide Writes, Reads, AllReports, ReadsWithin, Frs.AllWithin, Wrap, TakeAll;
    ghost var given := record[..words];
    var before := |d.sent|;
    var waiting, polls;
    wrote, waiting, polls := d.SetFrs(recordId, record, words, 0, writeRounds);
    ghost var statuses := Writes(AllReports(writeRounds));
    WriteFinished(given, writeRounds, polls, waiting);
    ghost var requests := [FrsWriteReq(words, recordId)] + Wrap(Frs.WriteSent(Frs.WriteStart(given), statuses));
    assert d.sent[before..] == requests;
    RecordTaken(flash, recordId, given, statuses);
    WriteIsPairs(given, statuses);
    var held := TakeAll(flash, d.sent[before..]).records[recordId];
    ghost var empty := buffer[..];
    read, waiting, polls := d.GetFrs(recordId, buffer, count, 0, answer(held));
    ReadFinished(given, empty, answer(held), polls, waiting);
    GoodReadBack(empty, given, Reads(AllReports(answer(held))));
    assert d.sent[before..] == requests + [FrsReadReq(recordId)];
    ReadRequestTaken(flash, requests, recordId);
  }

  lemma ReadRequestTaken(f: Flash, requests: seq<Request>, id: u16)
    ensures TakeAll(f, requests + [FrsReadReq(id)]) == TakeAll(f, requests)
  {
    TakeAllConcat(f, requests, [FrsReadReq(id)]);
    assert [FrsReadReq(id)][1..] == [];
  }

  lemma GoodReadBack(buffer: seq<u32>, record: seq<u32>, rs: seq<Frs.ReadResp>)
    requires 0 < |record| <= |buffer| < TWO_TO_16 && Frs.GoodRead(rs, record)
    ensures Frs.AllWithin(rs, |buffer|)
    ensures var t := Frs.ReadRun(Frs.ReadStart(buffer, |buffer|), rs);
            !t.active && t.status == SH2_OK && t.words == |record| && t.data[..|record|] == record
  {
    Frs.ReadBack(Frs.ReadStart(buffer, |buffer|), rs, record);
  }

  /** A good write sends every pair and succeeds. */
  lemma WriteIsPairs(record: seq<u32>, statuses: seq<byte>)
    requires |record| < TWO_TO_16 && Frs.GoodWrite(record, statuses)
    ensures Frs.WriteSent(Frs.WriteStart(record), statuses) == Frs.Pairs(record, 0)
    ensures Frs.WriteRun(Frs.WriteStart(record), statuses).status == SH2_OK
  {
    hide Frs.WriteSent, Frs.Pairs, Frs.PromptCount;
    Frs.WriteStoresRecord(record, statuses, record);
    Frs.WriteCoverage(Frs.WriteStart(record), statuses);
    var pairs := Frs.Pairs(record, 0);
    assert pairs[..|pairs|] == pairs;
  }
}
