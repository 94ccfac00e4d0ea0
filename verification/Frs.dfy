/** Flash record (FRS) exchanges: the write and read operations as machines driven by the
    hub's responses, and the record that a write followed by a read brings back. */
module Frs {
  import opened Basics

  const SH2_OK := 0
  const SH2_ERR_IO := -4
  const SH2_ERR_HUB := -5

  // -------------------------------------------------------------------- writing

  const WRITE_RECEIVED := 0
  const WRITE_COMPLETED := 3
  const WRITE_READY := 4
  const WRITE_RECORD_VALID := 8

  /** The statuses that end a write with an error. */
  predicate WriteFails(status: byte) {
    status in {1, 2, 5, 6, 7, 9, 10, 11}
  }

  predicate Prompts(status: byte) {
    status == WRITE_RECEIVED || status == WRITE_READY
  }

  datatype DataReq = DataReq(offset: u16, data0: u32, data1: u32)

  datatype WriteState = WriteState(active: bool, status: int, record: seq<u32>, offset: nat)

  predicate WriteOk(s: WriteState) {
    s.offset <= |s.record| < TWO_TO_16
  }

  function WriteStart(record: seq<u32>): WriteState {
    WriteState(true, SH2_OK, record, 0)
  }

  /** The next one or two words of the record; an odd tail is padded with 0. */
  function Pair(record: seq<u32>, offset: nat): DataReq
    requires offset < |record| < TWO_TO_16
  {
    DataReq(offset, record[offset], if offset + 1 < |record| then record[offset + 1] else 0)
  }

  /** One write response, as setFrsRx handles it. */
  function WriteStep(s: WriteState, status: byte): (r: WriteState)
    requires WriteOk(s)
    ensures WriteOk(r)
  {
    if !s.active then s
    else if Prompts(status) && s.offset < |s.record| then
      s.(offset := Min(s.offset + 2, |s.record|))
    else if WriteFails(status) then s.(active := false, status := SH2_ERR_HUB)
    else if status == WRITE_COMPLETED then s.(active := false, status := SH2_OK)
    else s
  }

  /** The data request that a response brings about, if any. */
  function WriteEmits(s: WriteState, status: byte): seq<DataReq>
    requires WriteOk(s)
  {
    if s.active && Prompts(status) && s.offset < |s.record| then [Pair(s.record, s.offset)] else []
  }

  function WriteRun(s: WriteState, statuses: seq<byte>): (r: WriteState)
    requires WriteOk(s)
    ensures WriteOk(r)
    decreases |statuses|
  {
    if statuses == [] then s else WriteRun(WriteStep(s, statuses[0]), statuses[1..])
  }

  /** All data requests of a run, in order. */
  function WriteSent(s: WriteState, statuses: seq<byte>): seq<DataReq>
    requires WriteOk(s)
    decreases |statuses|
  {
    if statuses == [] then []
    else WriteEmits(s, statuses[0]) + WriteSent(WriteStep(s, statuses[0]), statuses[1..])
  }

  /** One response in numbers: 0 and 4 ask for the next two words, the second being 0 behind an
      odd tail; 3 ends the write well; 1, 2, 5, 6, 7, 9, 10 and 11 end it with the hub's
      error; 8 and all others change nothing. */
  lemma WriteOnNumbers(s: WriteState, status: byte)
    requires WriteOk(s) && s.active
    ensures status in {0, 4} && s.offset < |s.record| ==>
              var odd := s.offset + 1 == |s.record|;
              && WriteEmits(s, status) == [DataReq(s.offset, s.record[s.offset], if odd then 0 else s.record[s.offset + 1])]
              && WriteStep(s, status) == s.(offset := s.offset + if odd then 1 else 2)
    ensures !(status in {0, 4} && s.offset < |s.record|) ==> WriteEmits(s, status) == []
    ensures status == 3 ==> WriteStep(s, status) == s.(active := false, status := 0)
    ensures status in {1, 2, 5, 6, 7, 9, 10, 11} ==> WriteStep(s, status) == s.(active := false, status := -5)
    ensures status == 8 || status > 11 || (status in {0, 4} && s.offset == |s.record|) ==> WriteStep(s, status) == s
  {
  }

  /** The first response that ends a write decides its status. */
  lemma {:induction false} WriteEnds(s: WriteState, statuses: seq<byte>, k: nat)
    requires WriteOk(s) && s.active && k < |statuses| && statuses[k] in {1, 2, 3, 5, 6, 7, 9, 10, 11}
    requires forall i :: 0 <= i < k ==> statuses[i] !in {1, 2, 3, 5, 6, 7, 9, 10, 11}
    ensures var r := WriteRun(s, statuses); !r.active && r.status == if statuses[k] == 3 then 0 else -5
    decreases k
  {
    WriteOnNumbers(s, statuses[0]);
    if k == 0 {
      InactiveStays(WriteStep(s, statuses[0]), statuses[1..]);
    } else {
      WriteEnds(WriteStep(s, statuses[0]), statuses[1..], k - 1);
    }
  }

  lemma WriteEndsAnywhere(s: WriteState, statuses: seq<byte>)
    requires WriteOk(s) && s.active
    ensures forall k :: 0 <= k < |statuses| && statuses[k] in {1, 2, 3, 5, 6, 7, 9, 10, 11}
                        && (forall i :: 0 <= i < k ==> statuses[i] !in {1, 2, 3, 5, 6, 7, 9, 10, 11}) ==>
              var r := WriteRun(s, statuses); !r.active && r.status == if statuses[k] == 3 then 0 else -5
  {
    forall k | 0 <= k < |statuses| && statuses[k] in {1, 2, 3, 5, 6, 7, 9, 10, 11}
               && (forall i :: 0 <= i < k ==> statuses[i] !in {1, 2, 3, 5, 6, 7, 9, 10, 11})
      ensures var r := WriteRun(s, statuses); !r.active && r.status == if statuses[k] == 3 then 0 else -5
    {
      WriteEnds(s, statuses, k);
    }
  }

  /** The record cut into pairs, with offsets 0, 2, 4 and so on. */
  function Pairs(record: seq<u32>, from: nat): seq<DataReq>
    requires from <= |record| < TWO_TO_16
    decreases |record| - from
  {
    if from == |record| then [] else [Pair(record, from)] + Pairs(record, Min(from + 2, |record|))
  }

  /** How often the hub asks for data before the write ends. */
  function PromptCount(statuses: seq<byte>): nat {
    if statuses == [] || WriteFails(statuses[0]) || statuses[0] == WRITE_COMPLETED then 0
    else (if Prompts(statuses[0]) then 1 else 0) + PromptCount(statuses[1..])
  }

  lemma {:induction false} InactiveStays(s: WriteState, statuses: seq<byte>)
    requires WriteOk(s) && !s.active
    ensures WriteRun(s, statuses) == s && WriteSent(s, statuses) == []
    decreases |statuses|
  {
    if statuses != [] {
      InactiveStays(s, statuses[1..]);
    }
  }

  /** Whatever the hub answers, the data requests are the record's first pairs in order, one
      for each prompt, and never more than the record has. */
  lemma {:induction false} WriteCoverage(s: WriteState, statuses: seq<byte>)
    requires WriteOk(s) && s.active
    ensures var pairs := Pairs(s.record, s.offset);
            && WriteRun(s, statuses).record == s.record
            && WriteSent(s, statuses) == pairs[..Min(PromptCount(statuses), |pairs|)]
    decreases |statuses|
  {
    var pairs := Pairs(s.record, s.offset);
    if statuses == [] {
      assert pairs[..0] == [];
    } else {
      var s' := WriteStep(s, statuses[0]);
      if s'.active {
        WriteCoverage(s', statuses[1..]);
        var n := Min(PromptCount(statuses[1..]), |Pairs(s'.record, s'.offset)|);
        if Prompts(statuses[0]) && s.offset < |s.record| {
          assert pairs == [Pair(s.record, s.offset)] + Pairs(s'.record, s'.offset);
          assert pairs[..n + 1] == [Pair(s.record, s.offset)] + Pairs(s'.record, s'.offset)[..n];
        }
      } else {
        InactiveStays(s', statuses[1..]);
        assert pairs[..0] == [];
      }
    }
  }

  /** The number of prompts a record needs: half its words, rounded up. */
  lemma {:induction false} PairCount(record: seq<u32>, from: nat)
    requires from <= |record| < TWO_TO_16
    ensures |Pairs(record, from)| == (|record| - from + 1) / 2
    decreases |record| - from
  {
    if from < |record| {
      PairCount(record, Min(from + 2, |record|));
    }
  }

  /** Pair k holds words 2k and 2k + 1, and an odd tail a 0. */
  lemma {:induction false} PairIs(record: seq<u32>, from: nat, k: nat)
    requires from <= |record| < TWO_TO_16 && k < |Pairs(record, from)|
    ensures from + 2 * k < |record|
    ensures var at := from + 2 * k;
            Pairs(record, from)[k] == DataReq(at, record[at], if at + 1 == |record| then 0 else record[at + 1])
    decreases k
  {
    if k > 0 {
      PairIs(record, Min(from + 2, |record|), k - 1);
    }
  }

  // -------------------------------------------------------------- the hub's store

  /** The hub puts the words of a data request at its offset, inside the record's length. */
  function Store(buffer: seq<u32>, req: DataReq): (r: seq<u32>)
    ensures |r| == |buffer|
  {
    var b := if req.offset < |buffer| then buffer[req.offset := req.data0] else buffer;
    if req.offset + 1 < |b| then b[req.offset + 1 := req.data1] else b
  }

  function StoreAll(buffer: seq<u32>, reqs: seq<DataReq>): (r: seq<u32>)
    ensures |r| == |buffer|
    decreases |reqs|
  {
    if reqs == [] then buffer else StoreAll(Store(buffer, reqs[0]), reqs[1..])
  }

  /** Storing all pairs rebuilds the record, whatever the store held before. */
  lemma {:induction false} PairsRebuild(record: seq<u32>, from: nat, buffer: seq<u32>)
    requires from <= |record| == |buffer| < TWO_TO_16 && buffer[..from] == record[..from]
    ensures StoreAll(buffer, Pairs(record, from)) == record
    decreases |record| - from
  {
    if from < |record| {
      var next := Min(from + 2, |record|);
      var b := Store(buffer, Pair(record, from));
      assert b[..next] == record[..next] by {
        assert forall i :: 0 <= i < from ==> b[i] == buffer[..from][i] == record[..from][i];
      }
      PairsRebuild(record, next, b);
      assert Pairs(record, from)[1..] == Pairs(record, next);
    } else {
      assert buffer[..from] == buffer && record[..from] == record;
    }
  }

  /** A write that the hub prompts often enough and then confirms. */
  predicate GoodWrite(record: seq<u32>, statuses: seq<byte>)
    requires |record| < TWO_TO_16
  {
    && statuses != [] && statuses[|statuses| - 1] == WRITE_COMPLETED
    && (forall i :: 0 <= i < |statuses| - 1 ==> !WriteFails(statuses[i]) && statuses[i] != WRITE_COMPLETED)
    && PromptCount(statuses) >= |Pairs(record, 0)|
  }

  lemma {:induction false} ConfirmedWrite(s: WriteState, statuses: seq<byte>)
    requires WriteOk(s) && s.active
    requires statuses != [] && statuses[|statuses| - 1] == WRITE_COMPLETED
    requires forall i :: 0 <= i < |statuses| - 1 ==> !WriteFails(statuses[i]) && statuses[i] != WRITE_COMPLETED
    ensures var r := WriteRun(s, statuses); !r.active && r.status == SH2_OK
    decreases |statuses|
  {
    var s' := WriteStep(s, statuses[0]);
    if |statuses| == 1 {
      InactiveStays(s', statuses[1..]);
    } else {
      ConfirmedWrite(s', statuses[1..]);
    }
  }

  /** A confirmed write ends with success and leaves the record in the hub's store. */
  lemma WriteStoresRecord(record: seq<u32>, statuses: seq<byte>, before: seq<u32>)
    requires |record| == |before| < TWO_TO_16 && GoodWrite(record, statuses)
    ensures var r := WriteRun(WriteStart(record), statuses);
            && !r.active && r.status == SH2_OK
            && StoreAll(before, WriteSent(WriteStart(record), statuses)) == record
  {
    hide WriteRun, WriteSent, PromptCount, Pairs, StoreAll, WriteFails;
    WriteCoverage(WriteStart(record), statuses);
    ConfirmedWrite(WriteStart(record), statuses);
    var pairs := Pairs(record, 0);
    assert pairs[..|pairs|] == pairs;
    assert WriteSent(WriteStart(record), statuses) == pairs;
    PairsRebuild(record, 0, before);
  }

  /** While the hub neither fails nor confirms it, a write goes on. */
  lemma {:induction false} StillWriting(s: WriteState, statuses: seq<byte>)
    requires WriteOk(s) && s.active
    requires forall x :: x in statuses ==> !WriteFails(x) && x != WRITE_COMPLETED
    ensures WriteRun(s, statuses).active
    decreases |statuses|
  {
    if statuses != [] {
      assert statuses[0] in statuses;
      StillWriting(WriteStep(s, statuses[0]), statuses[1..]);
    }
  }

  /** So a good write ends with its last response and not before. */
  lemma WriteEndsAtConfirmation(record: seq<u32>, statuses: seq<byte>, k: nat)
    requires |record| < TWO_TO_16 && GoodWrite(record, statuses) && k <= |statuses|
    ensures WriteRun(WriteStart(record), statuses[..k]).active <==> k < |statuses|
  {
    if k < |statuses| {
      StillWriting(WriteStart(record), statuses[..k]);
    } else {
      assert statuses[..k] == statuses;
      ConfirmedWrite(WriteStart(record), statuses);
    }
  }

  // -------------------------------------------------------------------- reading

  const READ_RECORD_EMPTY := 5

  predicate ReadFails(status: byte) {
    status in {1, 2, 4, 8}
  }

  predicate ReadCompletes(status: byte) {
    status in {3, 6, 7}
  }

  /** A read response: the two nibbles of its length and status byte, and two words. */
  datatype ReadResp = ReadResp(status: byte, dataLen: byte, offset: u16, data0: u32, data1: u32)

  /** The caller's buffer and word count, and the offset expected next. */
  datatype ReadState = ReadState(active: bool, status: int, data: seq<u32>, words: u16, next: u16)

  function ReadStart(buffer: seq<u32>, words: u16): ReadState {
    ReadState(true, SH2_OK, buffer, words, 0)
  }

  function Complete(s: ReadState, status: int): ReadState {
    s.(active := false, status := status)
  }

  /** A gap clears the word count and ends the operation, but the handler goes on. */
  function NoteGap(s: ReadState, r: ReadResp): ReadState {
    if r.offset != s.next then Complete(s.(words := 0), SH2_ERR_IO) else s
  }

  function NoteEmpty(s: ReadState, r: ReadResp): ReadState {
    if r.status == READ_RECORD_EMPTY then Complete(s.(words := 0), SH2_OK) else s
  }

  predicate HasRoom(s: ReadState, r: ReadResp) {
    s.words == 0 || r.offset <= s.words
  }

  function WordCount(r: ReadResp): nat {
    if r.dataLen == 2 then 2 else 1
  }

  /** The words that the handler stores are inside the caller's buffer. The handler only
      compares the offset of the first with the word count. */
  predicate InBuffer(s: ReadState, r: ReadResp) {
    && |s.data| < TWO_TO_16
    && (s.active && !ReadFails(r.status) && HasRoom(NoteGap(NoteEmpty(s, r), r), r) ==>
          r.offset + WordCount(r) <= |s.data|)
  }

  function StoreWords(s: ReadState, r: ReadResp): (t: ReadState)
    requires HasRoom(s, r) ==> r.offset + WordCount(r) <= |s.data| < TWO_TO_16
    ensures |t.data| == |s.data|
  {
    if !HasRoom(s, r) then s
    else
      var d := s.data[r.offset := r.data0];
      if r.dataLen == 2 then s.(data := d[r.offset + 1 := r.data1], next := r.offset + 2)
      else s.(data := d, next := r.offset + 1)
  }

  /** One read response, as getFrsRx handles it. */
  function ReadStep(s: ReadState, r: ReadResp): (t: ReadState)
    requires InBuffer(s, r)
    ensures |t.data| == |s.data|
  {
    if !s.active then s
    else if ReadFails(r.status) then Complete(s, SH2_ERR_HUB)
    else
      var s' := StoreWords(NoteGap(NoteEmpty(s, r), r), r);
      if ReadCompletes(r.status) then
        Complete(s'.(words := s'.next), SH2_OK)
      else s'
  }

  /** One response in numbers. 1, 2, 4 and 8 end the read with the hub's error and touch
      nothing else. Otherwise 5, an empty record, ends it well without words, and a gap ends
      it with the I/O error without words; in any case the words are stored if the offset
      does not exceed the word count, or that is 0; and 3, 6 and 7 end the read well with
      the words up to here. */
  lemma ReadOnNumbers(s: ReadState, r: ReadResp)
    requires InBuffer(s, r) && s.active
    ensures r.status in {1, 2, 4, 8} ==> ReadStep(s, r) == s.(active := false, status := -5)
    ensures r.status !in {1, 2, 4, 8} ==>
              var gap, empty, done := r.offset != s.next, r.status == 5, r.status in {3, 6, 7};
              var words := if gap || empty then 0 else s.words;
              var stored := words == 0 || r.offset <= words;
              var next := if !stored then s.next else r.offset + if r.dataLen == 2 then 2 else 1;
              var data := if !stored then s.data
                          else if r.dataLen == 2 then s.data[r.offset := r.data0][r.offset + 1 := r.data1]
                          else s.data[r.offset := r.data0];
              ReadStep(s, r) ==
              if done then ReadState(false, 0, data, next, next)
              else ReadState(!gap && !empty, if gap then -4 else if empty then 0 else s.status, data, words, next)
  {
  }

  /** Responses stay inside a buffer of the given size. */
  predicate AllWithin(rs: seq<ReadResp>, size: nat) {
    forall r :: r in rs ==> r.offset + WordCount(r) <= size
  }

  function ReadRun(s: ReadState, rs: seq<ReadResp>): (t: ReadState)
    requires |s.data| < TWO_TO_16 && AllWithin(rs, |s.data|)
    ensures |t.data| == |s.data|
    decreases |rs|
  {
    if rs == [] then s else ReadRun(ReadStep(s, rs[0]), rs[1..])
  }

  /** Every response starts where the one before it ended. */
  predicate Contiguous(rs: seq<ReadResp>, from: nat) {
    rs == [] || (rs[0].offset == from && Contiguous(rs[1..], from + WordCount(rs[0])))
  }

  function EndOf(rs: seq<ReadResp>, from: nat): nat {
    if rs == [] then from else EndOf(rs[1..], rs[0].offset + WordCount(rs[0]))
  }

  predicate Plain(r: ReadResp) {
    !ReadFails(r.status) && !ReadCompletes(r.status) && r.status != READ_RECORD_EMPTY
  }

  lemma {:induction false} ReadInactiveStays(s: ReadState, rs: seq<ReadResp>)
    requires |s.data| < TWO_TO_16 && AllWithin(rs, |s.data|) && !s.active
    ensures ReadRun(s, rs) == s
    decreases |rs|
  {
    if rs != [] {
      ReadInactiveStays(s, rs[1..]);
    }
  }

  /** A read whose last response completes it reports success exactly when no response but
      possibly the last skipped words. A gap before the last response gives an error and no
      words; a gap at the last response goes unreported. */
  lemma {:induction false} ReadReport(s: ReadState, body: seq<ReadResp>, last: ReadResp)
    requires |s.data| < TWO_TO_16 && AllWithin(body + [last], |s.data|)
    requires s.active && (s.words == 0 || s.words == |s.data|)
    requires (forall r :: r in body ==> Plain(r)) && ReadCompletes(last.status)
    ensures var t := ReadRun(s, body + [last]);
            && !t.active
            && (t.status == SH2_OK <==> Contiguous(body, s.next))
            && (Contiguous(body, s.next) ==> t.words == last.offset + WordCount(last))
            && (!Contiguous(body, s.next) ==> t.status == SH2_ERR_IO && t.words == 0)
    decreases |body|
  {
    assert last in body + [last];
    if body == [] {
      assert body + [last] == [last];
      assert [last][1..] == [];
      ReadInactiveStays(ReadStep(s, last), []);
    } else {
      var s' := ReadStep(s, body[0]);
      assert body[0] in body + [last];
      assert (body + [last])[1..] == body[1..] + [last];
      if body[0].offset == s.next {
        ReadReport(s', body[1..], last);
      } else {
        ReadInactiveStays(s', body[1..] + [last]);
      }
    }
  }

  /** The concrete case: with the first words lost, a read that is a single completing
      response still succeeds and counts the words it never got. */
  lemma LastGapUnreported()
    ensures var t := ReadRun(ReadStart([0, 0, 0], 3), [ReadResp(3, 1, 2, 7, 0)]);
            t.status == SH2_OK && t.words == 3 && t.data == [0, 0, 7]
  {
    var r := ReadResp(3, 1, 2, 7, 0);
    assert [r][1..] == [];
    assert ReadRun(ReadStart([0, 0, 0], 3), [r]) == ReadRun(ReadStep(ReadStart([0, 0, 0], 3), r), []);
  }

  /** Responses before place k that neither end the read nor leave a gap. */
  predicate PlainUpTo(rs: seq<ReadResp>, from: nat, k: nat) {
    && k <= |rs|
    && (forall i :: 0 <= i < k ==> rs[i].status !in {1, 2, 3, 4, 5, 6, 7, 8})
    && (k > 0 ==> rs[0].offset == from)
    && forall i :: 0 < i < k ==> rs[i].offset == rs[i - 1].offset + if rs[i - 1].dataLen == 2 then 2 else 1
  }

  lemma PlainTail(rs: seq<ReadResp>, from: nat, k: nat)
    requires k > 0 && PlainUpTo(rs, from, k)
    ensures rs[0].offset == from && rs[0].status !in {1, 2, 3, 4, 5, 6, 7, 8}
    ensures PlainUpTo(rs[1..], from + if rs[0].dataLen == 2 then 2 else 1, k - 1)
  {
    assert forall i :: 0 <= i < |rs| - 1 ==> rs[1..][i] == rs[i + 1];
  }

  /** A read that the hub refuses, at once or after some words: it ends with the hub's error
      and the word count as it was. */
  lemma {:induction false} RefusedRead(s: ReadState, rs: seq<ReadResp>, k: nat)
    requires |s.data| < TWO_TO_16 && AllWithin(rs, |s.data|)
    requires s.active && (s.words == 0 || s.words == |s.data|)
    requires k < |rs| && PlainUpTo(rs, s.next, k) && rs[k].status in {1, 2, 4, 8}
    ensures var t := ReadRun(s, rs); !t.active && t.status == -5 && t.words == s.words
    decreases k
  {
    hide ReadStep, InBuffer, WordCount, PlainUpTo;
    assert rs[0] in rs;
    if k == 0 {
      RefusalStep(s, rs[0]);
      ReadInactiveStays(ReadStep(s, rs[0]), rs[1..]);
    } else {
      PlainTail(rs, s.next, k);
      PlainStep(s, rs[0]);
      assert rs[k] == rs[1..][k - 1];
      RefusedRead(ReadStep(s, rs[0]), rs[1..], k - 1);
    }
  }

  /** Words before the place where such a read stands stay as they are. */
  lemma {:induction false} RefusedKeeps(s: ReadState, rs: seq<ReadResp>, k: nat, j: nat)
    requires |s.data| < TWO_TO_16 && AllWithin(rs, |s.data|)
    requires s.active && (s.words == 0 || s.words == |s.data|)
    requires k < |rs| && PlainUpTo(rs, s.next, k) && rs[k].status in {1, 2, 4, 8}
    requires j < s.next && j < |s.data|
    ensures ReadRun(s, rs).data[j] == s.data[j]
    decreases k
  {
    hide ReadStep, InBuffer, WordCount, PlainUpTo;
    assert rs[0] in rs;
    if k == 0 {
      RefusalStep(s, rs[0]);
      ReadInactiveStays(ReadStep(s, rs[0]), rs[1..]);
    } else {
      PlainTail(rs, s.next, k);
      PlainStep(s, rs[0]);
      assert rs[k] == rs[1..][k - 1];
      RefusedKeeps(ReadStep(s, rs[0]), rs[1..], k - 1, j);
    }
  }

  /** And the words that came before the refusal are in the buffer. */
  lemma {:induction false} RefusedStores(s: ReadState, rs: seq<ReadResp>, k: nat, i: nat)
    requires |s.data| < TWO_TO_16 && AllWithin(rs, |s.data|)
    requires s.active && (s.words == 0 || s.words == |s.data|)
    requires i < k < |rs| && PlainUpTo(rs, s.next, k) && rs[k].status in {1, 2, 4, 8}
    ensures rs[i].offset < |s.data| && ReadRun(s, rs).data[rs[i].offset] == rs[i].data0
    ensures rs[i].dataLen == 2 ==>
              rs[i].offset + 1 < |s.data| && ReadRun(s, rs).data[rs[i].offset + 1] == rs[i].data1
    decreases k
  {
    hide ReadStep, InBuffer, PlainUpTo;
    var r, rest := rs[0], rs[1..];
    assert r in rs;
    PlainTail(rs, s.next, k);
    PlainStep(s, r);
    var s' := ReadStep(s, r);
    assert rs[k] == rest[k - 1];
    if i > 0 {
      assert rs[i] == rest[i - 1];
      RefusedStores(s', rest, k - 1, i - 1);
    } else {
      RefusedKeeps(s', rest, k - 1, r.offset);
      if r.dataLen == 2 {
        RefusedKeeps(s', rest, k - 1, r.offset + 1);
      }
    }
  }

  lemma RefusalStep(s: ReadState, r: ReadResp)
    requires |s.data| < TWO_TO_16 && s.active && r.offset + WordCount(r) <= |s.data| && r.status in {1, 2, 4, 8}
    ensures InBuffer(s, r) && ReadStep(s, r) == s.(active := false, status := -5)
  {
  }

  lemma PlainStep(s: ReadState, r: ReadResp)
    requires |s.data| < TWO_TO_16 && s.active && (s.words == 0 || s.words == |s.data|)
    requires r.offset == s.next && r.offset + WordCount(r) <= |s.data| && r.status !in {1, 2, 3, 4, 5, 6, 7, 8}
    ensures InBuffer(s, r)
    ensures var t := ReadStep(s, r);
            && t == ReadState(true, s.status, t.data, s.words, s.next + if r.dataLen == 2 then 2 else 1)
            && |t.data| == |s.data| && t.next <= |s.data|
            && t.data[r.offset] == r.data0 && (r.dataLen == 2 ==> t.data[r.offset + 1] == r.data1)
            && forall j :: 0 <= j < s.next ==> t.data[j] == s.data[j]
  {
  }

  lemma RefusedAnywhere(s: ReadState, rs: seq<ReadResp>)
    requires |s.data| < TWO_TO_16 && AllWithin(rs, |s.data|)
    requires s.active && s.next == 0 && (s.words == 0 || s.words == |s.data|)
    ensures forall k :: 0 <= k < |rs| && PlainUpTo(rs, 0, k) && rs[k].status in {1, 2, 4, 8} ==>
              var t := ReadRun(s, rs);
              && !t.active && t.status == -5 && t.words == s.words
              && forall i :: 0 <= i < k ==> rs[i].offset < |t.data| && t.data[rs[i].offset] == rs[i].data0
  {
    hide ReadRun, PlainUpTo, AllWithin;
    forall k | 0 <= k < |rs| && PlainUpTo(rs, 0, k) && rs[k].status in {1, 2, 4, 8}
      ensures var t := ReadRun(s, rs);
              && !t.active && t.status == -5 && t.words == s.words
              && forall i :: 0 <= i < k ==> rs[i].offset < |t.data| && t.data[rs[i].offset] == rs[i].data0
    {
      RefusedRead(s, rs, k);
      forall i | 0 <= i < k
        ensures rs[i].offset < |s.data| && ReadRun(s, rs).data[rs[i].offset] == rs[i].data0
      {
        RefusedStores(s, rs, k, i);
      }
    }
  }

  // ----------------------------------------------------------------- round trip

  /** The responses carry the words of the record, in order and without a gap, up to its
      end; any response may carry one word or two. */
  predicate Carries(rs: seq<ReadResp>, record: seq<u32>, from: nat)
    requires from <= |record|
    decreases |rs|
  {
    if rs == [] then from == |record|
    else
      var r := rs[0];
      && r.offset == from && from + WordCount(r) <= |record|
      && r.data0 == record[from] && (r.dataLen == 2 ==> r.data1 == record[from + 1])
      && Carries(rs[1..], record, from + WordCount(r))
  }

  predicate GoodRead(rs: seq<ReadResp>, record: seq<u32>) {
    && rs != [] && Carries(rs, record, 0)
    && ReadCompletes(rs[|rs| - 1].status)
    && forall i :: 0 <= i < |rs| - 1 ==> Plain(rs[i])
  }

  lemma {:induction false} ReadBack(s: ReadState, rs: seq<ReadResp>, record: seq<u32>)
    requires |record| <= |s.data| < TWO_TO_16
    requires s.active && s.next <= |record| && s.data[..s.next] == record[..s.next]
    requires s.words == 0 || s.words == |s.data|
    requires rs != [] && Carries(rs, record, s.next) && ReadCompletes(rs[|rs| - 1].status)
    requires forall i :: 0 <= i < |rs| - 1 ==> Plain(rs[i])
    ensures AllWithin(rs, |s.data|)
    ensures var t := ReadRun(s, rs);
            !t.active && t.status == SH2_OK && t.words == |record| && t.data[..|record|] == record
    decreases |rs|
  {
    var r := rs[0];
    var s' := ReadStep(s, r);
    StoredPrefix(s, r, record);
    if |rs| == 1 {
      assert rs == [r] && rs[1..] == [];
      assert record[..|record|] == record;
    } else {
      ReadBack(s', rs[1..], record);
      assert forall q :: q in rs ==> q == r || q in rs[1..];
    }
  }

  /** A good read ends with its last response and not before. */
  lemma {:induction false} StillReading(s: ReadState, rs: seq<ReadResp>, record: seq<u32>, k: nat)
    requires |record| <= |s.data| < TWO_TO_16
    requires s.active && s.next <= |record| && (s.words == 0 || s.words == |s.data|)
    requires Carries(rs, record, s.next) && k < |rs|
    requires forall i :: 0 <= i < |rs| - 1 ==> Plain(rs[i])
    ensures AllWithin(rs[..k], |s.data|) && ReadRun(s, rs[..k]).active
    decreases k
  {
    if k > 0 {
      StillReading(ReadStep(s, rs[0]), rs[1..], record, k - 1);
      assert rs[..k] == [rs[0]] + rs[1..][..k - 1] && rs[..k][1..] == rs[1..][..k - 1];
    }
  }

  lemma StoredPrefix(s: ReadState, r: ReadResp, record: seq<u32>)
    requires |record| <= |s.data| < TWO_TO_16 && (s.words == 0 || s.words == |s.data|)
    requires r.offset == s.next && s.next + WordCount(r) <= |record| <= |s.data|
    requires s.data[..s.next] == record[..s.next]
    requires r.data0 == record[s.next] && (r.dataLen == 2 ==> r.data1 == record[s.next + 1])
    ensures var t := StoreWords(s, r); t.next == s.next + WordCount(r) && t.data[..t.next] == record[..t.next]
  {
    var t := StoreWords(s, r);
    forall i | 0 <= i < s.next
      ensures t.data[i] == record[i]
    {
      assert s.data[..s.next][i] == record[..s.next][i];
    }
  }

  /** A record written to the hub and read back is the same: both operations succeed and the
      caller's buffer starts with its words, their number reported. It holds for any
      prompting of the write, any split of the read and any large enough buffer. */
  lemma FlashRoundTrip(record: seq<u32>, statuses: seq<byte>, before: seq<u32>, rs: seq<ReadResp>, buffer: seq<u32>)
    requires 0 < |record| == |before| <= |buffer| < TWO_TO_16
    requires GoodWrite(record, statuses)
    requires GoodRead(rs, StoreAll(before, WriteSent(WriteStart(record), statuses)))
    ensures WriteRun(WriteStart(record), statuses).status == SH2_OK
    ensures AllWithin(rs, |buffer|)
    ensures var t := ReadRun(ReadStart(buffer, |buffer|), rs);
            !t.active && t.status == SH2_OK && t.words == |record| && t.data[..|record|] == record
  {
    WriteStoresRecord(record, statuses, before);
    ReadBack(ReadStart(buffer, |buffer|), rs, record);
  }

  /** A read whose buffer, word count and expected offset were replaced after its first words
      had come: its next response, if another is to follow, ends it with an error and no
      words; a response that completes it passes for a whole record. Either way the words go
      into the new buffer, and only those. */
  lemma RedirectedRead(buffer: seq<u32>, words: u16, r: ReadResp)
    requires |buffer| < TWO_TO_16 && (words == 0 || words == |buffer|)
    requires r.offset > 0 && r.offset + WordCount(r) <= |buffer|
    requires Plain(r) || ReadCompletes(r.status)
    ensures var t := ReadStep(ReadStart(buffer, words), r);
            && !t.active
            && (Plain(r) ==> t.status == SH2_ERR_IO && t.words == 0)
            && (ReadCompletes(r.status) ==> t.status == SH2_OK && t.words == r.offset + WordCount(r))
            && t.data[..r.offset] == buffer[..r.offset] && t.data[r.offset] == r.data0
  {
    var t := ReadStep(ReadStart(buffer, words), r);
    assert forall i :: 0 <= i < r.offset ==> t.data[i] == buffer[i];
  }

  /** A deleted record: the hub says it is empty, and the read gives success and no words. */
  lemma EmptyRecordRead(buffer: seq<u32>, r: ReadResp)
    requires 0 < |buffer| < TWO_TO_16 && r.status == READ_RECORD_EMPTY && r.offset == 0 && WordCount(r) <= |buffer|
    ensures var t := ReadRun(ReadStart(buffer, |buffer|), [r]);
            !t.active && t.status == SH2_OK && t.words == 0
  {
    assert [r][1..] == [];
    ReadInactiveStays(ReadStep(ReadStart(buffer, |buffer|), r), []);
  }
}
