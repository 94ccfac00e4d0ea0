/** The SH-2 operation engine: one operation at a time, driven by the hub's reports. */
module Sh2 {
  import opened Basics
  import Cmd = Commands
  import Frs
  import P = ProductIds

  const SH2_OK := 0
  const SH2_ERR_BAD_PARAM := -2
  const SH2_ERR_OP_IN_PROGRESS := -3
  const SH2_ERR_HUB := -5
  const SH2_ERR_TIMEOUT := -6
  const SH2_CMD_INITIALIZE := 4

  /** A caller's word count, and a caller's product id table. */
  class WordCell {
    var value: u16

    constructor (value: u16)
      ensures this.value == value
    {
      this.value := value;
    }
  }

  class ProductTable {
    const entry: array<P.ProductId>
    var numEntries: byte

    constructor ()
      ensures entry.Length == P.MAX_ENTRIES && fresh(entry) && numEntries == 0
    {
      entry := new P.ProductId[P.MAX_ENTRIES](_ => P.ProductId(0, 0, 0, 0, 0, 0));
      numEntries := 0;
    }
  }

  datatype Op = GetProdIdOp | GetFrsOp | SetFrsOp | ReinitOp | SendCmdOp

  /** The parameters and progress of the operation, one variant per kind. */
  datatype OpData =
    | NoData
    | ProdIdData(table: ProductTable, nextEntry: byte, expectedEntries: byte)
    | GetFrsData(getType: u16, pData: array<u32>, pWords: WordCell, nextOffset: u16)
    | SetFrsData(setType: u16, record: array<u32>, words: u16, offset: u16)
    | CmdData(command: byte)

  /** What is handed to the control channel. */
  datatype Request =
    | ProdIdReq
    | FrsReadReq(readType: u16)
    | FrsWriteReq(length: u16, writeType: u16)
    | FrsWriteData(data: Frs.DataReq)
    | CommandReq(seqNo: byte, cmd: byte)

  /** A report from the hub. */
  datatype Report =
    | ProdIdResp(id: P.ProductId)
    | FrsReadResp(read: Frs.ReadResp)
    | FrsWriteResp(writeStatus: byte)
    | CommandResp(resp: Cmd.Response)
    | OtherReport(reportId: byte)

  function Reads(reports: seq<Report>): seq<Frs.ReadResp> {
    if reports == [] then []
    else (if reports[0].FrsReadResp? then [reports[0].read] else []) + Reads(reports[1..])
  }

  function Writes(reports: seq<Report>): seq<byte> {
    if reports == [] then []
    else (if reports[0].FrsWriteResp? then [reports[0].writeStatus] else []) + Writes(reports[1..])
  }

  function Ids(reports: seq<Report>): seq<P.ProductId> {
    if reports == [] then []
    else (if reports[0].ProdIdResp? then [reports[0].id] else []) + Ids(reports[1..])
  }

  function Responses(reports: seq<Report>): seq<Cmd.Response> {
    if reports == [] then []
    else (if reports[0].CommandResp? then [reports[0].resp] else []) + Responses(reports[1..])
  }

  /** Reads stay inside a buffer of the given size. */
  predicate ReadsWithin(reports: seq<Report>, size: nat) {
    forall r :: r in reports && r.FrsReadResp? ==> r.read.offset + Frs.WordCount(r.read) <= size
  }

  /** The state of an exchange, as the machines of the single operations see it. */
  datatype View =
    | ReadV(read: Frs.ReadState)
    | WriteV(write: Frs.WriteState)
    | IdV(ids: P.State)
    | CmdV(cmd: Cmd.State)
    | OtherV

  predicate ViewOk(v: View, reports: seq<Report>) {
    match v
    case ReadV(s) => |s.data| < TWO_TO_16 && ReadsWithin(reports, |s.data|)
    case WriteV(s) => Frs.WriteOk(s)
    case IdV(s) => P.Ok(s)
    case _ => true
  }

  function ViewStep(v: View, r: Report): View
    requires ViewOk(v, [r])
  {
    assert r in [r];
    match (v, r)
    case (ReadV(s), FrsReadResp(x)) => ReadV(Frs.ReadStep(s, x))
    case (WriteV(s), FrsWriteResp(x)) => WriteV(Frs.WriteStep(s, x))
    case (IdV(s), ProdIdResp(x)) => IdV(P.Receive(s, x))
    case (CmdV(s), CommandResp(x)) => CmdV(Cmd.Step(s, x))
    case _ => v
  }

  /** Data requests as they are handed out. */
  function Wrap(reqs: seq<Frs.DataReq>): seq<Request> {
    if reqs == [] then [] else [FrsWriteData(reqs[0])] + Wrap(reqs[1..])
  }

  /** What a report makes the operation send. */
  function ViewEmits(v: View, r: Report): seq<Request>
    requires ViewOk(v, [r])
  {
    match (v, r)
    case (WriteV(s), FrsWriteResp(x)) => Wrap(Frs.WriteEmits(s, x))
    case _ => []
  }

  /** A report keeps a view fit for the reports that follow. */
  lemma ViewStepOk(v: View, r: Report, rest: seq<Report>)
    requires ViewOk(v, [r] + rest)
    ensures ViewOk(v, [r]) && ViewOk(ViewStep(v, r), rest)
  {
    assert r in [r] + rest;
    assert forall x :: x in rest ==> x in [r] + rest;
  }

  function ViewRun(v: View, reports: seq<Report>): View
    requires ViewOk(v, reports)
    decreases |reports|
  {
    if reports == [] then v
    else
      assert reports == [reports[0]] + reports[1..];
      ViewStepOk(v, reports[0], reports[1..]);
      ViewRun(ViewStep(v, reports[0]), reports[1..])
  }

  /** Everything that a run makes the operation send, in order. */
  function RunEmits(v: View, reports: seq<Report>): seq<Request>
    requires ViewOk(v, reports)
    decreases |reports|
  {
    if reports == [] then []
    else
      assert reports == [reports[0]] + reports[1..];
      ViewStepOk(v, reports[0], reports[1..]);
      ViewEmits(v, reports[0]) + RunEmits(ViewStep(v, reports[0]), reports[1..])
  }

  lemma {:induction false} ViewRunConcat(v: View, a: seq<Report>, b: seq<Report>)
    requires ViewOk(v, a + b)
    ensures ViewOk(v, a) && ViewOk(ViewRun(v, a), b)
    ensures ViewRun(v, a + b) == ViewRun(ViewRun(v, a), b)
    ensures RunEmits(v, a + b) == RunEmits(v, a) + RunEmits(ViewRun(v, a), b)
    decreases |a|
  {
    hide ViewStep, ViewEmits;
    if a == [] {
      assert a + b == b;
      ViewMono(v, b, []);
    } else {
      assert (a + b)[0] == a[0] && (a + b)[1..] == a[1..] + b;
      assert a + b == [a[0]] + (a[1..] + b);
      ViewStepOk(v, a[0], a[1..] + b);
      ViewRunConcat(ViewStep(v, a[0]), a[1..], b);
      ViewMono(v, a + b, a);
      ConcatAssociates(ViewEmits(v, a[0]), RunEmits(ViewStep(v, a[0]), a[1..]),
                       RunEmits(ViewRun(ViewStep(v, a[0]), a[1..]), b));
    }
  }

  /** Only writes send anything while they go on. */
  lemma {:induction false} NothingSent(v: View, reports: seq<Report>)
    requires ViewOk(v, reports) && !v.WriteV?
    ensures RunEmits(v, reports) == []
    decreases |reports|
  {
    if reports != [] {
      assert reports == [reports[0]] + reports[1..];
      ViewStepOk(v, reports[0], reports[1..]);
      NothingSent(ViewStep(v, reports[0]), reports[1..]);
    }
  }

  lemma ViewMono(v: View, all: seq<Report>, part: seq<Report>)
    requires ViewOk(v, all) && forall r :: r in part ==> r in all
    ensures ViewOk(v, part)
  {
  }

  /** A read operation sees the read responses, and nothing else. */
  lemma {:induction false} ViewRunReads(s: Frs.ReadState, reports: seq<Report>)
    requires ViewOk(ReadV(s), reports)
    ensures Frs.AllWithin(Reads(reports), |s.data|)
    ensures ViewRun(ReadV(s), reports) == ReadV(Frs.ReadRun(s, Reads(reports)))
    decreases |reports|
  {
    if reports != [] {
      assert reports == [reports[0]] + reports[1..];
      ViewStepOk(ReadV(s), reports[0], reports[1..]);
      ViewRunReads(ViewStep(ReadV(s), reports[0]).read, reports[1..]);
      if reports[0].FrsReadResp? {
        assert Reads(reports)[0] == reports[0].read && Reads(reports)[1..] == Reads(reports[1..]);
      } else {
        assert Reads(reports) == Reads(reports[1..]);
      }
    }
  }

  /** A write operation sees the write responses. */
  lemma {:induction false} ViewRunWrites(s: Frs.WriteState, reports: seq<Report>)
    requires ViewOk(WriteV(s), reports)
    ensures ViewRun(WriteV(s), reports) == WriteV(Frs.WriteRun(s, Writes(reports)))
    ensures RunEmits(WriteV(s), reports) == Wrap(Frs.WriteSent(s, Writes(reports)))
    decreases |reports|
  {
    hide Frs.WriteStep, Frs.WriteEmits;
    if reports != [] {
      assert reports == [reports[0]] + reports[1..];
      ViewStepOk(WriteV(s), reports[0], reports[1..]);
      ViewRunWrites(ViewStep(WriteV(s), reports[0]).write, reports[1..]);
      if reports[0].FrsWriteResp? {
        assert Writes(reports)[0] == reports[0].writeStatus && Writes(reports)[1..] == Writes(reports[1..]);
        WrapConcat(Frs.WriteEmits(s, reports[0].writeStatus),
                   Frs.WriteSent(Frs.WriteStep(s, reports[0].writeStatus), Writes(reports[1..])));
      } else {
        assert Writes(reports) == Writes(reports[1..]);
      }
    }
  }

  lemma {:induction false} WrapConcat(a: seq<Frs.DataReq>, b: seq<Frs.DataReq>)
    ensures Wrap(a + b) == Wrap(a) + Wrap(b)
  {
    if a == [] {
      assert a + b == b;
    } else {
      WrapConcat(a[1..], b);
      assert (a + b)[0] == a[0] && (a + b)[1..] == a[1..] + b;
      ConcatAssociates([FrsWriteData(a[0])], Wrap(a[1..]), Wrap(b));
    }
  }

  /** A command sees the command responses. */
  lemma {:induction false} ViewRunCommands(s: Cmd.State, reports: seq<Report>)
    ensures ViewOk(CmdV(s), reports)
    ensures ViewRun(CmdV(s), reports) == CmdV(Cmd.Run(s, Responses(reports)))
    decreases |reports|
  {
    if reports != [] {
      assert reports == [reports[0]] + reports[1..];
      ViewStepOk(CmdV(s), reports[0], reports[1..]);
      ViewRunCommands(ViewStep(CmdV(s), reports[0]).cmd, reports[1..]);
      if reports[0].CommandResp? {
        assert Responses(reports)[0] == reports[0].resp && Responses(reports)[1..] == Responses(reports[1..]);
      } else {
        assert Responses(reports) == Responses(reports[1..]);
      }
    }
  }

  /** A product id operation sees the product id responses. */
  lemma {:induction false} ViewRunIds(s: P.State, reports: seq<Report>)
    requires ViewOk(IdV(s), reports)
    ensures ViewRun(IdV(s), reports) == IdV(P.Run(s, Ids(reports)))
    decreases |reports|
  {
    if reports != [] {
      assert reports == [reports[0]] + reports[1..];
      ViewStepOk(IdV(s), reports[0], reports[1..]);
      ViewRunIds(ViewStep(IdV(s), reports[0]).ids, reports[1..]);
      if reports[0].ProdIdResp? {
        assert Ids(reports)[0] == reports[0].id && Ids(reports)[1..] == Ids(reports[1..]);
      } else {
        assert Ids(reports) == Ids(reports[1..]);
      }
    }
  }

  class Driver {
    var pOp: Option<Op>
    var opStatus: int
    var opData: OpData
    var lastCmdId: byte
    var cmdSeq: byte
    var nextCmdSeq: byte

    var sent: seq<Request>   // everything handed to the control channel
    var answers: seq<int>    // results of the coming sends; afterwards all succeed
    ghost var issued: seq<byte>   // commands sent so far

    constructor Open()
      ensures Valid() && pOp == None && sent == [] && issued == []
    {
      pOp, opStatus, opData := None, SH2_OK, NoData;
      lastCmdId, cmdSeq, nextCmdSeq := 0, 0, 0;
      sent, answers, issued := [], [], [];
    }

    /** Commands are numbered from 0, mod 256, in the order they are issued. */
    ghost predicate Numbered()
      reads `lastCmdId, `cmdSeq, `nextCmdSeq, `issued
    {
      && nextCmdSeq == |issued| % 0x100
      && (issued != [] ==> lastCmdId == issued[|issued| - 1] && cmdSeq == (|issued| - 1) % 0x100)
    }

    ghost predicate DataOk()
      reads `opData
    {
      match opData
      case ProdIdData(table, n, k) => table.entry.Length == P.MAX_ENTRIES && n <= k <= P.MAX_ENTRIES
      case GetFrsData(_, data, _, _) => data.Length < TWO_TO_16
      case SetFrsData(_, record, words, offset) => offset <= words <= record.Length
      case _ => true
    }

    /** The active operation finds its own parameters. */
    ghost predicate Matched()
      reads `pOp, `opData
    {
      match pOp
      case Some(GetProdIdOp) => opData.ProdIdData?
      case Some(GetFrsOp) => opData.GetFrsData?
      case Some(SetFrsOp) => opData.SetFrsData?
      case Some(SendCmdOp) => opData.CmdData?
      case _ => true
    }

    ghost predicate Valid()
      reads `pOp, `opData, `lastCmdId, `cmdSeq, `nextCmdSeq, `issued
    {
      Numbered() && DataOk() && Matched()
    }

    /** The caller's storage that the operation may write. */
    ghost function Buffers(): set<object>
      reads `opData
    {
      match opData
      case ProdIdData(table, _, _) => {table, table.entry}
      case GetFrsData(_, data, words, _) => {data, words}
      case _ => {}
    }

    ghost function ReadView(): Frs.ReadState
      reads `pOp, `opStatus, `opData, Buffers()
      requires opData.GetFrsData?
    {
      Frs.ReadState(pOp == Some(GetFrsOp), opStatus, opData.pData[..], opData.pWords.value, opData.nextOffset)
    }

    ghost function WriteView(): Frs.WriteState
      reads `pOp, `opStatus, `opData, if opData.SetFrsData? then {opData.record} else {}
      requires opData.SetFrsData? && DataOk()
    {
      Frs.WriteState(pOp == Some(SetFrsOp), opStatus, opData.record[..opData.words], opData.offset)
    }

    ghost function IdView(): P.State
      reads `pOp, `opStatus, `opData, Buffers()
      requires opData.ProdIdData? && DataOk()
    {
      P.State(pOp == Some(GetProdIdOp), opStatus, opData.table.entry[..opData.nextEntry], opData.expectedEntries,
              opData.table.numEntries)
    }

    ghost function CommandView(): Cmd.State
      reads `pOp, `opStatus, `lastCmdId, `cmdSeq
    {
      Cmd.State(pOp == Some(ReinitOp), opStatus, lastCmdId, cmdSeq)
    }

    /** The exchange as the machine of the given operation sees it. */
    ghost function ViewOf(op: Op): View
      reads `pOp, `opStatus, `opData, `lastCmdId, `cmdSeq, Buffers()
      reads if opData.SetFrsData? then {opData.record} else {}
      requires DataOk() && DataFor(op)
    {
      match op
      case GetProdIdOp => IdV(IdView())
      case GetFrsOp => ReadV(ReadView())
      case SetFrsOp => WriteV(WriteView())
      case ReinitOp => CmdV(CommandView())
      case SendCmdOp => OtherV
    }

    /** The data that fits an operation. */
    ghost predicate DataFor(op: Op)
      reads `opData
    {
      match op
      case GetProdIdOp => opData.ProdIdData?
      case GetFrsOp => opData.GetFrsData?
      case SetFrsOp => opData.SetFrsData?
      case SendCmdOp => opData.CmdData?
      case ReinitOp => true
    }

    // ------------------------------------------------------------------ sending

    /** The result of the next send. */
    function NextAnswer(): int
      reads `answers
    {
      if answers == [] then SH2_OK else answers[0]
    }

    method SendCtrl(r: Request) returns (rc: int)
      modifies `sent, `answers
      ensures sent == old(sent) + [r]
      ensures old(answers) == [] ==> answers == []
      ensures rc == old(NextAnswer())
    {
      sent := sent + [r];
      if answers == [] {
        rc := SH2_OK;
      } else {
        rc, answers := answers[0], answers[1..];
      }
    }

    method SendCmd(cmd: byte) returns (rc: int)
      requires Numbered()
      modifies `sent, `answers, `lastCmdId, `cmdSeq, `nextCmdSeq, `issued
      ensures Numbered() && issued == old(issued) + [cmd]
      ensures sent == old(sent) + [CommandReq(|old(issued)| % 0x100, cmd)] && rc == old(NextAnswer())
      ensures old(answers) == [] ==> answers == []
    {
      lastCmdId := cmd;
      cmdSeq := nextCmdSeq;
      nextCmdSeq := Next(nextCmdSeq);
      issued := issued + [cmd];
      rc := SendCtrl(CommandReq(cmdSeq, cmd));
    }

    predicate WrongResponse(r: Report)
      reads `lastCmdId, `cmdSeq
    {
      !r.CommandResp? || r.resp.command != lastCmdId || r.resp.commandSeq != cmdSeq
    }

    /** A response to the command issued back commands ago is taken for the current one
        exactly when back is a multiple of 256 and the two commands have the same id. So a
        late response to any of the previous 255 commands is ignored. */
    lemma LateResponse(back: nat, r: Cmd.Response)
      requires Numbered() && Cmd.Belongs(issued, back, r)
      ensures !WrongResponse(CommandResp(r)) <==>
              back % 0x100 == 0 && issued[|issued| - 1 - back] == issued[|issued| - 1]
      ensures 0 < back < 0x100 ==> WrongResponse(CommandResp(r))
    {
      Cmd.OldAnswer(issued, back, r);
    }

    // ------------------------------------------------------------------- engine

    method OpCompleted(status: int)
      requires Valid()
      modifies `opStatus, `pOp
      ensures Valid() && pOp == None && opStatus == status
    {
      opStatus := status;
      pOp := None;
    }

    // ------------------------------------------------------- operation handlers

    method GetProdIdRx(r: Report)
      requires Valid() && pOp == Some(GetProdIdOp)
      modifies `pOp, `opStatus, `opData, Buffers()
      ensures Valid() && opData.ProdIdData? && opData.table == old(opData).table
      ensures IdView() == if r.ProdIdResp? then P.Receive(old(IdView()), r.id) else old(IdView())
      ensures pOp == None || pOp == old(pOp)
    {
      if !r.ProdIdResp? {
        return;
      }
      var table := opData.table;
      if opData.nextEntry < opData.expectedEntries {
        table.entry[opData.nextEntry] := r.id;
        if r.id.partNumber == P.FSP200_PART {
          opData := opData.(expectedEntries := P.MAX_ENTRIES);
        }
        opData := opData.(nextEntry := opData.nextEntry + 1);
      }
      if opData.nextEntry >= opData.expectedEntries {
        table.numEntries := opData.nextEntry;
        OpCompleted(SH2_OK);
      }
    }

    method GetFrsRx(r: Report)
      requires Valid() && pOp == Some(GetFrsOp)
      requires r.FrsReadResp? ==> Frs.InBuffer(ReadView(), r.read)
      modifies `pOp, `opStatus, `opData, Buffers()
      ensures Valid() && opData.GetFrsData? && opData == old(opData).(nextOffset := opData.nextOffset)
      ensures pOp == None || pOp == old(pOp)
      ensures ReadView() == if r.FrsReadResp? then Frs.ReadStep(old(ReadView()), r.read) else old(ReadView())
    {
      if !r.FrsReadResp? {
        return;
      }
      var resp := r.read;
      if Frs.ReadFails(resp.status) {
        OpCompleted(SH2_ERR_HUB);
        return;
      }
      if resp.status == Frs.READ_RECORD_EMPTY {
        opData.pWords.value := 0;
        OpCompleted(SH2_OK);
      }
      if resp.offset != opData.nextOffset {
        opData.pWords.value := 0;
        OpCompleted(Frs.SH2_ERR_IO);
      }
      StoreWords(resp);
      if Frs.ReadCompletes(resp.status) {
        opData.pWords.value := opData.nextOffset;
        OpCompleted(SH2_OK);
      }
    }

    /** Stores the words of a response, as far as the word count lets them in. */
    method StoreWords(resp: Frs.ReadResp)
      requires opData.GetFrsData? && DataOk()
      requires Frs.HasRoom(ReadView(), resp) ==> resp.offset + Frs.WordCount(resp) <= opData.pData.Length
      modifies `opData, Buffers()
      ensures opData.GetFrsData? && DataOk() && opData == old(opData).(nextOffset := opData.nextOffset)
      ensures ReadView() == Frs.StoreWords(old(ReadView()), resp)
    {
      var offset := resp.offset;
      if opData.pWords.value == 0 || offset <= opData.pWords.value {
        opData.pData[offset] := resp.data0;
        opData := opData.(nextOffset := offset + 1);
      }
      if resp.dataLen == 2 && (opData.pWords.value == 0 || offset <= opData.pWords.value) {
        opData.pData[offset + 1] := resp.data1;
        opData := opData.(nextOffset := offset + 2);
      }
    }

    method SetFrsRx(r: Report)
      requires Valid() && pOp == Some(SetFrsOp)
      modifies `pOp, `opStatus, `opData, `sent, `answers
      ensures Valid() && opData.SetFrsData? && opData == old(opData).(offset := opData.offset)
      ensures pOp == None || pOp == old(pOp)
      ensures WriteView() == if r.FrsWriteResp? then Frs.WriteStep(old(WriteView()), r.writeStatus) else old(WriteView())
      ensures sent == old(sent) + (if r.FrsWriteResp? then Wrap(Frs.WriteEmits(old(WriteView()), r.writeStatus)) else [])
      ensures old(answers) == [] ==> answers == []
    {
      if !r.FrsWriteResp? {
        return;
      }
      var status := r.writeStatus;
      if Frs.Prompts(status) && opData.offset < opData.words {
        var offset := opData.offset;
        var data0, data1 := opData.record[offset], 0;
        offset := offset + 1;
        if offset < opData.words {
          data1 := opData.record[offset];
          offset := offset + 1;
        }
        var req := Frs.DataReq(opData.offset, data0, data1);
        opData := opData.(offset := offset);
        assert [req][1..] == [] && Wrap([req]) == [FrsWriteData(req)];
        var _ := SendCtrl(FrsWriteData(req));
      }
      if Frs.WriteFails(status) {
        OpCompleted(SH2_ERR_HUB);
      } else if status == Frs.WRITE_COMPLETED {
        OpCompleted(SH2_OK);
      }
    }

    method ReinitRx(r: Report)
      requires Valid() && pOp == Some(ReinitOp)
      modifies `pOp, `opStatus
      ensures Valid() && (pOp == None || pOp == old(pOp))
      ensures CommandView() == if r.CommandResp? then Cmd.Step(old(CommandView()), r.resp) else old(CommandView())
    {
      if WrongResponse(r) {
        return;
      }
      OpCompleted(if r.resp.r0 == 0 then SH2_OK else SH2_ERR_HUB);
    }

    // ----------------------------------------------------- starting and running

    method GetProdIdStart() returns (rc: int)
      requires Valid() && opData.ProdIdData?
      modifies `opData, `sent, `answers
      ensures Valid() && opData == old(opData).(nextEntry := 0, expectedEntries := P.USUAL_ENTRIES)
      ensures sent == old(sent) + [ProdIdReq] && rc == old(NextAnswer())
      ensures old(answers) == [] ==> answers == []
    {
      opData := opData.(nextEntry := 0, expectedEntries := P.USUAL_ENTRIES);
      rc := SendCtrl(ProdIdReq);
    }

    method GetFrsStart() returns (rc: int)
      requires Valid() && opData.GetFrsData?
      modifies `opData, `sent, `answers
      ensures Valid() && opData == old(opData).(nextOffset := 0)
      ensures sent == old(sent) + [FrsReadReq(opData.getType)] && rc == old(NextAnswer())
      ensures old(answers) == [] ==> answers == []
    {
      opData := opData.(nextOffset := 0);
      rc := SendCtrl(FrsReadReq(opData.getType));
    }

    method SetFrsStart() returns (rc: int)
      requires Valid() && opData.SetFrsData?
      modifies `opData, `sent, `answers
      ensures Valid() && opData == old(opData).(offset := 0)
      ensures sent == old(sent) + [FrsWriteReq(opData.words, opData.setType)] && rc == old(NextAnswer())
      ensures old(answers) == [] ==> answers == []
    {
      opData := opData.(offset := 0);
      rc := SendCtrl(FrsWriteReq(opData.words, opData.setType));
    }

    /** Sends a command that nobody answers: the operation is over at once. */
    method SendCmdStart() returns (rc: int)
      requires Valid() && opData.CmdData?
      modifies `sent, `answers, `lastCmdId, `cmdSeq, `nextCmdSeq, `issued, `opStatus, `pOp
      ensures Valid() && pOp == None && opStatus == rc && issued == old(issued) + [opData.command]
      ensures sent == old(sent) + [CommandReq(|old(issued)| % 0x100, opData.command)] && rc == old(NextAnswer())
      ensures old(answers) == [] ==> answers == []
    {
      rc := SendCmd(opData.command);
      OpCompleted(rc);
    }

    twostate predicate Unchanged()
      reads `pOp, `opStatus, `opData, `sent, `lastCmdId, `cmdSeq, `nextCmdSeq, `issued
    {
      && pOp == old(pOp) && opStatus == old(opStatus) && opData == old(opData) && sent == old(sent)
      && lastCmdId == old(lastCmdId) && cmdSeq == old(cmdSeq) && nextCmdSeq == old(nextCmdSeq)
      && issued == old(issued)
    }

    /** The caller's storage stays the same through an operation. */
    twostate predicate SameBuffers()
      reads `opData
    {
      match old(opData)
      case GetFrsData(t, data, words, _) => opData.GetFrsData? && opData == GetFrsData(t, data, words, opData.nextOffset)
      case SetFrsData(t, record, words, _) => opData.SetFrsData? && opData == SetFrsData(t, record, words, opData.offset)
      case ProdIdData(table, _, _) => opData.ProdIdData? && opData.table == table
      case d => opData == d
    }

    /** The request that an operation starts with. */
    ghost function Opening(op: Op): Request
      reads `opData, `nextCmdSeq
      requires DataFor(op)
    {
      match op
      case GetProdIdOp => ProdIdReq
      case GetFrsOp => FrsReadReq(opData.getType)
      case SetFrsOp => FrsWriteReq(opData.words, opData.setType)
      case ReinitOp => CommandReq(nextCmdSeq, SH2_CMD_INITIALIZE)
      case SendCmdOp => CommandReq(nextCmdSeq, opData.command)
    }

    /** The command that an operation sends, if it is one. */
    ghost function CommandOf(op: Op): seq<byte>
      reads `opData
      requires DataFor(op)
    {
      if op == ReinitOp then [SH2_CMD_INITIALIZE] else if op == SendCmdOp then [opData.command] else []
    }

    /** Starts an operation unless one is active: then nothing at all changes. */
    method OpStart(op: Op) returns (rc: int)
      requires pOp == None ==> Valid() && DataFor(op)
      modifies `pOp, `opStatus, `opData, `sent, `answers, `lastCmdId, `cmdSeq, `nextCmdSeq, `issued
      ensures old(pOp).Some? ==> rc == SH2_ERR_OP_IN_PROGRESS && Unchanged()
      ensures old(pOp) == None ==>
                && Valid() && SameBuffers() && Started(op, old(opData))
                && rc == old(NextAnswer()) == opStatus
                && sent == old(sent) + [old(Opening(op))] && issued == old(issued) + old(CommandOf(op))
                && pOp == (if rc == SH2_OK && op != SendCmdOp then Some(op) else None)
      ensures old(answers) == [] ==> answers == []
    {
      if pOp.Some? {
        return SH2_ERR_OP_IN_PROGRESS;
      }
      pOp := Some(op);
      opStatus := SH2_OK;
      match op {
        case GetProdIdOp => rc := GetProdIdStart();
        case GetFrsOp => rc := GetFrsStart();
        case SetFrsOp => rc := SetFrsStart();
        case ReinitOp => rc := SendCmd(SH2_CMD_INITIALIZE);
        case SendCmdOp => rc := SendCmdStart();
      }
      if rc != SH2_OK {
        opStatus := rc;
        pOp := None;
      }
      assert old(issued) + [] == old(issued);
    }

    /** The progress of a started operation is back at its beginning. */
    ghost predicate Started(op: Op, before: OpData)
      reads `opData
    {
      match op
      case GetProdIdOp => before.ProdIdData? && opData == before.(nextEntry := 0, expectedEntries := P.USUAL_ENTRIES)
      case GetFrsOp => before.GetFrsData? && opData == before.(nextOffset := 0)
      case SetFrsOp => before.SetFrsData? && opData == before.(offset := 0)
      case _ => opData == before
    }

    /** One report, handed to the operation in progress: a step of that operation's machine,
        which also says what is sent. When none is in progress nothing changes. */
    method OpRx(r: Report, ghost op: Op)
      requires Valid() && pOp in {None, Some(op)} && DataFor(op) && ViewOk(ViewOf(op), [r])
      modifies `pOp, `opStatus, `opData, `sent, `answers
      modifies if pOp == None then {} else Buffers()
      ensures Valid() && SameBuffers() && pOp in {None, old(pOp)} && DataFor(op)
      ensures old(pOp) == None ==> Unchanged()
      ensures ViewOf(op) == ViewStep(old(ViewOf(op)), r)
      ensures sent == old(sent) + old(ViewEmits(ViewOf(op), r))
      ensures old(answers) == [] ==> answers == []
    {
      assert r in [r];
      match pOp {
        case None =>
        case Some(GetProdIdOp) => GetProdIdRx(r);
        case Some(GetFrsOp) => GetFrsRx(r);
        case Some(SetFrsOp) => SetFrsRx(r);
        case Some(ReinitOp) => ReinitRx(r);
        case Some(SendCmdOp) =>
      }
    }

    /** The reports of one received cargo, in order, also after the operation has ended in the
        middle of them. */
    method Control(reports: seq<Report>, ghost op: Op)
      requires Valid() && pOp in {None, Some(op)} && DataFor(op) && ViewOk(ViewOf(op), reports)
      modifies `pOp, `opStatus, `opData, `sent, `answers
      modifies if pOp == None then {} else Buffers()
      ensures Valid() && SameBuffers() && pOp in {None, old(pOp)} && DataFor(op)
      ensures old(pOp) == None ==> Unchanged()
      ensures ViewOf(op) == ViewRun(old(ViewOf(op)), reports)
      ensures sent == old(sent) + old(RunEmits(ViewOf(op), reports))
      ensures old(answers) == [] ==> answers == []
    {
      hide ViewOk, ViewRun, ViewStep, ViewEmits, RunEmits, Numbered;
      assert reports[0..] == reports;
      for i := 0 to |reports|
        invariant Valid() && SameBuffers() && pOp in {None, old(pOp)} && DataFor(op)
        invariant Buffers() == old(Buffers())
        invariant old(pOp) == None ==> Unchanged()
        invariant ViewOk(ViewOf(op), reports[i..])
        invariant ViewRun(ViewOf(op), reports[i..]) == ViewRun(old(ViewOf(op)), reports)
        invariant sent + RunEmits(ViewOf(op), reports[i..]) == old(sent) + old(RunEmits(ViewOf(op), reports))
        invariant old(answers) == [] ==> answers == []
      {
        FirstReport(ViewOf(op), reports, i);
        ghost var was, v := sent, ViewOf(op);
        OpRx(reports[i], op);
        ConcatAssociates(was, ViewEmits(v, reports[i]), RunEmits(ViewOf(op), reports[i + 1..]));
      }
      NoMoreReports(ViewOf(op), reports);
    }

    /** The view of an operation that is about to start. */
    ghost function StartView(op: Op): View
      reads `opData, `nextCmdSeq, Buffers(), if opData.SetFrsData? then {opData.record} else {}
      requires DataOk() && DataFor(op)
    {
      match op
      case GetProdIdOp => IdV(P.Start(opData.table.numEntries))
      case GetFrsOp => ReadV(Frs.ReadStart(opData.pData[..], opData.pWords.value))
      case SetFrsOp => WriteV(Frs.WriteStart(opData.record[..opData.words]))
      case ReinitOp => CmdV(Cmd.State(true, SH2_OK, SH2_CMD_INITIALIZE, nextCmdSeq))
      case SendCmdOp => OtherV
    }

    /** A started operation has the view it was to start with. */
    lemma StartedView(op: Op, before: OpData)
      requires Valid() && Started(op, before) && pOp == Some(op) && opStatus == SH2_OK
      requires op in {GetProdIdOp, GetFrsOp, SetFrsOp}
      ensures DataFor(op) && ViewOf(op) == StartView(op)
    {
      if op == GetProdIdOp {
        assert opData.table.entry[..0] == [];
      }
    }

    /** Services the device until the operation ends. A round is what one service call
        brings, with the time after it; if the rounds run out first, the call is still
        waiting. A timeout of 0, which all operations have, means to wait for ever. */
    method AwaitEnd(op: Op, timeout: u32, start: u32, rounds: seq<Round>) returns (waiting: bool, polls: nat)
      requires Valid() && pOp == Some(op) && ViewOk(ViewOf(op), AllReports(rounds))
      modifies `pOp, `opStatus, `opData, `sent, `answers, Buffers()
      ensures Valid() && SameBuffers() && polls <= |rounds| && DataFor(op)
      ensures (waiting <==> pOp.Some?) && (waiting ==> pOp == Some(op) && polls == |rounds|)
      ensures old(answers) == [] ==> answers == []
      ensures ViewOk(old(ViewOf(op)), AllReports(rounds[..polls]))
      ensures timeout == 0 || opStatus != SH2_ERR_TIMEOUT ==> ViewOf(op) == ViewRun(old(ViewOf(op)), AllReports(rounds[..polls]))
      ensures sent == old(sent) + RunEmits(old(ViewOf(op)), AllReports(rounds[..polls]))
    {
      hide ViewOk, ViewRun, RunEmits, ViewStep, ViewEmits, Numbered, DataOk, AllReports;
      var now := start;
      polls := 0;
      NoReports(rounds, ViewOf(op));
      while polls < |rounds| && pOp.Some? && (timeout == 0 || (now - start) % TWO_TO_32 < timeout)
        invariant 0 <= polls <= |rounds| && Valid() && SameBuffers() && DataFor(op)
        invariant pOp in {None, Some(op)} && Buffers() == old(Buffers())
        invariant old(answers) == [] ==> answers == []
        invariant ViewOk(old(ViewOf(op)), AllReports(rounds[..polls]))
        invariant ViewOf(op) == ViewRun(old(ViewOf(op)), AllReports(rounds[..polls]))
        invariant sent == old(sent) + RunEmits(old(ViewOf(op)), AllReports(rounds[..polls]))
        invariant ViewOk(ViewOf(op), AllReports(rounds[polls..]))
      {
        NextRound(rounds, polls, old(ViewOf(op)), ViewOf(op));
        ConcatAssociates(old(sent), RunEmits(old(ViewOf(op)), AllReports(rounds[..polls])),
                         RunEmits(ViewOf(op), rounds[polls].reports));
        Control(rounds[polls].reports, op);
        now := rounds[polls].now;
        polls := polls + 1;
      }
      waiting := pOp.Some? && polls == |rounds| && (timeout == 0 || (now - start) % TWO_TO_32 < timeout);
      if pOp.Some? && !waiting {
        pOp := None;
        opStatus := SH2_ERR_TIMEOUT;
      }
    }

    /** Runs an operation. It is refused while another one is active, and then nothing
        changes. Otherwise its opening request goes out; unless the call is still waiting, no
        operation is active at the end; and the exchange, with everything sent in it, went as
        the operation's machine says for the reports so far. */
    method OpProcess(op: Op, timeout: u32, start: u32, rounds: seq<Round>) returns (status: int, waiting: bool,
                     polls: nat)
      requires pOp == None ==> Valid() && DataFor(op) && ViewOk(StartView(op), AllReports(rounds))
      modifies `pOp, `opStatus, `opData, `sent, `answers, `lastCmdId, `cmdSeq, `nextCmdSeq, `issued
      modifies if pOp == None then Buffers() else {}
      ensures polls <= |rounds|
      ensures old(pOp).Some? ==> status == SH2_ERR_OP_IN_PROGRESS == -3 && !waiting && Unchanged()
      ensures old(answers) == [] ==> answers == []
      ensures old(pOp) == None ==>
                && Valid() && SameBuffers() && DataFor(op) && status == opStatus
                && issued == old(issued) + old(CommandOf(op))
                && pOp in {None, Some(op)} && (waiting <==> pOp.Some?) && (waiting ==> polls == |rounds|)
      ensures old(pOp) == None && (old(NextAnswer()) != SH2_OK || op == SendCmdOp) ==>
                status == old(NextAnswer()) && !waiting && sent == old(sent) + [old(Opening(op))]
      ensures old(pOp) == None && old(NextAnswer()) == SH2_OK && op != SendCmdOp ==>
                && ViewOk(old(StartView(op)), AllReports(rounds[..polls]))
                && (timeout == 0 || status != SH2_ERR_TIMEOUT ==>
                      ViewOf(op) == ViewRun(old(StartView(op)), AllReports(rounds[..polls])))
                && sent == old(sent) + [old(Opening(op))] + RunEmits(old(StartView(op)), AllReports(rounds[..polls]))
    {
      hide ViewOk, ViewRun, RunEmits, ViewStep, AllReports, Opening;
      status := OpStart(op);
      waiting, polls := false, 0;
      if status != SH2_OK || op == SendCmdOp {
        return;
      }
      if op == ReinitOp {
        assert issued[|issued| - 1] == SH2_CMD_INITIALIZE;
      } else {
        StartedView(op, old(opData));
        assert StartView(op) == old(StartView(op));
      }
      waiting, polls := AwaitEnd(op, timeout, start, rounds);
      status := opStatus;
    }

    // ---------------------------------------------------------------------- API

    /** Everything but the operation's parameters is as before. */
    twostate predicate OnlyDataChanged()
      reads `pOp, `opStatus, `sent, `lastCmdId, `cmdSeq, `nextCmdSeq, `issued
    {
      && pOp == old(pOp) && opStatus == old(opStatus) && sent == old(sent)
      && lastCmdId == old(lastCmdId) && cmdSeq == old(cmdSeq) && nextCmdSeq == old(nextCmdSeq)
      && issued == old(issued)
    }

    /** Reads a flash record. One request for it goes out. The status, the word count and the
        buffer are those of the read machine for the responses that came, and the call waits
        for more exactly as long as that machine is active.
        A call refused because an operation is active has already replaced that operation's
        parameters by its own. Only a read or a reinitialisation goes on with parameters of
        its kind; a read goes on in the new buffer, expecting the record from its start. */
    method GetFrs(recordId: u16, pData: array?<u32>, words: WordCell?, start: u32, rounds: seq<Round>)
      returns (status: int, waiting: bool, polls: nat)
      requires pOp == None ==> Valid()
      requires pData != null ==> pData.Length < TWO_TO_16 && ReadsWithin(AllReports(rounds), pData.Length)
      modifies `pOp, `opStatus, `opData, `sent, `answers, `lastCmdId, `cmdSeq, `nextCmdSeq, `issued
      modifies (if pData == null then {} else {pData}), (if words == null then {} else {words})
      ensures polls <= |rounds|
      ensures pData == null || words == null ==> status == SH2_ERR_BAD_PARAM == -2 && !waiting && Unchanged()
      ensures pData != null && words != null && old(pOp).Some? ==>
                && status == SH2_ERR_OP_IN_PROGRESS == -3 && !waiting && OnlyDataChanged()
                && opData == GetFrsData(recordId, pData, words, 0)
                && (Matched() <==> old(pOp) in {Some(GetFrsOp), Some(ReinitOp)})
                && (old(pOp) == Some(GetFrsOp) ==>
                      ReadView() == Frs.ReadStart(pData[..], words.value).(status := opStatus))
      ensures pData != null && words != null && old(pOp) == None ==> sent == old(sent) + [FrsReadReq(recordId)]
      ensures pData != null && words != null && old(pOp) == None && old(NextAnswer()) != SH2_OK ==>
                status == old(NextAnswer()) && !waiting && pOp == None
      ensures pData != null && words != null && old(pOp) == None && old(NextAnswer()) == SH2_OK ==>
                && Valid() && (waiting <==> pOp != None) && (waiting ==> polls == |rounds|)
                && Frs.AllWithin(Reads(AllReports(rounds[..polls])), pData.Length)
                && var v := Frs.ReadRun(old(Frs.ReadStart(pData[..], words.value)), Reads(AllReports(rounds[..polls])));
                   v == Frs.ReadState(waiting, status, pData[..], words.value, v.next)
      ensures pData != null && words != null && old(pOp) == None && old(NextAnswer()) == SH2_OK
              && old(words.value) in {0, pData.Length} ==>
                var rs := Reads(AllReports(rounds[..polls]));
                forall k :: 0 <= k < |rs| && Frs.PlainUpTo(rs, 0, k) && rs[k].status in {1, 2, 4, 8} ==>
                  && !waiting && status == -5 && words.value == old(words.value)
                  && forall i :: 0 <= i < k ==> rs[i].offset < pData.Length && pData[rs[i].offset] == rs[i].data0
    {
      hide ViewOk, ViewStep, ViewRun, RunEmits, AllReports, Frs.ReadRun, Frs.ReadStep;
      if pData == null || words == null {
        return SH2_ERR_BAD_PARAM, false, 0;
      }
      opData := GetFrsData(recordId, pData, words, 0);
      ghost var view := Frs.ReadStart(pData[..], words.value);
      FitRead(view, AllReports(rounds));
      assert pOp == None ==> StartView(GetFrsOp) == ReadV(view) && Opening(GetFrsOp) == FrsReadReq(recordId);
      status, waiting, polls := OpProcess(GetFrsOp, 0, start, rounds);
      if ViewOk(ReadV(view), AllReports(rounds[..polls])) {
        ViewRunReads(view, AllReports(rounds[..polls]));
        if view.words == 0 || view.words == |view.data| {
          Frs.RefusedAnywhere(view, Reads(AllReports(rounds[..polls])));
        }
        NothingSent(ReadV(view), AllReports(rounds[..polls]));
      }
    }

    /** Writes a flash record; with no words it is deleted, and then no data need be given.
        The write is announced and the data requests follow, just those of the write machine
        for the responses that came; the status is that machine's, and the call waits while it
        is active. Refused calls are as for reads: an active write goes on with the new words
        from their start, without having announced them. */
    method SetFrs(recordId: u16, pData: array?<u32>, words: u16, start: u32, rounds: seq<Round>)
      returns (status: int, waiting: bool, polls: nat)
      requires pOp == None ==> Valid()
      requires pData != null ==> words <= pData.Length
      modifies `pOp, `opStatus, `opData, `sent, `answers, `lastCmdId, `cmdSeq, `nextCmdSeq, `issued
      ensures polls <= |rounds|
      ensures old(answers) == [] ==> answers == []
      ensures pData == null && words != 0 ==> status == SH2_ERR_BAD_PARAM == -2 && !waiting && Unchanged()
      ensures !(pData == null && words != 0) && old(pOp).Some? ==>
                && status == SH2_ERR_OP_IN_PROGRESS == -3 && !waiting && OnlyDataChanged()
                && (Matched() <==> old(pOp) in {Some(SetFrsOp), Some(ReinitOp)})
                && opData.SetFrsData? && DataOk()
                && (old(pOp) == Some(SetFrsOp) ==>
                      WriteView() == Frs.WriteStart(if pData == null then [] else pData[..words]).(status := opStatus))
      ensures !(pData == null && words != 0) && old(pOp) == None && old(NextAnswer()) != SH2_OK ==>
                status == old(NextAnswer()) && !waiting && pOp == None && sent == old(sent) + [FrsWriteReq(words, recordId)]
      ensures !(pData == null && words != 0) && old(pOp) == None && old(NextAnswer()) == SH2_OK ==>
                && Valid() && (waiting <==> pOp != None) && (waiting ==> polls == |rounds|)
                && var view := Frs.WriteStart(if pData == null then [] else pData[..words]);
                   var statuses := Writes(AllReports(rounds[..polls]));
                   var v := Frs.WriteRun(view, statuses);
                   && v.active == waiting && status == v.status
                   && sent == old(sent) + [FrsWriteReq(words, recordId)] + Wrap(Frs.WriteSent(view, statuses))
                   && forall k :: 0 <= k < |statuses| && statuses[k] in {1, 2, 3, 5, 6, 7, 9, 10, 11}
                                  && (forall i :: 0 <= i < k ==> statuses[i] !in {1, 2, 3, 5, 6, 7, 9, 10, 11}) ==>
                        !waiting && status == if statuses[k] == 3 then 0 else -5
    {
      hide ViewOk, ViewStep, ViewRun, RunEmits, AllReports, Frs.WriteRun, Frs.WriteStep, Frs.WriteSent, Wrap;
      if pData == null && words != 0 {
        return SH2_ERR_BAD_PARAM, false, 0;
      }
      var record;
      if pData == null {
        record := new u32[0];
      } else {
        record := pData;
      }
      opData := SetFrsData(recordId, record, words, 0);
      ghost var view := Frs.WriteStart(record[..words]);
      FitWrite(view, AllReports(rounds));
      assert pOp == None ==> StartView(SetFrsOp) == WriteV(view) && Opening(SetFrsOp) == FrsWriteReq(words, recordId);
      status, waiting, polls := OpProcess(SetFrsOp, 0, start, rounds);
      FitWrite(view, AllReports(rounds[..polls]));
      ViewRunWrites(view, AllReports(rounds[..polls]));
      Frs.WriteEndsAnywhere(view, Writes(AllReports(rounds[..polls])));
    }

    /** Collects the product ids. One request goes out. The call ends as soon as it has as many
        responses as the product has entries, and then the table holds just those, in order.
        A refused call has replaced the active operation's parameters too; an active
        collection goes on with the new table, wanting no entries. */
    method GetProdIds(table: ProductTable, start: u32, rounds: seq<Round>)
      returns (status: int, waiting: bool, polls: nat)
      requires pOp == None ==> Valid()
      requires table.entry.Length == P.MAX_ENTRIES
      modifies `pOp, `opStatus, `opData, `sent, `answers, `lastCmdId, `cmdSeq, `nextCmdSeq, `issued
      modifies table, table.entry
      ensures polls <= |rounds|
      ensures old(pOp).Some? ==>
                && status == SH2_ERR_OP_IN_PROGRESS == -3 && !waiting && OnlyDataChanged()
                && opData == ProdIdData(table, 0, 0)
                && (Matched() <==> old(pOp) in {Some(GetProdIdOp), Some(ReinitOp)})
                && (old(pOp) == Some(GetProdIdOp) ==> IdView() == P.State(true, opStatus, [], 0, table.numEntries))
      ensures old(pOp) == None ==> sent == old(sent) + [ProdIdReq]
      ensures old(pOp) == None && old(NextAnswer()) != SH2_OK ==> status == old(NextAnswer()) && !waiting && pOp == None
      ensures old(pOp) == None && old(NextAnswer()) == SH2_OK ==>
                && Valid() && (waiting <==> pOp != None) && (waiting ==> polls == |rounds|)
                && (!waiting ==> status == SH2_OK)
                && var ids := Ids(AllReports(rounds[..polls]));
                   var n := if exists i :: 0 <= i < 4 && i < |ids| && ids[i].partNumber == 10004095 then 5 else 4;
                   && (waiting <==> |ids| < n)
                   && (!waiting ==> table.numEntries == n && table.entry[..n] == ids[..n])
    {
      hide ViewOk, ViewStep, ViewRun, RunEmits, AllReports, P.Run, P.Receive, P.Wanted;
      opData := ProdIdData(table, 0, 0);
      ghost var n := table.numEntries;
      FitIds(n, AllReports(rounds));
      assert table.entry[..0] == [];
      assert pOp == None ==> StartView(GetProdIdOp) == IdV(P.Start(n)) && Opening(GetProdIdOp) == ProdIdReq;
      status, waiting, polls := OpProcess(GetProdIdOp, 0, start, rounds);
      FitIds(n, AllReports(rounds[..polls]));
      ViewRunIds(P.Start(n), AllReports(rounds[..polls]));
      NothingSent(IdV(P.Start(n)), AllReports(rounds[..polls]));
      P.TableIsFirstResponses(Ids(AllReports(rounds[..polls])), n);
    }

    /** Reinitialises the hub: one numbered command goes out. The call waits until a response
        to this very command comes, and its status is the verdict of the first such response;
        responses to any of the previous 255 commands, however many, change nothing. */
    method Reinitialize(start: u32, rounds: seq<Round>) returns (status: int, waiting: bool, polls: nat)
      requires pOp == None ==> Valid()
      modifies `pOp, `opStatus, `opData, `sent, `answers, `lastCmdId, `cmdSeq, `nextCmdSeq, `issued
      modifies if pOp == None then Buffers() else {}
      ensures polls <= |rounds|
      ensures old(pOp).Some? ==> status == SH2_ERR_OP_IN_PROGRESS == -3 && !waiting && Unchanged()
      ensures old(pOp) == None ==>
                && issued == old(issued) + [4]
                && sent == old(sent) + [CommandReq(|old(issued)| % 256, 4)]
      ensures old(pOp) == None && old(NextAnswer()) != SH2_OK ==> status == old(NextAnswer()) && !waiting && pOp == None
      ensures old(pOp) == None && old(NextAnswer()) == SH2_OK ==>
                && Valid() && (waiting <==> pOp != None) && (waiting ==> polls == |rounds|)
                && var responses := Responses(AllReports(rounds[..polls]));
                   var first := Cmd.FirstAnswer(Cmd.Current(issued), responses);
                   && (waiting <==> first == None)
                   && (!waiting ==> status == if first.value.r0 == 0 then 0 else -5)
                   && ((forall r :: r in responses ==> Cmd.Late(issued, r)) ==> waiting)
    {
      hide ViewOk, ViewStep, ViewRun, RunEmits, AllReports, Responses, Cmd.Run, Cmd.FirstAnswer;
      ghost var s := Cmd.State(true, SH2_OK, SH2_CMD_INITIALIZE, nextCmdSeq);
      ViewRunCommands(s, AllReports(rounds));
      status, waiting, polls := OpProcess(ReinitOp, 0, start, rounds);
      ghost var responses := Responses(AllReports(rounds[..polls]));
      ViewRunCommands(s, AllReports(rounds[..polls]));
      NothingSent(CmdV(s), AllReports(rounds[..polls]));
      Cmd.RunIsFirstAnswer(s, responses);
      if issued != [] && s == Cmd.Current(issued) && forall r :: r in responses ==> Cmd.Late(issued, r) {
        Cmd.LateNeverComplete(issued, responses);
      }
    }
  }

  /** The report at place i is the next step of what is left. */
  lemma FirstReport(v: View, reports: seq<Report>, i: nat)
    requires i < |reports| && ViewOk(v, reports[i..])
    ensures ViewOk(v, [reports[i]]) && ViewOk(ViewStep(v, reports[i]), reports[i + 1..])
    ensures ViewRun(v, reports[i..]) == ViewRun(ViewStep(v, reports[i]), reports[i + 1..])
    ensures RunEmits(v, reports[i..]) == ViewEmits(v, reports[i]) + RunEmits(ViewStep(v, reports[i]), reports[i + 1..])
  {
    var rest := reports[i..];
    assert rest[0] == reports[i] && rest[1..] == reports[i + 1..];
    assert rest == [reports[i]] + reports[i + 1..];
    ViewStepOk(v, reports[i], reports[i + 1..]);
  }

  lemma NoMoreReports(v: View, reports: seq<Report>)
    requires ViewOk(v, reports[|reports|..])
    ensures ViewRun(v, reports[|reports|..]) == v && RunEmits(v, reports[|reports|..]) == []
  {
  }

  lemma FitRead(s: Frs.ReadState, reports: seq<Report>)
    requires |s.data| < TWO_TO_16 && ReadsWithin(reports, |s.data|)
    ensures ViewOk(ReadV(s), reports)
  {
  }

  lemma FitWrite(s: Frs.WriteState, reports: seq<Report>)
    requires Frs.WriteOk(s)
    ensures ViewOk(WriteV(s), reports)
  {
  }

  lemma FitIds(n: nat, reports: seq<Report>)
    ensures ViewOk(IdV(P.Start(n)), reports)
  {
  }

  lemma NoReports(rounds: seq<Round>, v: View)
    requires ViewOk(v, AllReports(rounds))
    ensures rounds[0..] == rounds
    ensures ViewOk(v, AllReports(rounds[..0]))
    ensures ViewRun(v, AllReports(rounds[..0])) == v && RunEmits(v, AllReports(rounds[..0])) == []
  {
  }

  /** One more round of reports. */
  lemma NextRound(rounds: seq<Round>, k: nat, v0: View, v: View)
    requires k < |rounds| && ViewOk(v0, AllReports(rounds[..k])) && v == ViewRun(v0, AllReports(rounds[..k]))
    requires ViewOk(v, AllReports(rounds[k..]))
    ensures ViewOk(v, rounds[k].reports) && ViewOk(ViewRun(v, rounds[k].reports), AllReports(rounds[k + 1..]))
    ensures ViewOk(v0, AllReports(rounds[..k + 1]))
    ensures ViewRun(v0, AllReports(rounds[..k + 1])) == ViewRun(v, rounds[k].reports)
    ensures RunEmits(v0, AllReports(rounds[..k + 1])) == RunEmits(v0, AllReports(rounds[..k])) + RunEmits(v, rounds[k].reports)
  {
    hide ViewRun, RunEmits, ViewOk, AllReports;
    AllReportsSnoc(rounds, k);
    ViewRunConcat(v, rounds[k].reports, AllReports(rounds[k + 1..]));
    ViewSize(v0, AllReports(rounds[..k]));
    ViewJoin(v0, v, AllReports(rounds[..k]), rounds[k].reports);
    ViewRunConcat(v0, AllReports(rounds[..k]), rounds[k].reports);
  }

  /** The buffer of a view keeps its size. */
  lemma {:induction false} ViewSize(v: View, reports: seq<Report>)
    requires ViewOk(v, reports)
    ensures var w := ViewRun(v, reports);
            (v.ReadV? <==> w.ReadV?) && (v.ReadV? ==> |w.read.data| == |v.read.data|)
    decreases |reports|
  {
    if reports != [] {
      assert reports == [reports[0]] + reports[1..];
      ViewStepOk(v, reports[0], reports[1..]);
      ViewSize(ViewStep(v, reports[0]), reports[1..]);
    }
  }

  lemma ViewJoin(v: View, w: View, a: seq<Report>, b: seq<Report>)
    requires ViewOk(v, a) && ViewOk(w, b)
    requires (v.ReadV? <==> w.ReadV?) && (v.ReadV? ==> |w.read.data| == |v.read.data|)
    ensures ViewOk(v, a + b)
  {
  }

  /** What one service call brings, and the time after it. */
  datatype Round = Round(reports: seq<Report>, now: u32)

  function AllReports(rounds: seq<Round>): seq<Report> {
    if rounds == [] then [] else rounds[0].reports + AllReports(rounds[1..])
  }

  lemma {:induction false} AllReportsSnoc(rounds: seq<Round>, k: nat)
    requires k < |rounds|
    ensures AllReports(rounds[..k + 1]) == AllReports(rounds[..k]) + rounds[k].reports
    ensures AllReports(rounds[k..]) == rounds[k].reports + AllReports(rounds[k + 1..])
    decreases k
  {
    assert rounds[k..][1..] == rounds[k + 1..];
    if k == 0 {
      assert rounds[..1][1..] == [] && rounds[..0] == [];
    } else {
      AllReportsSnoc(rounds[1..], k - 1);
      assert rounds[..k + 1][1..] == rounds[1..][..k] && rounds[..k][1..] == rounds[1..][..k - 1];
    }
  }
}
