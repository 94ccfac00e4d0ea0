/** Sequenced commands: which responses complete the command in progress. */
module Commands {
  import opened Basics

  const SH2_OK := 0
  const SH2_ERR_HUB := -5

  /** A command response: the command it answers, that command's number, and its result. */
  datatype Response = Response(command: byte, commandSeq: byte, r0: byte)

  datatype State = State(active: bool, status: int, id: byte, seqNo: byte)

  predicate Answers(s: State, r: Response) {
    r.command == s.id && r.commandSeq == s.seqNo
  }

  function Verdict(r: Response): int {
    if r.r0 == 0 then SH2_OK else SH2_ERR_HUB
  }

  /** One command response, as reinitRx handles it. */
  function Step(s: State, r: Response): State {
    if s.active && Answers(s, r) then s.(active := false, status := Verdict(r)) else s
  }

  function Run(s: State, rs: seq<Response>): State
    decreases |rs|
  {
    if rs == [] then s else Run(Step(s, rs[0]), rs[1..])
  }

  // -------------------------------------------------------------- first answers

  function FirstAnswer(s: State, rs: seq<Response>): Option<Response> {
    if rs == [] then None
    else if Answers(s, rs[0]) then Some(rs[0])
    else FirstAnswer(s, rs[1..])
  }

  lemma {:induction false} FirstAnswerMeans(s: State, rs: seq<Response>)
    ensures FirstAnswer(s, rs).Some? <==> exists r :: r in rs && Answers(s, r)
    ensures FirstAnswer(s, rs).Some? ==> FirstAnswer(s, rs).value in rs && Answers(s, FirstAnswer(s, rs).value)
  {
    if rs != [] {
      FirstAnswerMeans(s, rs[1..]);
      assert rs == [rs[0]] + rs[1..];
    }
  }

  lemma {:induction false} EndedStays(s: State, rs: seq<Response>)
    requires !s.active
    ensures Run(s, rs) == s
    decreases |rs|
  {
    if rs != [] {
      EndedStays(s, rs[1..]);
    }
  }

  /** The command stays active until its first answer, and keeps the verdict of that one. */
  lemma {:induction false} RunIsFirstAnswer(s: State, rs: seq<Response>)
    requires s.active
    ensures Run(s, rs) ==
            match FirstAnswer(s, rs)
            case None => s
            case Some(r) => s.(active := false, status := Verdict(r))
    decreases |rs|
  {
    if rs != [] {
      if Answers(s, rs[0]) {
        EndedStays(Step(s, rs[0]), rs[1..]);
      } else {
        RunIsFirstAnswer(s, rs[1..]);
      }
    }
  }

  // ------------------------------------------------------------- late responses

  /** The command last issued, waiting. Commands are numbered from 0, mod 256. */
  function Current(issued: seq<byte>): State
    requires issued != []
  {
    State(true, SH2_OK, issued[|issued| - 1], (|issued| - 1) % 0x100)
  }

  /** The response belongs to the command issued back commands ago. */
  predicate Belongs(issued: seq<byte>, back: nat, r: Response) {
    back < |issued| && r.command == issued[|issued| - 1 - back] && r.commandSeq == (|issued| - 1 - back) % 0x100
  }

  /** A response to one of the previous 255 commands. */
  predicate Late(issued: seq<byte>, r: Response) {
    exists back: nat :: 0 < back < 0x100 && Belongs(issued, back, r)
  }

  /** A response is taken for one to the current command exactly when its own command is a
      multiple of 256 commands old and has the same id. */
  lemma OldAnswer(issued: seq<byte>, back: nat, r: Response)
    requires issued != [] && Belongs(issued, back, r)
    ensures Answers(Current(issued), r) <==>
            back % 0x100 == 0 && issued[|issued| - 1 - back] == issued[|issued| - 1]
  {
    SameResidue(|issued| - 1, back);
  }

  lemma SameResidue(n: nat, back: nat)
    requires back <= n
    ensures (n - back) % 0x100 == n % 0x100 <==> back % 0x100 == 0
  {
  }

  lemma LateIsIgnored(issued: seq<byte>, r: Response)
    requires issued != [] && Late(issued, r)
    ensures !Answers(Current(issued), r)
  {
    var back: nat :| 0 < back < 0x100 && Belongs(issued, back, r);
    OldAnswer(issued, back, r);
  }

  /** However many late responses come, in whatever order, the current command stays active. */
  lemma LateNeverComplete(issued: seq<byte>, rs: seq<Response>)
    requires issued != [] && forall r :: r in rs ==> Late(issued, r)
    ensures Run(Current(issued), rs) == Current(issued)
  {
    forall r | r in rs
      ensures !Answers(Current(issued), r)
    {
      LateIsIgnored(issued, r);
    }
    RunIsFirstAnswer(Current(issued), rs);
    FirstAnswerMeans(Current(issued), rs);
  }

  /** When late responses are mixed with others, the late ones make no difference. */
  lemma {:induction false} LateMakeNoDifference(issued: seq<byte>, before: seq<Response>, late: Response,
                                                rest: seq<Response>)
    requires issued != [] && Late(issued, late)
    ensures Run(Current(issued), before + [late] + rest) == Run(Current(issued), before + rest)
  {
    var s := Current(issued);
    LateIsIgnored(issued, late);
    RunIsFirstAnswer(s, before + [late] + rest);
    RunIsFirstAnswer(s, before + rest);
    FirstAnswerConcat(s, before + [late], rest);
    FirstAnswerConcat(s, before, [late]);
    FirstAnswerConcat(s, before, rest);
    assert [late][1..] == [];
  }

  lemma {:induction false} FirstAnswerConcat(s: State, a: seq<Response>, b: seq<Response>)
    ensures FirstAnswer(s, a + b) == if FirstAnswer(s, a).Some? then FirstAnswer(s, a) else FirstAnswer(s, b)
  {
    if a == [] {
      assert a + b == b;
    } else {
      assert (a + b)[1..] == a[1..] + b;
      FirstAnswerConcat(s, a[1..], b);
    }
  }
}
