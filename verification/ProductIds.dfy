/** Collecting product ids: how many responses make up the table. */
module ProductIds {
  import opened Basics

  const SH2_OK := 0
  const MAX_ENTRIES := 5
  const USUAL_ENTRIES := 4
  const FSP200_PART := 10004095

  datatype ProductId = ProductId(resetCause: byte, versionMajor: byte, versionMinor: byte,
                                 partNumber: u32, buildNumber: u32, versionPatch: u16)

  /** The entries stored so far, how many are wanted, and the count the caller gets. */
  datatype State = State(active: bool, status: int, table: seq<ProductId>, expected: nat, numEntries: nat)

  function Start(numEntries: nat): State {
    State(true, SH2_OK, [], USUAL_ENTRIES, numEntries)
  }

  predicate Ok(s: State) {
    |s.table| <= s.expected <= MAX_ENTRIES
  }

  /** One product id response, as getProdIdRx handles it. */
  function Receive(s: State, id: ProductId): (r: State)
    requires Ok(s)
    ensures Ok(r)
  {
    if !s.active then s
    else
      var s' := if |s.table| < s.expected
                then s.(table := s.table + [id], expected := if id.partNumber == FSP200_PART then MAX_ENTRIES else s.expected)
                else s;
      if |s'.table| >= s'.expected then s'.(active := false, status := SH2_OK, numEntries := |s'.table|) else s'
  }

  function Run(s: State, ids: seq<ProductId>): (r: State)
    requires Ok(s)
    ensures Ok(r)
    decreases |ids|
  {
    if ids == [] then s else Run(Receive(s, ids[0]), ids[1..])
  }

  predicate AnyFsp200(ids: seq<ProductId>) {
    exists i :: 0 <= i < |ids| && ids[i].partNumber == FSP200_PART
  }

  /** The number of entries that a sequence of responses leads to: an FSP200 part among the
      first four makes it five. */
  function Wanted(ids: seq<ProductId>): nat {
    if AnyFsp200(ids[..Min(USUAL_ENTRIES, |ids|)]) then MAX_ENTRIES else USUAL_ENTRIES
  }

  /** What the responses so far have led to. */
  predicate Collected(s: State, ids: seq<ProductId>) {
    var n := Wanted(ids);
    && s.expected == n
    && s.active == (|ids| < n) && s.status == SH2_OK
    && s.table == ids[..Min(n, |ids|)]
    && (!s.active ==> s.numEntries == n)
  }

  lemma OneMore(s: State, done: seq<ProductId>, id: ProductId)
    requires Ok(s) && Collected(s, done)
    ensures Collected(Receive(s, id), done + [id])
  {
    var ids := done + [id];
    var k := Min(USUAL_ENTRIES, |done|);
    assert done[..k] == ids[..k];
    if |done| < USUAL_ENTRIES {
      assert ids[..Min(USUAL_ENTRIES, |ids|)] == ids && done[..k] == done;
      assert ids[|done|] == id;
      assert forall i :: 0 <= i < |done| ==> ids[i] == done[i];
    }
    if s.active {
      assert done[..|done|] == done;
    }
  }

  lemma {:induction false} RunCollects(s: State, done: seq<ProductId>, ids: seq<ProductId>)
    requires Ok(s) && Collected(s, done)
    ensures Collected(Run(s, ids), done + ids)
    decreases |ids|
  {
    if ids == [] {
      assert done + ids == done;
    } else {
      OneMore(s, done, ids[0]);
      RunCollects(Receive(s, ids[0]), done + [ids[0]], ids[1..]);
      assert done + [ids[0]] + ids[1..] == done + ids;
    }
  }

  /** For any responses: the operation ends with the fourth one, or with the fifth exactly
      when one of the first four is an FSP200 part, number 10004095, and the table holds the
      responses up to then in the order they came. */
  lemma TableIsFirstResponses(ids: seq<ProductId>, numEntries: nat)
    ensures Collected(Run(Start(numEntries), ids), ids)
    ensures var r := Run(Start(numEntries), ids);
            var n := if exists i :: 0 <= i < 4 && i < |ids| && ids[i].partNumber == 10004095 then 5 else 4;
            && Wanted(ids) == n && r.status == 0
            && (r.active <==> |ids| < n)
            && r.table == (if |ids| < n then ids else ids[..n])
            && (!r.active ==> r.numEntries == n)
  {
    RunCollects(Start(numEntries), [], ids);
    assert [] + ids == ids;
    WantedMeans(ids);
    assert ids[..|ids|] == ids;
  }

  lemma WantedMeans(ids: seq<ProductId>)
    ensures Wanted(ids) == if exists i :: 0 <= i < 4 && i < |ids| && ids[i].partNumber == 10004095 then 5 else 4
  {
    var first := ids[..Min(USUAL_ENTRIES, |ids|)];
    if i :| 0 <= i < 4 && i < |ids| && ids[i].partNumber == 10004095 {
      assert first[i].partNumber == FSP200_PART;
    }
  }

  /** A collection whose parameters were cleared under way wants no entries at all: its next
      response ends it with success and an empty table. */
  lemma ClearedCollection(status: int, numEntries: nat, ids: seq<ProductId>)
    requires ids != []
    ensures Run(State(true, status, [], 0, numEntries), ids) == State(false, SH2_OK, [], 0, 0)
  {
    EndedStays(State(false, SH2_OK, [], 0, 0), ids[1..]);
  }

  lemma {:induction false} EndedStays(s: State, ids: seq<ProductId>)
    requires Ok(s) && !s.active
    ensures Run(s, ids) == s
    decreases |ids|
  {
    if ids != [] {
      EndedStays(s, ids[1..]);
    }
  }
}
