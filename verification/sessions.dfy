/** The registry of remote sessions: peer connections, each with the UI sessions that
    show it. */
module Sessions {
  import opened Wrappers

  datatype ConnType = Default | FileTransfer | ViewCamera | Terminal | PortForward | Rdp

  type PeerKey = (string, ConnType)
  type SessionId = nat
  type Registry = map<PeerKey, set<SessionId>>

  predicate Under(m: Registry, k: PeerKey, id: SessionId) { k in m && id in m[k] }

  // ---------------------------------------------------------------- specification

  function Inserted(m: Registry, k: PeerKey, id: SessionId): (r: Registry) {
    m[k := (if k in m then m[k] else {}) + {id}]
  }

  function RemovedAt(m: Registry, k: PeerKey, id: SessionId): (r: Registry)
    requires k in m
  {
    if m[k] == {id} then m - {k} else m[k := m[k] - {id}]
  }

  /** The table is walked in no particular order, so the session may be found under any
      of the keys that have it. */
  ghost predicate MayRemove(m: Registry, id: SessionId, r: Registry, gone: Option<PeerKey>) {
    if forall k :: !Under(m, k, id) then r == m && gone == None
    else exists k :: Under(m, k, id) && r == RemovedAt(m, k, id) && gone == if m[k] == {id} then Some(k) else None
  }

  /** The first half of a removal: the session goes, and its peer is noted when it was
      the last one. */
  ghost predicate MayTakeOut(m: Registry, id: SessionId, r: Registry, last: Option<PeerKey>) {
    if forall k :: !Under(m, k, id) then r == m && last == None
    else exists k :: Under(m, k, id) && r == m[k := m[k] - {id}] && last == if m[k] == {id} then Some(k) else None
  }

  /** The second half: the noted peer goes, with whatever sessions it has by then. */
  function Dropped(m: Registry, last: Option<PeerKey>): (r: Registry) { if last.Some? then m - {last.value} else m }

  ghost predicate MayPredict(m: Registry, id: SessionId, b: bool) {
    if forall k :: !Under(m, k, id) then !b else exists k :: Under(m, k, id) && b == (m[k] == {id})
  }

  // ---------------------------------------------------------------- implementation

  class SessionRegistry {
    var sessions: Registry

    constructor () ensures sessions == map[] { sessions := map[]; }

    method FindKey(id: SessionId) returns (found: Option<PeerKey>)
      ensures found.Some? ==> Under(sessions, found.value, id)
      ensures found == None ==> forall k :: !Under(sessions, k, id)
    {
      var todo := sessions.Keys;
      while todo != {}
        invariant todo <= sessions.Keys
        invariant forall k :: Under(sessions, k, id) ==> k in todo
        decreases |todo|
      {
        var k :| k in todo;
        if id in sessions[k] {
          return Some(k);
        }
        todo := todo - {k};
      }
      found := None;
    }

    /** Refuses an id that any peer already has. */
    method SessionAdd(k: PeerKey, id: SessionId) returns (ok: bool)
      modifies this
      ensures ok <==> forall j :: !Under(old(sessions), j, id)
      ensures sessions == if ok then Inserted(old(sessions), k, id) else old(sessions)
    {
      var found := FindKey(id);
      if found.Some? {
        return false;
      }
      var handlers := if k in sessions then sessions[k] else {};
      sessions := sessions[k := handlers + {id}];
      ok := true;
    }

    /** Another UI session for a peer that is connected; the id is not looked up. */
    method InsertPeerSessionId(k: PeerKey, id: SessionId) returns (ok: bool)
      modifies this
      ensures ok == (k in old(sessions))
      ensures sessions == if ok then Inserted(old(sessions), k, id) else old(sessions)
    {
      if k in sessions {
        sessions := sessions[k := sessions[k] + {id}];
        return true;
      }
      ok := false;
    }

    /** The lock is given up between the two halves of a removal. */
    method TakeOutSession(id: SessionId) returns (last: Option<PeerKey>)
      modifies this
      ensures MayTakeOut(old(sessions), id, sessions, last)
    {
      last := None;
      var found := FindKey(id);
      match found {
        case None =>
        case Some(k) =>
          var rest := sessions[k] - {id};
          assert Under(sessions, k, id) && (rest == {} <==> sessions[k] == {id});
          sessions := sessions[k := rest];
          if rest == {} {
            last := Some(k);
          }
      }
    }

    method DropPeer(k: PeerKey) returns (gone: Option<set<SessionId>>)
      modifies this
      ensures sessions == Dropped(old(sessions), Some(k))
      ensures gone == if k in old(sessions) then Some(old(sessions)[k]) else None
    {
      gone := if k in sessions then Some(sessions[k]) else None;
      sessions := sessions - {k};
    }

    /** The whole removal, with nothing in between. */
    method RemoveSessionBySessionId(id: SessionId) returns (gone: Option<PeerKey>)
      modifies this
      ensures MayRemove(old(sessions), id, sessions, gone)
    {
      ghost var m := sessions;
      gone := TakeOutSession(id);
      TwoHalves(m, id, sessions, gone);
      if gone.Some? {
        var _ := DropPeer(gone.value);
      }
    }

    method WouldRemovePeerBySessionId(id: SessionId) returns (b: bool)
      ensures MayPredict(sessions, id, b)
    {
      var found := FindKey(id);
      match found {
        case None => b := false;
        case Some(k) =>
          assert Under(sessions, k, id);
          b := |sessions[k]| == 1;
          OneElement(sessions[k], id);
      }
    }
  }

  /** A removal is its two halves. */
  lemma TwoHalves(m: Registry, id: SessionId, mid: Registry, last: Option<PeerKey>)
    requires MayTakeOut(m, id, mid, last)
    ensures MayRemove(m, id, Dropped(mid, last), last)
  {
    if exists k :: Under(m, k, id) {
      var k :| Under(m, k, id) && mid == m[k := m[k] - {id}] && last == if m[k] == {id} then Some(k) else None;
      assert m[k := {}] - {k} == m - {k};
      assert Dropped(mid, last) == RemovedAt(m, k, id);
    }
  }

  lemma OneElement(s: set<SessionId>, x: SessionId)
    requires x in s
    ensures |s| == 1 <==> s == {x}
  {
    if |s| == 1 {
      assert |s - {x}| == 0;
      assert s == (s - {x}) + {x};
    }
  }

  // ---------------------------------------------------------------- prediction

  /** Every session id is under one peer at most, and every peer has a UI session. */
  ghost predicate Valid(m: Registry) {
    && (forall j, k, id :: Under(m, j, id) && Under(m, k, id) ==> j == k)
    && (forall k :: k in m ==> m[k] != {})
  }

  /** All the keys that have the id agree on whether it is their only one. */
  ghost predicate Settled(m: Registry, id: SessionId) {
    forall j, k :: Under(m, j, id) && Under(m, k, id) ==> (m[j] == {id} <==> m[k] == {id})
  }

  /** The prediction is right for every order the table may be walked in, exactly when
      the registry is settled about the id. */
  lemma PredictionRightIff(m: Registry, id: SessionId)
    ensures (forall b, r, gone :: MayPredict(m, id, b) && MayRemove(m, id, r, gone) ==> (b <==> gone.Some?))
            <==> Settled(m, id)
  {
    if !Settled(m, id) {
      var j, k :| Under(m, j, id) && Under(m, k, id) && m[j] == {id} && m[k] != {id};
      assert MayPredict(m, id, true);
      assert MayRemove(m, id, RemovedAt(m, k, id), None);
    }
  }

  // ---------------------------------------------------------------- runs

  datatype Op = Add(key: PeerKey, id: SessionId) | AddExisted(key: PeerKey, id: SessionId) | Remove(id: SessionId)

  ghost predicate Follows(m: Registry, op: Op, r: Registry) {
    match op
    case Add(k, id) => r == if forall j :: !Under(m, j, id) then Inserted(m, k, id) else m
    case AddExisted(k, id) => r == if k in m then Inserted(m, k, id) else m
    case Remove(id) => exists gone :: MayRemove(m, id, r, gone)
  }

  /** What the callers of `session_add_existed` have to take care of: the id must not be
      in use for another peer. */
  ghost predicate IdIsFree(m: Registry, op: Op) {
    op.AddExisted? ==> forall j :: Under(m, j, op.id) ==> j == op.key
  }

  ghost predicate IsRun(states: seq<Registry>, ops: seq<Op>) {
    && |states| == |ops| + 1
    && (forall i :: 0 <= i < |ops| ==> Follows(states[i], ops[i], states[i + 1]) && IdIsFree(states[i], ops[i]))
  }

  lemma InsertKeepsValid(m: Registry, k: PeerKey, id: SessionId)
    requires Valid(m) && forall j :: Under(m, j, id) ==> j == k
    ensures Valid(Inserted(m, k, id))
  {
    forall j, l, x | Under(Inserted(m, k, id), j, x) && Under(Inserted(m, k, id), l, x) ensures j == l {
      assert Under(m, j, x) || (j == k && x == id);
      assert Under(m, l, x) || (l == k && x == id);
    }
  }

  lemma RemoveKeepsValid(m: Registry, k: PeerKey, id: SessionId)
    requires Valid(m) && Under(m, k, id)
    ensures Valid(RemovedAt(m, k, id)) && forall j :: !Under(RemovedAt(m, k, id), j, id)
  {
    var r := RemovedAt(m, k, id);
    forall j, x | Under(r, j, x) ensures Under(m, j, x) && (x == id ==> j != k) {}
    if m[k] != {id} {
      assert m[k] - {id} != {} by { assert m[k] == (m[k] - {id}) + {id}; }
    }
  }

  lemma StepKeepsValid(m: Registry, op: Op, r: Registry)
    requires Valid(m) && Follows(m, op, r) && IdIsFree(m, op)
    ensures Valid(r)
    ensures op.Remove? ==> forall j :: !Under(r, j, op.id)
  {
    match op
    case Add(k, id) => if forall j :: !Under(m, j, id) { InsertKeepsValid(m, k, id); }
    case AddExisted(k, id) => if k in m { InsertKeepsValid(m, k, id); }
    case Remove(id) =>
      if exists k :: Under(m, k, id) {
        var gone :| MayRemove(m, id, r, gone);
        var k :| Under(m, k, id) && r == RemovedAt(m, k, id);
        RemoveKeepsValid(m, k, id);
      }
  }

  /** What an operation does, exactly: it adds the one session if it may, or takes the one
      session out, and touches no other; a peer is in the registry as long as it has one. */
  lemma StepIsExact(m: Registry, op: Op, r: Registry, k: PeerKey, id: SessionId)
    requires Valid(m) && Follows(m, op, r) && IdIsFree(m, op)
    ensures Under(r, k, id) <==>
            match op
            case Add(j, x) => Under(m, k, id) || (k == j && id == x && forall l :: !Under(m, l, x))
            case AddExisted(j, x) => Under(m, k, id) || (k == j && id == x && j in m)
            case Remove(x) => Under(m, k, id) && id != x
    ensures k in r <==> exists x :: Under(r, k, x)
  {
    StepKeepsValid(m, op, r);
    if k in r {
      var x :| x in r[k];
      assert Under(r, k, x);
    }
    if op.Remove? && exists j :: Under(m, j, op.id) {
      var gone :| MayRemove(m, op.id, r, gone);
      var j :| Under(m, j, op.id) && r == RemovedAt(m, j, op.id);
    }
  }

  /** In every reachable state the prediction is right, for every id. */
  lemma {:induction false} PredictionHolds(states: seq<Registry>, ops: seq<Op>, id: SessionId, b: bool, r: Registry, gone: Option<PeerKey>)
    requires IsRun(states, ops) && Valid(states[0])
    requires MayPredict(states[|ops|], id, b) && MayRemove(states[|ops|], id, r, gone)
    ensures Valid(states[|ops|]) && (b <==> gone.Some?)
    ensures gone.Some? ==> r == states[|ops|] - {gone.value}
  {
    RunKeepsValid(states, ops);
    PredictionRightIff(states[|ops|], id);
  }

  lemma {:induction false} RunKeepsValid(states: seq<Registry>, ops: seq<Op>)
    requires IsRun(states, ops) && Valid(states[0])
    ensures Valid(states[|ops|])
    decreases |ops|
  {
    if ops != [] {
      var n := |ops| - 1;
      RunKeepsValid(states[..n + 1], ops[..n]);
      StepKeepsValid(states[n], ops[n], states[n + 1]);
    }
  }

  /** An id that is given to a second peer breaks the prediction: whether the removal
      takes a peer away depends on the order the table is walked in. */
  lemma SharedIdBreaksPrediction(j: PeerKey, k: PeerKey, id: SessionId, other: SessionId)
    requires j != k && id != other
    ensures var m := Inserted(map[j := {id}, k := {other}], k, id);
            MayPredict(m, id, true) && MayRemove(m, id, RemovedAt(m, k, id), None)
  {
    var m := Inserted(map[j := {id}, k := {other}], k, id);
    assert Under(m, j, id) && m[j] == {id};
    assert Under(m, k, id) && other in m[k];
  }

  // ---------------------------------------------------------------- between the two halves

  ghost predicate IsGap(states: seq<Registry>, ops: seq<Op>) {
    |states| == |ops| + 1 && forall i :: 0 <= i < |ops| ==> Follows(states[i], ops[i], states[i + 1])
  }

  /** The operation puts the session under the peer. */
  ghost predicate Adds(m: Registry, op: Op, k: PeerKey, id: SessionId) {
    match op
    case Add(j, x) => j == k && x == id && forall l :: !Under(m, l, id)
    case AddExisted(j, x) => j == k && x == id && k in m
    case Remove(_) => false
  }

  ghost predicate AddedIn(states: seq<Registry>, ops: seq<Op>, k: PeerKey, id: SessionId) {
    exists i :: 0 <= i < |ops| && i < |states| && Adds(states[i], ops[i], k, id)
  }

  lemma GapStep(m: Registry, op: Op, r: Registry, k: PeerKey, id: SessionId)
    requires Follows(m, op, r) && op != Remove(id)
    ensures Under(r, k, id) <==> Under(m, k, id) || Adds(m, op, k, id)
  {
    if op.Remove? && exists j :: Under(m, j, op.id) {
      var gone :| MayRemove(m, op.id, r, gone);
      var j :| Under(m, j, op.id) && r == RemovedAt(m, j, op.id);
      assert Under(m, j, id) ==> m[j] != {op.id};
    }
  }

  /** Which sessions are lost when a removal's peer is dropped: the peer has no session when
      it is noted, so of all the sessions that nobody removes in the gap, it has at the
      drop exactly those that were added under it in the gap. */
  lemma {:induction false} LostInGapIff(states: seq<Registry>, ops: seq<Op>, k: PeerKey, id: SessionId)
    requires IsGap(states, ops) && !Under(states[0], k, id) && Remove(id) !in ops
    ensures Under(states[|ops|], k, id) <==> AddedIn(states, ops, k, id)
  {
    if ops != [] {
      var n := |ops| - 1;
      assert ops[n] in ops && forall op :: op in ops[..n] ==> op in ops;
      LostInGapIff(states[..n + 1], ops[..n], k, id);
      GapStep(states[n], ops[n], states[n + 1], k, id);
      AddedLast(states, ops, k, id);
    }
  }

  lemma AddedLast(states: seq<Registry>, ops: seq<Op>, k: PeerKey, id: SessionId)
    requires |states| == |ops| + 1 && ops != []
    ensures var n := |ops| - 1;
            AddedIn(states, ops, k, id) <==> AddedIn(states[..n + 1], ops[..n], k, id) || Adds(states[n], ops[n], k, id)
  {
    var n := |ops| - 1;
    if AddedIn(states[..n + 1], ops[..n], k, id) {
      var i :| 0 <= i < n && Adds(states[..n + 1][i], ops[..n][i], k, id);
      assert Adds(states[i], ops[i], k, id);
    }
    if AddedIn(states, ops, k, id) && !Adds(states[n], ops[n], k, id) {
      var i :| 0 <= i < |ops| && Adds(states[i], ops[i], k, id);
      assert Adds(states[..n + 1][i], ops[..n][i], k, id);
    }
  }

  /** A session that is added in the gap goes with the peer. */
  lemma SessionIsLost(k: PeerKey, id: SessionId, other: SessionId)
    requires id != other
    ensures var m := map[k := {id}];
            var mid := m[k := m[k] - {id}];
            var late := Inserted(mid, k, other);
            && MayTakeOut(m, id, mid, Some(k)) && Follows(mid, AddExisted(k, other), late)
            && Under(late, k, other) && Dropped(late, Some(k)) == map[]
  {
    var m: Registry := map[k := {id}];
    assert Under(m, k, id) && m[k] - {id} == {};
  }
}
