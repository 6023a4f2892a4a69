/** Which copy arrives, when a user copies more than once on the same side. */
module ClipboardLatest {
  import opened Wrappers
  import opened ClipboardCodec
  import opened ClipboardEnd
  import opened ClipboardRuns

  /** Copies on one side, and steps in which nothing fails. */
  ghost predicate OneSided(z: Zip, side: Side, e: Event) {
    Smooth(e) || (e.Copy? && e.side == side && e.notes >= 1 && Sendable(z, e.data))
  }

  /** The content copied last. */
  function Newest(u: seq<Entry>, evs: seq<Event>): (v: seq<Entry>)
    decreases |evs|
  {
    if evs == [] then u else Newest(if evs[0].Copy? then evs[0].data else u, evs[1..])
  }

  /** The message delivered last. */
  function LastMessage(last: Option<seq<Wire>>, evs: seq<Event>): (r: Option<seq<Wire>>)
    decreases |evs|
  {
    if evs == [] then last else LastMessage(if evs[0].Deliver? then Some(evs[0].msg) else last, evs[1..])
  }

  function Arrived(evs: seq<Event>): (msgs: set<seq<Wire>>) {
    if evs == [] then {} else (if evs[0].Deliver? then {evs[0].msg} else {}) + Arrived(evs[1..])
  }

  function Held(z: Zip, ws: seq<Wire>, side: Side): (es: seq<Entry>) {
    FromMulti(z, ws) + [Special(OWNER_FORMAT, OwnerData(side))]
  }

  // ---------------------------------------------------------------- the last delivery

  ghost predicate OfACopy(z: Zip, copies: set<seq<Entry>>, ws: seq<Wire>) {
    exists u :: u in copies && Sendable(z, u) && ws == MessageOf(z, u)
  }

  /** What is known of the copying side and of the other one, whose own reads send nothing. */
  ghost predicate Copying(z: Zip, side: Side, u: seq<Entry>, s: State) {
    var me, peer := s.On(side), s.On(Other(side));
    && me.clip == u && Sendable(z, u) && me.inbox == multiset{}
    && (peer.pending == 0 || IsOwned(peer.clip))
  }

  /** Every message is of some copy; the other clipboard holds what was delivered last; and
      the newest copy is still to be read, or on its way, or has arrived. */
  ghost predicate Tracked(z: Zip, side: Side, u: seq<Entry>, copies: set<seq<Entry>>, arrived: set<seq<Wire>>,
                          last: Option<seq<Wire>>, s: State) {
    var me, peer := s.On(side), s.On(Other(side));
    && Copying(z, side, u, s)
    && (forall ws :: ws in peer.inbox ==> OfACopy(z, copies, ws))
    && (me.pending > 0 || MessageOf(z, u) in peer.inbox || MessageOf(z, u) in arrived)
    && (last.Some? ==> OfACopy(z, copies, last.value) && peer.clip == Held(z, last.value, Other(side)))
    && (arrived != {} ==> last.Some?)
  }

  lemma ReadSends(z: Zip, most: nat, side: Side, u: seq<Entry>, s: State, e: Event)
    requires Copying(z, side, u, s) && Enabled(most, s, e) && Smooth(e) && e.Check?
    ensures var peer, r := s.On(Other(side)), Step(z, s, e);
            && Copying(z, side, u, r) && r.On(Other(side)).clip == peer.clip
            && if e.side == side then r.On(Other(side)).inbox == peer.inbox + multiset{MessageOf(z, u)}
               else r.On(Other(side)).inbox == peer.inbox && r.On(side).pending == s.On(side).pending
  {
    if e.side == side {
      assert Kept(u) != [];
      assert AfterCheck(z, s.On(side), true).1 == Some(MessageOf(z, u));
    }
  }

  lemma DeliveryHolds(z: Zip, most: nat, side: Side, u: seq<Entry>, s: State, e: Event)
    requires Copying(z, side, u, s) && Enabled(most, s, e) && Smooth(e) && e.Deliver? && FromMulti(z, e.msg) != []
    ensures var peer, r := s.On(Other(side)), Step(z, s, e);
            && e.side == Other(side) && Copying(z, side, u, r) && r.On(side) == s.On(side)
            && r.On(Other(side)).clip == Held(z, e.msg, Other(side))
            && r.On(Other(side)).inbox == peer.inbox - multiset{e.msg}
  {
    assert Writes(z, e.msg, true);
    MarkedIsOwned(FromMulti(z, e.msg), Other(side));
  }

  lemma CopyIsTracked(z: Zip, side: Side, u: seq<Entry>, copies: set<seq<Entry>>, arrived: set<seq<Wire>>,
                      last: Option<seq<Wire>>, s: State, v: seq<Entry>, notes: nat)
    requires Tracked(z, side, u, copies, arrived, last, s) && Sendable(z, v) && notes >= 1
    ensures Tracked(z, side, v, copies + {v}, arrived, last, Step(z, s, Copy(side, v, notes)))
  {
    assert forall ws :: OfACopy(z, copies, ws) ==> OfACopy(z, copies + {v}, ws);
    var r := Step(z, s, Copy(side, v, notes));
    assert r.On(Other(side)) == s.On(Other(side)) && r.On(side).pending > 0;
  }

  lemma ReadIsTracked(z: Zip, most: nat, side: Side, u: seq<Entry>, copies: set<seq<Entry>>, arrived: set<seq<Wire>>,
                      last: Option<seq<Wire>>, s: State, e: Event)
    requires Tracked(z, side, u, copies, arrived, last, s) && Enabled(most, s, e) && Smooth(e) && e.Check? && u in copies
    ensures Tracked(z, side, u, copies, arrived, last, Step(z, s, e))
  {
    ReadSends(z, most, side, u, s, e);
    assert OfACopy(z, copies, MessageOf(z, u));
    var peer, r := s.On(Other(side)), Step(z, s, e);
    if e.side == side {
      assert MessageOf(z, u) in r.On(Other(side)).inbox;
      forall ws | ws in r.On(Other(side)).inbox ensures OfACopy(z, copies, ws) {
        assert ws in peer.inbox || ws == MessageOf(z, u);
      }
    }
  }

  lemma DeliveryIsTracked(z: Zip, most: nat, side: Side, u: seq<Entry>, copies: set<seq<Entry>>, arrived: set<seq<Wire>>,
                          last: Option<seq<Wire>>, s: State, e: Event)
    requires Tracked(z, side, u, copies, arrived, last, s) && Enabled(most, s, e) && Smooth(e) && e.Deliver?
    ensures Tracked(z, side, u, copies, arrived + {e.msg}, Some(e.msg), Step(z, s, e))
  {
    assert e.side == Other(side) && OfACopy(z, copies, e.msg);
    DeliveryHolds(z, most, side, u, s, e);
    var peer, r := s.On(Other(side)), Step(z, s, e);
    assert forall ws :: ws in peer.inbox && ws != e.msg ==> ws in r.On(Other(side)).inbox;
    assert forall ws :: ws in r.On(Other(side)).inbox ==> ws in peer.inbox;
  }

  function CopyOf(e: Event): (copies: set<seq<Entry>>) { if e.Copy? then {e.data} else {} }

  function MessageIn(e: Event): (msgs: set<seq<Wire>>) { if e.Deliver? then {e.msg} else {} }

  lemma StepIsTracked(z: Zip, most: nat, side: Side, u: seq<Entry>, copies: set<seq<Entry>>, arrived: set<seq<Wire>>,
                      last: Option<seq<Wire>>, s: State, e: Event)
    requires Tracked(z, side, u, copies, arrived, last, s) && Enabled(most, s, e) && OneSided(z, side, e) && u in copies
    ensures Tracked(z, side, if e.Copy? then e.data else u, copies + CopyOf(e), arrived + MessageIn(e),
                    if e.Deliver? then Some(e.msg) else last, Step(z, s, e))
  {
    assert copies + {} == copies && arrived + {} == arrived;
    if e.Copy? {
      CopyIsTracked(z, side, u, copies, arrived, last, s, e.data, e.notes);
    } else if e.Check? {
      ReadIsTracked(z, most, side, u, copies, arrived, last, s, e);
    } else {
      DeliveryIsTracked(z, most, side, u, copies, arrived, last, s, e);
    }
  }

  lemma {:induction false} RunIsTracked(z: Zip, most: nat, side: Side, u: seq<Entry>, copies: set<seq<Entry>>, arrived: set<seq<Wire>>,
                                        last: Option<seq<Wire>>, s: State, evs: seq<Event>)
    requires Tracked(z, side, u, copies, arrived, last, s) && IsRun(z, most, s, evs) && u in copies
    requires forall e :: e in evs ==> OneSided(z, side, e)
    ensures Tracked(z, side, Newest(u, evs), copies + Copied(evs), arrived + Arrived(evs), LastMessage(last, evs), Run(z, s, evs))
    decreases |evs|
  {
    if evs == [] {
      assert copies + Copied(evs) == copies && arrived + Arrived(evs) == arrived;
    } else {
      var e := evs[0];
      assert e in evs && forall x :: x in evs[1..] ==> x in evs;
      StepIsTracked(z, most, side, u, copies, arrived, last, s, e);
      var v, l := if e.Copy? then e.data else u, if e.Deliver? then Some(e.msg) else last;
      RunIsTracked(z, most, side, v, copies + CopyOf(e), arrived + MessageIn(e), l, Step(z, s, e), evs[1..]);
      FirstOf(copies, arrived, evs);
    }
  }

  lemma FirstOf(copies: set<seq<Entry>>, arrived: set<seq<Wire>>, evs: seq<Event>)
    requires evs != []
    ensures copies + Copied(evs) == copies + CopyOf(evs[0]) + Copied(evs[1..])
    ensures arrived + Arrived(evs) == arrived + MessageIn(evs[0]) + Arrived(evs[1..])
  {
  }

  /** Several copies on one side of a quiet system, while nothing fails: in the end the
      other clipboard holds what the message delivered last says. That is the message of
      one of the copies, and the message of the newest one has been delivered, too; but it
      is the newest copy that the other side ends with only when no other message came
      after its own. */
  lemma LatestDeliveryWins(z: Zip, most: nat, s: State, side: Side, u: seq<Entry>, notes: nat, evs: seq<Event>)
    requires Sendable(z, u) && Quiet(s) && 1 <= notes <= most
    requires var t := Step(z, s, Copy(side, u, notes)); IsRun(z, most, t, evs) && Quiet(Run(z, t, evs))
    requires forall e :: e in evs ==> OneSided(z, side, e)
    ensures var r := Run(z, Step(z, s, Copy(side, u, notes)), evs);
            var last, v := LastMessage(None, evs), Newest(u, evs);
            && r.On(side).clip == v && MessageOf(z, v) in Arrived(evs)
            && last.Some? && OfACopy(z, {u} + Copied(evs), last.value)
            && r.On(Other(side)).clip == Held(z, last.value, Other(side))
            && (r.On(Other(side)).clip == Delivered(z, v, Other(side))
                <==> FromMulti(z, last.value) == FromMulti(z, MessageOf(z, v)))
  {
    var t := Step(z, s, Copy(side, u, notes));
    assert s.On(side).pending == 0 && s.On(Other(side)).pending == 0;
    assert s.On(side).inbox == multiset{} && s.On(Other(side)).inbox == multiset{};
    assert Tracked(z, side, u, {u}, {}, None, t);
    RunIsTracked(z, most, side, u, {u}, {}, None, t, evs);
    assert {} + Arrived(evs) == Arrived(evs);
    var r := Run(z, t, evs);
    assert r.On(side).pending == 0 && r.On(Other(side)).inbox == multiset{};
    SameFront(FromMulti(z, LastMessage(None, evs).value), FromMulti(z, MessageOf(z, Newest(u, evs))),
              Special(OWNER_FORMAT, OwnerData(Other(side))));
  }

  // ---------------------------------------------------------------- when the newest copy wins

  /** Nobody copies while a message is in flight to the other side. */
  ghost predicate Unhurried(z: Zip, side: Side, s: State, evs: seq<Event>)
    decreases |evs|
  {
    evs == [] || ((evs[0].Copy? ==> s.On(Other(side)).inbox == multiset{}) && Unhurried(z, side, Step(z, s, evs[0]), evs[1..]))
  }

  ghost predicate Leading(z: Zip, side: Side, u: seq<Entry>, s: State) {
    var me, peer := s.On(side), s.On(Other(side));
    && Copying(z, side, u, s)
    && (forall ws :: ws in peer.inbox ==> ws == MessageOf(z, u))
    && (me.pending > 0 || peer.inbox != multiset{} || peer.clip == Delivered(z, u, Other(side)))
  }

  lemma StepLeads(z: Zip, most: nat, side: Side, u: seq<Entry>, s: State, e: Event)
    requires Leading(z, side, u, s) && Enabled(most, s, e) && OneSided(z, side, e)
    requires e.Copy? ==> s.On(Other(side)).inbox == multiset{}
    ensures Leading(z, side, if e.Copy? then e.data else u, Step(z, s, e))
  {
    if e.Check? {
      ReadSends(z, most, side, u, s, e);
      if e.side == side { assert MessageOf(z, u) in Step(z, s, e).On(Other(side)).inbox; }
    } else if e.Deliver? {
      assert e.side == Other(side) && e.msg == MessageOf(z, u);
      DeliveryHolds(z, most, side, u, s, e);
    }
  }

  lemma {:induction false} RunLeads(z: Zip, most: nat, side: Side, u: seq<Entry>, s: State, evs: seq<Event>)
    requires Leading(z, side, u, s) && IsRun(z, most, s, evs) && Unhurried(z, side, s, evs)
    requires forall e :: e in evs ==> OneSided(z, side, e)
    ensures Leading(z, side, Newest(u, evs), Run(z, s, evs))
    decreases |evs|
  {
    if evs != [] {
      assert evs[0] in evs && forall x :: x in evs[1..] ==> x in evs;
      StepLeads(z, most, side, u, s, evs[0]);
      RunLeads(z, most, side, if evs[0].Copy? then evs[0].data else u, Step(z, s, evs[0]), evs[1..]);
    }
  }

  /** When nobody copies while a message is in flight, the other side ends with the newest
      copy. */
  lemma NewestWins(z: Zip, most: nat, s: State, side: Side, u: seq<Entry>, notes: nat, evs: seq<Event>)
    requires Sendable(z, u) && Quiet(s) && 1 <= notes <= most
    requires var t := Step(z, s, Copy(side, u, notes));
             IsRun(z, most, t, evs) && Quiet(Run(z, t, evs)) && Unhurried(z, side, t, evs)
    requires forall e :: e in evs ==> OneSided(z, side, e)
    ensures Run(z, Step(z, s, Copy(side, u, notes)), evs).On(Other(side)).clip == Delivered(z, Newest(u, evs), Other(side))
  {
    var t := Step(z, s, Copy(side, u, notes));
    assert s.On(side).pending == 0 && s.On(Other(side)).pending == 0;
    assert s.On(side).inbox == multiset{} && s.On(Other(side)).inbox == multiset{};
    assert Leading(z, side, u, t);
    RunLeads(z, most, side, u, t, evs);
    var r := Run(z, t, evs);
    assert r.On(side).pending == 0 && r.On(Other(side)).inbox == multiset{};
  }

  // ---------------------------------------------------------------- when an older copy wins

  /** Two copies, both read and sent; the thread of the second message runs first. */
  function Overtaking(z: Zip, side: Side, u: seq<Entry>, v: seq<Entry>): (evs: seq<Event>) {
    [Check(side, true, true), Copy(side, v, 1), Check(side, true, true),
     Deliver(Other(side), MessageOf(z, v), true, 0), Deliver(Other(side), MessageOf(z, u), true, 0)]
  }

  lemma OneStep(z: Zip, most: nat, s: State, e: Event, t: State, evs: seq<Event>)
    requires Leads(z, most, s, e, t) && IsRun(z, most, t, evs)
    ensures IsRun(z, most, s, [e] + evs) && Run(z, s, [e] + evs) == Run(z, t, evs)
  {
    assert ([e] + evs)[1..] == evs;
  }

  /** Nothing is left to read, and these messages are in flight. */
  ghost predicate InFlight(z: Zip, side: Side, u: seq<Entry>, s: State, msgs: multiset<seq<Wire>>) {
    && Copying(z, side, u, s) && s.On(side).pending == 0
    && s.On(Other(side)).pending == 0 && s.On(Other(side)).inbox == msgs
  }

  lemma CopyAndRead(z: Zip, most: nat, side: Side, s: State, v: seq<Entry>, msgs: multiset<seq<Wire>>) returns (r: State)
    requires most >= 1 && Sendable(z, v) && s.On(side).pending == 0 && s.On(side).inbox == multiset{}
    requires s.On(Other(side)).pending == 0 && s.On(Other(side)).inbox == msgs
    ensures var c := Step(z, s, Copy(side, v, 1));
            && Enabled(most, s, Copy(side, v, 1)) && Enabled(most, c, Check(side, true, true))
            && r == Step(z, c, Check(side, true, true)) && InFlight(z, side, v, r, msgs + multiset{MessageOf(z, v)})
  {
    var c, e := Step(z, s, Copy(side, v, 1)), Check(side, true, true);
    assert Copying(z, side, v, c) && c.On(side).pending == 1;
    ReadSends(z, most, side, v, c, e);
    r := Step(z, c, e);
    assert r.On(side).pending == 0 && r.On(Other(side)).pending == 0;
  }

  lemma DeliverOne(z: Zip, most: nat, side: Side, v: seq<Entry>, s: State, u: seq<Entry>, rest: multiset<seq<Wire>>) returns (r: State)
    requires InFlight(z, side, v, s, rest + multiset{MessageOf(z, u)}) && Sendable(z, u)
    ensures var e := Deliver(Other(side), MessageOf(z, u), true, 0);
            && Enabled(most, s, e) && r == Step(z, s, e) && InFlight(z, side, v, r, rest)
            && r.On(Other(side)).clip == Delivered(z, u, Other(side))
  {
    var e := Deliver(Other(side), MessageOf(z, u), true, 0);
    assert e.msg in s.On(Other(side)).inbox;
    DeliveryHolds(z, most, side, v, s, e);
    r := Step(z, s, e);
    assert rest + multiset{e.msg} - multiset{e.msg} == rest;
  }

  /** Then the system is quiet, and the other side has the older copy. */
  lemma OlderCopyCanWin(z: Zip, most: nat, s: State, side: Side, u: seq<Entry>, v: seq<Entry>)
    requires Sendable(z, u) && Sendable(z, v) && Quiet(s) && most >= 1
    ensures var t, evs := Step(z, s, Copy(side, u, 1)), Overtaking(z, side, u, v);
            && IsRun(z, most, t, evs) && Quiet(Run(z, t, evs)) && Newest(u, evs) == v
            && Run(z, t, evs).On(Other(side)).clip == Delivered(z, u, Other(side))
  {
    QuietIsIdle(s, side);
    var r := OvertakingRun(z, most, s, side, u, v);
    EndsQuiet(z, side, v, r);
    NewestOvertaken(z, side, u, v);
  }

  lemma QuietIsIdle(s: State, side: Side)
    requires Quiet(s)
    ensures Idle(s, side)
  {
  }

  lemma OvertakingRun(z: Zip, most: nat, s: State, side: Side, u: seq<Entry>, v: seq<Entry>) returns (r: State)
    requires Sendable(z, u) && Sendable(z, v) && Idle(s, side) && most >= 1
    ensures var t, evs := Step(z, s, Copy(side, u, 1)), Overtaking(z, side, u, v);
            IsRun(z, most, t, evs) && Run(z, t, evs) == r
    ensures InFlight(z, side, v, r, multiset{}) && r.On(Other(side)).clip == Delivered(z, u, Other(side))
  {
    var t1, t2, t3, t4, t5 := OvertakingStates(z, most, s, side, u, v);
    FiveSteps(z, most, Step(z, s, Copy(side, u, 1)), t1, t2, t3, t4, t5,
              Check(side, true, true), Copy(side, v, 1), Check(side, true, true),
              Deliver(Other(side), MessageOf(z, v), true, 0), Deliver(Other(side), MessageOf(z, u), true, 0));
    r := t5;
  }

  ghost predicate Leads(z: Zip, most: nat, s: State, e: Event, t: State) { Enabled(most, s, e) && t == Step(z, s, e) }

  ghost predicate Idle(s: State, side: Side) {
    && s.On(side).pending == 0 && s.On(side).inbox == multiset{}
    && s.On(Other(side)).pending == 0 && s.On(Other(side)).inbox == multiset{}
  }

  lemma OvertakingStates(z: Zip, most: nat, s: State, side: Side, u: seq<Entry>, v: seq<Entry>)
    returns (t1: State, t2: State, t3: State, t4: State, t5: State)
    requires Sendable(z, u) && Sendable(z, v) && Idle(s, side) && most >= 1
    ensures Leads(z, most, Step(z, s, Copy(side, u, 1)), Check(side, true, true), t1)
    ensures Leads(z, most, t1, Copy(side, v, 1), t2) && Leads(z, most, t2, Check(side, true, true), t3)
    ensures Leads(z, most, t3, Deliver(Other(side), MessageOf(z, v), true, 0), t4)
    ensures Leads(z, most, t4, Deliver(Other(side), MessageOf(z, u), true, 0), t5)
    ensures InFlight(z, side, v, t5, multiset{}) && t5.On(Other(side)).clip == Delivered(z, u, Other(side))
  {
    var a := multiset{} + multiset{MessageOf(z, u)};
    t1 := CopyAndRead(z, most, side, s, u, multiset{});
    t2 := Step(z, t1, Copy(side, v, 1));
    t3 := CopyAndRead(z, most, side, t1, v, a);
    t4 := DeliverOne(z, most, side, v, t3, v, a);
    t5 := DeliverOne(z, most, side, v, t4, u, multiset{});
  }

  lemma FiveSteps(z: Zip, most: nat, t: State, t1: State, t2: State, t3: State, t4: State, t5: State,
                  e1: Event, e2: Event, e3: Event, e4: Event, e5: Event)
    requires Leads(z, most, t, e1, t1) && Leads(z, most, t1, e2, t2) && Leads(z, most, t2, e3, t3)
    requires Leads(z, most, t3, e4, t4) && Leads(z, most, t4, e5, t5)
    ensures IsRun(z, most, t, [e1, e2, e3, e4, e5]) && Run(z, t, [e1, e2, e3, e4, e5]) == t5
  {
    var evs5: seq<Event> := [e5] + [];
    var evs4 := [e4] + evs5;
    var evs3 := [e3] + evs4;
    var evs2 := [e2] + evs3;
    OneStep(z, most, t4, e5, t5, []);
    OneStep(z, most, t3, e4, t4, evs5);
    OneStep(z, most, t2, e3, t3, evs4);
    OneStep(z, most, t1, e2, t2, evs3);
    OneStep(z, most, t, e1, t1, evs2);
    FiveJoined(e1, e2, e3, e4, e5);
  }

  lemma FiveJoined(e1: Event, e2: Event, e3: Event, e4: Event, e5: Event)
    ensures [e1] + ([e2] + ([e3] + ([e4] + ([e5] + [])))) == [e1, e2, e3, e4, e5]
  {
  }

  lemma EndsQuiet(z: Zip, side: Side, v: seq<Entry>, s: State)
    requires InFlight(z, side, v, s, multiset{})
    ensures Quiet(s)
  {
    forall x ensures s.On(x).pending == 0 && s.On(x).inbox == multiset{} { assert x == side || x == Other(side); }
  }

  lemma NewestOvertaken(z: Zip, side: Side, u: seq<Entry>, v: seq<Entry>)
    ensures Newest(u, Overtaking(z, side, u, v)) == v
  {
    var evs := Overtaking(z, side, u, v);
    NewestOne(u, evs);
    NewestOne(u, evs[1..]);
    NewestOne(v, evs[2..]);
    NewestOne(v, evs[3..]);
    NewestOne(v, evs[4..]);
    assert evs[1..][1..] == evs[2..] && evs[2..][1..] == evs[3..] && evs[3..][1..] == evs[4..] && evs[4..][1..] == [];
  }

  lemma NewestOne(u: seq<Entry>, evs: seq<Event>)
    requires evs != []
    ensures Newest(u, evs) == Newest(if evs[0].Copy? then evs[0].data else u, evs[1..])
  {
  }
}
