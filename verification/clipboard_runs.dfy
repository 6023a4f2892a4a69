/** Two clipboards that follow each other. Notifications, reads, sends and deliveries
    interleave in any order; every message is delivered by a thread of its own. */
module ClipboardRuns {
  import opened Wrappers
  import opened ClipboardCodec
  import opened ClipboardEnd

  datatype State = State(host: Peer, client: Peer) {
    function On(side: Side): (p: Peer) { if side.Host? then host else client }

    function With(side: Side, p: Peer): (s: State) {
      if side.Host? then this.(host := p) else this.(client := p)
    }
  }

  function Other(side: Side): (o: Side) { if side.Host? then Client else Host }

  /** `notes` is the number of change notifications that a write causes; `ok` says
      whether the clipboard could be read or written, `required` whether the text
      clipboard is switched on for the session. */
  datatype Event =
    | Copy(side: Side, data: seq<Entry>, notes: nat)
    | Greet(ok: bool)
    | Check(side: Side, ok: bool, required: bool)
    | Deliver(side: Side, msg: seq<Wire>, ok: bool, notes: nat)

  predicate ByUser(e: Event) { e.Copy? || e.Greet? }

  ghost predicate Enabled(most: nat, s: State, e: Event) {
    match e
    case Copy(_, _, notes) => notes <= most
    case Greet(_) => true
    case Check(side, _, _) => s.On(side).pending > 0
    case Deliver(side, msg, _, notes) => msg in s.On(side).inbox && notes <= most
  }

  function Sent(s: State, to: Side, msg: Option<seq<Wire>>): (r: State) {
    match msg
    case None => s
    case Some(ws) => var p := s.On(to); s.With(to, p.(inbox := p.inbox + multiset{ws}))
  }

  function Step(z: Zip, s: State, e: Event): (r: State) {
    match e
    case Copy(side, data, notes) =>
      var p := s.On(side);
      s.With(side, p.(clip := data, pending := p.pending + notes))
    case Greet(ok) =>
      var (p, msg) := AfterGreet(z, s.client, ok);
      Sent(s.With(Client, p), Host, msg)
    case Check(side, ok, required) =>
      var (p, msg) := AfterCheck(z, s.On(side), ok);
      var read := s.With(side, p.(pending := if p.pending > 0 then p.pending - 1 else 0));
      if required then Sent(read, Other(side), msg) else read
    case Deliver(side, msg, ok, notes) =>
      var p := s.On(side).(inbox := s.On(side).inbox - multiset{msg});
      var q := AfterUpdate(z, p, msg, side, ok);
      s.With(side, q.(pending := q.pending + if Writes(z, msg, ok) then notes else 0))
  }

  ghost predicate IsRun(z: Zip, most: nat, s: State, evs: seq<Event>)
    decreases |evs|
  {
    evs == [] || (Enabled(most, s, evs[0]) && IsRun(z, most, Step(z, s, evs[0]), evs[1..]))
  }

  function Run(z: Zip, s: State, evs: seq<Event>): (r: State)
    decreases |evs|
  {
    if evs == [] then s else Run(z, Step(z, s, evs[0]), evs[1..])
  }

  // ---------------------------------------------------------------- no ping-pong

  ghost predicate Quiet(s: State) {
    forall side :: s.On(side).pending == 0 && s.On(side).inbox == multiset{}
  }

  /** A notification is worth more than a message while the clipboard is not marked,
      and a message is worth more than all the notifications of a marked write. */
  function Weight(most: nat, p: Peer): (w: nat) {
    p.pending * (if IsOwned(p.clip) then 1 else most + 2) + (most + 1) * |p.inbox|
  }

  function Measure(most: nat, s: State): (m: nat) { Weight(most, s.host) + Weight(most, s.client) }

  lemma MarkedIsOwned(es: seq<Entry>, side: Side)
    ensures IsOwned(es + [Special(OWNER_FORMAT, OwnerData(side))])
  {
    ListAppend(es, Special(OWNER_FORMAT, OwnerData(side)));
  }

  lemma CheckWeighsLess(most: nat, z: Zip, p: Peer, ok: bool)
    requires p.pending > 0
    ensures var (q, msg) := AfterCheck(z, p, ok);
            Weight(most, q.(pending := p.pending - 1)) + (if msg.Some? then most + 1 else 0) < Weight(most, p)
  {
    var w := if IsOwned(p.clip) then 1 else most + 2;
    assert p.pending * w == (p.pending - 1) * w + w;
  }

  lemma InboxWeight(most: nat, p: Peer, ws: seq<Wire>)
    ensures Weight(most, p.(inbox := p.inbox + multiset{ws})) == Weight(most, p) + most + 1
  {
    assert (most + 1) * (|p.inbox| + 1) == (most + 1) * |p.inbox| + (most + 1);
  }

  lemma DeliveryWeighsLess(most: nat, z: Zip, p: Peer, msg: seq<Wire>, side: Side, ok: bool, notes: nat)
    requires msg in p.inbox && notes <= most
    ensures var r := p.(inbox := p.inbox - multiset{msg});
            var q := AfterUpdate(z, r, msg, side, ok);
            Weight(most, q.(pending := q.pending + if Writes(z, msg, ok) then notes else 0)) < Weight(most, p)
  {
    var r := p.(inbox := p.inbox - multiset{msg});
    assert p.inbox == r.inbox + multiset{msg};
    InboxWeight(most, r, msg);
    var q := AfterUpdate(z, r, msg, side, ok);
    if Writes(z, msg, ok) {
      MarkedIsOwned(FromMulti(z, msg), side);
      var w := if IsOwned(p.clip) then 1 else most + 2;
      assert p.pending * 1 <= p.pending * w by { MulMono(1, w, p.pending); }
    }
  }

  lemma CheckDecreases(z: Zip, most: nat, s: State, e: Event)
    requires Enabled(most, s, e) && e.Check?
    ensures Measure(most, Step(z, s, e)) < Measure(most, s)
  {
    CheckWeighsLess(most, z, s.On(e.side), e.ok);
    var msg := AfterCheck(z, s.On(e.side), e.ok).1;
    if msg.Some? { InboxWeight(most, s.On(Other(e.side)), msg.value); }
  }

  lemma StepDecreases(z: Zip, most: nat, s: State, e: Event)
    requires Enabled(most, s, e) && !ByUser(e)
    ensures Measure(most, Step(z, s, e)) < Measure(most, s)
  {
    if e.Check? {
      CheckDecreases(z, most, s, e);
    } else {
      DeliveryWeighsLess(most, z, s.On(e.side), e.msg, e.side, e.ok, e.notes);
    }
  }

  /** No ping-pong: without new user actions every run is shorter than the measure of
      the state it starts from, in whatever order the threads get their turn. */
  lemma {:induction false} NoPingPong(z: Zip, most: nat, s: State, evs: seq<Event>)
    requires IsRun(z, most, s, evs) && forall e :: e in evs ==> !ByUser(e)
    ensures |evs| + Measure(most, Run(z, s, evs)) <= Measure(most, s)
    decreases |evs|
  {
    if evs != [] {
      assert evs[0] in evs;
      assert forall e :: e in evs[1..] ==> e in evs;
      StepDecreases(z, most, s, evs[0]);
      NoPingPong(z, most, Step(z, s, evs[0]), evs[1..]);
    }
  }

  /** The measure is used up exactly when nothing is left to do. */
  lemma QuietIff(most: nat, s: State)
    ensures Quiet(s) <==> Measure(most, s) == 0
    ensures !Quiet(s) ==> exists e :: Enabled(most, s, e) && !ByUser(e)
  {
    WeightZero(most, s.host);
    WeightZero(most, s.client);
    assert s.On(Host) == s.host && s.On(Client) == s.client;
    if !Quiet(s) {
      var side :| s.On(side).pending > 0 || s.On(side).inbox != multiset{};
      if s.On(side).pending > 0 {
        assert Enabled(most, s, Check(side, true, true));
      } else {
        var msg :| msg in s.On(side).inbox;
        assert Enabled(most, s, Deliver(side, msg, true, 0));
      }
    }
  }

  lemma WeightZero(most: nat, p: Peer)
    ensures Weight(most, p) == 0 <==> p.pending == 0 && p.inbox == multiset{}
  {
    var w := if IsOwned(p.clip) then 1 else most + 2;
    if p.pending > 0 { MulMono(1, p.pending, w); }
    if |p.inbox| > 0 { MulMono(1, |p.inbox|, most + 1); }
  }

  // ---------------------------------------------------------------- where contents come from

  /** The message for a content that some user copied. */
  function MessageOf(z: Zip, u: seq<Entry>): (ws: seq<Wire>) { CreateMulti(z, Kept(u)) }

  function Delivered(z: Zip, u: seq<Entry>, side: Side): (es: seq<Entry>) {
    FromMulti(z, MessageOf(z, u)) + [Special(OWNER_FORMAT, OwnerData(side))]
  }

  /** What is left of a content after k passes through the wire form. */
  function Passed(z: Zip, u: seq<Entry>, k: nat): (es: seq<Entry>) {
    if k == 0 then u else FromMulti(z, MessageOf(z, Passed(z, u, k - 1)))
  }

  ghost predicate ClipFrom(z: Zip, users: set<seq<Entry>>, es: seq<Entry>) {
    es in users || exists u, k: nat, side :: u in users && es == Delivered(z, Passed(z, u, k), side)
  }

  ghost predicate MessageFrom(z: Zip, users: set<seq<Entry>>, ws: seq<Wire>) {
    exists u, k: nat :: u in users && ws == MessageOf(z, Passed(z, u, k))
  }

  ghost predicate PeerFrom(z: Zip, users: set<seq<Entry>>, p: Peer) {
    && ClipFrom(z, users, p.clip)
    && (p.cache == [] || MessageFrom(z, users, p.cache))
    && (forall ws :: ws in p.inbox ==> MessageFrom(z, users, ws))
  }

  ghost predicate From(z: Zip, users: set<seq<Entry>>, s: State) {
    PeerFrom(z, users, s.host) && PeerFrom(z, users, s.client)
  }

  function Copied(evs: seq<Event>): (users: set<seq<Entry>>) {
    if evs == [] then {} else (if evs[0].Copy? then {evs[0].data} else {}) + Copied(evs[1..])
  }

  lemma {:induction false} KeptOnceMore(z: Zip, es: seq<Entry>)
    requires Lossless(z)
    ensures var d := FromMulti(z, CreateMulti(z, Kept(es))); Kept(d) == d
  {
    if es != [] {
      KeptOnceMore(z, es[1..]);
      var k := Kept(es[1..]);
      assert [] + k == k;
      if Keep(es[0]) {
        assert ([es[0]] + k)[1..] == k;
        if IsSupported(es[0]) { KeptCarriedOver(z, es[0], CreateMulti(z, k)); }
      }
    }
  }

  lemma KeptCarriedOver(z: Zip, e: Entry, ws: seq<Wire>)
    requires Lossless(z) && IsSupported(e) && Keep(e) && Kept(FromMulti(z, ws)) == FromMulti(z, ws)
    ensures var d := FromMulti(z, [ToProto(z, e).value] + ws); Kept(d) == d
  {
    var w := ToProto(z, e).value;
    EntryOnceMore(z, e);
    FromMultiHead(z, w, ws);
    assert Keep(FromWire(z, w).value);
    KeptCons(FromWire(z, w).value, FromMulti(z, ws));
  }

  lemma DeliveredMessage(z: Zip, u: seq<Entry>, side: Side)
    ensures MessageOf(z, Delivered(z, u, side)) == MessageOf(z, FromMulti(z, MessageOf(z, u)))
  {
    var d := FromMulti(z, MessageOf(z, u));
    ListAppend(d, Special(OWNER_FORMAT, OwnerData(side)));
    assert Kept(d) + [] == Kept(d);
  }

  /** With a lossless compressor a second pass changes nothing. */
  lemma SecondPass(z: Zip, u: seq<Entry>)
    requires Lossless(z)
    ensures var d := FromMulti(z, MessageOf(z, u));
            && MessageOf(z, d) == CreateMulti(z, d) && FromMulti(z, MessageOf(z, d)) == d
            && |d| == |Supported(Kept(u))|
            && (MessageOf(z, d) == MessageOf(z, u) <==> forall e :: e in Kept(u) ==> Resent(z, e))
  {
    KeptOnceMore(z, u);
    ListOnceMore(z, Kept(u));
    MultiRoundTrip(z, FromMulti(z, MessageOf(z, u)));
  }

  /** A delivered clipboard, read once more without its mark, says the same, and with the
      same bytes unless the name of a special entry that was sent for its data can be
      made shorter. */
  lemma SecondHandMessage(z: Zip, u: seq<Entry>, side: Side)
    requires Lossless(z)
    ensures FromMulti(z, MessageOf(z, Delivered(z, u, side))) == FromMulti(z, MessageOf(z, u))
    ensures MessageOf(z, Delivered(z, u, side)) == MessageOf(z, u) <==> forall e :: e in Kept(u) ==> Resent(z, e)
  {
    DeliveredMessage(z, u, side);
    SecondPass(z, u);
  }

  lemma {:induction false} AllPassesAgree(z: Zip, u: seq<Entry>, k: nat)
    requires Lossless(z) && k >= 1
    ensures Passed(z, u, k) == FromMulti(z, MessageOf(z, u))
  {
    if k == 1 {
      assert Passed(z, u, 0) == u;
    } else {
      var d := FromMulti(z, MessageOf(z, u));
      assert Passed(z, u, k - 1) == d by { AllPassesAgree(z, u, k - 1); }
      assert FromMulti(z, MessageOf(z, d)) == d by { SecondPass(z, u); }
    }
  }

  lemma MessageOfClip(z: Zip, users: set<seq<Entry>>, es: seq<Entry>)
    requires ClipFrom(z, users, es)
    ensures MessageFrom(z, users, MessageOf(z, es))
  {
    if es in users {
      assert es == Passed(z, es, 0);
    } else {
      var u, k: nat, side :| u in users && es == Delivered(z, Passed(z, u, k), side);
      DeliveredMessage(z, Passed(z, u, k), side);
      assert MessageOf(z, es) == MessageOf(z, Passed(z, u, k + 1));
    }
  }

  lemma MoreUsers(z: Zip, users: set<seq<Entry>>, more: set<seq<Entry>>, p: Peer)
    requires users <= more && PeerFrom(z, users, p)
    ensures PeerFrom(z, more, p)
  {
  }

  lemma CheckKeepsOrigin(z: Zip, users: set<seq<Entry>>, p: Peer, ok: bool)
    requires PeerFrom(z, users, p)
    ensures var (q, msg) := AfterCheck(z, p, ok);
            PeerFrom(z, users, q) && (msg.Some? ==> MessageFrom(z, users, msg.value))
  {
    MessageOfClip(z, users, p.clip);
  }

  lemma GreetKeepsOrigin(z: Zip, users: set<seq<Entry>>, p: Peer, ok: bool)
    requires PeerFrom(z, users, p)
    ensures var (q, msg) := AfterGreet(z, p, ok);
            PeerFrom(z, users, q) && (msg.Some? ==> MessageFrom(z, users, msg.value))
  {
    MessageOfClip(z, users, p.clip);
  }

  lemma UpdateKeepsOrigin(z: Zip, users: set<seq<Entry>>, p: Peer, msg: seq<Wire>, side: Side, ok: bool)
    requires PeerFrom(z, users, p) && MessageFrom(z, users, msg)
    ensures PeerFrom(z, users, AfterUpdate(z, p, msg, side, ok))
  {
    var u, k: nat :| u in users && msg == MessageOf(z, Passed(z, u, k));
    assert Delivered(z, Passed(z, u, k), side) == FromMulti(z, msg) + [Special(OWNER_FORMAT, OwnerData(side))];
  }

  ghost predicate MessageOk(z: Zip, users: set<seq<Entry>>, msg: Option<seq<Wire>>) {
    msg.Some? ==> MessageFrom(z, users, msg.value)
  }

  lemma WithKeepsOrigin(z: Zip, users: set<seq<Entry>>, s: State, side: Side, p: Peer, n: nat)
    requires From(z, users, s) && PeerFrom(z, users, p)
    ensures From(z, users, s.With(side, p.(pending := n)))
  {
  }

  lemma SentKeepsOrigin(z: Zip, users: set<seq<Entry>>, s: State, to: Side, msg: Option<seq<Wire>>)
    requires From(z, users, s) && MessageOk(z, users, msg)
    ensures From(z, users, Sent(s, to, msg))
  {
    if msg.Some? {
      var p := s.On(to);
      var q := p.(inbox := p.inbox + multiset{msg.value});
      forall ws | ws in q.inbox ensures MessageFrom(z, users, ws) {
        assert ws in p.inbox || ws == msg.value;
      }
    }
  }

  lemma StepKeepsOrigin(z: Zip, most: nat, users: set<seq<Entry>>, s: State, e: Event)
    requires From(z, users, s) && Enabled(most, s, e)
    requires e.Copy? ==> e.data in users
    ensures From(z, users, Step(z, s, e))
  {
    match e
    case Copy(side, data, notes) =>
      var p := s.On(side).(clip := data);
      assert PeerFrom(z, users, p);
      WithKeepsOrigin(z, users, s, side, p, p.pending + notes);
    case Greet(ok) =>
      GreetKeepsOrigin(z, users, s.client, ok);
      var (p, msg) := AfterGreet(z, s.client, ok);
      WithKeepsOrigin(z, users, s, Client, p, p.pending);
      SentKeepsOrigin(z, users, s.With(Client, p), Host, msg);
    case Check(_, _, _) => CheckStepKeepsOrigin(z, users, s, e);
    case Deliver(_, _, _, _) => DeliverStepKeepsOrigin(z, users, s, e);
  }

  lemma CheckStepKeepsOrigin(z: Zip, users: set<seq<Entry>>, s: State, e: Event)
    requires From(z, users, s) && e.Check?
    ensures From(z, users, Step(z, s, e))
  {
    CheckKeepsOrigin(z, users, s.On(e.side), e.ok);
    var (p, msg) := AfterCheck(z, s.On(e.side), e.ok);
    var n := if p.pending > 0 then p.pending - 1 else 0;
    WithKeepsOrigin(z, users, s, e.side, p, n);
    SentKeepsOrigin(z, users, s.With(e.side, p.(pending := n)), Other(e.side), msg);
  }

  lemma DeliverStepKeepsOrigin(z: Zip, users: set<seq<Entry>>, s: State, e: Event)
    requires From(z, users, s) && e.Deliver? && e.msg in s.On(e.side).inbox
    ensures From(z, users, Step(z, s, e))
  {
    var p := s.On(e.side).(inbox := s.On(e.side).inbox - multiset{e.msg});
    assert PeerFrom(z, users, p);
    UpdateKeepsOrigin(z, users, p, e.msg, e.side, e.ok);
    var q := AfterUpdate(z, p, e.msg, e.side, e.ok);
    WithKeepsOrigin(z, users, s, e.side, q, q.pending + if Writes(z, e.msg, e.ok) then e.notes else 0);
  }

  /** Whatever the compressor does: every message in flight, at any time of any run, and
      every cache is the message of some content a user copied (or that was there at the
      start), after some passes through the wire form; every clipboard holds such a content
      or what such a message delivers. */
  lemma {:induction false} ContentsComeFromUsers(z: Zip, most: nat, users: set<seq<Entry>>, s: State, evs: seq<Event>)
    requires IsRun(z, most, s, evs) && From(z, users, s)
    ensures From(z, users + Copied(evs), Run(z, s, evs))
    decreases |evs|
  {
    if evs == [] {
      assert users + Copied(evs) == users;
    } else {
      var e := evs[0];
      var more := users + if e.Copy? then {e.data} else {};
      assert users + Copied(evs) == more + Copied(evs[1..]);
      MoreUsers(z, users, more, s.host);
      MoreUsers(z, users, more, s.client);
      StepKeepsOrigin(z, most, more, s, e);
      ContentsComeFromUsers(z, most, more, Step(z, s, e), evs[1..]);
    }
  }

  ghost predicate SaysACopy(z: Zip, users: set<seq<Entry>>, ws: seq<Wire>) {
    exists u :: u in users && FromMulti(z, ws) == FromMulti(z, MessageOf(z, u))
  }

  ghost predicate HoldsACopy(z: Zip, users: set<seq<Entry>>, es: seq<Entry>) {
    es in users || exists u, side :: u in users && es == Delivered(z, u, side)
  }

  lemma MessageSaysACopy(z: Zip, users: set<seq<Entry>>, ws: seq<Wire>)
    requires Lossless(z) && MessageFrom(z, users, ws)
    ensures SaysACopy(z, users, ws)
  {
    var u, k: nat :| u in users && ws == MessageOf(z, Passed(z, u, k));
    AllPassesAgree(z, u, k + 1);
    assert FromMulti(z, ws) == Passed(z, u, k + 1);
  }

  lemma ClipHoldsACopy(z: Zip, users: set<seq<Entry>>, es: seq<Entry>)
    requires Lossless(z) && ClipFrom(z, users, es)
    ensures HoldsACopy(z, users, es)
  {
    if es !in users {
      var u, k: nat, side :| u in users && es == Delivered(z, Passed(z, u, k), side);
      AllPassesAgree(z, u, k + 1);
      assert FromMulti(z, MessageOf(z, Passed(z, u, k))) == Passed(z, u, k + 1);
      assert es == Delivered(z, u, side);
    }
  }

  /** And with a lossless compressor nothing is lost on the way but what the first message
      loses: every message says exactly what the message of a user's own copy says, and
      every clipboard that is not a user's own holds just that and a mark. */
  lemma MessagesSayWhatUsersCopied(z: Zip, most: nat, users: set<seq<Entry>>, s: State, evs: seq<Event>, side: Side)
    requires Lossless(z) && IsRun(z, most, s, evs) && From(z, users, s)
    ensures var p, all := Run(z, s, evs).On(side), users + Copied(evs);
            && (forall ws :: ws in p.inbox ==> SaysACopy(z, all, ws))
            && (p.cache != [] ==> SaysACopy(z, all, p.cache))
            && HoldsACopy(z, all, p.clip)
  {
    ContentsComeFromUsers(z, most, users, s, evs);
    var p, all := Run(z, s, evs).On(side), users + Copied(evs);
    assert PeerFrom(z, all, p);
    forall ws | ws in p.inbox ensures SaysACopy(z, all, ws) { MessageSaysACopy(z, all, ws); }
    if p.cache != [] { MessageSaysACopy(z, all, p.cache); }
    ClipHoldsACopy(z, all, p.clip);
  }

  /** A fresh connection is sent what was found last; when nothing was found yet, the
      clipboard itself, even one that came from the other side. */
  lemma GreetingIsLatest(z: Zip, u: seq<Entry>, p: Peer, side: Side)
    requires Lossless(z) && MessageOf(z, u) != []
    ensures !IsOwned(u) && p.clip == u ==> AfterGreet(z, AfterCheck(z, p, true).0, true).1 == AfterCheck(z, p, true).1
    ensures p.cache == [] && p.clip == u ==>
              AfterGreet(z, p, true) == (p.(cache := MessageOf(z, u)), Some(MessageOf(z, u))) && AfterGreet(z, p, false) == (p, None)
    ensures p.cache == [] && p.clip == Delivered(z, u, side) ==>
              var msg := AfterGreet(z, p, true).1;
              msg.Some? && FromMulti(z, msg.value) == FromMulti(z, MessageOf(z, u))
  {
    SecondHandMessage(z, u, side);
    assert Kept(u) != [];
    SomethingDecoded(z, u);
  }

  lemma SomethingDecoded(z: Zip, u: seq<Entry>)
    requires Lossless(z) && MessageOf(z, u) != []
    ensures FromMulti(z, MessageOf(z, u)) != []
  {
    SecondPass(z, u);
    if Supported(Kept(u)) == [] { NothingSupported(z, Kept(u)); }
  }

  // ---------------------------------------------------------------- convergence

  /** Nothing fails and the text clipboard is switched on. */
  predicate Smooth(e: Event) {
    match e
    case Check(_, ok, required) => ok && required
    case Deliver(_, _, ok, _) => ok
    case _ => false
  }

  /** A single copy of `u` on `side` is on its way to the other side, or has arrived. */
  ghost predicate OnItsWay(z: Zip, u: seq<Entry>, side: Side, s: State) {
    var me, peer := s.On(side), s.On(Other(side));
    && me.clip == u && me.inbox == multiset{}
    && (forall ws :: ws in peer.inbox ==> ws == MessageOf(z, u))
    && (peer.clip == Delivered(z, u, Other(side)) || (peer.pending == 0 && (me.pending > 0 || peer.inbox != multiset{})))
  }

  ghost predicate Sendable(z: Zip, u: seq<Entry>) {
    !IsOwned(u) && FromMulti(z, MessageOf(z, u)) != []
  }

  lemma CheckStaysOnItsWay(z: Zip, most: nat, u: seq<Entry>, side: Side, s: State, e: Event)
    requires Sendable(z, u) && OnItsWay(z, u, side, s) && Enabled(most, s, e) && Smooth(e) && e.Check?
    ensures OnItsWay(z, u, side, Step(z, s, e))
  {
    if e.side == side {
      assert Kept(u) != [];
      assert AfterCheck(z, s.On(side), true).1 == Some(MessageOf(z, u));
      assert MessageOf(z, u) in Step(z, s, e).On(Other(side)).inbox;
    } else {
      assert s.On(Other(side)).clip == Delivered(z, u, Other(side));
      MarkedIsOwned(FromMulti(z, MessageOf(z, u)), Other(side));
    }
  }

  lemma StepStaysOnItsWay(z: Zip, most: nat, u: seq<Entry>, side: Side, s: State, e: Event)
    requires Sendable(z, u) && OnItsWay(z, u, side, s) && Enabled(most, s, e) && Smooth(e)
    ensures OnItsWay(z, u, side, Step(z, s, e))
  {
    if e.Check? {
      CheckStaysOnItsWay(z, most, u, side, s, e);
    } else {
      assert e.side == Other(side) && e.msg == MessageOf(z, u);
      assert Writes(z, e.msg, true);
    }
  }

  /** When nothing fails, one copy in a quiet system ends with the other clipboard
      holding exactly what its message says, plus its own mark; that is what was copied,
      less what is not worth sending, if and only if every entry can be carried. The
      copying side keeps its clipboard. */
  lemma CopyArrives(z: Zip, most: nat, s: State, side: Side, u: seq<Entry>, notes: nat, evs: seq<Event>)
    requires Sendable(z, u) && Quiet(s) && 1 <= notes <= most
    requires var t := Step(z, s, Copy(side, u, notes));
             IsRun(z, most, t, evs) && Quiet(Run(z, t, evs))
    requires forall e :: e in evs ==> Smooth(e)
    ensures var r := Run(z, Step(z, s, Copy(side, u, notes)), evs);
            && r.On(side).clip == u
            && r.On(Other(side)).clip == Delivered(z, u, Other(side))
            && (r.On(Other(side)).clip == Supported(Kept(u)) + [Special(OWNER_FORMAT, OwnerData(Other(side)))]
                <==> AllCarried(z, Kept(u)))
  {
    var t := Step(z, s, Copy(side, u, notes));
    assert s.On(side).pending == 0 && s.On(Other(side)).pending == 0;
    assert OnItsWay(z, u, side, t);
    RunStaysOnItsWay(z, most, u, side, t, evs);
    MultiRoundTrip(z, Kept(u));
    var r := Run(z, t, evs);
    assert r.On(side).pending == 0 && r.On(Other(side)).inbox == multiset{};
    SameFront(FromMulti(z, MessageOf(z, u)), Supported(Kept(u)), Special(OWNER_FORMAT, OwnerData(Other(side))));
  }

  lemma SameFront(a: seq<Entry>, b: seq<Entry>, mark: Entry)
    ensures a + [mark] == b + [mark] <==> a == b
  {
    assert (a + [mark])[..|a|] == a && (b + [mark])[..|b|] == b;
  }

  lemma {:induction false} RunStaysOnItsWay(z: Zip, most: nat, u: seq<Entry>, side: Side, s: State, evs: seq<Event>)
    requires Sendable(z, u) && OnItsWay(z, u, side, s)
    requires IsRun(z, most, s, evs) && forall e :: e in evs ==> Smooth(e)
    ensures OnItsWay(z, u, side, Run(z, s, evs))
    decreases |evs|
  {
    if evs != [] {
      assert evs[0] in evs && forall e :: e in evs[1..] ==> e in evs;
      StepStaysOnItsWay(z, most, u, side, s, evs[0]);
      RunStaysOnItsWay(z, most, u, side, Step(z, s, evs[0]), evs[1..]);
    }
  }

  /** By values: a copy of which everything is worth sending ends up on the other side as it
      is, less the kinds that have no wire form, plus the mark of that side, exactly when
      every entry can be carried. */
  lemma WholeCopyArrives(z: Zip, most: nat, s: State, side: Side, u: seq<Entry>, notes: nat, evs: seq<Event>)
    requires (forall e :: e in u ==> Worth(e)) && FromMulti(z, CreateMulti(z, u)) != [] && Quiet(s) && 1 <= notes <= most
    requires var t := Step(z, s, Copy(side, u, notes));
             IsRun(z, most, t, evs) && Quiet(Run(z, t, evs))
    requires forall e :: e in evs ==> Smooth(e)
    ensures var r := Run(z, Step(z, s, Copy(side, u, notes)), evs);
            && r.On(side).clip == u
            && (r.On(Other(side)).clip == Supported(u) + [Special(OWNER_FORMAT, [if side.Host? then 2 else 1])]
                <==> AllCarried(z, u))
  {
    AllFound(u);
    forall i | 0 <= i < |u| ensures !IsMark(u[i]) { assert u[i] in u; }
    CopyArrives(z, most, s, side, u, notes, evs);
  }

  // ---------------------------------------------------------------- what does not arrive

  ghost predicate Withheld(z: Zip, u: seq<Entry>, side: Side, other: seq<Entry>, s: State) {
    var me, peer := s.On(side), s.On(Other(side));
    && me.clip == u && me.inbox == multiset{}
    && peer.clip == other && peer.pending == 0 && forall ws :: ws in peer.inbox ==> FromMulti(z, ws) == []
  }

  lemma StepWithholds(z: Zip, most: nat, u: seq<Entry>, side: Side, other: seq<Entry>, s: State, e: Event)
    requires (IsOwned(u) || FromMulti(z, MessageOf(z, u)) == []) && Withheld(z, u, side, other, s)
    requires Enabled(most, s, e) && !ByUser(e)
    ensures Withheld(z, u, side, other, Step(z, s, e))
  {
    if e.Check? {
      assert e.side == side;
    } else {
      assert e.side == Other(side) && !Writes(z, e.msg, e.ok);
    }
  }

  /** A copy that is marked, or whose message says nothing, leaves the other clipboard as it
      is, whatever fails or does not fail. */
  lemma {:induction false} WithheldCopyStays(z: Zip, most: nat, u: seq<Entry>, side: Side, other: seq<Entry>, s: State, evs: seq<Event>)
    requires (IsOwned(u) || FromMulti(z, MessageOf(z, u)) == []) && Withheld(z, u, side, other, s)
    requires IsRun(z, most, s, evs) && forall e :: e in evs ==> !ByUser(e)
    ensures Run(z, s, evs).On(Other(side)).clip == other && Run(z, s, evs).On(side).clip == u
    decreases |evs|
  {
    if evs != [] {
      assert evs[0] in evs && forall e :: e in evs[1..] ==> e in evs;
      StepWithholds(z, most, u, side, other, s, evs[0]);
      WithheldCopyStays(z, most, u, side, other, Step(z, s, evs[0]), evs[1..]);
    }
  }

  lemma CopyIsWithheld(z: Zip, most: nat, s: State, side: Side, u: seq<Entry>, notes: nat, evs: seq<Event>)
    requires (IsOwned(u) || FromMulti(z, MessageOf(z, u)) == []) && Quiet(s)
    requires IsRun(z, most, Step(z, s, Copy(side, u, notes)), evs) && forall e :: e in evs ==> !ByUser(e)
    ensures Run(z, Step(z, s, Copy(side, u, notes)), evs).On(Other(side)).clip == s.On(Other(side)).clip
  {
    assert s.On(side).inbox == multiset{} && s.On(Other(side)).inbox == multiset{} && s.On(Other(side)).pending == 0;
    WithheldCopyStays(z, most, u, side, s.On(Other(side)).clip, Step(z, s, Copy(side, u, notes)), evs);
  }

  lemma StepSendsNothing(z: Zip, s: State, e: Event, side: Side)
    requires !e.Greet? && (e.Check? ==> !e.required)
    ensures Step(z, s, e).On(side).inbox <= s.On(side).inbox
  {
  }

  /** While the text clipboard is switched off, reading the clipboard sends nothing. */
  lemma {:induction false} NothingSentWhenOff(z: Zip, most: nat, s: State, evs: seq<Event>, side: Side)
    requires IsRun(z, most, s, evs) && forall e :: e in evs ==> !e.Greet? && (e.Check? ==> !e.required)
    ensures Run(z, s, evs).On(side).inbox <= s.On(side).inbox
    decreases |evs|
  {
    if evs != [] {
      assert evs[0] in evs && forall e :: e in evs[1..] ==> e in evs;
      StepSendsNothing(z, s, evs[0], side);
      NothingSentWhenOff(z, most, Step(z, s, evs[0]), evs[1..], side);
    }
  }
}
