/** The frame slots that the decoder threads and the UI share: one per display, with a
    flag that says whether the UI still has to fetch the frame. */
module Frames {
  import opened Wrappers

  type Pixels = seq<Byte>
  type SessionId = nat

  datatype Slot = Slot(data: Pixels, valid: bool)

  /** `stream` holds the displays that a UI session has been told about. */
  datatype Handler = Handler(displays: seq<nat>, stream: Option<seq<nat>>)

  type Slots = map<nat, Slot>
  type Handlers = map<SessionId, Handler>

  // ---------------------------------------------------------------- specification

  /** Stores a frame unless the last one is still to be fetched; the old buffer goes
      back to the decoder. */
  function Stored(t: Slots, display: nat, raw: Pixels): (r: (Slots, Pixels, bool)) {
    if display in t && t[display].valid then (t, raw, false)
    else (t[display := Slot(raw, true)], if display in t then t[display].data else [], true)
  }

  /** The UI sessions that are told about a frame: not those with several displays, and
      with several sessions only those that show this display. */
  predicate Eligible(hs: Handlers, id: SessionId, display: nat) {
    && id in hs && hs[id].stream.Some? && |hs[id].displays| <= 1
    && (|hs| > 1 ==> display in hs[id].displays)
  }

  function Told(hs: Handlers, display: nat): (ids: set<SessionId>) {
    set id | id in hs.Keys && Eligible(hs, id, display)
  }

  /** Every session that is eligible is told, once. */
  function NotifiedOne(hs: Handlers, id: SessionId, display: nat): (h: Handler)
    requires id in hs
  {
    if Eligible(hs, id, display) then hs[id].(stream := Some(hs[id].stream.value + [display])) else hs[id]
  }

  function Notified(hs: Handlers, display: nat): (r: Handlers) { map id | id in hs :: NotifiedOne(hs, id, display) }

  /** Frees the slot again when nobody was told. */
  function Settled(t: Slots, display: nat, told: set<SessionId>): (r: Slots) {
    if told == {} && display in t then t[display := t[display].(valid := false)] else t
  }

  function Fetched(t: Slots, display: nat): (r: Slots) {
    if display in t then t[display := t[display].(valid := false)] else t
  }

  // ---------------------------------------------------------------- implementation

  class FlutterHandler {
    var slots: Slots
    var handlers: Handlers

    constructor () ensures slots == map[] && handlers == map[] {
      slots, handlers := map[], map[];
    }

    /** Tells the sessions, in the order of a hash table. */
    method Announce(display: nat) returns (isSent: bool)
      modifies this`handlers
      ensures isSent <==> Told(old(handlers), display) != {}
      ensures handlers == Notified(old(handlers), display)
    {
      isSent := false;
      ghost var hs := handlers;
      var isMultiSessions := |handlers| > 1;
      var todo := handlers.Keys;
      while todo != {}
        invariant todo <= handlers.Keys == hs.Keys
        invariant forall id :: id in hs ==> handlers[id] == if id in todo then hs[id] else NotifiedOne(hs, id, display)
        invariant isSent <==> exists id :: id in hs && id !in todo && Eligible(hs, id, display)
        decreases |todo|
      {
        var id :| id in todo;
        todo := todo - {id};
        var h := handlers[id];
        if |h.displays| <= 1 && (isMultiSessions ==> display in h.displays) && h.stream.Some? {
          assert Eligible(hs, id, display);
          handlers := handlers[id := h.(stream := Some(h.stream.value + [display]))];
          isSent := true;
        }
      }
      ToldWhom(hs, display);
    }

    method OnRgbaSoftRender(display: nat, raw: Pixels) returns (back: Pixels)
      modifies this`slots, this`handlers
      ensures var (t, old_, taken) := Stored(old(slots), display, raw);
              && back == old_
              && slots == (if taken then Settled(t, display, Told(old(handlers), display)) else t)
              && handlers == (if taken then Notified(old(handlers), display) else old(handlers))
    {
      if display in slots {
        if slots[display].valid {
          return raw;
        }
        back := slots[display].data;
        slots := slots[display := Slot(raw, true)];
      } else {
        back := [];
        slots := slots[display := Slot(raw, true)];
      }
      var isSent := Announce(display);
      if !isSent {
        if display in slots {
          slots := slots[display := slots[display].(valid := false)];
        }
      }
    }

    method GetRgba(display: nat) returns (data: Option<Pixels>)
      ensures data == if display in slots && slots[display].valid then Some(slots[display].data) else None
    {
      data := None;
      if display in slots {
        if slots[display].valid {
          data := Some(slots[display].data);
        }
      }
    }

    method NextRgba(display: nat)
      modifies this`slots
      ensures slots == Fetched(old(slots), display)
    {
      if display in slots {
        slots := slots[display := slots[display].(valid := false)];
      }
    }

    /** Another UI session for the peer. Opening a single display frees its slot, where a
        frame may still be waiting from the first time it was open. */
    method InsertPeerSession(id: SessionId, displays: seq<nat>)
      modifies this
      ensures handlers == old(handlers)[id := Handler(displays, None)]
      ensures slots == if |displays| == 1 then Fetched(old(slots), displays[0]) else old(slots)
    {
      handlers := handlers[id := Handler(displays, None)];
      if |displays| == 1 {
        NextRgba(displays[0]);
      }
    }

    method UpdateUseTextureRender()
      modifies this`slots
      ensures slots == map[]
    {
      slots := map[];
    }
  }

  lemma ToldWhom(hs: Handlers, display: nat)
    ensures Told(hs, display) != {} <==> exists id :: id in hs && Eligible(hs, id, display)
  {
    if Told(hs, display) != {} {
      var id :| id in Told(hs, display);
    }
    if exists id :: id in hs && Eligible(hs, id, display) {
      var id :| id in hs && Eligible(hs, id, display);
      assert id in Told(hs, display);
    }
  }

  /** An announcement, by values: a session that shows at most one display, and with other
      sessions beside it this display, has it as a new last entry of its stream, if it has a
      stream; nothing else changes. */
  lemma AnnouncementIs(hs: Handlers, d: nat, id: SessionId)
    requires id in hs
    ensures var takes := hs[id].stream.Some? && |hs[id].displays| <= 1 && (|hs| == 1 || d in hs[id].displays);
            && Notified(hs, d).Keys == hs.Keys
            && Notified(hs, d)[id] == (if takes then Handler(hs[id].displays, Some(hs[id].stream.value + [d])) else hs[id])
            && (id in Told(hs, d) <==> takes)
  {
    assert |hs| >= 1 by { assert hs.Keys != {} && |hs.Keys| == |hs|; }
  }

  // ---------------------------------------------------------------- runs

  /** The lock is given up between storing a frame and telling the sessions, so other
      threads come in between; a display has one decoder thread. `busy` are the displays
      whose thread is in between, `shown` the stored frames whose display some stream has
      been given since, and `back` and `cleared` are the buffers that left the table. */
  datatype State = State(slots: Slots, handlers: Handlers, busy: set<nat>, shown: map<nat, Pixels>,
                         back: multiset<Pixels>, cleared: multiset<Pixels>)

  datatype Event =
    | Start(display: nat, raw: Pixels)
    | End(display: nat)
    | Next(display: nat)
    | Clear
    | SetHandlers(handlers: Handlers)

  predicate Enabled(s: State, e: Event) {
    match e
    case Start(d, _) => d !in s.busy
    case End(d) => d in s.busy
    case _ => true
  }

  /** Some stream has got the display as a new last entry. */
  ghost predicate Given(hs: Handlers, now: Handlers, d: nat) {
    exists id :: id in hs && id in now && hs[id].stream.Some? && now[id].stream == Some(hs[id].stream.value + [d])
  }

  ghost function Step(s: State, e: Event): (r: State) {
    match e
    case Start(d, raw) =>
      var (t, old_, taken) := Stored(s.slots, d, raw);
      s.(slots := t, back := s.back + multiset{old_}, busy := if taken then s.busy + {d} else s.busy,
         shown := if taken then s.shown - {d} else s.shown)
    case End(d) =>
      var now := Notified(s.handlers, d);
      s.(slots := Settled(s.slots, d, Told(s.handlers, d)), handlers := now, busy := s.busy - {d},
         shown := if Given(s.handlers, now, d) && d in s.slots then s.shown[d := s.slots[d].data] else s.shown)
    case Next(d) => s.(slots := Fetched(s.slots, d))
    case Clear => s.(slots := map[], cleared := s.cleared + Buffers(s.slots))
    case SetHandlers(hs) => s.(handlers := hs)
  }

  ghost predicate IsRun(s: State, evs: seq<Event>)
    decreases |evs|
  {
    evs == [] || (Enabled(s, evs[0]) && IsRun(Step(s, evs[0]), evs[1..]))
  }

  ghost function Run(s: State, evs: seq<Event>): (r: State)
    decreases |evs|
  {
    if evs == [] then s else Run(Step(s, evs[0]), evs[1..])
  }

  // ---------------------------------------------------------------- the handshake

  /** The display of a frame that waits to be fetched has been put into some stream since
      the frame was stored, unless its thread is just about to do so. */
  ghost predicate Waiting(s: State) {
    forall d :: d in s.slots && s.slots[d].valid && d !in s.busy ==> d in s.shown && s.shown[d] == s.slots[d].data
  }

  lemma {:induction false} WaitingFramesWereTold(s: State, evs: seq<Event>)
    requires Waiting(s) && IsRun(s, evs)
    ensures Waiting(Run(s, evs))
    decreases |evs|
  {
    if evs != [] {
      StepKeepsWaiting(s, evs[0]);
      WaitingFramesWereTold(Step(s, evs[0]), evs[1..]);
    }
  }

  lemma ToldIsGiven(hs: Handlers, d: nat)
    ensures Told(hs, d) != {} <==> Given(hs, Notified(hs, d), d)
  {
    if Told(hs, d) != {} {
      var id :| id in Told(hs, d);
      AnnouncementIs(hs, d, id);
    }
    if Given(hs, Notified(hs, d), d) {
      var id :| id in hs && id in Notified(hs, d) && hs[id].stream.Some? && Notified(hs, d)[id].stream == Some(hs[id].stream.value + [d]);
      AnnouncementIs(hs, d, id);
      assert |hs[id].stream.value + [d]| > |hs[id].stream.value|;
    }
  }

  lemma StepKeepsWaiting(s: State, e: Event)
    requires Waiting(s) && Enabled(s, e)
    ensures Waiting(Step(s, e))
  {
    if e.End? { ToldIsGiven(s.handlers, e.display); }
  }

  predicate Holds(s: State, d: nat, raw: Pixels) { d in s.slots && s.slots[d] == Slot(raw, true) }

  predicate Free(s: State, d: nat) { d in s.slots ==> !s.slots[d].valid }

  ghost predicate Untouched(d: nat, evs: seq<Event>) { forall e :: e in evs ==> e != Next(d) && e != Clear }

  lemma UntouchedCons(d: nat, e: Event, rest: seq<Event>)
    ensures Untouched(d, [e] + rest) <==> e != Next(d) && e != Clear && Untouched(d, rest)
  {
    if Untouched(d, [e] + rest) {
      assert e in [e] + rest;
      forall x | x in rest ensures x != Next(d) && x != Clear { assert x in [e] + rest; }
    }
  }

  lemma StepWhileBusy(s: State, d: nat, raw: Pixels, e: Event)
    requires d in s.busy && Enabled(s, e) && e != End(d)
    ensures d in Step(s, e).busy
    ensures Holds(s, d, raw) && e != Next(d) && e != Clear ==> Holds(Step(s, e), d, raw)
    ensures Free(s, d) || e == Next(d) || e == Clear ==> Free(Step(s, e), d)
  {
  }

  lemma {:induction false} WhileBusy(s: State, d: nat, raw: Pixels, evs: seq<Event>)
    requires d in s.busy && IsRun(s, evs) && End(d) !in evs && (Holds(s, d, raw) || Free(s, d))
    ensures var r := Run(s, evs);
            && d in r.busy
            && if Holds(s, d, raw) && Untouched(d, evs) then Holds(r, d, raw) else Free(r, d)
    decreases |evs|
  {
    if evs != [] {
      var e := evs[0];
      assert e in evs && evs == [e] + evs[1..];
      StepWhileBusy(s, d, raw, e);
      UntouchedCons(d, e, evs[1..]);
      assert Holds(s, d, raw) ==> !Free(s, d);
      WhileBusy(Step(s, e), d, raw, evs[1..]);
    }
  }

  /** The fate of a frame that finds a free slot, whatever other threads do between its
      storing and its announcement: afterwards it waits in the slot exactly when the
      announcement has put its display into some stream and nobody took the frame or
      cleared the table before. */
  lemma FrameWaitsIff(s: State, d: nat, raw: Pixels, evs: seq<Event>)
    requires d !in s.busy && Free(s, d)
    requires IsRun(Step(s, Start(d, raw)), evs) && End(d) !in evs
    ensures var r := Run(Step(s, Start(d, raw)), evs);
            Enabled(r, End(d))
    ensures var r := Run(Step(s, Start(d, raw)), evs);
            var given := Given(r.handlers, Step(r, End(d)).handlers, d);
            && (Holds(Step(r, End(d)), d, raw) <==> given && Untouched(d, evs))
            && (Free(Step(r, End(d)), d) <==> !given || !Untouched(d, evs))
  {
    WhileBusy(Step(s, Start(d, raw)), d, raw, evs);
    ToldIsGiven(Run(Step(s, Start(d, raw)), evs).handlers, d);
  }

  /** Until the UI asks for the next frame or the table is cleared, a told frame stays
      as it is, whatever frames arrive and whatever sessions come and go. */
  lemma {:induction false} FrameStaysUntilFetched(s: State, d: nat, evs: seq<Event>)
    requires d in s.slots && s.slots[d].valid && d !in s.busy && IsRun(s, evs)
    requires forall e :: e in evs ==> e != Next(d) && e != Clear
    ensures var r := Run(s, evs); d in r.slots && r.slots[d] == s.slots[d] && d !in r.busy
    decreases |evs|
  {
    if evs != [] {
      assert evs[0] in evs && forall e :: e in evs[1..] ==> e in evs;
      FrameStaysUntilFetched(Step(s, evs[0]), d, evs[1..]);
    }
  }

  // ---------------------------------------------------------------- the buffers

  /** The buffers in the table. */
  ghost function Buffers(t: Slots): (b: multiset<Pixels>) {
    if t == map[] then multiset{} else
      var d :| d in t;
      multiset{t[d].data} + Buffers(t - {d})
  }

  lemma SomeBuffer(t: Slots) returns (e: nat)
    requires t != map[]
    ensures e in t && Buffers(t) == multiset{t[e].data} + Buffers(t - {e})
  {
    e :| e in t && Buffers(t) == multiset{t[e].data} + Buffers(t - {e});
  }

  lemma RemoveTwo(t: Slots, d: nat, e: nat)
    ensures t - {d} - {e} == t - {e} - {d}
  {
  }

  lemma {:induction false} BuffersOf(t: Slots, d: nat)
    requires d in t
    ensures Buffers(t) == multiset{t[d].data} + Buffers(t - {d})
    decreases |t|
  {
    var e := SomeBuffer(t);
    if e != d {
      var x, y := multiset{t[d].data}, multiset{t[e].data};
      assert Buffers(t - {e}) == x + Buffers(t - {e} - {d}) by { BuffersOf(t - {e}, d); }
      assert Buffers(t - {d}) == y + Buffers(t - {d} - {e}) by { BuffersOf(t - {d}, e); }
      RemoveTwo(t, d, e);
    }
  }

  lemma BuffersSet(t: Slots, d: nat, slot: Slot)
    ensures Buffers(t[d := slot]) == multiset{slot.data} + Buffers(t - {d})
  {
    BuffersOf(t[d := slot], d);
    assert t[d := slot] - {d} == t - {d};
  }

  /** Freeing a slot keeps its buffer. */
  lemma BuffersFreed(t: Slots, d: nat)
    ensures Buffers(Fetched(t, d)) == Buffers(t)
  {
    if d in t {
      BuffersSet(t, d, t[d].(valid := false));
      BuffersOf(t, d);
    }
  }

  /** The buffers that come in with one event: the frame, and a new empty buffer for a
      display without a slot. */
  function Incoming(s: State, e: Event): (b: multiset<Pixels>) {
    match e
    case Start(d, raw) => multiset{raw} + if d in s.slots then multiset{} else multiset{[]}
    case _ => multiset{}
  }

  ghost function Received(s: State, evs: seq<Event>): (b: multiset<Pixels>)
    decreases |evs|
  {
    if evs == [] then multiset{} else Incoming(s, evs[0]) + Received(Step(s, evs[0]), evs[1..])
  }

  ghost function Total(s: State): (b: multiset<Pixels>) { Buffers(s.slots) + s.back + s.cleared }

  lemma Exchange(rest: multiset<Pixels>, x: Pixels, y: Pixels, back: multiset<Pixels>, cleared: multiset<Pixels>)
    ensures (multiset{y} + rest) + (back + multiset{x}) + cleared == ((multiset{x} + rest) + back + cleared) + multiset{y}
    ensures rest + (back + multiset{x}) + cleared == (rest + back + cleared) + multiset{x}
    ensures (multiset{y} + rest) + (back + multiset{x}) + cleared == (rest + back + cleared) + (multiset{y} + multiset{x})
  {
  }

  lemma StartConserves(s: State, d: nat, raw: Pixels)
    ensures Total(Step(s, Start(d, raw))) == Total(s) + Incoming(s, Start(d, raw))
  {
    var rest, t := Buffers(s.slots - {d}), s.slots[d := Slot(raw, true)];
    assert multiset{raw} + multiset{} == multiset{raw};
    if d !in s.slots {
      assert s.slots - {d} == s.slots;
      BuffersSet(s.slots, d, Slot(raw, true));
      Exchange(rest, [], raw, s.back, s.cleared);
    } else if s.slots[d].valid {
      Exchange(Buffers(s.slots), raw, raw, s.back, s.cleared);
    } else {
      var old_ := s.slots[d].data;
      assert Buffers(t) == multiset{raw} + rest by { BuffersSet(s.slots, d, Slot(raw, true)); }
      assert Buffers(s.slots) == multiset{old_} + rest by { BuffersOf(s.slots, d); }
      Exchange(rest, old_, raw, s.back, s.cleared);
    }
  }

  lemma StepConserves(s: State, e: Event)
    ensures Total(Step(s, e)) == Total(s) + Incoming(s, e)
  {
    match e
    case Start(d, raw) => StartConserves(s, d, raw);
    case End(d) => BuffersFreed(s.slots, d);
    case Next(d) => BuffersFreed(s.slots, d);
    case Clear =>
    case SetHandlers(_) =>
  }

  /** No buffer is lost and none is made twice: what came in is in the table, was given
      back to a decoder, or went when the table was cleared. */
  lemma {:induction false} BuffersAreConserved(s: State, evs: seq<Event>)
    ensures Total(Run(s, evs)) == Total(s) + Received(s, evs)
    decreases |evs|
  {
    if evs != [] {
      StepConserves(s, evs[0]);
      BuffersAreConserved(Step(s, evs[0]), evs[1..]);
    }
  }
}
