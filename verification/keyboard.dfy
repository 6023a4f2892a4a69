/** The keyboard tables of the controlling side: the flags of the eight modifiers, the
    keys that still have to be released, and the key events that were sent. */
module Keyboard {
  import opened Wrappers

  datatype Key =
    | ShiftLeft | ShiftRight | ControlLeft | ControlRight | Alt | AltGr | MetaLeft | MetaRight
    | Plain(code: nat)

  const MODIFIERS: set<Key> := {ShiftLeft, ShiftRight, ControlLeft, ControlRight, Alt, AltGr, MetaLeft, MetaRight}

  datatype Kind = Press(key: Key) | Release(key: Key) | Pointer

  /** `position` is the local position code of the key. */
  datatype Event = Event(kind: Kind, position: nat)

  datatype Mode = Map | Translate | Legacy

  datatype KeyEvent = KeyEvent(down: bool, code: nat)

  /** The lookup tables that are not part of this model: the code that the peer knows a
      position by, and what the two other modes send for an event. */
  datatype Layout = Layout(codeOf: nat -> Option<nat>, others: (Mode, Event) -> seq<KeyEvent>)

  /** The tables. `modifiers` has exactly the eight modifier keys. */
  datatype Tables = Tables(modifiers: map<Key, bool>, held: map<Key, Event>, sent: seq<KeyEvent>) {
    ghost predicate Valid() { modifiers.Keys == MODIFIERS }
  }

  // ---------------------------------------------------------------- specification

  /** An autorepeat of a modifier that is down already. */
  predicate IsLongPress(t: Tables, e: Event) {
    e.kind.Press? && e.kind.key in t.modifiers && t.modifiers[e.kind.key]
  }

  function Flagged(m: map<Key, bool>, e: Event): (r: map<Key, bool>) {
    match e.kind
    case Press(k) => if k in m then m[k := true] else m
    case Release(k) => if k in m then m[k := false] else m
    case Pointer => m
  }

  function Tracked(h: map<Key, Event>, e: Event): (r: map<Key, Event>) {
    match e.kind
    case Press(k) => h[k := e]
    case Release(k) => h - {k}
    case Pointer => h
  }

  function MapMode(l: Layout, e: Event): (r: seq<KeyEvent>) {
    if e.kind.Pointer? then []
    else match l.codeOf(e.position) case None => [] case Some(code) => [KeyEvent(e.kind.Press?, code)]
  }

  function KeyEvents(l: Layout, mode: Mode, e: Event): (r: seq<KeyEvent>) {
    if mode.Map? then MapMode(l, e) else l.others(mode, e)
  }

  function Processed(l: Layout, mode: Mode, t: Tables, e: Event): (r: Tables) {
    if IsLongPress(t, e) then t
    else Tables(Flagged(t.modifiers, e), Tracked(t.held, e), t.sent + KeyEvents(l, mode, e))
  }

  /** Releasing one key; Alt gets one more stroke, since the remote side may have kept
      it down when the local window was switched with it. */
  function OneReleased(l: Layout, mode: Mode, t: Tables, k: Key, e: Event): (r: Tables) {
    var up := e.(kind := Release(k));
    var t1 := Processed(l, mode, t, up);
    if k == Alt || k == AltGr then
      Processed(l, mode, Processed(l, mode, t1, e.(kind := Press(k))), up)
    else t1
  }

  function AllReleased(l: Layout, mode: Mode, t: Tables, was: map<Key, Event>, order: seq<Key>): (r: Tables)
    requires forall k :: k in order ==> k in was
  {
    if order == [] then t
    else
      assert forall k :: k in order[..|order| - 1] ==> k in order;
      var k := order[|order| - 1];
      assert k in order;
      OneReleased(l, mode, AllReleased(l, mode, t, was, order[..|order| - 1]), k, was[k])
  }

  ghost predicate IsOrderOf(order: seq<Key>, keys: set<Key>) {
    && (forall k :: k in order <==> k in keys)
    && (forall i, j :: 0 <= i < j < |order| ==> order[i] != order[j])
  }

  function ReleasedIn(l: Layout, mode: Mode, t: Tables, order: seq<Key>): (r: Tables)
    requires forall k :: k in order ==> k in t.held
  {
    AllReleased(l, mode, t.(held := map[]), t.held, order)
  }

  // ---------------------------------------------------------------- implementation

  class Tracker {
    const layout: Layout
    var modifiers: map<Key, bool>
    var held: map<Key, Event>
    var sent: seq<KeyEvent>

    constructor (layout: Layout)
      ensures this.layout == layout && Abs() == Tables(map k | k in MODIFIERS :: false, map[], [])
    {
      this.layout := layout;
      modifiers, held, sent := map k | k in MODIFIERS :: false, map[], [];
    }

    function Abs(): (t: Tables)
      reads this
    {
      Tables(modifiers, held, sent)
    }

    method EventToKeyEvents(mode: Mode, event: Event) returns (events: seq<KeyEvent>)
      modifies this`modifiers, this`held
      ensures modifiers == Flagged(old(modifiers), event) && held == Tracked(old(held), event)
      ensures events == KeyEvents(layout, mode, event)
    {
      match event.kind {
        case Press(k) =>
          if k in modifiers { modifiers := modifiers[k := true]; }
          held := held[k := event];
        case Release(k) =>
          if k in modifiers { modifiers := modifiers[k := false]; }
          held := held - {k};
        case Pointer =>
      }
      events := [];
      if mode.Map? {
        if !event.kind.Pointer? {
          match layout.codeOf(event.position) {
            case None =>
            case Some(code) => events := [KeyEvent(event.kind.Press?, code)];
          }
        }
      } else {
        events := layout.others(mode, event);
      }
    }

    method ProcessEvent(mode: Mode, event: Event)
      modifies this
      ensures Abs() == Processed(layout, mode, old(Abs()), event)
    {
      if IsLongPress(Abs(), event) {
        return;
      }
      var events := EventToKeyEvents(mode, event);
      sent := sent + events;
    }

    /** Every key that is still down is released, in the order of a hash table. */
    method ReleaseRemoteKeys(mode: Mode) returns (ghost order: seq<Key>)
      modifies this
      ensures IsOrderOf(order, old(held).Keys)
      ensures Abs() == ReleasedIn(layout, mode, old(Abs()), order)
    {
      var toRelease := held;
      held := map[];
      ghost var start := Abs();
      order := [];
      var todo := toRelease.Keys;
      while todo != {}
        invariant todo <= toRelease.Keys
        invariant IsOrderOf(order, toRelease.Keys - todo)
        invariant Abs() == AllReleased(layout, mode, start, toRelease, order)
        decreases |todo|
      {
        var key :| key in todo;
        todo := todo - {key};
        var event := toRelease[key];
        ghost var before := order;
        order := order + [key];
        assert order[..|order| - 1] == before;
        ProcessEvent(mode, event.(kind := Release(key)));
        if key == Alt || key == AltGr {
          ProcessEvent(mode, event.(kind := Press(key)));
          ProcessEvent(mode, event.(kind := Release(key)));
        }
      }
    }
  }
}

/** What the tables guarantee over whole runs. */
module KeyboardRuns {
  import opened Wrappers
  import opened Keyboard

  datatype Call = Process(mode: Mode, event: Event) | ReleaseAll(mode: Mode, order: seq<Key>)

  function Step(l: Layout, t: Tables, c: Call): (r: Tables)
    requires c.ReleaseAll? ==> IsOrderOf(c.order, t.held.Keys)
  {
    match c
    case Process(mode, event) => Processed(l, mode, t, event)
    case ReleaseAll(mode, order) => ReleasedIn(l, mode, t, order)
  }

  ghost predicate IsRun(l: Layout, t: Tables, calls: seq<Call>)
    decreases |calls|
  {
    calls == [] || ((calls[0].ReleaseAll? ==> IsOrderOf(calls[0].order, t.held.Keys))
                    && IsRun(l, Step(l, t, calls[0]), calls[1..]))
  }

  function Run(l: Layout, t: Tables, calls: seq<Call>): (r: Tables)
    requires IsRun(l, t, calls)
    decreases |calls|
  {
    if calls == [] then t else Run(l, Step(l, t, calls[0]), calls[1..])
  }

  const START: Tables := Tables(map k | k in MODIFIERS :: false, map[], [])

  // ---------------------------------------------------------------- the two tables agree

  /** While keys are being released, those still to come count as held. */
  ghost predicate AgreeWith(t: Tables, rest: set<Key>) {
    t.Valid() && forall k :: k in MODIFIERS ==> (t.modifiers[k] <==> k in t.held || k in rest)
  }

  ghost predicate Agree(t: Tables) { AgreeWith(t, {}) }

  lemma ProcessAgrees(l: Layout, mode: Mode, t: Tables, e: Event, rest: set<Key>)
    requires AgreeWith(t, rest)
    requires e.kind.Release? ==> e.kind.key !in rest
    ensures AgreeWith(Processed(l, mode, t, e), rest)
  {
  }

  /** A release takes the key out of both tables, whatever else is still to come. */
  lemma ReleaseAgrees(l: Layout, mode: Mode, t: Tables, k: Key, e: Event, rest: set<Key>)
    requires AgreeWith(t, rest) && k in rest && t.held == map[]
    ensures AgreeWith(OneReleased(l, mode, t, k, e), rest - {k})
    ensures OneReleased(l, mode, t, k, e).held == map[]
  {
    var up := e.(kind := Release(k));
    var t1 := Processed(l, mode, t, up);
    assert t1.held == map[] && AgreeWith(t1, rest - {k});
    if k == Alt || k == AltGr {
      var t2 := Processed(l, mode, t1, e.(kind := Press(k)));
      assert t2.held.Keys == {k};
    }
  }

  /** The keys that are left when those of `order` have been released. */
  function Left(keys: set<Key>, order: seq<Key>): (rest: set<Key>)
    ensures forall k :: k in rest <==> k in keys && k !in order
  {
    if order == [] then keys
    else
      assert order == order[..|order| - 1] + [order[|order| - 1]];
      Left(keys, order[..|order| - 1]) - {order[|order| - 1]}
  }

  lemma {:induction false} AllReleasedAgrees(l: Layout, mode: Mode, t: Tables, was: map<Key, Event>, order: seq<Key>, keys: set<Key>)
    requires t.held == map[] && AgreeWith(t, keys)
    requires forall k :: k in order ==> k in was && k in keys
    requires forall i, j :: 0 <= i < j < |order| ==> order[i] != order[j]
    ensures var r := AllReleased(l, mode, t, was, order);
            r.held == map[] && AgreeWith(r, Left(keys, order))
  {
    if order != [] {
      var front, k := order[..|order| - 1], order[|order| - 1];
      assert forall x :: x in front ==> x in order;
      AllReleasedAgrees(l, mode, t, was, front, keys);
      assert k in order && k !in front;
      ReleaseAgrees(l, mode, AllReleased(l, mode, t, was, front), k, was[k], Left(keys, front));
    }
  }

  /** After the release of all keys no flag is set and nothing is held, in spite of the
      extra stroke of Alt. */
  lemma ReleaseAllClears(l: Layout, mode: Mode, t: Tables, order: seq<Key>)
    requires Agree(t) && IsOrderOf(order, t.held.Keys)
    ensures var r := ReleasedIn(l, mode, t, order);
            r.held == map[] && r.Valid() && forall k :: k in MODIFIERS ==> !r.modifiers[k]
  {
    AllReleasedAgrees(l, mode, t.(held := map[]), t.held, order, t.held.Keys);
  }

  lemma CallAgrees(l: Layout, t: Tables, c: Call)
    requires Agree(t) && (c.ReleaseAll? ==> IsOrderOf(c.order, t.held.Keys))
    ensures Agree(Step(l, t, c))
  {
    match c
    case Process(mode, event) => ProcessAgrees(l, mode, t, event, {});
    case ReleaseAll(mode, order) => ReleaseAllClears(l, mode, t, order);
  }

  /** In every reachable state a modifier's flag is set exactly when the key is among
      those that have to be released. */
  lemma {:induction false} TablesAgree(l: Layout, t: Tables, calls: seq<Call>)
    requires Agree(t) && IsRun(l, t, calls)
    ensures Agree(Run(l, t, calls))
    decreases |calls|
  {
    if calls != [] {
      CallAgrees(l, t, calls[0]);
      TablesAgree(l, Step(l, t, calls[0]), calls[1..]);
    }
  }

  // ---------------------------------------------------------------- what a release sends

  /** The strokes for one held key: up, and for Alt up, down and up again. */
  function Strokes(l: Layout, k: Key, e: Event): (r: seq<KeyEvent>) {
    match l.codeOf(e.position)
    case None => []
    case Some(c) =>
      var up := KeyEvent(false, c);
      if k == Alt || k == AltGr then [up, KeyEvent(true, c), up] else [up]
  }

  function AllStrokes(l: Layout, was: map<Key, Event>, order: seq<Key>): (r: seq<KeyEvent>)
    requires forall k :: k in order ==> k in was
  {
    if order == [] then []
    else
      assert order[|order| - 1] in order && forall k :: k in order[..|order| - 1] ==> k in order;
      AllStrokes(l, was, order[..|order| - 1]) + Strokes(l, order[|order| - 1], was[order[|order| - 1]])
  }

  lemma OneReleaseSends(l: Layout, t: Tables, k: Key, e: Event)
    requires t.Valid()
    ensures var r := OneReleased(l, Map, t, k, e); r.Valid() && r.sent == t.sent + Strokes(l, k, e)
  {
    var up, down := e.(kind := Release(k)), e.(kind := Press(k));
    var t1 := Processed(l, Map, t, up);
    if k == Alt || k == AltGr {
      assert !IsLongPress(t1, down);
      var a, b := MapMode(l, up), MapMode(l, down);
      assert t.sent + a + b + a == t.sent + (a + b + a);
      assert a + b + a == Strokes(l, k, e);
    }
  }

  /** In Map mode a release of all keys sends, per held key, one stroke, or three for
      Alt, and nothing else. */
  lemma {:induction false} ReleaseSendsStrokes(l: Layout, t: Tables, was: map<Key, Event>, order: seq<Key>)
    requires t.Valid() && forall k :: k in order ==> k in was
    ensures var r := AllReleased(l, Map, t, was, order);
            r.Valid() && r.sent == t.sent + AllStrokes(l, was, order)
  {
    if order != [] {
      var front, k := order[..|order| - 1], order[|order| - 1];
      assert k in order && forall x :: x in front ==> x in order;
      ReleaseSendsStrokes(l, t, was, front);
      OneReleaseSends(l, AllReleased(l, Map, t, was, front), k, was[k]);
    }
  }

  // ---------------------------------------------------------------- the remote keyboard

  /** The codes that the peer holds down after a sequence of key events. */
  function Down(sent: seq<KeyEvent>): (codes: set<nat>) {
    if sent == [] then {}
    else
      var d := Down(sent[..|sent| - 1]);
      var e := sent[|sent| - 1];
      if e.down then d + {e.code} else d - {e.code}
  }

  lemma DownAppend(sent: seq<KeyEvent>, e: KeyEvent)
    ensures Down(sent + [e]) == if e.down then Down(sent) + {e.code} else Down(sent) - {e.code}
  {
    assert (sent + [e])[..|sent|] == sent;
  }

  /** The position of a key is fixed, and two keys that the peer knows have two codes. */
  datatype Wiring = Wiring(positionOf: Key -> nat)

  ghost predicate Injective(l: Layout, w: Wiring) {
    forall j, k :: j != k && l.codeOf(w.positionOf(j)).Some? ==> l.codeOf(w.positionOf(j)) != l.codeOf(w.positionOf(k))
  }

  ghost predicate Wired(w: Wiring, e: Event) { !e.kind.Pointer? ==> e.position == w.positionOf(e.kind.key) }

  /** The codes of a set of keys; keys that the peer does not know have none. */
  ghost function Codes(l: Layout, w: Wiring, keys: set<Key>): (codes: set<nat>) {
    set k | k in keys && l.codeOf(w.positionOf(k)).Some? :: l.codeOf(w.positionOf(k)).value
  }

  lemma CodesOf(l: Layout, w: Wiring, keys: set<Key>, k: Key)
    requires Injective(l, w)
    ensures match l.codeOf(w.positionOf(k))
            case None => Codes(l, w, keys + {k}) == Codes(l, w, keys) == Codes(l, w, keys - {k})
            case Some(c) => Codes(l, w, keys + {k}) == Codes(l, w, keys) + {c}
                            && Codes(l, w, keys - {k}) == Codes(l, w, keys) - {c}
  {
    forall j | j in keys && j != k && l.codeOf(w.positionOf(j)).Some?
      ensures l.codeOf(w.positionOf(j)) != l.codeOf(w.positionOf(k)) {}
  }

  ghost predicate HeldEventsWired(w: Wiring, held: map<Key, Event>) {
    forall k :: k in held ==> held[k].position == w.positionOf(k)
  }

  ghost predicate TablesWired(w: Wiring, t: Tables, rest: set<Key>) {
    && t.Valid() && HeldEventsWired(w, t.held)
    && (forall k :: k in MODIFIERS && t.modifiers[k] ==> k in t.held || k in rest)
  }

  /** The remote keyboard holds exactly the keys that are to be released. */
  ghost predicate Mirrors(l: Layout, w: Wiring, t: Tables, rest: set<Key>) {
    TablesWired(w, t, rest) && Down(t.sent) == Codes(l, w, t.held.Keys + rest)
  }

  lemma SentMapMode(l: Layout, sent: seq<KeyEvent>, e: Event)
    ensures Down(sent + MapMode(l, e)) ==
            if e.kind.Pointer? || l.codeOf(e.position).None? then Down(sent)
            else if e.kind.Press? then Down(sent) + {l.codeOf(e.position).value}
            else Down(sent) - {l.codeOf(e.position).value}
  {
    if e.kind.Pointer? || l.codeOf(e.position).None? {
      assert sent + [] == sent;
    } else {
      DownAppend(sent, KeyEvent(e.kind.Press?, l.codeOf(e.position).value));
    }
  }

  /** One sent stroke changes the remote keys as it changes a set of local keys. */
  lemma StrokeMirrors(l: Layout, w: Wiring, sent: seq<KeyEvent>, e: Event, keys: set<Key>)
    requires Injective(l, w) && Wired(w, e) && !e.kind.Pointer? && Down(sent) == Codes(l, w, keys)
    ensures Down(sent + MapMode(l, e)) == Codes(l, w, if e.kind.Press? then keys + {e.kind.key} else keys - {e.kind.key})
  {
    SentMapMode(l, sent, e);
    CodesOf(l, w, keys, e.kind.key);
  }

  lemma PressMirrors(l: Layout, w: Wiring, t: Tables, e: Event, rest: set<Key>)
    requires Injective(l, w) && Wired(w, e) && Mirrors(l, w, t, rest) && e.kind.Press?
    ensures Mirrors(l, w, Processed(l, Map, t, e), rest)
  {
    var k := e.kind.key;
    if !IsLongPress(t, e) {
      StrokeMirrors(l, w, t.sent, e, t.held.Keys + rest);
      assert Processed(l, Map, t, e).held.Keys + rest == t.held.Keys + rest + {k};
    }
  }

  lemma KeyUpMirrors(l: Layout, w: Wiring, t: Tables, e: Event, rest: set<Key>)
    requires Injective(l, w) && Wired(w, e) && Mirrors(l, w, t, rest) && e.kind.Release?
    ensures Mirrors(l, w, Processed(l, Map, t, e), rest - {e.kind.key})
  {
    var k := e.kind.key;
    var r := Processed(l, Map, t, e);
    assert TablesWired(w, r, rest - {k});
    assert Down(r.sent) == Codes(l, w, t.held.Keys + rest - {k}) by {
      StrokeMirrors(l, w, t.sent, e, t.held.Keys + rest);
    }
    assert r.held.Keys + (rest - {k}) == t.held.Keys + rest - {k};
  }

  lemma ProcessMirrors(l: Layout, w: Wiring, t: Tables, e: Event)
    requires Injective(l, w) && Wired(w, e) && Mirrors(l, w, t, {})
    ensures Mirrors(l, w, Processed(l, Map, t, e), {})
  {
    match e.kind
    case Pointer => SentMapMode(l, t.sent, e);
    case Press(k) => PressMirrors(l, w, t, e, {});
    case Release(k) =>
      KeyUpMirrors(l, w, t, e, {});
      assert {} - {k} == {};
  }

  lemma ReleaseMirrors(l: Layout, w: Wiring, t: Tables, k: Key, e: Event, rest: set<Key>)
    requires Injective(l, w) && Mirrors(l, w, t, rest) && e.position == w.positionOf(k)
    ensures Mirrors(l, w, OneReleased(l, Map, t, k, e), rest - {k})
  {
    var up, down := e.(kind := Release(k)), e.(kind := Press(k));
    KeyUpMirrors(l, w, t, up, rest);
    if k == Alt || k == AltGr {
      var t1 := Processed(l, Map, t, up);
      PressMirrors(l, w, t1, down, rest - {k});
      KeyUpMirrors(l, w, Processed(l, Map, t1, down), up, rest - {k});
      assert rest - {k} - {k} == rest - {k};
    }
  }

  lemma {:induction false} AllReleasedMirrors(l: Layout, w: Wiring, t: Tables, was: map<Key, Event>, order: seq<Key>, keys: set<Key>)
    requires Injective(l, w) && Mirrors(l, w, t, keys) && HeldEventsWired(w, was)
    requires forall k :: k in order ==> k in was
    ensures Mirrors(l, w, AllReleased(l, Map, t, was, order), Left(keys, order))
  {
    if order != [] {
      var front, k := order[..|order| - 1], order[|order| - 1];
      assert k in order && forall x :: x in front ==> x in order;
      AllReleasedMirrors(l, w, t, was, front, keys);
      ReleaseMirrors(l, w, AllReleased(l, Map, t, was, front), k, was[k], Left(keys, front));
    }
  }

  lemma StartIsClear(l: Layout, w: Wiring)
    ensures Agree(START) && Mirrors(l, w, START, {})
  {
    assert Codes(l, w, START.held.Keys + {}) == {};
  }

  ghost predicate MapCall(w: Wiring, c: Call) { c.mode.Map? && (c.Process? ==> Wired(w, c.event)) }

  lemma StepMirrors(l: Layout, w: Wiring, t: Tables, c: Call)
    requires Injective(l, w) && Mirrors(l, w, t, {}) && Agree(t) && MapCall(w, c)
    requires c.ReleaseAll? ==> IsOrderOf(c.order, t.held.Keys)
    ensures Mirrors(l, w, Step(l, t, c), {})
    ensures c.ReleaseAll? ==> Step(l, t, c).held == map[] && Down(Step(l, t, c).sent) == {}
  {
    match c
    case Process(_, event) =>
      ProcessMirrors(l, w, t, event);
    case ReleaseAll(_, order) =>
      var keys := t.held.Keys;
      assert {} + keys == keys + {} == keys;
      assert t.(held := map[]).held.Keys + keys == t.held.Keys + {};
      AllReleasedMirrors(l, w, t.(held := map[]), t.held, order, keys);
      assert Left(keys, order) == {};
      ReleaseAllClears(l, Map, t, order);
  }

  /** The refinement: in Map mode, after any sequence of calls, the peer holds exactly
      the codes of the keys in the table. */
  lemma {:induction false} RemoteMirrorsTable(l: Layout, w: Wiring, t: Tables, calls: seq<Call>)
    requires Injective(l, w) && Mirrors(l, w, t, {}) && Agree(t) && IsRun(l, t, calls)
    requires forall c :: c in calls ==> MapCall(w, c)
    ensures Down(Run(l, t, calls).sent) == Codes(l, w, Run(l, t, calls).held.Keys)
    ensures calls != [] && calls[|calls| - 1].ReleaseAll? ==> Down(Run(l, t, calls).sent) == {}
    decreases |calls|
  {
    if calls == [] {
      assert t.held.Keys + {} == t.held.Keys;
    } else {
      assert calls[0] in calls && forall c :: c in calls[1..] ==> c in calls;
      StepMirrors(l, w, t, calls[0]);
      CallAgrees(l, t, calls[0]);
      RemoteMirrorsTable(l, w, Step(l, t, calls[0]), calls[1..]);
    }
  }

  // ---------------------------------------------------------------- what an event sends

  /** A press of a modifier that is down already changes nothing. Any other event goes into
      the tables, and sends the key events of its mode: in Map mode one for a press or a
      release of a key that the peer knows, and none for the pointer. */
  lemma EventSends(l: Layout, mode: Mode, t: Tables, e: Event)
    requires t.Valid()
    ensures var r := Processed(l, mode, t, e);
            if e.kind.Press? && !e.kind.key.Plain? && t.modifiers[e.kind.key] then r == t
            else
              && (!mode.Map? ==> r.sent == t.sent + l.others(mode, e))
              && (mode.Map? && e.kind.Pointer? ==> r.sent == t.sent)
              && (mode.Map? && !e.kind.Pointer? ==>
                  r.sent == t.sent + match l.codeOf(e.position) case None => [] case Some(c) => [KeyEvent(e.kind.Press?, c)])
    ensures var r := Processed(l, mode, t, e);
            match e.kind
            case Press(k) =>
              (k.Plain? ==> r.modifiers == t.modifiers && r.held == t.held[k := e])
              && (!k.Plain? && !t.modifiers[k] ==> r.modifiers == t.modifiers[k := true] && r.held == t.held[k := e])
            case Release(k) =>
              r.held == t.held - {k} && r.modifiers == if k.Plain? then t.modifiers else t.modifiers[k := false]
            case Pointer => r.held == t.held && r.modifiers == t.modifiers
  {
    assert forall k :: k in MODIFIERS <==> !k.Plain?;
    assert t.sent + [] == t.sent;
  }

  function Presses(k: Key, position: nat, n: nat): (calls: seq<Call>) {
    if n == 0 then [] else [Process(Map, Event(Press(k), position))] + Presses(k, position, n - 1)
  }

  function Downs(code: nat, n: nat): (sent: seq<KeyEvent>)
    ensures |sent| == n && forall i :: 0 <= i < n ==> sent[i] == KeyEvent(true, code)
  {
    if n == 0 then [] else [KeyEvent(true, code)] + Downs(code, n - 1)
  }

  /** Autorepeat: n presses of a plain key that the peer knows send n events, whether it is
      held or not. */
  lemma {:induction false} PlainKeyRepeats(l: Layout, t: Tables, k: Key, position: nat, code: nat, n: nat)
    requires t.Valid() && k.Plain? && l.codeOf(position) == Some(code)
    ensures IsRun(l, t, Presses(k, position, n)) && Run(l, t, Presses(k, position, n)).sent == t.sent + Downs(code, n)
    decreases n
  {
    if n == 0 {
      assert t.sent + [] == t.sent;
    } else {
      var e := Event(Press(k), position);
      EventSends(l, Map, t, e);
      var r := Processed(l, Map, t, e);
      PlainKeyRepeats(l, r, k, position, code, n - 1);
      FirstCall(l, t, Process(Map, e), Presses(k, position, n - 1));
      Associative(t.sent, [KeyEvent(true, code)], Downs(code, n - 1));
    }
  }

  lemma FirstCall(l: Layout, t: Tables, c: Call, calls: seq<Call>)
    requires (c.ReleaseAll? ==> IsOrderOf(c.order, t.held.Keys)) && IsRun(l, Step(l, t, c), calls)
    ensures IsRun(l, t, [c] + calls) && Run(l, t, [c] + calls) == Run(l, Step(l, t, c), calls)
  {
    assert ([c] + calls)[1..] == calls;
  }

  lemma {:induction false} HeldModifierIsSilent(l: Layout, t: Tables, k: Key, position: nat, n: nat)
    requires t.Valid() && !k.Plain? && t.modifiers[k]
    ensures IsRun(l, t, Presses(k, position, n)) && Run(l, t, Presses(k, position, n)) == t
    decreases n
  {
    if n > 0 {
      EventSends(l, Map, t, Event(Press(k), position));
      HeldModifierIsSilent(l, t, k, position, n - 1);
      FirstCall(l, t, Process(Map, Event(Press(k), position)), Presses(k, position, n - 1));
    }
  }

  /** A modifier does not repeat: however often its press comes, one event is sent. */
  lemma ModifierIsSentOnce(l: Layout, t: Tables, k: Key, position: nat, code: nat, n: nat)
    requires t.Valid() && !k.Plain? && !t.modifiers[k] && l.codeOf(position) == Some(code) && n > 0
    ensures IsRun(l, t, Presses(k, position, n)) && Run(l, t, Presses(k, position, n)).sent == t.sent + [KeyEvent(true, code)]
  {
    var e := Event(Press(k), position);
    EventSends(l, Map, t, e);
    HeldModifierIsSilent(l, Processed(l, Map, t, e), k, position, n - 1);
    FirstCall(l, t, Process(Map, e), Presses(k, position, n - 1));
  }
}
