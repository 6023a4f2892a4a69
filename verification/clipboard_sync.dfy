/** One end of the clipboard synchronisation: reading the clipboard after a change
    notification, and writing what the other end sent. */
module ClipboardEnd {
  import opened Wrappers
  import opened ClipboardCodec

  /** "dyn.com.onedesk.owner" */
  const OWNER_FORMAT: seq<Byte> :=
    [100, 121, 110, 46, 99, 111, 109, 46, 111, 110, 101, 100, 101, 115, 107, 46, 111, 119, 110, 101, 114]

  datatype Side = Host | Client

  function OwnerData(side: Side): (d: seq<Byte>) { if side.Host? then [1] else [2] }

  /** Either side's mark counts, whichever end asks. */
  predicate IsOwner(data: seq<Byte>) { |data| > 0 && data[0] % 4 != 0 }

  predicate IsMark(e: Entry) { e.Special? && e.name == OWNER_FORMAT && IsOwner(e.data) }

  predicate IsOwned(es: seq<Entry>) { exists i :: 0 <= i < |es| && IsMark(es[i]) }

  /** Entries that are worth sending. */
  predicate Keep(e: Entry) {
    match e
    case Nothing => false
    case Special(name, _) => name != OWNER_FORMAT
    case Text(s) => s != []
    case _ => true
  }

  function Kept(es: seq<Entry>): (r: seq<Entry>) {
    if es == [] then [] else (if Keep(es[0]) then [es[0]] else []) + Kept(es[1..])
  }

  /** What a look at the clipboard finds to send. */
  function Found(es: seq<Entry>, force: bool): (r: seq<Entry>) { if !force && IsOwned(es) then [] else Kept(es) }

  // ---------------------------------------------------------------- specification

  /** `pending` counts the change notifications the subscriber has not handled,
      `inbox` holds the messages whose delivery threads have not run. */
  datatype Peer = Peer(clip: seq<Entry>, pending: nat, cache: seq<Wire>, inbox: multiset<seq<Wire>>)

  function AfterCheck(z: Zip, p: Peer, ok: bool): (r: (Peer, Option<seq<Wire>>)) {
    var content := Found(p.clip, false);
    if ok && content != [] then
      var ws := CreateMulti(z, content);
      (p.(cache := ws), Some(ws))
    else (p, None)
  }

  predicate Writes(z: Zip, ws: seq<Wire>, ok: bool) { ok && FromMulti(z, ws) != [] }

  function AfterUpdate(z: Zip, p: Peer, ws: seq<Wire>, side: Side, ok: bool): (r: Peer) {
    if Writes(z, ws, ok) then p.(clip := FromMulti(z, ws) + [Special(OWNER_FORMAT, OwnerData(side))]) else p
  }

  /** The message for a fresh connection: what was sent last, else the clipboard even
      when it came from the other side. */
  function AfterGreet(z: Zip, p: Peer, ok: bool): (r: (Peer, Option<seq<Wire>>)) {
    if p.cache == [] && !ok then (p, None)
    else
      var ws := if p.cache == [] then CreateMulti(z, Found(p.clip, true)) else p.cache;
      (p.(cache := ws), if ws == [] then None else Some(ws))
  }

  function FirstText(ws: seq<Wire>): (r: Option<seq<Wire>>)
    ensures r == None ==> forall i :: 0 <= i < |ws| ==> ws[i].format != FText
    ensures r.Some? ==> |r.value| == 1 && r.value[0] in ws && r.value[0].format == FText
  {
    if ws == [] then None else if ws[0].format == FText then Some([ws[0]]) else FirstText(ws[1..])
  }

  // ---------------------------------------------------------------- implementation

  class Clipboard {
    const zip: Zip
    const side: Side
    var clip: seq<Entry>
    var cache: seq<Wire>
    var subscribers: map<string, nat>

    constructor (zip: Zip, side: Side, clip: seq<Entry>)
      ensures this.zip == zip && this.side == side && this.clip == clip && cache == [] && subscribers == map[]
    {
      this.zip, this.side, this.clip := zip, side, clip;
      cache, subscribers := [], map[];
    }

    function Abs(name: string, inbox: multiset<seq<Wire>>): (p: Peer)
      reads this
    {
      Peer(clip, if name in subscribers then subscribers[name] else 0, cache, inbox)
    }

    /** The listener tells every subscriber. */
    method OnClipboardChange()
      modifies this`subscribers
      ensures subscribers == map k | k in old(subscribers) :: old(subscribers)[k] + 1
    {
      var todo := subscribers.Keys;
      while todo != {}
        invariant todo <= subscribers.Keys == old(subscribers).Keys
        invariant forall k :: k in subscribers ==>
          subscribers[k] == old(subscribers)[k] + if k in todo then 0 else 1
        decreases |todo|
      {
        var k :| k in todo;
        subscribers := subscribers[k := subscribers[k] + 1];
        todo := todo - {k};
      }
    }

    /** Reads the clipboard; empty slots are left out. */
    method GetFormats() returns (data: seq<Entry>)
      ensures Kept(data) == Kept(clip) && (IsOwned(data) <==> IsOwned(clip))
    {
      data := [];
      for i := 0 to |clip|
        invariant Kept(data) == Kept(clip[..i]) && (IsOwned(data) <==> IsOwned(clip[..i]))
      {
        assert clip[..i + 1] == clip[..i] + [clip[i]];
        ListAppend(clip[..i], clip[i]);
        if clip[i] != Nothing {
          ListAppend(data, clip[i]);
          data := data + [clip[i]];
        }
      }
      assert clip[..|clip|] == clip;
    }

    method GetFormatsFilter(force: bool) returns (r: seq<Entry>)
      ensures r == Found(clip, force)
    {
      var data := GetFormats();
      if data == [] {
        return [];
      }
      if !force {
        for i := 0 to |data|
          invariant forall k :: 0 <= k < i ==> !IsMark(data[k])
        {
          if IsMark(data[i]) {
            return [];
          }
        }
      }
      r := Kept(data);
    }

    method CheckClipboard(force: bool, ok: bool) returns (msg: Option<seq<Wire>>)
      modifies this`cache
      ensures msg == if ok && Found(clip, force) != [] then Some(CreateMulti(zip, Found(clip, force))) else None
      ensures cache == if msg.Some? then msg.value else old(cache)
      ensures !force ==> forall name, inbox ::
        (Abs(name, inbox), msg) == AfterCheck(zip, old(Abs(name, inbox)), ok)
    {
      msg := None;
      if ok {
        var content := GetFormatsFilter(force);
        if content != [] {
          var clipboards := CreateMulti(zip, content);
          cache := clipboards;
          msg := Some(clipboards);
        }
      }
    }

    /** A peer without support for several formats is sent the first text alone. */
    method GetCurrentClipboardMsg(ok: bool, several: bool) returns (msg: Option<seq<Wire>>)
      modifies this`cache
      ensures forall name, inbox ::
        var (p, all) := AfterGreet(zip, old(Abs(name, inbox)), ok);
        Abs(name, inbox) == p && msg == if several || all == None then all else FirstText(all.value)
    {
      if cache == [] {
        if !ok {
          return None;
        }
        var content := GetFormatsFilter(true);
        cache := CreateMulti(zip, content);
      }
      if cache == [] {
        return None;
      }
      if several {
        return Some(cache);
      }
      for i := 0 to |cache|
        invariant FirstText(cache) == FirstText(cache[i..])
      {
        if cache[i].format == FText {
          return Some([cache[i]]);
        }
      }
      msg := None;
    }

    method UpdateClipboard(clipboards: seq<Wire>, ok: bool)
      modifies this`clip
      ensures forall name, inbox :: Abs(name, inbox) == AfterUpdate(zip, old(Abs(name, inbox)), clipboards, side, ok)
    {
      var data := FromMulti(zip, clipboards);
      if data == [] {
        return;
      }
      data := data + [Special(OWNER_FORMAT, OwnerData(side))];
      if ok {
        clip := data;
      }
    }
  }

  // ---------------------------------------------------------------- lists

  lemma KeptCons(e: Entry, rest: seq<Entry>)
    ensures Kept([e] + rest) == (if Keep(e) then [e] else []) + Kept(rest)
  {
    assert ([e] + rest)[1..] == rest;
  }

  lemma {:induction false} KeptAppend(es: seq<Entry>, e: Entry)
    ensures Kept(es + [e]) == Kept(es) + if Keep(e) then [e] else []
  {
    if es == [] {
      KeptCons(e, []);
      assert [] + [e] == [e] == [e] + [];
    } else {
      var head, tail := es[0], es[1..];
      KeptAppend(tail, e);
      KeptCons(head, tail + [e]);
      KeptCons(head, tail);
      assert es + [e] == [head] + (tail + [e]) && es == [head] + tail;
    }
  }

  lemma ListAppend(es: seq<Entry>, e: Entry)
    ensures Kept(es + [e]) == Kept(es) + if Keep(e) then [e] else []
    ensures IsOwned(es + [e]) <==> IsOwned(es) || IsMark(e)
  {
    KeptAppend(es, e);
    if IsOwned(es) {
      var i :| 0 <= i < |es| && IsMark(es[i]);
      assert (es + [e])[i] == es[i];
    } else if IsMark(e) {
      assert (es + [e])[|es|] == e;
    }
  }

  // ---------------------------------------------------------------- what is worth sending

  /** Everything but an empty slot, an empty text and an owner's mark is sent. */
  predicate Worth(e: Entry) {
    e != Nothing && e != Text([]) && !(e.Special? && e.name == OWNER_FORMAT)
  }

  lemma {:induction false} FoundIff(es: seq<Entry>, e: Entry)
    ensures e in Found(es, true) <==> e in es && Worth(e)
  {
    if es != [] {
      FoundIff(es[1..], e);
      assert e in es <==> e == es[0] || e in es[1..];
    }
  }

  /** In order, and as often as it is there. */
  lemma {:induction false} FoundTogether(a: seq<Entry>, b: seq<Entry>)
    ensures Found(a + b, true) == Found(a, true) + Found(b, true)
  {
    if a == [] {
      assert a + b == b && [] + Found(b, true) == Found(b, true);
    } else {
      var e, rest := a[0], a[1..];
      assert a == [e] + rest;
      FoundTogether(rest, b);
      Associative([e], rest, b);
      KeptCons(e, rest + b);
      KeptCons(e, rest);
      Associative(if Keep(e) then [e] else [], Kept(rest), Kept(b));
    }
  }

  lemma {:induction false} AllFound(es: seq<Entry>)
    requires forall e :: e in es ==> Worth(e)
    ensures Found(es, true) == es
  {
    if es != [] {
      assert es[0] in es && es == [es[0]] + es[1..];
      AllFound(es[1..]);
    }
  }

  /** A clipboard is marked when some owner's entry has one of its two lowest bits set. */
  lemma MarkedIff(es: seq<Entry>)
    ensures Found(es, false) == (if IsOwned(es) then [] else Found(es, true))
    ensures IsOwned(es) <==>
            exists i :: 0 <= i < |es| && es[i].Special? && es[i].name == OWNER_FORMAT && es[i].data != []
                        && (es[i].data[0] % 2 == 1 || es[i].data[0] / 2 % 2 == 1)
  {
  }

  lemma OwnerName(i: nat)
    requires i < 21
    ensures |OWNER_FORMAT| == 21 && OWNER_FORMAT[i] == "dyn.com.onedesk.owner"[i] as int
  {
  }

  /** The single text for an old peer is the first one. */
  lemma {:induction false} FirstTextAt(ws: seq<Wire>, i: nat)
    requires i < |ws| && ws[i].format == FText && forall j :: 0 <= j < i ==> ws[j].format != FText
    ensures FirstText(ws) == Some([ws[i]])
  {
    if i > 0 { FirstTextAt(ws[1..], i - 1); }
  }
}
