/** Merging the answers of a LAN discovery round into the stored list of peers. */
module Lan {
  import opened Wrappers

  datatype Peer = Peer(id: string, username: string, hostname: string, platform: string, online: bool,
                       ipMac: map<string, string>)

  type Key = (string, string)

  function KeyOf(p: Peer): (k: Key) { (p.id, p.username) }

  /** `a.extend(b)`: the entries of `b` win. */
  function Extended(a: map<string, string>, b: map<string, string>): (m: map<string, string>) { a + b }

  // ---------------------------------------------------------------- specification

  function Position(peers: seq<Peer>, k: Key): (i: nat)
    ensures i <= |peers| && (i < |peers| ==> KeyOf(peers[i]) == k)
    ensures forall j :: 0 <= j < i ==> KeyOf(peers[j]) != k
  {
    if peers == [] || KeyOf(peers[0]) == k then 0 else 1 + Position(peers[1..], k)
  }

  function Offline(peers: seq<Peer>): (r: seq<Peer>)
    ensures |r| == |peers| && forall i :: 0 <= i < |r| ==> r[i] == peers[i].(online := false)
  {
    seq(|peers|, i requires 0 <= i < |peers| => peers[i].(online := false))
  }

  /** An answer that replaces an entry with the given addresses. */
  function Updated(seen: set<string>, p: Peer, older: map<string, string>): (r: Peer) {
    if p.id in seen then p.(ipMac := Extended(p.ipMac, older), online := true) else p
  }

  function Without(peers: seq<Peer>, k: Key): (r: seq<Peer>) {
    var i := Position(peers, k);
    if i == |peers| then peers else peers[..i] + peers[i + 1..]
  }

  /** One answer: the peer moves to the front. Its addresses are merged with those of the
      entry it replaces when its id has answered in this round before. */
  function Merged(peers: seq<Peer>, seen: set<string>, p: Peer): (r: seq<Peer>) {
    var i := Position(peers, KeyOf(p));
    [if i < |peers| then Updated(seen, p, peers[i].ipMac) else p] + Without(peers, KeyOf(p))
  }

  function Ids(rs: seq<Peer>): (ids: set<string>)
    ensures forall i :: 0 <= i < |rs| ==> rs[i].id in ids
    ensures forall x :: x in ids ==> exists i :: 0 <= i < |rs| && rs[i].id == x
  {
    if rs == [] then {} else Ids(rs[..|rs| - 1]) + {rs[|rs| - 1].id}
  }

  /** The list after a round, given the list when it started. */
  function Round(stored: seq<Peer>, rs: seq<Peer>): (r: seq<Peer>) {
    if rs == [] then Offline(stored)
    else Merged(Round(stored, rs[..|rs| - 1]), Ids(rs[..|rs| - 1]), rs[|rs| - 1])
  }

  /** The body of the receiving loop. */
  method Receive(peers0: seq<Peer>, responseSet: set<string>, answer: Peer) returns (peers: seq<Peer>)
    ensures peers == Merged(peers0, responseSet, answer)
  {
    var peer := answer;
    peers := peers0;
    var pos := Position(peers, KeyOf(peer));
    if pos < |peers| {
      var peer1 := peers[pos];
      peers := peers[..pos] + peers[pos + 1..];
      if peer.id in responseSet {
        peer := peer.(ipMac := Extended(peer.ipMac, peer1.ipMac), online := true);
      }
    }
    peers := [peer] + peers;
  }

  method HandleReceivedPeers(stored: seq<Peer>, rs: seq<Peer>) returns (peers: seq<Peer>)
    ensures peers == Round(stored, rs)
  {
    peers := [];
    for i := 0 to |stored|
      invariant peers == Offline(stored)[..i]
    {
      peers := peers + [stored[i].(online := false)];
    }
    var responseSet: set<string> := {};
    for n := 0 to |rs|
      invariant peers == Round(stored, rs[..n])
      invariant responseSet == Ids(rs[..n])
    {
      assert rs[..n + 1][..n] == rs[..n];
      peers := Receive(peers, responseSet, rs[n]);
      responseSet := responseSet + {rs[n].id};
    }
    assert rs[..|rs|] == rs;
  }

  // ---------------------------------------------------------------- what a round means

  ghost predicate NoDuplicates(peers: seq<Peer>) {
    forall i, j :: 0 <= i < j < |peers| ==> KeyOf(peers[i]) != KeyOf(peers[j])
  }

  /** The index of the last answer of a peer, -1 when it has not answered. */
  function LastAnswer(rs: seq<Peer>, k: Key): (i: int)
    ensures -1 <= i < |rs| && (i >= 0 ==> KeyOf(rs[i]) == k)
    ensures forall j :: i < j < |rs| ==> KeyOf(rs[j]) != k
  {
    if rs == [] then -1
    else if KeyOf(rs[|rs| - 1]) == k then |rs| - 1
    else LastAnswer(rs[..|rs| - 1], k)
  }

  /** The stored peers that have not answered, in stored order, marked offline. */
  function Silent(stored: seq<Peer>, rs: seq<Peer>): (r: seq<Peer>) {
    if stored == [] then []
    else (if LastAnswer(rs, KeyOf(stored[0])) < 0 then [stored[0].(online := false)] else []) + Silent(stored[1..], rs)
  }

  /** The address maps of a peer's answers, in order of arrival. */
  function Answers(rs: seq<Peer>, k: Key): (ms: seq<map<string, string>>) {
    if rs == [] then []
    else
      var last := rs[|rs| - 1];
      Answers(rs[..|rs| - 1], k) + if KeyOf(last) == k then [last.ipMac] else []
  }

  /** The stored addresses of a peer survive when the id had answered, under another
      user name, before the peer's own first answer. */
  function Stale(stored: seq<Peer>, rs: seq<Peer>, k: Key): (ms: seq<map<string, string>>) {
    var i, j := Position(stored, k), Position(rs, k);
    if i < |stored| && j < |rs| && k.0 in Ids(rs[..j]) then [stored[i].ipMac] else []
  }

  /** Every address of the sources, each with the value of the earliest source. */
  ghost predicate EarliestWins(sources: seq<map<string, string>>, m: map<string, string>) {
    && (forall a :: a in m ==> exists i :: 0 <= i < |sources| && a in sources[i])
    && (forall i, a :: 0 <= i < |sources| && a in sources[i] ==> a in m)
    && (forall i, a :: 0 <= i < |sources| && a in sources[i] && (forall j :: 0 <= j < i ==> a !in sources[j])
          ==> m[a] == sources[i][a])
  }

  /** The last answer of a peer replaced an entry of its own, of this round or of an
      earlier one, after its id had answered: only then is it marked online here. */
  predicate Replaces(stored: seq<Peer>, rs: seq<Peer>, k: Key) {
    var i := LastAnswer(rs, k);
    i >= 0 && k.0 in Ids(rs[..i]) && (Position(rs, k) < i || Position(stored, k) < |stored|)
  }

  /** An entry of a peer that has answered: the data of its last answer, online when the
      answer said so or a merge did, and the addresses of all its answers. */
  ghost predicate IsEntry(stored: seq<Peer>, rs: seq<Peer>, p: Peer) {
    var i := LastAnswer(rs, KeyOf(p));
    && i >= 0 && p == rs[i].(ipMac := p.ipMac, online := p.online)
    && (p.online <==> rs[i].online || Replaces(stored, rs, KeyOf(p)))
    && EarliestWins(Stale(stored, rs, KeyOf(p)) + Answers(rs, KeyOf(p)), p.ipMac)
  }

  /** Each peer answered later than those behind it. */
  ghost predicate Descending(rs: seq<Peer>, peers: seq<Peer>) {
    forall i, j :: 0 <= i < j < |peers| ==> LastAnswer(rs, KeyOf(peers[i])) > LastAnswer(rs, KeyOf(peers[j]))
  }

  /** The peers that answered, the most recent answer first. */
  ghost predicate IsRecent(stored: seq<Peer>, rs: seq<Peer>, recent: seq<Peer>) {
    && (forall i :: 0 <= i < |recent| ==> IsEntry(stored, rs, recent[i]))
    && Descending(rs, recent)
    && (forall m :: 0 <= m < |rs| ==> Position(recent, KeyOf(rs[m])) < |recent|)
  }

  // ---------------------------------------------------------------- one more answer

  lemma OneMoreLast(rs: seq<Peer>, p: Peer, k: Key)
    ensures LastAnswer(rs + [p], k) == if KeyOf(p) == k then |rs| else LastAnswer(rs, k)
    ensures Answers(rs + [p], k) == Answers(rs, k) + if KeyOf(p) == k then [p.ipMac] else []
  {
    assert (rs + [p])[..|rs|] == rs;
  }

  lemma {:induction false} PositionConcat(a: seq<Peer>, b: seq<Peer>, k: Key)
    ensures Position(a + b, k) == if Position(a, k) < |a| then Position(a, k) else |a| + Position(b, k)
  {
    if a == [] {
      assert a + b == b;
    } else {
      assert (a + b)[1..] == a[1..] + b;
      PositionConcat(a[1..], b, k);
    }
  }

  lemma StaleFixed(stored: seq<Peer>, rs: seq<Peer>, p: Peer, k: Key)
    ensures LastAnswer(rs, k) >= 0 ==> Stale(stored, rs + [p], k) == Stale(stored, rs, k)
    ensures LastAnswer(rs, k) < 0 && KeyOf(p) == k ==>
              Stale(stored, rs + [p], k) ==
              if Position(stored, k) < |stored| && k.0 in Ids(rs) then [stored[Position(stored, k)].ipMac] else []
  {
    PositionConcat(rs, [p], k);
    var j := Position(rs, k);
    assert j < |rs| <==> LastAnswer(rs, k) >= 0;
    assert (rs + [p])[..j] == rs[..j];
    assert rs[..|rs|] == rs;
  }

  lemma ReplacesFixed(stored: seq<Peer>, rs: seq<Peer>, p: Peer, k: Key)
    ensures KeyOf(p) != k ==> Replaces(stored, rs + [p], k) == Replaces(stored, rs, k)
    ensures KeyOf(p) == k && LastAnswer(rs, k) >= 0 ==> Replaces(stored, rs + [p], k)
    ensures KeyOf(p) == k && LastAnswer(rs, k) < 0 ==>
              Replaces(stored, rs + [p], k) == (k.0 in Ids(rs) && Position(stored, k) < |stored|)
  {
    OneMoreLast(rs, p, k);
    PositionConcat(rs, [p], k);
    assert (rs + [p])[..|rs|] == rs;
    var i := LastAnswer(rs, k);
    if i >= 0 {
      assert (rs + [p])[..i] == rs[..i];
      assert Position(rs, k) < |rs| && rs[i].id in Ids(rs);
    }
  }

  /** What a merge does to the addresses: the older source wins. */
  lemma OlderWins(sources: seq<map<string, string>>, m: map<string, string>, newer: map<string, string>)
    requires EarliestWins(sources, m)
    ensures EarliestWins(sources + [newer], Extended(newer, m))
  {
    var all := sources + [newer];
    var r := Extended(newer, m);
    forall a | a in r ensures exists i :: 0 <= i < |all| && a in all[i] {
      if a in m {
        var i :| 0 <= i < |sources| && a in sources[i];
        assert a in all[i];
      } else {
        assert a in all[|sources|];
      }
    }
    forall i, a | 0 <= i < |all| && a in all[i] && (forall j :: 0 <= j < i ==> a !in all[j])
      ensures a in r && r[a] == all[i][a]
    {
      if i < |sources| {
        assert all[i] == sources[i] && forall j :: 0 <= j < i ==> all[j] == sources[j];
      } else {
        assert forall j :: 0 <= j < |sources| ==> all[j] == sources[j];
      }
    }
  }

  lemma OneSource(m: map<string, string>)
    ensures EarliestWins([m], m)
  {
    assert forall a :: a in m ==> a in [m][0];
  }

  /** Answers of other peers leave an entry as it is. */
  lemma EntryStays(stored: seq<Peer>, rs: seq<Peer>, p: Peer, e: Peer)
    requires IsEntry(stored, rs, e) && KeyOf(e) != KeyOf(p)
    ensures IsEntry(stored, rs + [p], e)
  {
    var k := KeyOf(e);
    OneMoreLast(rs, p, k);
    StaleFixed(stored, rs, p, k);
    ReplacesFixed(stored, rs, p, k);
    assert Answers(rs, k) + [] == Answers(rs, k);
  }

  /** A peer that answers again. */
  lemma EntryAgain(stored: seq<Peer>, rs: seq<Peer>, p: Peer, e: Peer)
    requires IsEntry(stored, rs, e) && KeyOf(e) == KeyOf(p)
    ensures IsEntry(stored, rs + [p], p.(ipMac := Extended(p.ipMac, e.ipMac), online := true))
  {
    var k := KeyOf(e);
    OneMoreLast(rs, p, k);
    StaleFixed(stored, rs, p, k);
    ReplacesFixed(stored, rs, p, k);
    OlderWins(Stale(stored, rs, k) + Answers(rs, k), e.ipMac, p.ipMac);
    assert Stale(stored, rs, k) + Answers(rs, k) + [p.ipMac] == Stale(stored, rs, k) + (Answers(rs, k) + [p.ipMac]);
  }

  lemma {:induction false} NoAnswers(rs: seq<Peer>, k: Key)
    requires LastAnswer(rs, k) < 0
    ensures Answers(rs, k) == []
  {
    if rs != [] { NoAnswers(rs[..|rs| - 1], k); }
  }

  /** A peer that answers for the first time; `e` is its stored entry, if any. */
  lemma EntryFirst(stored: seq<Peer>, rs: seq<Peer>, p: Peer)
    requires LastAnswer(rs, KeyOf(p)) < 0
    ensures var i := Position(stored, KeyOf(p));
            IsEntry(stored, rs + [p], if i < |stored| then Updated(Ids(rs), p, stored[i].ipMac) else p)
  {
    var k := KeyOf(p);
    OneMoreLast(rs, p, k);
    StaleFixed(stored, rs, p, k);
    ReplacesFixed(stored, rs, p, k);
    NoAnswers(rs, k);
    var i := Position(stored, k);
    OneSource(p.ipMac);
    assert [] + [p.ipMac] == [p.ipMac];
    if i < |stored| && p.id in Ids(rs) {
      OneSource(stored[i].ipMac);
      OlderWins([stored[i].ipMac], stored[i].ipMac, p.ipMac);
    }
  }

  // ---------------------------------------------------------------- the silent part

  lemma {:induction false} SilentSame(stored: seq<Peer>, rs: seq<Peer>, p: Peer)
    requires LastAnswer(rs, KeyOf(p)) >= 0
    ensures Silent(stored, rs + [p]) == Silent(stored, rs)
  {
    if stored != [] {
      OneMoreLast(rs, p, KeyOf(stored[0]));
      SilentSame(stored[1..], rs, p);
    }
  }

  lemma WithoutCons(e: Peer, rest: seq<Peer>, k: Key)
    ensures Without([e] + rest, k) == if KeyOf(e) == k then rest else [e] + Without(rest, k)
  {
    var all := [e] + rest;
    PositionCons(e, rest, k);
    assert all[1..] == rest && all[..0] == [];
    var i := Position(rest, k);
    if KeyOf(e) != k && i < |rest| { CutTail([e], rest, i); }
  }

  lemma {:induction false} AbsentStays(stored: seq<Peer>, rs: seq<Peer>, p: Peer)
    requires Position(stored, KeyOf(p)) == |stored|
    ensures Silent(stored, rs + [p]) == Silent(stored, rs)
    ensures Position(Silent(stored, rs), KeyOf(p)) == |Silent(stored, rs)|
  {
    if stored != [] {
      OneMoreLast(rs, p, KeyOf(stored[0]));
      AbsentStays(stored[1..], rs, p);
      var rest := Silent(stored[1..], rs);
      assert [] + rest == rest;
      if LastAnswer(rs, KeyOf(stored[0])) < 0 {
        assert ([stored[0].(online := false)] + rest)[1..] == rest;
      }
    }
  }

  lemma PositionCons(e: Peer, rest: seq<Peer>, k: Key)
    ensures Position([e] + rest, k) == if KeyOf(e) == k then 0 else 1 + Position(rest, k)
  {
    assert ([e] + rest)[1..] == rest;
  }

  lemma SilentCons(head: Peer, tail: seq<Peer>, rs: seq<Peer>)
    ensures Silent([head] + tail, rs) ==
            if LastAnswer(rs, KeyOf(head)) < 0 then [head.(online := false)] + Silent(tail, rs) else Silent(tail, rs)
  {
    assert ([head] + tail)[1..] == tail;
    assert [] + Silent(tail, rs) == Silent(tail, rs);
  }

  ghost predicate Loses(stored: seq<Peer>, rs: seq<Peer>, p: Peer) {
    var i, j := Position(stored, KeyOf(p)), Position(Silent(stored, rs), KeyOf(p));
    && Silent(stored, rs + [p]) == Without(Silent(stored, rs), KeyOf(p))
    && (i < |stored| <==> j < |Silent(stored, rs)|)
    && (i < |stored| ==> Silent(stored, rs)[j] == stored[i].(online := false))
  }

  lemma LosesHead(head: Peer, tail: seq<Peer>, rs: seq<Peer>, p: Peer)
    requires LastAnswer(rs, KeyOf(p)) < 0 && KeyOf(head) == KeyOf(p) && Position(tail, KeyOf(p)) == |tail|
    ensures Loses([head] + tail, rs, p)
  {
    OneMoreLast(rs, p, KeyOf(head));
    SilentCons(head, tail, rs);
    SilentCons(head, tail, rs + [p]);
    AbsentStays(tail, rs, p);
    WithoutCons(head.(online := false), Silent(tail, rs), KeyOf(p));
    PositionCons(head, tail, KeyOf(p));
    PositionCons(head.(online := false), Silent(tail, rs), KeyOf(p));
  }

  lemma LosesTail(head: Peer, tail: seq<Peer>, rs: seq<Peer>, p: Peer)
    requires Loses(tail, rs, p) && KeyOf(head) != KeyOf(p)
    ensures Loses([head] + tail, rs, p)
  {
    var k, off, s := KeyOf(p), head.(online := false), Silent(tail, rs);
    OneMoreLast(rs, p, KeyOf(head));
    SilentCons(head, tail, rs);
    SilentCons(head, tail, rs + [p]);
    PositionCons(head, tail, k);
    assert ([head] + tail)[1..] == tail;
    if LastAnswer(rs, KeyOf(head)) < 0 {
      WithoutCons(off, s, k);
      PositionCons(off, s, k);
      assert Silent([head] + tail, rs) == [off] + s;
    }
  }

  /** A first answer takes the peer out of the silent part, and the entry taken out is
      the stored one. */
  lemma {:induction false} SilentLoses(stored: seq<Peer>, rs: seq<Peer>, p: Peer)
    requires NoDuplicates(stored) && LastAnswer(rs, KeyOf(p)) < 0
    ensures Loses(stored, rs, p)
  {
    if stored != [] {
      var head, tail := stored[0], stored[1..];
      assert stored == [head] + tail;
      if KeyOf(head) == KeyOf(p) {
        forall t | 0 <= t < |tail| ensures KeyOf(tail[t]) != KeyOf(p) { assert tail[t] == stored[t + 1]; }
        LosesHead(head, tail, rs, p);
      } else {
        SilentLoses(tail, rs, p);
        LosesTail(head, tail, rs, p);
      }
    }
  }

  // ---------------------------------------------------------------- the main result

  lemma PositionBound(peers: seq<Peer>, i: nat)
    requires i < |peers|
    ensures Position(peers, KeyOf(peers[i])) <= i
  {
  }

  lemma RecentPosition(stored: seq<Peer>, rs: seq<Peer>, recent: seq<Peer>, k: Key)
    requires IsRecent(stored, rs, recent)
    ensures Position(recent, k) < |recent| <==> LastAnswer(rs, k) >= 0
  {
    var i := Position(recent, k);
    if i < |recent| { assert IsEntry(stored, rs, recent[i]); }
    if LastAnswer(rs, k) >= 0 { assert KeyOf(rs[LastAnswer(rs, k)]) == k; }
  }

  /** The recent peers other than the one that answers. */
  lemma OtherEntry(stored: seq<Peer>, rs: seq<Peer>, p: Peer, recent: seq<Peer>, a: nat) returns (src: nat)
    requires IsRecent(stored, rs, recent) && a < |Without(recent, KeyOf(p))|
    ensures src == (if a < Position(recent, KeyOf(p)) then a else a + 1) && src < |recent|
    ensures var other := Without(recent, KeyOf(p))[a];
            && other == recent[src] && KeyOf(other) != KeyOf(p)
            && LastAnswer(rs + [p], KeyOf(other)) == LastAnswer(rs, KeyOf(other)) < |rs|
            && IsEntry(stored, rs + [p], other)
  {
    var i := Position(recent, KeyOf(p));
    src := if a < i then a else a + 1;
    var other := Without(recent, KeyOf(p))[a];
    assert other == recent[src];
    if src > i { assert LastAnswer(rs, KeyOf(recent[i])) > LastAnswer(rs, KeyOf(recent[src])); }
    OneMoreLast(rs, p, KeyOf(other));
    EntryStays(stored, rs, p, other);
  }

  lemma OthersDescend(stored: seq<Peer>, rs: seq<Peer>, p: Peer, recent: seq<Peer>, a: nat, b: nat)
    requires IsRecent(stored, rs, recent) && a < b < |Without(recent, KeyOf(p))|
    ensures var others := Without(recent, KeyOf(p));
            LastAnswer(rs + [p], KeyOf(others[a])) > LastAnswer(rs + [p], KeyOf(others[b]))
  {
    var x := OtherEntry(stored, rs, p, recent, a);
    var y := OtherEntry(stored, rs, p, recent, b);
    assert x < y;
  }

  lemma StillFound(stored: seq<Peer>, rs: seq<Peer>, p: Peer, recent: seq<Peer>, e: Peer, m: nat)
    requires IsRecent(stored, rs, recent) && KeyOf(e) == KeyOf(p) && m <= |rs|
    ensures var r := [e] + Without(recent, KeyOf(p));
            Position(r, KeyOf((rs + [p])[m])) < |r|
  {
    var x := KeyOf((rs + [p])[m]);
    if x == KeyOf(p) {
      PositionBound([e] + Without(recent, KeyOf(p)), 0);
    } else {
      assert (rs + [p])[m] == rs[m];
      OtherStillFound(recent, KeyOf(p), x, e);
    }
  }

  lemma OtherStillFound(recent: seq<Peer>, k: Key, x: Key, e: Peer)
    requires x != k && Position(recent, x) < |recent|
    ensures var r := [e] + Without(recent, k); Position(r, x) < |r|
  {
    var i, j := Position(recent, k), Position(recent, x);
    var others := Without(recent, k);
    var at := if j < i then j else j - 1;
    assert i != j && others[at] == recent[j];
    PositionBound(others, at);
    PositionCons(e, others, x);
  }

  lemma DescendingCons(rs: seq<Peer>, e: Peer, others: seq<Peer>)
    requires Descending(rs, others)
    requires forall a :: 0 <= a < |others| ==> LastAnswer(rs, KeyOf(e)) > LastAnswer(rs, KeyOf(others[a]))
    ensures Descending(rs, [e] + others)
  {
  }

  lemma FrontDescends(stored: seq<Peer>, rs: seq<Peer>, p: Peer, recent: seq<Peer>, e: Peer)
    requires IsRecent(stored, rs, recent) && KeyOf(e) == KeyOf(p)
    ensures Descending(rs + [p], [e] + Without(recent, KeyOf(p)))
  {
    var others := Without(recent, KeyOf(p));
    forall a, b | 0 <= a < b < |others|
      ensures LastAnswer(rs + [p], KeyOf(others[a])) > LastAnswer(rs + [p], KeyOf(others[b]))
    {
      OthersDescend(stored, rs, p, recent, a, b);
    }
    OneMoreLast(rs, p, KeyOf(p));
    forall a | 0 <= a < |others| ensures LastAnswer(rs + [p], KeyOf(others[a])) < |rs| {
      var _ := OtherEntry(stored, rs, p, recent, a);
    }
    DescendingCons(rs + [p], e, others);
  }

  /** A new front entry before the other recent ones. */
  lemma NewFront(stored: seq<Peer>, rs: seq<Peer>, p: Peer, recent: seq<Peer>, e: Peer)
    requires IsRecent(stored, rs, recent) && KeyOf(e) == KeyOf(p) && IsEntry(stored, rs + [p], e)
    ensures IsRecent(stored, rs + [p], [e] + Without(recent, KeyOf(p)))
  {
    var others := Without(recent, KeyOf(p));
    var r := [e] + others;
    forall a | 0 <= a < |r| ensures IsEntry(stored, rs + [p], r[a]) {
      if a > 0 {
        var _ := OtherEntry(stored, rs, p, recent, a - 1);
        assert r[a] == others[a - 1];
      }
    }
    FrontDescends(stored, rs, p, recent, e);
    forall m | 0 <= m < |rs + [p]| ensures Position(r, KeyOf((rs + [p])[m])) < |r| {
      StillFound(stored, rs, p, recent, e, m);
    }
  }

  /** Move to front, for any answers at all: the list after a round is the peers that
      answered, most recent first, followed by the silent ones in stored order. */
  lemma {:induction false} RoundIsMoveToFront(stored: seq<Peer>, rs: seq<Peer>) returns (recent: seq<Peer>)
    requires NoDuplicates(stored)
    ensures Round(stored, rs) == recent + Silent(stored, rs) && IsRecent(stored, rs, recent)
  {
    if rs == [] {
      recent := [];
      AllSilent(stored);
    } else {
      var front, p := rs[..|rs| - 1], rs[|rs| - 1];
      assert rs == front + [p];
      var before := RoundIsMoveToFront(stored, front);
      recent := MergeMovesToFront(stored, front, p, before);
    }
  }

  lemma {:induction false} AllSilent(stored: seq<Peer>)
    ensures Silent(stored, []) == Offline(stored)
  {
    if stored != [] { AllSilent(stored[1..]); }
  }

  lemma AgainMovesToFront(stored: seq<Peer>, rs: seq<Peer>, p: Peer, before: seq<Peer>, silent: seq<Peer>) returns (recent: seq<Peer>)
    requires IsRecent(stored, rs, before) && LastAnswer(rs, KeyOf(p)) >= 0
    ensures Merged(before + silent, Ids(rs), p) == recent + silent
    ensures IsRecent(stored, rs + [p], recent)
  {
    var i := Position(before, KeyOf(p));
    RecentPosition(stored, rs, before, KeyOf(p));
    var e := p.(ipMac := Extended(p.ipMac, before[i].ipMac), online := true);
    EntryAgain(stored, rs, p, before[i]);
    NewFront(stored, rs, p, before, e);
    recent := [e] + Without(before, KeyOf(p));
    assert rs[LastAnswer(rs, KeyOf(p))].id in Ids(rs);
    MergedHead(before, silent, Ids(rs), p, before[i], recent);
  }

  lemma FirstMovesToFront(stored: seq<Peer>, rs: seq<Peer>, p: Peer, before: seq<Peer>) returns (recent: seq<Peer>)
    requires IsRecent(stored, rs, before) && LastAnswer(rs, KeyOf(p)) < 0 && Loses(stored, rs, p)
    ensures Merged(before + Silent(stored, rs), Ids(rs), p) == recent + Silent(stored, rs + [p])
    ensures IsRecent(stored, rs + [p], recent)
  {
    RecentPosition(stored, rs, before, KeyOf(p));
    EntryFirst(stored, rs, p);
    var j := Position(stored, KeyOf(p));
    var e := if j < |stored| then Updated(Ids(rs), p, stored[j].ipMac) else p;
    NewFront(stored, rs, p, before, e);
    recent := [e] + before;
    MergedTail(before, Silent(stored, rs), Ids(rs), p);
  }

  lemma MergeMovesToFront(stored: seq<Peer>, rs: seq<Peer>, p: Peer, before: seq<Peer>) returns (recent: seq<Peer>)
    requires NoDuplicates(stored) && IsRecent(stored, rs, before)
    ensures Merged(before + Silent(stored, rs), Ids(rs), p) == recent + Silent(stored, rs + [p])
    ensures IsRecent(stored, rs + [p], recent)
  {
    if LastAnswer(rs, KeyOf(p)) >= 0 {
      SilentSame(stored, rs, p);
      recent := AgainMovesToFront(stored, rs, p, before, Silent(stored, rs));
    } else {
      SilentLoses(stored, rs, p);
      recent := FirstMovesToFront(stored, rs, p, before);
    }
  }

  lemma CutTail<T>(a: seq<T>, b: seq<T>, j: nat)
    requires j < |b|
    ensures (a + b)[..|a| + j] + (a + b)[|a| + j + 1..] == a + (b[..j] + b[j + 1..])
  {
  }

  lemma MergedHead(a: seq<Peer>, b: seq<Peer>, seen: set<string>, p: Peer, older: Peer, front: seq<Peer>)
    requires Position(a, KeyOf(p)) < |a| && p.id in seen && older == a[Position(a, KeyOf(p))]
    requires front == [Updated(seen, p, older.ipMac)] + Without(a, KeyOf(p))
    ensures Merged(a + b, seen, p) == front + b
  {
    var i, w := Position(a, KeyOf(p)), Without(a, KeyOf(p));
    PositionConcat(a, b, KeyOf(p));
    WithoutHead(a, b, KeyOf(p));
    assert (a + b)[i] == older;
    var e := Updated(seen, p, older.ipMac);
    MergedWithout(a + b, seen, p, i, e, w + b);
    Associative([e], w, b);
  }

  lemma {:induction false} WithoutHead(a: seq<Peer>, b: seq<Peer>, k: Key)
    requires Position(a, k) < |a|
    ensures Without(a + b, k) == Without(a, k) + b
  {
    var e, rest := a[0], a[1..];
    assert a == [e] + rest && a + b == [e] + (rest + b);
    WithoutCons(e, rest, k);
    WithoutCons(e, rest + b, k);
    if KeyOf(e) != k {
      WithoutHead(rest, b, k);
      Associative([e], Without(rest, k), b);
    }
  }

  lemma MergedTail(a: seq<Peer>, b: seq<Peer>, seen: set<string>, p: Peer)
    requires Position(a, KeyOf(p)) == |a|
    ensures var j := Position(b, KeyOf(p));
            Merged(a + b, seen, p) ==
            [if j < |b| then Updated(seen, p, b[j].ipMac) else p] + a + Without(b, KeyOf(p))
  {
    var k, j := KeyOf(p), Position(b, KeyOf(p));
    PositionConcat(a, b, k);
    var e := if j < |b| then Updated(seen, p, b[j].ipMac) else p;
    if j < |b| {
      CutTail(a, b, j);
      assert (a + b)[|a| + j] == b[j];
    }
    MergedWithout(a + b, seen, p, |a| + j, e, a + Without(b, k));
    Associative([e], a, Without(b, k));
  }

  lemma MergedWithout(l: seq<Peer>, seen: set<string>, p: Peer, i: nat, e: Peer, rest: seq<Peer>)
    requires Position(l, KeyOf(p)) == i <= |l| && rest == Without(l, KeyOf(p))
    requires e == if i < |l| then Updated(seen, p, l[i].ipMac) else p
    ensures Merged(l, seen, p) == [e] + rest
  {
  }

  // ---------------------------------------------------------------- consequences

  /** The ids alone tell the peers apart. */
  ghost predicate IdsTellApart(rs: seq<Peer>) {
    forall i, j :: 0 <= i < |rs| && 0 <= j < |rs| && rs[i].id == rs[j].id ==> rs[i].username == rs[j].username
  }

  ghost predicate NothingStale(rs: seq<Peer>) { forall stored, k :: Stale(stored, rs, k) == [] }

  /** No stored address survives, whatever was stored, exactly when the ids alone tell the
      answering peers apart: then the addresses of a peer that answered are those of this
      round. */
  lemma NothingStaleIff(rs: seq<Peer>)
    ensures NothingStale(rs) <==> IdsTellApart(rs)
  {
    if IdsTellApart(rs) {
      forall stored, k ensures Stale(stored, rs, k) == [] { NoneStale(stored, rs, k); }
    } else {
      var i, j :| 0 <= i < |rs| && 0 <= j < |rs| && rs[i].id == rs[j].id && rs[i].username != rs[j].username;
      OneIsStale(rs, i, j);
    }
  }

  lemma NoneStale(stored: seq<Peer>, rs: seq<Peer>, k: Key)
    requires IdsTellApart(rs)
    ensures Stale(stored, rs, k) == []
  {
    var j := Position(rs, k);
    if j < |rs| {
      forall i | 0 <= i < |rs[..j]| ensures rs[..j][i].id != k.0 {
        assert rs[..j][i] == rs[i] && KeyOf(rs[i]) != k && KeyOf(rs[j]) == k;
      }
    }
  }

  /** Of two peers with one id, the one that answered later has its stored entry mixed in. */
  lemma OneIsStale(rs: seq<Peer>, i: nat, j: nat)
    requires i < |rs| && j < |rs| && rs[i].id == rs[j].id && rs[i].username != rs[j].username
    ensures !NothingStale(rs)
  {
    var a, b := Position(rs, KeyOf(rs[i])), Position(rs, KeyOf(rs[j]));
    PositionBound(rs, i);
    PositionBound(rs, j);
    var later := if a < b then b else a;
    var earlier := if a < b then a else b;
    assert rs[..later][earlier] == rs[earlier];
    assert rs[..later][earlier].id in Ids(rs[..later]);
    assert Position([rs[later]], KeyOf(rs[later])) == 0;
    assert Stale([rs[later]], rs, KeyOf(rs[later])) == [rs[later].ipMac];
  }

  lemma {:induction false} SilentKeys(stored: seq<Peer>, rs: seq<Peer>, i: nat) returns (j: nat)
    requires i < |Silent(stored, rs)|
    ensures j < |stored| && Silent(stored, rs)[i] == stored[j].(online := false) && LastAnswer(rs, KeyOf(stored[j])) < 0
    ensures j >= i
  {
    if LastAnswer(rs, KeyOf(stored[0])) < 0 && i == 0 {
      j := 0;
    } else {
      var d := if LastAnswer(rs, KeyOf(stored[0])) < 0 then 1 else 0;
      j := SilentKeys(stored[1..], rs, i - d);
      j := j + 1;
    }
  }

  lemma {:induction false} SilentNoDuplicates(stored: seq<Peer>, rs: seq<Peer>)
    requires NoDuplicates(stored)
    ensures NoDuplicates(Silent(stored, rs))
  {
    if stored != [] {
      SilentNoDuplicates(stored[1..], rs);
      var s := Silent(stored, rs);
      if LastAnswer(rs, KeyOf(stored[0])) < 0 {
        forall i, j | 0 <= i < j < |s| ensures KeyOf(s[i]) != KeyOf(s[j]) {
          if i == 0 {
            var m := SilentKeys(stored[1..], rs, j - 1);
            assert KeyOf(stored[0]) != KeyOf(stored[m + 1]);
          }
        }
      }
    }
  }

  /** A round keeps the stored list free of duplicates. */
  lemma NoNewDuplicates(stored: seq<Peer>, rs: seq<Peer>)
    requires NoDuplicates(stored)
    ensures NoDuplicates(Round(stored, rs))
  {
    var recent := RoundIsMoveToFront(stored, rs);
    var silent := Silent(stored, rs);
    SilentNoDuplicates(stored, rs);
    forall i, j | 0 <= i < j < |recent| ensures KeyOf(recent[i]) != KeyOf(recent[j]) {
      assert LastAnswer(rs, KeyOf(recent[i])) > LastAnswer(rs, KeyOf(recent[j]));
    }
    forall i, j | 0 <= i < |recent| && 0 <= j < |silent| ensures KeyOf(recent[i]) != KeyOf(silent[j]) {
      assert IsEntry(stored, rs, recent[i]);
      var m := SilentKeys(stored, rs, j);
    }
    NoDuplicatesInBoth(recent, silent);
  }

  lemma NoDuplicatesInBoth(a: seq<Peer>, b: seq<Peer>)
    requires NoDuplicates(a) && NoDuplicates(b)
    requires forall i, j :: 0 <= i < |a| && 0 <= j < |b| ==> KeyOf(a[i]) != KeyOf(b[j])
    ensures NoDuplicates(a + b)
  {
    forall i, j | 0 <= i < j < |a + b| ensures KeyOf((a + b)[i]) != KeyOf((a + b)[j]) {
      assert (a + b)[j] == if j < |a| then a[j] else b[j - |a|];
      assert (a + b)[i] == if i < |a| then a[i] else b[i - |a|];
    }
  }

  /** When an id answers under two user names, the stored addresses of the second are
      mixed with the new ones although they may be out of date. */
  lemma StaleAddressSurvives()
    ensures var a := Peer("1", "a", "h", "p", true, map["10.0.0.1" := "m1"]);
            var b := Peer("1", "b", "h", "p", true, map["10.0.0.2" := "m2"]);
            var stored := Peer("1", "b", "h", "p", false, map["10.0.0.9" := "m9"]);
            Round([stored], [a, b]) == [b.(ipMac := map["10.0.0.2" := "m2", "10.0.0.9" := "m9"]), a]
  {
    var a := Peer("1", "a", "h", "p", true, map["10.0.0.1" := "m1"]);
    var b := Peer("1", "b", "h", "p", true, map["10.0.0.2" := "m2"]);
    var stored := Peer("1", "b", "h", "p", false, map["10.0.0.9" := "m9"]);
    assert [a, b][..1] == [a] && [a][..0] == [];
    assert Ids([a]) == {"1"};
    assert Round([stored], []) == [stored];
    assert KeyOf(stored) != KeyOf(a) && Position([stored][1..], KeyOf(a)) == 0;
    assert Round([stored], [a]) == Merged([stored], Ids([]), a) == [a] + [stored];
    PositionCons(a, [stored], KeyOf(b));
    var r := [a] + [stored];
    assert r[..1] + r[2..] == [a];
    assert Extended(b.ipMac, stored.ipMac) == map["10.0.0.2" := "m2", "10.0.0.9" := "m9"];
    assert Merged(r, Ids([a]), b) == [b.(ipMac := Extended(b.ipMac, stored.ipMac), online := true)] + [a];
  }

  /** Two answers are from the same peer when id and user name are the same, whatever else
      differs. */
  lemma SamePeerIff(p: Peer, q: Peer)
    ensures KeyOf(p) == KeyOf(q) <==> p.id == q.id && p.username == q.username
  {
  }
}
