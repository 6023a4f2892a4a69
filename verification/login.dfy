/** The client's login: where the password comes from, what is sent, what is kept, and
    what the other side accepts. */
module Login {
  import opened Wrappers

  type Bytes = seq<Byte>

  datatype Source = PersonalAb(hash: Bytes) | SharedAb(plain: Bytes) | Undefined

  datatype Hash = Hash(salt: Bytes, challenge: Bytes)

  /** The digest (SHA-256 of the concatenation) is not part of this model. */
  datatype Digest = Digest(of: (Bytes, Bytes) -> Bytes)

  ghost predicate Sound(d: Digest) { forall a, b :: d.of(a, b) != [] }

  /** The part of the login configuration that has to do with the password. `config` is
      the password kept in the peer's configuration file. */
  datatype Config = Config(
    hash: Hash,
    password: Bytes,
    source: Source,
    config: Bytes,
    remember: bool,
    shared: Option<Bytes>,
    switchUuid: Option<bool>)

  predicate IsPersonalAb(source: Source, password: Bytes) {
    password != [] && source.PersonalAb? && source.hash == password
  }

  predicate IsSharedAb(d: Digest, source: Source, password: Bytes, hash: Hash) {
    password != [] && source.SharedAb? && password == d.of(source.plain, hash.salt)
  }

  // ---------------------------------------------------------------- specification

  /** What the environment offers when the hash arrives: the preset password, the entry
      of the personal address book, the built-in default, and whether an administrator
      terminal is asked for. */
  datatype Offers = Offers(preset: Bytes, personal: Bytes, builtIn: Bytes, terminalAdmin: bool)

  /** The password that is used and its source, in order of precedence. */
  function Chosen(d: Digest, c: Config, hash: Hash, o: Offers): (r: (Bytes, Source)) {
    if c.shared.Some? && c.shared.value != [] then (d.of(c.shared.value, hash.salt), SharedAb(c.shared.value))
    else if c.password != [] then (c.password, c.source)
    else if o.preset != [] then (d.of(o.preset, hash.salt), Undefined)
    else if c.config != [] then (c.config, Undefined)
    else if o.personal != [] then (o.personal, PersonalAb(o.personal))
    else if o.builtIn != [] then (d.of(o.builtIn, hash.salt), SharedAb(o.builtIn))
    else ([], c.source)
  }

  /** What goes out: nothing, an answer to the challenge, or a request to switch sides. */
  datatype Reply = NoReply | Answer(response: Bytes) | SwitchSides

  function AfterHash(d: Digest, c: Config, hash: Hash, o: Offers): (r: (Config, Reply)) {
    if c.switchUuid == Some(true) then
      (c.(hash := hash, switchUuid := None, source := Undefined), SwitchSides)
    else
      var (password, source) := Chosen(d, c, hash, o);
      (c.(hash := hash, switchUuid := None, shared := None, password := password, source := source),
       if o.terminalAdmin then NoReply
       else Answer(if password == [] then [] else d.of(password, hash.challenge)))
  }

  function AfterUiLogin(d: Digest, c: Config, typed: Bytes, remember: bool): (r: (Config, Reply)) {
    var c' :=
      if typed != [] then
        c.(password := d.of(typed, c.hash.salt), source := Undefined, remember := remember)
      else if c.password == [] && c.config != [] then c.(password := c.config, source := Undefined)
      else c;
    (c', Answer(d.of(c'.password, c.hash.challenge)))
  }

  function AfterError(c: Config, wrongPassword: bool): (r: Config) {
    if wrongPassword then c.(password := []) else c
  }

  /** The password kept, and the one offered to the personal address book. */
  function AfterPeerInfo(d: Digest, c: Config): (r: (Config, Option<Bytes>)) {
    var shared := IsSharedAb(d, c.source, c.password, c.hash);
    var personal := IsPersonalAb(c.source, c.password);
    var kept :=
      if c.remember then if c.password != [] && !shared then c.password else c.config
      else if personal then c.password
      else [];
    (c.(config := kept), if kept != [] && !shared && !personal then Some(kept) else None)
  }

  /** A new connection: the stored password, and the password that the last connection
      used, when there is a token of it. */
  function Connected(config: Bytes, token: Option<(Bytes, Source)>, shared: Option<Bytes>, switchUuid: Option<bool>): (c: Config) {
    var (password, source) := if token.Some? then token.value else ([], Undefined);
    Config(Hash([], []), password, source, config, config != [], shared, switchUuid)
  }

  // ---------------------------------------------------------------- implementation

  class LoginConfigHandler {
    const digest: Digest
    var hash: Hash
    var password: Bytes
    var source: Source
    var config: Bytes
    var remember: bool
    var shared: Option<Bytes>
    var switchUuid: Option<bool>

    constructor (digest: Digest, config: Bytes, token: Option<(Bytes, Source)>, shared: Option<Bytes>, switchUuid: Option<bool>)
      ensures this.digest == digest
      ensures Abs() == Connected(config, token, shared, switchUuid)
    {
      this.digest, this.config, this.shared, this.switchUuid := digest, config, shared, switchUuid;
      hash, password, source, remember := Hash([], []), [], Undefined, config != [];
      if token.Some? {
        password, source := token.value.0, token.value.1;
      }
    }

    function Abs(): (c: Config)
      reads this
    {
      Config(hash, password, source, config, remember, shared, switchUuid)
    }

    method HandleHash(newHash: Hash, o: Offers) returns (reply: Reply)
      requires Sound(digest)
      modifies this
      ensures (Abs(), reply) == AfterHash(digest, old(Abs()), newHash, o)
    {
      hash := newHash;
      var uuid := switchUuid;
      switchUuid := None;
      if uuid == Some(true) {
        source := Undefined;
        return SwitchSides;
      }
      var chosen := password;
      if chosen == [] {
        if o.preset != [] {
          chosen := digest.of(o.preset, newHash.salt);
          source := Undefined;
        }
      }
      var sharedPassword := shared;
      shared := None;
      if sharedPassword.Some? && sharedPassword.value != [] {
        chosen := digest.of(sharedPassword.value, newHash.salt);
        source := SharedAb(sharedPassword.value);
      }
      if chosen == [] {
        chosen := config;
        if chosen != [] {
          source := Undefined;
        }
      }
      if chosen == [] && o.personal != [] {
        chosen := o.personal;
        source := PersonalAb(o.personal);
      }
      if chosen == [] && o.builtIn != [] {
        chosen := digest.of(o.builtIn, newHash.salt);
        source := SharedAb(o.builtIn);
      }
      password := chosen;
      if o.terminalAdmin {
        hash := newHash;
        return NoReply;
      }
      reply := Answer(if chosen == [] then [] else digest.of(chosen, newHash.challenge));
      hash := newHash;
    }

    method HandleLoginFromUi(typed: Bytes, rememberIt: bool) returns (reply: Reply)
      modifies this
      ensures (Abs(), reply) == AfterUiLogin(digest, old(Abs()), typed, rememberIt)
    {
      var hashed;
      if typed == [] {
        hashed := password;
        if hashed == [] {
          hashed := config;
          if hashed != [] {
            source := Undefined;
          }
        }
      } else {
        source := Undefined;
        hashed := digest.of(typed, hash.salt);
        remember := rememberIt;
      }
      password := hashed;
      reply := Answer(digest.of(hashed, hash.challenge));
    }

    method HandleLoginError(wrongPassword: bool)
      modifies this`password
      ensures Abs() == AfterError(old(Abs()), wrongPassword)
    {
      if wrongPassword {
        password := [];
      }
    }

    method HandlePeerInfo() returns (synced: Option<Bytes>)
      modifies this`config
      ensures (Abs(), synced) == AfterPeerInfo(digest, old(Abs()))
    {
      var password0 := config;
      if remember {
        if password != [] && password != password0 && !IsSharedAb(digest, source, password, hash) {
          config := password;
        }
      } else {
        if IsPersonalAb(source, password) {
          config := password;
        } else if password0 != [] {
          config := [];
        }
      }
      synced := None;
      if config != [] && !IsSharedAb(digest, source, password, hash) && !IsPersonalAb(source, password) {
        synced := Some(config);
      }
    }
  }

  // ---------------------------------------------------------------- the other side

  /** The controlled side accepts an answer for one of its passwords. */
  predicate Accepts(d: Digest, expected: Bytes, hash: Hash, response: Bytes) {
    expected != [] && d.of(d.of(expected, hash.salt), hash.challenge) == response
  }

  /** The plain password that takes precedence when the hash arrives, if it is one:
      a shared one first, then the preset one, the built-in default last. */
  function PlainChosen(c: Config, o: Offers): (p: Option<Bytes>) {
    if c.shared.Some? && c.shared.value != [] then c.shared
    else if c.password != [] then None
    else if o.preset != [] then Some(o.preset)
    else if c.config == [] && o.personal == [] && o.builtIn != [] then Some(o.builtIn)
    else None
  }

  /** Whichever way a plain password comes in - preset, shared, default, typed, or as the
      digest left from an earlier login - the answer is the one the other side accepts. */
  lemma AnswersAreAccepted(d: Digest, c: Config, hash: Hash, o: Offers, p: Bytes, remember: bool)
    requires Sound(d) && p != [] && c.switchUuid != Some(true) && !o.terminalAdmin
    ensures var reply := AfterHash(d, c, hash, o).1;
            && reply.Answer?
            && (PlainChosen(c, o) == Some(p) ==> Accepts(d, p, hash, reply.response))
            && (c.shared == None && c.password == d.of(p, hash.salt) ==> Accepts(d, p, hash, reply.response))
    ensures var reply := AfterUiLogin(d, c, p, remember).1;
            reply.Answer? && Accepts(d, p, c.hash, reply.response)
  {
    assert d.of(p, hash.salt) != [];
  }

  /** A typed password that is remembered is kept as its digest, and on a later
      connection with the same salt it answers any new challenge. */
  lemma RememberedPasswordWorks(d: Digest, c: Config, p: Bytes, challenge: Bytes, o: Offers, later: Config)
    requires Sound(d) && p != []
    requires later.config == AfterPeerInfo(d, AfterUiLogin(d, c, p, true).0).0.config
    requires later.password == [] && later.shared == None && later.switchUuid != Some(true)
    requires o.preset == [] && !o.terminalAdmin
    ensures var hash := Hash(c.hash.salt, challenge);
            var reply := AfterHash(d, later, hash, o).1;
            reply.Answer? && Accepts(d, p, hash, reply.response)
  {
    assert d.of(p, c.hash.salt) != [];
  }

  // ---------------------------------------------------------------- provenance

  datatype Event =
    | HashMsg(hash: Hash, offers: Offers)
    | UiLogin(typed: Bytes, remember: bool)
    | LoginError(wrongPassword: bool)
    | PeerInfo

  function Step(d: Digest, c: Config, e: Event): (r: Config) {
    match e
    case HashMsg(hash, offers) => AfterHash(d, c, hash, offers).0
    case UiLogin(typed, remember) => AfterUiLogin(d, c, typed, remember).0
    case LoginError(wrong) => AfterError(c, wrong)
    case PeerInfo => AfterPeerInfo(d, c).0
  }

  function Run(d: Digest, c: Config, evs: seq<Event>): (r: Config) {
    if evs == [] then c else Step(d, Run(d, c, evs[..|evs| - 1]), evs[|evs| - 1])
  }

  /** What a run may keep: digests of passwords typed or preset for this peer, and
      entries of the personal address book. Nothing shared, nothing built in. */
  function Own(d: Digest, salt: Bytes, evs: seq<Event>): (own: set<Bytes>) {
    if evs == [] then {}
    else
      Own(d, salt, evs[..|evs| - 1]) +
      match evs[|evs| - 1]
      case HashMsg(_, o) =>
        (if o.preset != [] then {d.of(o.preset, salt)} else {}) + (if o.personal != [] then {o.personal} else {})
      case UiLogin(typed, _) => if typed != [] then {d.of(typed, salt)} else {}
      case _ => {}
  }

  /** The password in use is marked as shared and is the digest of what it is marked
      with, or it is one of the user's own. */
  ghost predicate Traced(d: Digest, salt: Bytes, own: set<Bytes>, c: Config) {
    && (c.password != [] ==> (c.source.SharedAb? && c.password == d.of(c.source.plain, salt)) || c.password in own)
    && (c.config != [] ==> c.config in own)
  }

  ghost predicate FixedSalt(salt: Bytes, evs: seq<Event>) { forall e :: e in evs && e.HashMsg? ==> e.hash.salt == salt }

  lemma StepIsTraced(d: Digest, salt: Bytes, own: set<Bytes>, c: Config, e: Event)
    requires Traced(d, salt, own, c) && c.switchUuid != Some(true)
    requires if e.HashMsg? then e.hash.salt == salt else c.hash.salt == salt
    requires e.HashMsg? && e.offers.preset != [] ==> d.of(e.offers.preset, salt) in own
    requires e.HashMsg? && e.offers.personal != [] ==> e.offers.personal in own
    requires e.UiLogin? && e.typed != [] ==> d.of(e.typed, salt) in own
    ensures var r := Step(d, c, e);
            Traced(d, salt, own, r) && r.hash.salt == salt && r.switchUuid != Some(true)
    ensures e.PeerInfo? && AfterPeerInfo(d, c).1.Some? ==> AfterPeerInfo(d, c).1.value in own
  {
  }

  /** Provenance. As long as the salt stays the same and no side switch is asked for,
      the password kept for a peer is never one that came from the shared address book
      or from the built-in default, however the handlers are called; nor is one offered
      to the personal address book. */
  lemma {:induction false} KeepsOnlyOwnPasswords(d: Digest, salt: Bytes, own: set<Bytes>, c: Config, evs: seq<Event>)
    requires Traced(d, salt, own, c) && c.switchUuid != Some(true) && FixedSalt(salt, evs)
    requires evs != [] && !evs[0].HashMsg? ==> c.hash.salt == salt
    ensures var r := Run(d, c, evs);
            var all := own + Own(d, salt, evs);
            && Traced(d, salt, all, r) && r.switchUuid != Some(true)
            && (evs != [] ==> r.hash.salt == salt)
            && (r.config != [] ==> r.config in all)
            && (AfterPeerInfo(d, r).1.Some? && evs != [] ==> AfterPeerInfo(d, r).1.value in all)
  {
    if evs != [] {
      var before, e := evs[..|evs| - 1], evs[|evs| - 1];
      assert e in evs && forall x :: x in before ==> x in evs;
      KeepsOnlyOwnPasswords(d, salt, own, c, before);
      var all := own + Own(d, salt, evs);
      StepIsTraced(d, salt, all, Run(d, c, before), e);
      StepIsTraced(d, salt, all, Run(d, c, evs), PeerInfo);
    }
  }

  // ---------------------------------------------------------------- a rejected password

  /** Every password that a run from this state is given: with a hash message, with the
      connection, or by the user. */
  function Given(d: Digest, c: Config, evs: seq<Event>): (given: set<Bytes>) {
    if evs == [] then {}
    else
      var before := Run(d, c, evs[..|evs| - 1]);
      Given(d, c, evs[..|evs| - 1]) +
      match evs[|evs| - 1]
      case HashMsg(h, o) =>
        {d.of(o.preset, h.salt), o.personal, d.of(o.builtIn, h.salt)}
        + if before.shared.Some? then {d.of(before.shared.value, h.salt)} else {}
      case UiLogin(typed, _) => {d.of(typed, before.hash.salt)}
      case _ => {}
  }

  /** A rejected password is forgotten: whatever the peer, the user and the environment do
      later, it is neither used nor stored again unless it was stored already or is given
      once more. */
  lemma {:induction false} RejectedPasswordIsForgotten(d: Digest, c: Config, evs: seq<Event>)
    ensures var r := Run(d, AfterError(c, true), evs);
            var allowed := {[], c.config} + Given(d, AfterError(c, true), evs);
            r.password in allowed && r.config in allowed
  {
    if evs != [] { RejectedPasswordIsForgotten(d, c, evs[..|evs| - 1]); }
  }

  // ---------------------------------------------------------------- what does not hold

  predicate NoShared(shared: Option<Bytes>) { shared == None || shared == Some([]) }

  /** A hash message for a handler whose password is the digest of the shared password `p`
      under the salt `s0`, in whatever state the handler is: the next save stores this
      digest as the user's own exactly when passwords are to be remembered, and it was
      stored already, or a side switch makes the handler forget the source, or the salt is
      a new one and no shared password came with the connection. */
  lemma HandlerKeepsSharedIff(d: Digest, c: Config, p: Bytes, s0: Bytes, hash: Hash, o: Offers)
    requires Sound(d) && c.password == d.of(p, s0) && c.source == SharedAb(p)
    ensures var used := d.of(p, s0);
            AfterPeerInfo(d, AfterHash(d, c, hash, o).0).0.config == used
            <==> c.remember
                 && (c.config == used || c.switchUuid == Some(true) || (NoShared(c.shared) && d.of(p, hash.salt) != used))
  {
    assert d.of(p, s0) != [];
  }

  /** For a handler that is built anew, from the token of the last connection, passwords
      are to be remembered exactly when one is stored. */
  lemma ReconnectKeepsSharedIff(d: Digest, p: Bytes, s0: Bytes, stored: Bytes, shared: Option<Bytes>, switchUuid: Option<bool>,
                                hash: Hash, o: Offers)
    requires Sound(d)
    ensures var used := d.of(p, s0);
            var c := Connected(stored, Some((used, SharedAb(p))), shared, switchUuid);
            AfterPeerInfo(d, AfterHash(d, c, hash, o).0).0.config == used
            <==> stored == used
                 || (stored != [] && (switchUuid == Some(true) || (NoShared(shared) && d.of(p, hash.salt) != used)))
  {
    HandlerKeepsSharedIff(d, Connected(stored, Some((d.of(p, s0), SharedAb(p))), shared, switchUuid), p, s0, hash, o);
    assert d.of(p, s0) != [];
  }

  /** Digests that only join the password and the salt, for the two examples below. */
  function Joining(): (d: Digest)
    ensures Sound(d)
  {
    Digest((a, b) => a + b + [0])
  }

  /** A handler that is built anew stores the shared password when the salt has changed. */
  lemma SharedPasswordIsKept(o: Offers)
    ensures var c := Connected([9], Some(([1, 2, 0], SharedAb([1]))), None, None);
            && Joining().of([1], [2]) == [1, 2, 0]
            && AfterPeerInfo(Joining(), AfterHash(Joining(), c, Hash([3], []), o).0).0.config == [1, 2, 0]
  {
    assert Joining().of([1], [2]) == [1, 2, 0];
    assert Joining().of([1], [3])[1] == 3;
  }

  /** The user is asked for a password, wants it remembered, and mistypes it; then the
      built-in one is accepted. */
  function BuiltInAccepted(): (evs: seq<Event>) {
    var hash := HashMsg(Hash([2], []), Offers([], [], [1], false));
    [hash] + [LoginError(true)] + [UiLogin([7], true)] + [LoginError(true)] + [hash] + [PeerInfo]
  }

  /** A handler that lives on over a reconnect: nothing is stored when the built-in password
      is accepted, but when the peer comes back with another salt it is stored as the
      user's own. */
  lemma BuiltInPasswordIsKept(o: Offers)
    ensures var c := Run(Joining(), Connected([], None, None, None), BuiltInAccepted());
            && c.config == [] && c.remember && c.switchUuid == None && c.source == SharedAb([1])
            && Run(Joining(), c, [HashMsg(Hash([3], []), o), PeerInfo]).config == [1, 2, 0] == Joining().of([1], [2])
  {
    var d := Joining();
    BuiltInIsInUse();
    var c := Run(d, Connected([], None, None, None), BuiltInAccepted());
    assert d.of([1], [2]) == [1, 2, 0] && d.of([1], [3])[1] == 3;
    HandlerKeepsSharedIff(d, c, [1], [2], Hash([3], []), o);
    OneMore(d, c, [], HashMsg(Hash([3], []), o));
    OneMore(d, c, [HashMsg(Hash([3], []), o)], PeerInfo);
    assert [] + [HashMsg(Hash([3], []), o)] == [HashMsg(Hash([3], []), o)];
  }

  lemma BuiltInIsInUse()
    ensures Run(Joining(), Connected([], None, None, None), BuiltInAccepted())
            == Config(Hash([2], []), [1, 2, 0], SharedAb([1]), [], true, None, None)
  {
    var d, c0 := Joining(), Connected([], None, None, None);
    var hash := HashMsg(Hash([2], []), Offers([], [], [1], false));
    assert d.of([1], [2]) == [1, 2, 0] && d.of([7], [2]) == [7, 2, 0];
    var c1 := Config(Hash([2], []), [1, 2, 0], SharedAb([1]), [], false, None, None);
    var c3 := Config(Hash([2], []), [7, 2, 0], Undefined, [], true, None, None);
    assert Step(d, c0, hash) == c1;
    assert Step(d, c1.(password := []), UiLogin([7], true)) == c3;
    assert Step(d, c3.(password := []), hash) == c1.(remember := true);
    assert Step(d, c1.(remember := true), PeerInfo) == c1.(remember := true);
    var e1 := [hash];
    var e2 := e1 + [LoginError(true)];
    var e3 := e2 + [UiLogin([7], true)];
    var e4 := e3 + [LoginError(true)];
    assert Run(d, c0, e1) == c1 by {
      OneMore(d, c0, [], hash);
      assert [] + [hash] == [hash];
    }
    assert Run(d, c0, e2) == c1.(password := []) by { OneMore(d, c0, e1, LoginError(true)); }
    assert Run(d, c0, e3) == c3 by { OneMore(d, c0, e2, UiLogin([7], true)); }
    assert Run(d, c0, e4) == c3.(password := []) by { OneMore(d, c0, e3, LoginError(true)); }
    OneMore(d, c0, e4, hash);
    OneMore(d, c0, e4 + [hash], PeerInfo);
  }

  lemma OneMore(d: Digest, c: Config, evs: seq<Event>, e: Event)
    ensures Run(d, c, evs + [e]) == Step(d, Run(d, c, evs), e)
  {
    assert (evs + [e])[..|evs|] == evs;
  }

  /** While a side switch waits for the first hash, the source can only be the one of the
      last connection, and the password is then remembered exactly when one is stored. */
  ghost predicate StillConnecting(c: Config) {
    c.switchUuid == Some(true) && c.source.SharedAb? ==> (c.remember <==> c.config != [])
  }

  /** So over whole runs: with nothing stored, a side switch stores nothing, unless the
      user has typed a password. */
  lemma {:induction false} SwitchStoresNothing(d: Digest, c: Config, evs: seq<Event>)
    requires StillConnecting(c)
    ensures StillConnecting(Run(d, c, evs))
    ensures var r := Run(d, c, evs);
            forall hash, o :: r.switchUuid == Some(true) && r.source.SharedAb? && r.config == [] ==>
              AfterPeerInfo(d, AfterHash(d, r, hash, o).0).0.config == []
  {
    if evs != [] { SwitchStoresNothing(d, c, evs[..|evs| - 1]); }
  }

  // ---------------------------------------------------------------- what is used and kept when it should be

  function Hashed(d: Digest, plain: Bytes, salt: Bytes): (b: Bytes) { if plain == [] then [] else d.of(plain, salt) }

  /** The places a password can come from when the hash arrives, in order. */
  function Candidates(d: Digest, c: Config, hash: Hash, o: Offers): (cs: seq<(Bytes, Source)>) {
    var shared := if c.shared.Some? then c.shared.value else [];
    [(Hashed(d, shared, hash.salt), SharedAb(shared)),
     (c.password, c.source),
     (Hashed(d, o.preset, hash.salt), Undefined),
     (c.config, Undefined),
     (o.personal, PersonalAb(o.personal)),
     (Hashed(d, o.builtIn, hash.salt), SharedAb(o.builtIn))]
  }

  /** The first place that has one is used, and its source is remembered; the answer is the
      digest with the challenge, or nothing for an administrator terminal. The rest of the
      configuration stays, but a shared password is used up. */
  lemma FirstAvailable(d: Digest, c: Config, hash: Hash, o: Offers, i: nat)
    requires Sound(d) && c.switchUuid != Some(true)
    requires var cs := Candidates(d, c, hash, o); i < |cs| && cs[i].0 != [] && forall j :: 0 <= j < i ==> cs[j].0 == []
    ensures var (password, source) := Candidates(d, c, hash, o)[i];
            AfterHash(d, c, hash, o) ==
            (Config(hash, password, source, c.config, c.remember, None, None),
             if o.terminalAdmin then NoReply else Answer(d.of(password, hash.challenge)))
  {
    var cs := Candidates(d, c, hash, o);
    assert (i > 0 ==> cs[0].0 == []) && (i > 1 ==> cs[1].0 == []) && (i > 2 ==> cs[2].0 == []);
    assert (i > 3 ==> cs[3].0 == []) && (i > 4 ==> cs[4].0 == []);
  }

  /** With no password anywhere an empty answer is sent. */
  lemma NothingAvailable(d: Digest, c: Config, hash: Hash, o: Offers)
    requires Sound(d) && c.switchUuid != Some(true) && forall p :: p in Candidates(d, c, hash, o) ==> p.0 == []
    ensures AfterHash(d, c, hash, o) ==
            (Config(hash, [], c.source, c.config, c.remember, None, None), if o.terminalAdmin then NoReply else Answer([]))
  {
    var cs := Candidates(d, c, hash, o);
    assert cs[0] in cs && cs[1] in cs && cs[2] in cs && cs[3] in cs && cs[4] in cs && cs[5] in cs;
  }

  /** A side switch leaves the password alone, and forgets its source. */
  lemma SwitchAsked(d: Digest, c: Config, hash: Hash, o: Offers)
    requires c.switchUuid == Some(true)
    ensures AfterHash(d, c, hash, o) ==
            (Config(hash, c.password, Undefined, c.config, c.remember, c.shared, None), SwitchSides)
  {
  }

  /** An empty login uses the password of before, or else the stored one, and remembers what
      was to be remembered. */
  lemma EmptyLogin(d: Digest, c: Config, remember: bool)
    ensures var (r, reply) := AfterUiLogin(d, c, [], remember);
            && (c.password != [] ==> r == c)
            && (c.password == [] && c.config != [] ==> r == c.(password := c.config, source := Undefined))
            && (c.password == [] && c.config == [] ==> r == c)
            && reply == Answer(d.of(r.password, c.hash.challenge))
  {
  }

  /** Only a wrong password is cleared, and nothing beside it. */
  lemma OtherErrorsKeepAll(c: Config)
    ensures AfterError(c, false) == c && AfterError(c, true) == c.(password := [])
  {
  }

  /** A typed password is stored and offered to the personal address book when it is to be
      remembered; else nothing is stored, not even what was stored before. */
  lemma TypedIsKept(d: Digest, c: Config, typed: Bytes, remember: bool)
    requires Sound(d) && typed != []
    ensures var digest := d.of(typed, c.hash.salt);
            var (r, synced) := AfterPeerInfo(d, AfterUiLogin(d, c, typed, remember).0);
            && r.config == (if remember then digest else []) && synced == (if remember then Some(digest) else None)
            && r.password == digest && r.remember == remember
  {
  }

  /** The entry of the personal address book is stored when it is used, and not offered
      back; with it in use, what was stored is not. */
  lemma PersonalIsKept(d: Digest, c: Config, hash: Hash, o: Offers)
    requires Sound(d) && c.switchUuid != Some(true) && NoShared(c.shared)
    requires c.password == [] && o.preset == [] && c.config == [] && o.personal != []
    ensures var (r, synced) := AfterPeerInfo(d, AfterHash(d, c, hash, o).0); r.config == o.personal && synced == None
  {
  }

  /** A password that is not the entry it is marked with counts as the user's own. */
  lemma OtherPersonalEntry(d: Digest, c: Config, entry: Bytes)
    requires c.password != [] && c.source == PersonalAb(entry) && entry != c.password
    ensures AfterPeerInfo(d, c) ==
            if c.remember then (c.(config := c.password), Some(c.password)) else (c.(config := []), None)
  {
  }

  /** The stored password is used again and again, and offered to the personal address
      book each time. */
  lemma StoredStays(d: Digest, c: Config, hash: Hash, o: Offers)
    requires Sound(d) && c.switchUuid != Some(true) && NoShared(c.shared)
    requires c.password == [] && o.preset == [] && c.config != [] && c.remember
    ensures var (r, synced) := AfterPeerInfo(d, AfterHash(d, c, hash, o).0); r.config == c.config && synced == Some(c.config)
  {
  }

  /** A shared password is used without being stored or offered, and what was stored stays
      if it is to be remembered. */
  lemma SharedIsOnlyUsed(d: Digest, c: Config, hash: Hash, o: Offers)
    requires Sound(d) && c.switchUuid != Some(true) && c.shared.Some? && c.shared.value != []
    ensures var (r, synced) := AfterPeerInfo(d, AfterHash(d, c, hash, o).0);
            && r.password == d.of(c.shared.value, hash.salt) && synced == None
            && r.config == if c.remember then c.config else []
  {
  }
}
