/** The back-off of UDP hole punching: how often a packet is sent while nobody answers. */
module Punch {
  /** Times are in nanoseconds, intervals in milliseconds. */
  const MS: int := 1_000_000
  const MAX_INTERVAL: nat := 200
  const MAX_TIME: int := 20_000 * MS

  /** What wakes the loop: the timer, a datagram, or a socket error. After the timer the
      clock is read up to three times: to check for the end, to measure the time since the
      last packet, and when the next one has been sent. */
  datatype Event = Timer(checked: int, measured: int, resent: int) | Received(size: nat) | SocketError

  datatype Outcome = Waiting | TimedOut | Failed | Punched | Datagram(size: nat)

  datatype Timing = Timing(retry: nat, sent: nat, last: int)

  // ---------------------------------------------------------------- specification

  function NextRetry(retry: nat): (r: nat) { if retry * 3 / 2 < MAX_INTERVAL then retry * 3 / 2 else MAX_INTERVAL }

  function OnTimer(t: Timing, measured: int, resent: int): (r: Timing) {
    if measured - t.last >= t.retry * MS then Timing(NextRetry(t.retry), t.sent + 1, resent) else t
  }

  function After(t: Timing, e: Event): (r: Timing) { if e.Timer? then OnTimer(t, e.measured, e.resent) else t }

  function OutcomeOf(begun: int, listen: bool, e: Event): (o: Outcome) {
    match e
    case Timer(checked, _, _) => if checked - begun > MAX_TIME then TimedOut else Waiting
    case SocketError => Failed
    case Received(n) => if listen then if n == 0 then Waiting else Datagram(n) else Punched
  }

  function Run(t: Timing, begun: int, listen: bool, evs: seq<Event>): (r: (Timing, Outcome))
    decreases |evs|
  {
    if evs == [] then (t, Waiting)
    else if OutcomeOf(begun, listen, evs[0]) != Waiting then (t, OutcomeOf(begun, listen, evs[0]))
    else Run(After(t, evs[0]), begun, listen, evs[1..])
  }

  method PunchUdp(start: int, begun: int, listen: bool, evs: seq<Event>) returns (sent: nat, outcome: Outcome)
    ensures var r := Run(Timing(20, 1, start), begun, listen, evs); sent == r.0.sent && outcome == r.1
  {
    var retry: nat, last := 20, start;
    sent, outcome := 1, Waiting;
    ghost var first := Timing(20, 1, start);
    var i := 0;
    while i < |evs|
      invariant 0 <= i <= |evs|
      invariant Run(first, begun, listen, evs) == Run(Timing(retry, sent, last), begun, listen, evs[i..])
    {
      match evs[i] {
        case Timer(checked, measured, resent) =>
          if checked - begun > MAX_TIME {
            return sent, TimedOut;
          }
          if measured - last >= retry * MS {
            sent := sent + 1;
            retry := if retry * 3 / 2 < MAX_INTERVAL then retry * 3 / 2 else MAX_INTERVAL;
            last := resent;
          }
        case Received(n) =>
          if !listen {
            return sent, Punched;
          }
          if n != 0 {
            return sent, Datagram(n);
          }
        case SocketError =>
          return sent, Failed;
      }
      i := i + 1;
    }
  }

  // ---------------------------------------------------------------- how a call ends

  /** The call goes on: the timer before twenty seconds are over, and, for a call that
      listens, a datagram without bytes. */
  predicate GoesOn(begun: int, listen: bool, e: Event) {
    match e
    case Timer(checked, _, _) => checked - begun <= 20_000_000_000
    case Received(size) => listen && size == 0
    case SocketError => false
  }

  /** The first event after which the call does not go on ends it: a datagram when it
      connects, one with bytes when it listens, an error, or the time. Nothing is sent
      from then on. */
  lemma {:induction false} EndsAt(t: Timing, begun: int, listen: bool, evs: seq<Event>, i: nat)
    requires i < |evs| && !GoesOn(begun, listen, evs[i]) && forall j :: 0 <= j < i ==> GoesOn(begun, listen, evs[j])
    ensures Run(t, begun, listen, evs).1 ==
            match evs[i]
            case Timer(_, _, _) => TimedOut
            case SocketError => Failed
            case Received(size) => if listen then Datagram(size) else Punched
    ensures Run(t, begun, listen, evs).0 == Run(t, begun, listen, evs[..i]).0
    decreases i
  {
    if i > 0 {
      assert evs[..i][0] == evs[0] && evs[..i][1..] == evs[1..][..i - 1];
      forall j | 0 <= j < i - 1 ensures GoesOn(begun, listen, evs[1..][j]) { assert evs[1..][j] == evs[j + 1]; }
      EndsAt(After(t, evs[0]), begun, listen, evs[1..], i - 1);
    }
  }

  /** Without such an event it is still waiting. */
  lemma {:induction false} StillWaiting(t: Timing, begun: int, listen: bool, evs: seq<Event>)
    requires forall j :: 0 <= j < |evs| ==> GoesOn(begun, listen, evs[j])
    ensures Run(t, begun, listen, evs).1 == Waiting
    decreases |evs|
  {
    if evs != [] {
      forall j | 0 <= j < |evs| - 1 ensures GoesOn(begun, listen, evs[1..][j]) { assert evs[1..][j] == evs[j + 1]; }
      StillWaiting(After(t, evs[0]), begun, listen, evs[1..]);
    }
  }

  // ---------------------------------------------------------------- the intervals

  /** The interval in force after k repeats. */
  function Interval(k: nat): (r: nat)
    ensures 20 <= r <= MAX_INTERVAL
  {
    if k == 0 then 20 else NextRetry(Interval(k - 1))
  }

  /** The time that k repeats take at least. */
  function Elapsed(k: nat): (ms: nat) { if k == 0 then 0 else Elapsed(k - 1) + Interval(k - 1) }

  lemma FirstIntervals()
    ensures Interval(0) == 20 && Interval(1) == 30 && Interval(2) == 45 && Interval(3) == 67
    ensures Interval(4) == 100 && Interval(5) == 150 && Interval(6) == 200
    ensures Elapsed(6) == 412
  {
    assert Interval(1) == 30;
    assert Interval(2) == 45;
    assert Interval(3) == 67;
    assert Interval(4) == 100;
    assert Interval(5) == 150;
    assert Elapsed(3) == 95;
  }

  lemma {:induction false} LaterIntervals(k: nat)
    requires k >= 6
    ensures Interval(k) == 200 && Elapsed(k) == 412 + 200 * (k - 6)
  {
    FirstIntervals();
    if k > 6 { LaterIntervals(k - 1); }
  }

  /** The interval only grows. */
  lemma {:induction false} IntervalGrows(j: nat, k: nat)
    requires j <= k
    ensures Interval(j) <= Interval(k)
    decreases k - j
  {
    if j < k {
      IntervalGrows(j + 1, k);
      assert Interval(j) * 3 / 2 >= Interval(j);
    }
  }

  // ---------------------------------------------------------------- the schedule

  /** When the k-th repeat is due at the earliest. */
  function Due(start: int, k: nat): (t: int) { start + Elapsed(k) * MS }

  lemma DueNext(start: int, k: nat)
    ensures Due(start, k + 1) == Due(start, k) + Interval(k) * MS
  {
    assert Elapsed(k + 1) == Elapsed(k) + Interval(k);
  }

  /** The state after some repeats: the interval is the one for their number, and they
      took their time. */
  ghost predicate OnSchedule(t: Timing, start: int) {
    t.sent >= 1 && t.retry == Interval(t.sent - 1) && t.last >= Due(start, t.sent - 1)
  }

  lemma TimerOnSchedule(t: Timing, start: int, measured: int, resent: int)
    requires OnSchedule(t, start) && measured <= resent
    ensures OnSchedule(OnTimer(t, measured, resent), start)
    ensures OnTimer(t, measured, resent) != t ==> Due(start, t.sent) <= measured
  {
    DueNext(start, t.sent - 1);
  }

  ghost predicate SentAfterMeasured(evs: seq<Event>) { forall e :: e in evs && e.Timer? ==> e.measured <= e.resent }

  lemma {:induction false} RunOnSchedule(t: Timing, start: int, begun: int, listen: bool, evs: seq<Event>)
    requires OnSchedule(t, start) && SentAfterMeasured(evs)
    ensures OnSchedule(Run(t, begun, listen, evs).0, start)
    decreases |evs|
  {
    if evs != [] && OutcomeOf(begun, listen, evs[0]) == Waiting {
      var e := evs[0];
      assert e in evs && forall x :: x in evs[1..] ==> x in evs;
      if e.Timer? { TimerOnSchedule(t, start, e.measured, e.resent); }
      RunOnSchedule(After(t, e), start, begun, listen, evs[1..]);
    }
  }

  /** A wake-up repeats the packet exactly when the interval is over, counted from the
      reading after the packet before; the next interval is half as long again, at most
      200 ms, and starts after this packet. */
  lemma RepeatsIff(t: Timing, e: Event)
    requires e.Timer?
    ensures var due := e.measured >= t.last + t.retry * 1_000_000;
            var longer := if t.retry < 134 then t.retry * 3 / 2 else 200;
            After(t, e) == if due then Timing(longer, t.sent + 1, e.resent) else t
  {
  }

  // ---------------------------------------------------------------- the packet bound

  /** Between the first two clock readings of a wake-up there is at most this time. */
  ghost predicate Prompt(evs: seq<Event>, lag: int) {
    SentAfterMeasured(evs) && forall e :: e in evs && e.Timer? ==> e.measured - e.checked <= lag
  }

  /** All repeats so far were due before the end. */
  ghost predicate InTime(t: Timing, start: int, end: int) { t.sent > 1 ==> Due(start, t.sent - 1) <= end }

  lemma {:induction false} RunInTime(t: Timing, start: int, begun: int, listen: bool, evs: seq<Event>, lag: int)
    requires OnSchedule(t, start) && Prompt(evs, lag) && InTime(t, start, begun + MAX_TIME + lag)
    ensures InTime(Run(t, begun, listen, evs).0, start, begun + MAX_TIME + lag)
    decreases |evs|
  {
    if evs != [] && OutcomeOf(begun, listen, evs[0]) == Waiting {
      var e := evs[0];
      assert e in evs && forall x :: x in evs[1..] ==> x in evs;
      if e.Timer? { TimerOnSchedule(t, start, e.measured, e.resent); }
      RunInTime(After(t, e), start, begun, listen, evs[1..], lag);
    }
  }

  function First(start: int): (t: Timing) { Timing(20, 1, start) }

  lemma FirstOnSchedule(start: int, end: int)
    ensures OnSchedule(First(start), start) && InTime(First(start), start, end)
  {
    assert Elapsed(0) == 0 && Interval(0) == 20;
  }

  lemma LastInTime(t: Timing, start: int, end: int, most: nat)
    requires InTime(t, start, end) && most >= 7 && end - start < (200 * most - 788) * MS
    ensures t.sent <= most
  {
    if t.sent > most { LaterIntervals(t.sent - 1); }
  }

  /** The packet bound: whatever wakes the loop, and however often, one call sends at
      most 104 packets when the clock readings that belong together are close. */
  lemma PacketBound(start: int, begun: int, listen: bool, evs: seq<Event>, lag: int)
    requires Prompt(evs, lag) && begun - start + lag < 12 * MS
    ensures Run(First(start), begun, listen, evs).0.sent <= 104
  {
    FirstOnSchedule(start, begun + MAX_TIME + lag);
    RunInTime(First(start), start, begun, listen, evs, lag);
    LastInTime(Run(First(start), begun, listen, evs).0, start, begun + MAX_TIME + lag, 104);
  }

  /** The clock does not run backwards. */
  ghost predicate Ordered(evs: seq<Event>, clock: int)
    decreases |evs|
  {
    if evs == [] then true
    else if evs[0].Timer? then
      clock <= evs[0].checked <= evs[0].measured <= evs[0].resent && Ordered(evs[1..], evs[0].resent)
    else Ordered(evs[1..], clock)
  }

  /** All repeats but the last one were due before the end. */
  ghost predicate NearlyInTime(t: Timing, start: int, end: int) { t.sent > 2 ==> Due(start, t.sent - 2) <= end }

  lemma {:induction false} RunNearlyInTime(t: Timing, start: int, begun: int, listen: bool, evs: seq<Event>, clock: int)
    requires OnSchedule(t, start) && t.last <= clock && Ordered(evs, clock) && NearlyInTime(t, start, begun + MAX_TIME)
    ensures NearlyInTime(Run(t, begun, listen, evs).0, start, begun + MAX_TIME)
    decreases |evs|
  {
    if evs != [] && OutcomeOf(begun, listen, evs[0]) == Waiting {
      var e := evs[0];
      if e.Timer? {
        TimerOnSchedule(t, start, e.measured, e.resent);
        RunNearlyInTime(After(t, e), start, begun, listen, evs[1..], e.resent);
      } else {
        RunNearlyInTime(t, start, begun, listen, evs[1..], clock);
      }
    }
  }

  /** Without any limit on the pauses inside a wake-up, one more packet can slip through,
      and no second one. */
  lemma PacketBoundAnyPause(start: int, begun: int, listen: bool, evs: seq<Event>)
    requires Ordered(evs, start) && begun - start < 12 * MS
    ensures Run(First(start), begun, listen, evs).0.sent <= 105
  {
    FirstOnSchedule(start, 0);
    RunNearlyInTime(First(start), start, begun, listen, evs, start);
    var t := Run(First(start), begun, listen, evs).0;
    if t.sent > 105 { LaterIntervals(t.sent - 2); }
  }

  // ---------------------------------------------------------------- the bounds are exact

  /** A timer that fires n times; the k-th packet is measured and sent exactly when it is
      due, and the time is checked at `at(k)`. */
  function Punctual(start: int, at: nat -> int, from: nat, n: nat): (evs: seq<Event>)
    decreases n
  {
    if n == 0 then []
    else [Timer(at(from + 1), Due(start, from + 1), Due(start, from + 1))] + Punctual(start, at, from + 1, n - 1)
  }

  /** The timing after k punctual repeats. */
  function Kept(start: int, k: nat): (t: Timing) { Timing(Interval(k), k + 1, Due(start, k)) }

  lemma EventFirst(t: Timing, begun: int, listen: bool, e: Event, evs: seq<Event>)
    requires OutcomeOf(begun, listen, e) == Waiting
    ensures Run(t, begun, listen, [e] + evs) == Run(After(t, e), begun, listen, evs)
  {
    assert ([e] + evs)[1..] == evs;
  }

  lemma OneRepeat(start: int, k: nat, e: Event)
    requires e.Timer? && e.measured == e.resent == Due(start, k + 1)
    ensures After(Kept(start, k), e) == Kept(start, k + 1)
  {
    DueNext(start, k);
  }

  lemma {:induction false} PunctualSends(start: int, begun: int, listen: bool, at: nat -> int, from: nat, n: nat)
    requires forall k :: from < k <= from + n ==> at(k) - begun <= MAX_TIME
    ensures Run(Kept(start, from), begun, listen, Punctual(start, at, from, n)).0 == Kept(start, from + n)
    decreases n
  {
    if n > 0 {
      var e := Timer(at(from + 1), Due(start, from + 1), Due(start, from + 1));
      OneRepeat(start, from, e);
      EventFirst(Kept(start, from), begun, listen, e, Punctual(start, at, from + 1, n - 1));
      PunctualSends(start, begun, listen, at, from + 1, n - 1);
    }
  }

  lemma PunctualCount(start: int, begun: int, listen: bool, at: nat -> int, n: nat)
    requires forall k :: 0 < k <= n ==> at(k) - begun <= MAX_TIME
    ensures Run(First(start), begun, listen, Punctual(start, at, 0, n)).0.sent == n + 1
  {
    FirstOnSchedule(start, 0);
    assert Kept(start, 0) == First(start);
    PunctualSends(start, begun, listen, at, 0, n);
  }

  lemma {:induction false} PunctualIsPrompt(start: int, at: nat -> int, from: nat, n: nat, lag: int)
    requires forall k :: from < k <= from + n ==> Due(start, k) - at(k) <= lag
    ensures Prompt(Punctual(start, at, from, n), lag)
    decreases n
  {
    if n > 0 { PunctualIsPrompt(start, at, from + 1, n - 1, lag); }
  }

  lemma {:induction false} PunctualIsOrdered(start: int, at: nat -> int, from: nat, n: nat)
    requires forall k :: from < k <= from + n ==> Due(start, k - 1) <= at(k) <= Due(start, k)
    ensures Ordered(Punctual(start, at, from, n), Due(start, from))
    decreases n
  {
    if n > 0 {
      PunctualIsOrdered(start, at, from + 1, n - 1);
      assert Punctual(start, at, from, n)[1..] == Punctual(start, at, from + 1, n - 1);
    }
  }

  lemma DueBound(start: int, k: nat, n: nat)
    requires k <= n && n >= 6
    ensures Due(start, k) <= start + (200 * n - 788) * MS
  {
    DueGrows(start, k, n);
    LaterIntervals(n);
  }

  lemma {:induction false} DueGrows(start: int, j: nat, k: nat)
    requires j <= k
    ensures Due(start, j) <= Due(start, k)
    decreases k - j
  {
    if j < k {
      DueGrows(start, j, k - 1);
      DueNext(start, k - 1);
    }
  }

  /** The bound is exact: 104 packets can be sent, and no run sends more exactly when the
      readings at the start and the two of a wake-up are together less than 12 ms apart. */
  lemma BoundHoldsIff(start: int, begun: int, listen: bool, lag: nat)
    ensures (forall evs :: Prompt(evs, lag) ==> Run(First(start), begun, listen, evs).0.sent <= 104)
            <==> begun - start + lag < 12 * MS
    ensures start <= begun ==> exists evs :: Prompt(evs, lag) && Run(First(start), begun, listen, evs).0.sent == 104
  {
    if begun - start + lag < 12 * MS {
      forall evs | Prompt(evs, lag) ensures Run(First(start), begun, listen, evs).0.sent <= 104 {
        PacketBound(start, begun, listen, evs, lag);
      }
    } else {
      var evs := LaggingRun(start, begun, listen, lag, 104);
      assert Run(First(start), begun, listen, evs).0.sent > 104;
    }
    if start <= begun { var evs := LaggingRun(start, begun, listen, lag, 103); }
  }

  lemma LaggingRun(start: int, begun: int, listen: bool, lag: nat, n: nat) returns (evs: seq<Event>)
    requires n >= 6 && start + (200 * n - 788) * MS - lag - begun <= MAX_TIME
    ensures Prompt(evs, lag) && Run(First(start), begun, listen, evs).0.sent == n + 1
  {
    var at := (k: nat) => Due(start, k) - lag;
    forall k | 0 < k <= n ensures at(k) - begun <= MAX_TIME { DueBound(start, k, n); }
    PunctualCount(start, begun, listen, at, n);
    PunctualIsPrompt(start, at, 0, n, lag);
    evs := Punctual(start, at, 0, n);
  }

  /** So is the bound for any pauses: the worst ones last from one packet to the next. */
  lemma AnyPauseHoldsIff(start: int, begun: int, listen: bool)
    ensures (forall evs :: Ordered(evs, start) ==> Run(First(start), begun, listen, evs).0.sent <= 105)
            <==> begun - start < 12 * MS
    ensures start <= begun ==> exists evs :: Ordered(evs, start) && Run(First(start), begun, listen, evs).0.sent == 105
  {
    if begun - start < 12 * MS {
      forall evs | Ordered(evs, start) ensures Run(First(start), begun, listen, evs).0.sent <= 105 {
        PacketBoundAnyPause(start, begun, listen, evs);
      }
    } else {
      var evs := PausingRun(start, begun, listen, 105);
      assert Run(First(start), begun, listen, evs).0.sent > 105;
    }
    if start <= begun { var evs := PausingRun(start, begun, listen, 104); }
  }

  lemma PausingRun(start: int, begun: int, listen: bool, n: nat) returns (evs: seq<Event>)
    requires n >= 7 && start + (200 * n - 988) * MS - begun <= MAX_TIME
    ensures Ordered(evs, start) && Run(First(start), begun, listen, evs).0.sent == n + 1
  {
    var at := (k: nat) => if k > 0 then Due(start, k - 1) else 0;
    forall k | 0 < k <= n ensures at(k) - begun <= MAX_TIME && at(k) == Due(start, k - 1) <= Due(start, k) {
      DueBound(start, k - 1, n - 1);
      DueGrows(start, k - 1, k);
    }
    PunctualCount(start, begun, listen, at, n);
    PunctualIsOrdered(start, at, 0, n);
    assert Due(start, 0) == start;
    evs := Punctual(start, at, 0, n);
  }
}

/** The colour that stands for a name. */
module Colour {
  import opened Wrappers

  const WORD: int := 0x1_0000_0000
  const COLOURS: int := 0x100_0000

  /** The base-31 polynomial of the bytes, first byte first, without any wrapping. */
  function Polynomial(s: seq<Byte>): (n: nat) {
    if s == [] then 0 else Polynomial(s[..|s| - 1]) * 31 + s[|s| - 1]
  }

  function WithoutBit15(n: nat): (r: nat) { if n / 0x8000 % 2 == 1 then n - 0x8000 else n }

  lemma WrapStep(hash: nat, poly: nat, code: Byte)
    requires hash == poly % WORD
    ensures (code + (hash * 32 % WORD - hash) % WORD) % WORD == (poly * 31 + code) % WORD
  {
    var a := hash * 32 / WORD;
    assert hash * 32 % WORD == hash * 32 - a * WORD;
    SameRemainder(code + hash * 31, -a);
    var d := (hash * 32 % WORD - hash) / WORD;
    assert (hash * 32 % WORD - hash) % WORD == hash * 32 % WORD - hash - d * WORD;
    SameRemainder(code + hash * 31, -a - d);
    var q := poly / WORD;
    assert poly == q * WORD + hash;
    SameRemainder(code + hash * 31, q * 31);
  }

  lemma SameRemainder(n: int, k: int)
    ensures (n + k * WORD) % WORD == n % WORD
  {
  }

  /** The wrapping loop over 32-bit words yields the polynomial, reduced to 24 bits, with
      bit 15 cleared, under the alpha byte. */
  method Str2Color(s: seq<Byte>, alpha: Byte) returns (color: nat)
    ensures color < 0x1_0000_0000 && color / 0x100_0000 == alpha
    ensures color % COLOURS == WithoutBit15(Polynomial(s) % COLOURS)
    ensures color / 0x8000 % 2 == 0 && color % 0x8000 == Polynomial(s) % 0x8000
    ensures color / 0x1_0000 % 0x100 == Polynomial(s) / 0x1_0000 % 0x100
  {
    var hash := 0;
    for i := 0 to |s|
      invariant hash == Polynomial(s[..i]) % WORD
    {
      assert s[..i + 1][..i] == s[..i];
      WrapStep(hash, Polynomial(s[..i]), s[i]);
      var shifted := hash * 32 % WORD;
      hash := (s[i] + (shifted - hash) % WORD) % WORD;
    }
    assert s[..|s|] == s;
    Reduce(Polynomial(s));
    hash := hash % COLOURS;
    Bits(Polynomial(s), alpha);
    var rgb := WithoutBit15(hash);
    color := alpha * COLOURS + rgb;
  }

  /** Bit 15 of the colour is 0; the bits below it and the byte above it are those of the
      polynomial. */
  lemma Bits(n: nat, alpha: nat)
    ensures var color := alpha * COLOURS + WithoutBit15(n % COLOURS);
            && color / 0x8000 % 2 == 0 && color % 0x8000 == n % 0x8000
            && color / 0x1_0000 % 0x100 == n / 0x1_0000 % 0x100
  {
    var r := n % COLOURS;
    var hi, bit, lo := r / 0x1_0000, r / 0x8000 % 2, r % 0x8000;
    assert r == hi * 0x1_0000 + bit * 0x8000 + lo && hi < 0x100;
    LowParts(n / COLOURS, hi, bit, lo);
    LowParts(alpha, hi, 0, lo);
    assert n == n / COLOURS * COLOURS + r;
    assert WithoutBit15(r) == hi * 0x1_0000 + lo;
  }

  lemma LowParts(top: nat, hi: nat, bit: nat, lo: nat)
    requires hi < 0x100 && bit < 2 && lo < 0x8000
    ensures var n := top * COLOURS + hi * 0x1_0000 + bit * 0x8000 + lo;
            n / 0x8000 % 2 == bit && n % 0x8000 == lo && n / 0x1_0000 % 0x100 == hi
  {
    var n := top * COLOURS + hi * 0x1_0000 + bit * 0x8000 + lo;
    assert n == ((top * 0x100 + hi) * 2 + bit) * 0x8000 + lo;
    assert n / 0x8000 == (top * 0x100 + hi) * 2 + bit;
    assert n == (top * 0x100 + hi) * 0x1_0000 + (bit * 0x8000 + lo);
    assert n / 0x1_0000 == top * 0x100 + hi;
  }

  lemma Reduce(n: nat)
    ensures n % WORD % COLOURS == n % COLOURS
  {
    var q, r := n / WORD, n % WORD;
    assert n == (q * 256) * COLOURS + r;
  }
}
