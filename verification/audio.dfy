/** The playback buffer of the client: a ring of samples that holds three seconds of
    sound, a histogram of the fill levels seen since it was last cleared, and the rule
    that drops old samples when the buffer has been fuller than it needs to be. */
module AudioPlayback {
  import opened Wrappers

  const BUFFER_MS: nat := 3000
  const BUCKETS: nat := 30
  const WINDOW_MS: int := 12000

  // ---------------------------------------------------------------- specification

  /** `rate` is samples per second over all channels; `hist[b]` counts the recorded
      levels of `b` tenths of a second (the last bucket takes everything above). */
  datatype State<T> = State(rate: nat, cap: nat, buf: seq<T>, hist: seq<nat>) {
    ghost predicate Valid() {
      rate > 0 && cap == 3 * rate && |buf| <= cap && |hist| == BUCKETS
    }
  }

  function Min(a: nat, b: nat): (m: nat) { if a < b then a else b }

  function Zeros(): (h: seq<nat>) { seq(BUCKETS, _ => 0) }

  function Bucket(level: nat, rate: nat): (b: nat)
    requires rate > 0
    ensures b < BUCKETS
  {
    Min(level * 10 / rate, BUCKETS - 1)
  }

  lemma BucketBounds(level: nat, rate: nat)
    requires rate > 0
    ensures Bucket(level, rate) * rate <= level * 10
    ensures Bucket(level, rate) < BUCKETS - 1 ==> level * 10 < (Bucket(level, rate) + 1) * rate
  {
    DivBounds(level * 10, rate);
    MulMono(Bucket(level, rate), level * 10 / rate, rate);
  }

  /** The most recent `n` elements, or all of them when there are fewer. */
  function LastN<T>(s: seq<T>, n: nat): (r: seq<T>)
    ensures |r| == (if |s| < n then |s| else n) && r == s[|s| - |r|..]
  {
    if |s| <= n then s else s[|s| - n..]
  }

  lemma NewestKept<T>(s: seq<T>, elems: seq<T>, n: nat, kept: seq<T>, tail: seq<T>)
    requires |s| <= n
    requires kept == s[if |elems| > n - |s| then Min(|elems| - (n - |s|), |s|) else 0..]
    requires tail == elems[if |elems| > n - |kept| then |elems| - (n - |kept|) else 0..]
    ensures kept + tail == LastN(s + elems, n)
  {
  }

  /** Making room first and appending then keeps the same elements. */
  lemma LastOfBoth<T>(s: seq<T>, chunk: seq<T>, n: nat, kept: seq<T>)
    requires |s| <= n && |chunk| <= n
    requires kept == s[if |s| + |chunk| > n then |s| + |chunk| - n else 0..]
    ensures LastN(kept + chunk, n) == LastN(s + chunk, n)
  {
    if |s| + |chunk| > n {
      assert kept + chunk == (s + chunk)[|s| + |chunk| - n..];
    } else {
      assert kept == s;
    }
  }

  function LeadingZeros(h: seq<nat>): (z: nat)
    ensures z <= |h| && (z < |h| ==> h[z] > 0)
    ensures forall k :: 0 <= k < z ==> h[k] == 0
  {
    if h == [] || h[0] > 0 then 0 else 1 + LeadingZeros(h[1..])
  }

  /** `m` is the first of the fullest buckets, bucket 0 not taken into account;
      it is 0 when all the other buckets are empty. */
  ghost predicate IsPeak(h: seq<nat>, m: nat) {
    if m == 0 then forall k :: 1 <= k < |h| ==> h[k] == 0
    else
      && m < |h| && h[m] > 0
      && (forall k :: 1 <= k < m ==> h[k] < h[m])
      && (forall k :: m <= k < |h| ==> h[k] <= h[m])
  }

  function Peak(h: seq<nat>): (m: nat)
    ensures IsPeak(h, m)
  {
    if |h| <= 1 then 0
    else
      var n := |h| - 1;
      var p := Peak(h[..n]);
      var best := if p == 0 then 0 else h[p];
      assert forall k :: 1 <= k < n ==> h[k] == h[..n][k];
      if h[n] > best then n else p
  }

  lemma PeakIsUnique(h: seq<nat>, m: nat)
    requires IsPeak(h, m)
    ensures m == Peak(h)
  {
    var p := Peak(h);
    if m != 0 { assert p != 0; assert h[m] == h[p]; }
  }

  /** The number of samples to drop: an even number, from the leading empty buckets
      `zero` and the peak bucket `peak`. */
  function SkipAmount(cap: nat, zero: nat, peak: nat): (skip: nat)
    ensures skip % 2 == 0
  {
    var z := zero * 2 / 3;
    if peak < 6 then 0
    else
      var m := if peak > z * 4 then z * 4 else peak;
      (cap * m / 120 + 1) / 2 * 2
  }

  function AfterAppend<T>(s: State<T>, chunk: seq<T>): (r: State<T>) {
    s.(buf := LastN(s.buf + chunk, s.cap))
  }

  function Recorded(h: seq<nat>, b: nat): (r: seq<nat>)
    requires b < |h|
  {
    h[b := h[b] + 1]
  }

  function DropWith(cap: nat, zero: nat, peak: nat, having: nat): (d: nat)
    ensures d % 2 == 0 && (d > 0 ==> 3 * d < having)
  {
    var skip := SkipAmount(cap, zero, peak);
    if having > skip * 3 && skip > 0 then skip else 0
  }

  function DropCount(cap: nat, h: seq<nat>, having: nat): (d: nat)
    ensures d % 2 == 0 && (d > 0 ==> 3 * d < having)
  {
    DropWith(cap, LeadingZeros(h), Peak(h), having)
  }

  /** One statistics step: the level is recorded, and when the twelve-second window is
      over (`fire`) the histogram is cleared and old samples may be dropped. */
  function AfterMeasure<T>(s: State<T>, level: nat, fire: bool): (r: State<T>)
    requires s.Valid()
  {
    var h := Recorded(s.hist, Bucket(level, s.rate));
    if !fire then s.(hist := h)
    else s.(hist := Zeros(), buf := s.buf[DropCount(s.cap, h, |s.buf|)..])
  }

  function AfterPlay<T>(s: State<T>, n: nat): (r: State<T>) { s.(buf := s.buf[Min(n, |s.buf|)..]) }

  function AfterResize<T>(s: State<T>, rate: nat): (r: State<T>) {
    if 3 * rate == s.cap then s else State(rate, 3 * rate, [], s.hist)
  }

  /** A statistics step at the end of the window, from the two bucket numbers. */
  lemma FiredMeasure<T>(s: State<T>, level: nat, zero: nat, peak: nat, buf: seq<T>)
    requires s.Valid()
    requires var h := Recorded(s.hist, Bucket(level, s.rate)); zero == LeadingZeros(h) && peak == Peak(h)
    requires buf == s.buf[DropWith(s.cap, zero, peak, |s.buf|)..]
    ensures AfterMeasure(s, level, true) == State(s.rate, s.cap, buf, Zeros())
  {
  }

  /** The timer of the statistics: 0 until the first step. */
  predicate WindowOver(t: int, now: int) { t != 0 && now >= t + WINDOW_MS }

  function TimerAfter(t: int, now: int): (r: int) { if t == 0 || WindowOver(t, now) then now else t }

  // ---------------------------------------------------------------- arithmetic

  lemma DivBounds(a: nat, d: nat)
    requires d > 0
    ensures a / d * d <= a < (a / d + 1) * d
  {
    assert a == a / d * d + a % d;
  }

  // ---------------------------------------------------------------- the ring

  /** The ring that the decoder thread and the sound card callback share. */
  class Ring<T(0)> {
    var data: array<T>
    var head: nat
    var len: nat

    ghost predicate Valid()
      reads this
    {
      head < data.Length && len <= data.Length
    }

    function Slot(i: nat): (k: nat)
      requires Valid() && i <= data.Length
      reads this
      ensures k < data.Length
    {
      if head + i < data.Length then head + i
      else if head + i - data.Length < data.Length then head + i - data.Length
      else head
    }

    ghost function Contents(): (s: seq<T>)
      requires Valid()
      reads this, data
      ensures |s| == len
    {
      seq(len, i requires 0 <= i < len && Valid() reads this, data => data[Slot(i)])
    }

    constructor (capacity: nat)
      requires capacity > 0
      ensures Valid() && fresh(data) && data.Length == capacity && Contents() == []
    {
      data := new T[capacity];
      head, len := 0, 0;
    }

    /** Replaces the storage behind the shared handle. */
    method Reset(capacity: nat)
      requires capacity > 0
      modifies this
      ensures Valid() && fresh(data) && data.Length == capacity && Contents() == []
    {
      data := new T[capacity];
      head, len := 0, 0;
    }

    method Skip(count: nat)
      requires Valid()
      modifies this`head, this`len
      ensures Valid()
      ensures Contents() == old(Contents())[Min(count, old(len))..]
    {
      var n := Min(count, len);
      head := Slot(n);
      len := len - n;
    }

    method Push(x: T)
      requires Valid() && len < data.Length
      modifies this`len, data
      ensures Valid()
      ensures Contents() == old(Contents()) + [x]
    {
      data[Slot(len)] := x;
      len := len + 1;
    }

    method PushSlice(elems: seq<T>)
      requires Valid() && len + |elems| <= data.Length
      modifies this`len, data
      ensures Valid()
      ensures Contents() == old(Contents()) + elems
    {
      ghost var kept := Contents();
      assert kept + elems[..0] == kept;
      for i := 0 to |elems|
        invariant Valid() && len == |kept| + i
        invariant Contents() == kept + elems[..i]
      {
        Push(elems[i]);
        assert kept + elems[..i] + [elems[i]] == kept + elems[..i + 1];
      }
      assert elems[..|elems|] == elems;
    }

    method PushSliceOverwrite(elems: seq<T>)
      requires Valid()
      modifies this`head, this`len, data
      ensures Valid()
      ensures Contents() == LastN(old(Contents()) + elems, data.Length)
    {
      ghost var s := Contents();
      if |elems| > data.Length - len {
        Skip(|elems| - (data.Length - len));
      }
      ghost var kept := Contents();
      assert kept == s[if |elems| > data.Length - |s| then Min(|elems| - (data.Length - |s|), |s|) else 0..];
      var vacant := data.Length - len;
      var tail := if |elems| > vacant then elems[|elems| - vacant..] else elems;
      assert tail == elems[if |elems| > data.Length - |kept| then |elems| - (data.Length - |kept|) else 0..];
      NewestKept(s, elems, data.Length, kept, tail);
      PushSlice(tail);
    }

    /** The part of an append that holds the lock. */
    method Append(buffer: seq<T>) returns (level: nat)
      requires Valid()
      modifies this`head, this`len, data
      ensures Valid() && level == len
      ensures Contents() == LastN(old(Contents()) + buffer, data.Length)
    {
      var cap := data.Length;
      ghost var before := Contents();
      if |buffer| > cap {
        PushSliceOverwrite(buffer);
        return cap;
      }
      var having := len + |buffer|;
      if having > cap {
        Skip(having - cap);
      }
      assert Contents() == before[if having > cap then having - cap else 0..];
      LastOfBoth(before, buffer, cap, Contents());
      PushSliceOverwrite(buffer);
      level := len;
    }

    /** The sound card callback: as many buffered samples as there are, then silence. */
    method FillOutput(out: array<T>, silence: T)
      requires Valid() && out != data
      modifies this`head, this`len, out
      ensures Valid()
      ensures Contents() == old(Contents())[Min(out.Length, old(len))..]
      ensures forall s: State<T> :: s.buf == old(Contents()) ==> AfterPlay(s, out.Length) == s.(buf := Contents())
      ensures out[..] == old(Contents())[..Min(out.Length, old(len))]
                         + seq(out.Length - Min(out.Length, old(len)), _ => silence)
    {
      var n := out.Length;
      if len < n {
        n := len;
      }
      for i := 0 to out.Length
        modifies out
        invariant forall k :: 0 <= k < i ==> out[k] == if k < n then old(Contents())[k] else silence
      {
        out[i] := if i < n then data[Slot(i)] else silence;
      }
      Skip(n);
    }
  }

  // ---------------------------------------------------------------- the buffer

  /** The time of the last statistics pass. All buffers of the process share one. */
  class ShrinkTimer {
    var tms: int
    constructor () ensures tms == 0 { tms := 0; }
  }

  class AudioBuffer<T(0)> {
    const ring: Ring<T>
    var rate: nat
    const hist: array<nat>

    ghost predicate Valid()
      reads this, ring, hist
    {
      ring.Valid() && Shape().Valid() && hist as object != ring.data
    }

    ghost function Shape(): State<T>
      reads this, ring, hist
    {
      if ring.Valid() then State(rate, ring.data.Length, [], hist[..]) else State(0, 0, [], [])
    }

    ghost function Abs(): (s: State<T>)
      requires Valid()
      reads this, ring, ring.data, hist
      ensures s.Valid()
    {
      State(rate, ring.data.Length, ring.Contents(), hist[..])
    }

    constructor ()
      ensures Valid() && fresh(ring) && fresh(ring.data) && fresh(hist)
      ensures Abs() == State(96000, 288000, [], Zeros())
    {
      ring := new Ring(48000 * 2 * BUFFER_MS / 1000);
      rate := 48000 * 2;
      hist := new nat[BUCKETS](_ => 0);
      new;
      assert hist[..] == Zeros();
    }

    method Resize(sampleRate: nat, channels: nat)
      requires Valid() && sampleRate > 0 && channels > 0
      modifies this, ring
      ensures Valid()
      ensures sampleRate * channels > 0 && Abs() == AfterResize(old(Abs()), sampleRate * channels)
    {
      MulMono(1, sampleRate, channels);
      var capacity := sampleRate * channels * BUFFER_MS / 1000;
      if capacity != ring.data.Length {
        ring.Reset(capacity);
        rate := sampleRate * channels;
      }
    }

    /** The single pass over the histogram that finds the leading empty buckets and
        the fullest bucket while it clears the counters. */
    method DrainHistogram() returns (zero: nat, max: nat)
      requires hist.Length == BUCKETS
      modifies hist
      ensures zero == LeadingZeros(old(hist[..])) && max == Peak(old(hist[..]))
      ensures hist[..] == Zeros()
    {
      ghost var h := hist[..];
      zero, max := 0, 0;
      for i := 0 to BUCKETS
        invariant forall k :: i <= k < BUCKETS ==> hist[k] == h[k]
        invariant zero <= i && (forall k :: 0 <= k < zero ==> h[k] == 0) && (zero < i ==> h[zero] > 0)
        invariant max <= i && (max > 0 ==> max < i)
        invariant IsPeak(h[..i], max)
        invariant forall k :: 0 <= k < i && k != max ==> hist[k] == 0
        invariant 0 < max ==> hist[max] == h[max]
        invariant max == 0 && i > 0 ==> hist[0] == 0
      {
        if hist[i] == 0 && zero == i {
          zero := zero + 1;
        }
        if hist[i] > hist[max] {
          hist[max] := 0;
          max := i;
        } else {
          hist[i] := 0;
        }
      }
      assert h[..BUCKETS] == h;
      PeakIsUnique(h, max);
      hist[max] := 0;
      assert hist[..] == Zeros();
    }

    /** Counts the level, and says whether the twelve-second window is over. */
    method CountLevel(having: nat, now: int, timer: ShrinkTimer) returns (fire: bool)
      requires Valid()
      modifies timer, hist
      ensures Valid() && hist[..] == Recorded(old(hist[..]), Bucket(having, rate))
      ensures var t := old(timer.tms);
              fire == WindowOver(t, now) && timer.tms == TimerAfter(t, now)
    {
      var i := having * 10 / rate;
      if i > 29 {
        i := 29;
      }
      assert i == Bucket(having, rate);
      hist[i] := hist[i] + 1;
      if timer.tms == 0 {
        timer.tms := now;
        return false;
      } else if now < timer.tms + WINDOW_MS {
        return false;
      }
      timer.tms := now;
      return true;
    }

    /** Drops old samples, given the leading empty buckets and the peak bucket. */
    method DropOld(empty: nat, peak: nat)
      requires Valid()
      modifies ring`head, ring`len
      ensures Valid()
      ensures ring.Contents() == old(ring.Contents())[DropWith(ring.data.Length, empty, peak, old(ring.len))..]
    {
      var zero, max := empty * 2 / 3, peak;
      assert ring.Contents()[0..] == ring.Contents();
      if max < 6 {
        return;
      } else if max > zero * 4 {
        max := zero * 4;
      }
      var skip := (ring.data.Length * max / (30 * 4) + 1) / 2 * 2; // clears the lowest bit
      if ring.len > skip * 3 && skip > 0 {
        ring.Skip(skip);
      }
    }

    method TryShrink(having: nat, now: int, timer: ShrinkTimer)
      requires Valid()
      modifies timer, hist, ring`head, ring`len
      ensures Valid()
      ensures var t := old(timer.tms);
              Abs() == AfterMeasure(old(Abs()), having, WindowOver(t, now)) && timer.tms == TimerAfter(t, now)
    {
      ghost var s := Abs();
      var fire := CountLevel(having, now, timer);
      assert ring.Contents() == s.buf;
      if fire {
        var zero, max := DrainHistogram();
        assert ring.Contents() == s.buf;
        DropOld(zero, max);
        FiredMeasure(s, having, zero, max, ring.Contents());
        assert Abs() == State(s.rate, s.cap, ring.Contents(), Zeros());
      } else {
        assert Abs() == s.(hist := hist[..]);
      }
    }

    /** Appends a chunk, keeping the newest samples, and returns the new fill level. */
    method AppendPcm2(buffer: seq<T>) returns (level: nat)
      requires Valid()
      modifies ring`head, ring`len, ring.data
      ensures Valid() && ring.data == old(ring.data)
      ensures Abs() == AfterAppend(old(Abs()), buffer)
      ensures level == |Abs().buf|
    {
      level := ring.Append(buffer);
    }

    method AppendPcm(buffer: seq<T>, now: int, timer: ShrinkTimer)
      requires Valid()
      modifies timer, hist, ring`head, ring`len, ring.data
      ensures Valid()
      ensures var s := AfterAppend(old(Abs()), buffer);
              var t := old(timer.tms);
              Abs() == AfterMeasure(s, |s.buf|, WindowOver(t, now)) && timer.tms == TimerAfter(t, now)
    {
      var having := AppendPcm2(buffer);
      TryShrink(having, now, timer);
    }
  }
}
