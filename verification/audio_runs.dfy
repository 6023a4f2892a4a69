/** What holds of the playback buffer over whole runs: appends by the decoder thread,
    statistics steps, callbacks of the sound card and resizes, in any order. */
module AudioRuns {
  import opened Wrappers
  import opened AudioPlayback

  datatype Event<T> =
    | Append(chunk: seq<T>)
    | Measure(level: nat, fire: bool)
    | Play(count: nat)
    | Resize(newRate: nat)

  function Step<T>(s: State<T>, e: Event<T>): (r: State<T>)
    requires s.Valid()
    requires e.Resize? ==> e.newRate > 0
    ensures r.Valid()
  {
    match e
    case Append(chunk) => AfterAppend(s, chunk)
    case Measure(level, fire) => AfterMeasure(s, level, fire)
    case Play(count) => AfterPlay(s, count)
    case Resize(newRate) => AfterResize(s, newRate)
  }

  ghost predicate Legal<T>(evs: seq<Event<T>>) {
    forall e :: e in evs ==> e.Resize? ==> e.newRate > 0
  }

  predicate SameRate<T>(e: Event<T>, rate: nat) { e.Resize? ==> e.newRate == rate }

  /** All resizes are to the rate that is in force already. */
  ghost predicate Steady<T>(evs: seq<Event<T>>, rate: nat) {
    forall e :: e in evs ==> SameRate(e, rate)
  }

  function Run<T>(s: State<T>, evs: seq<Event<T>>): (r: State<T>)
    requires s.Valid() && Legal(evs)
    ensures r.Valid()
  {
    if evs == [] then s
    else
      assert forall e :: e in evs[..|evs| - 1] ==> e in evs;
      Step(Run(s, evs[..|evs| - 1]), evs[|evs| - 1])
  }

  // ---------------------------------------------------------------- conservation

  function Chunk<T>(e: Event<T>): (r: seq<T>) {
    match e case Append(chunk) => chunk case _ => []
  }

  /** The stream the decoder has produced. */
  function Produced<T>(evs: seq<Event<T>>): (r: seq<T>) {
    if evs == [] then [] else Produced(evs[..|evs| - 1]) + Chunk(evs[|evs| - 1])
  }

  /** How many samples one step takes out of the buffer. */
  function Leaving<T>(s: State<T>, e: Event<T>): (n: nat)
    requires s.Valid()
  {
    match e
    case Append(chunk) => if |s.buf| + |chunk| > s.cap then |s.buf| + |chunk| - s.cap else 0
    case Measure(level, fire) =>
      if fire then DropCount(s.cap, Recorded(s.hist, Bucket(level, s.rate)), |s.buf|) else 0
    case Play(count) => Min(count, |s.buf|)
    case Resize(_) => 0
  }

  function Gone<T>(s: State<T>, evs: seq<Event<T>>): (n: nat)
    requires s.Valid() && Legal(evs)
  {
    if evs == [] then 0
    else
      assert forall e :: e in evs[..|evs| - 1] ==> e in evs;
      var before := evs[..|evs| - 1];
      Gone(s, before) + Leaving(Run(s, before), evs[|evs| - 1])
  }

  lemma StepTakesFromFront<T>(s: State<T>, e: Event<T>)
    requires s.Valid() && SameRate(e, s.rate)
    ensures Leaving(s, e) <= |s.buf + Chunk(e)|
    ensures Step(s, e).buf == (s.buf + Chunk(e))[Leaving(s, e)..] && Step(s, e).cap == s.cap && Step(s, e).rate == s.rate
  {
    assert s.buf + [] == s.buf;
  }

  lemma OneMoreStep<T>(s: State<T>, before: seq<Event<T>>, e: Event<T>)
    requires s.Valid() && Legal(before + [e])
    ensures Legal(before)
    ensures Run(s, before + [e]) == Step(Run(s, before), e)
    ensures Produced(before + [e]) == Produced(before) + Chunk(e)
    ensures Gone(s, before + [e]) == Gone(s, before) + Leaving(Run(s, before), e)
  {
    assert (before + [e])[..|before|] == before;
    assert forall x :: x in before ==> x in before + [e];
  }

  ghost predicate IsFifo<T>(s: State<T>, stream: seq<T>, gone: nat, now: State<T>) {
    gone <= |stream| && now.buf == stream[gone..] && now.cap == s.cap && now.rate == s.rate && |now.buf| <= s.cap
  }

  /** First in, first out, and nothing lost or invented: as long as the rate does not
      change, in spite of resizes to the rate in force, the buffer is the produced stream
      without exactly the samples that were played or dropped, all of them taken from the
      front. */
  lemma {:induction false} FirstInFirstOut<T>(s: State<T>, evs: seq<Event<T>>)
    requires s.Valid() && Steady(evs, s.rate)
    ensures Legal(evs) && IsFifo(s, s.buf + Produced(evs), Gone(s, evs), Run(s, evs))
  {
    if evs == [] {
      assert s.buf + [] == s.buf;
    } else {
      var before, e := evs[..|evs| - 1], evs[|evs| - 1];
      assert evs == before + [e] && e in evs && forall x :: x in before ==> x in evs;
      FirstInFirstOut(s, before);
      FifoExtends(s, before, e);
    }
  }

  lemma FifoStep<T>(s: State<T>, stream: seq<T>, g: nat, mid: State<T>, e: Event<T>,
                    stream': seq<T>, g': nat, now: State<T>)
    requires mid.Valid() && SameRate(e, mid.rate) && IsFifo(s, stream, g, mid)
    requires stream' == stream + Chunk(e) && g' == g + Leaving(mid, e) && now == Step(mid, e)
    ensures IsFifo(s, stream', g', now)
  {
    StepTakesFromFront(mid, e);
    assert mid.buf + Chunk(e) == stream'[g..];
  }

  lemma FifoExtends<T>(s: State<T>, before: seq<Event<T>>, e: Event<T>)
    requires s.Valid() && Legal(before + [e]) && Legal(before) && SameRate(e, s.rate)
    requires IsFifo(s, s.buf + Produced(before), Gone(s, before), Run(s, before))
    ensures IsFifo(s, s.buf + Produced(before + [e]), Gone(s, before + [e]), Run(s, before + [e]))
  {
    var stream, g, mid := s.buf + Produced(before), Gone(s, before), Run(s, before);
    OneMoreStep(s, before, e);
    Associative(s.buf, Produced(before), Chunk(e));
    FifoStep(s, stream, g, mid, e, s.buf + Produced(before + [e]), Gone(s, before + [e]), Run(s, before + [e]));
  }

  /** Any other resize empties the buffer, keeps three seconds of the new rate and leaves
      the histogram as it is. */
  lemma ResizeEmpties<T>(s: State<T>, rate: nat)
    requires s.Valid() && rate > 0
    ensures var r := Step(s, Resize(rate));
            r.rate == rate && r.cap == 3 * rate && r.hist == s.hist && r.buf == if rate == s.rate then s.buf else []
  {
  }

  predicate EvenEvent<T>(e: Event<T>) { |Chunk(e)| % 2 == 0 && (e.Play? ==> e.count % 2 == 0) }

  lemma LeavesEvenly<T>(s: State<T>, e: Event<T>)
    requires s.Valid() && SameRate(e, s.rate) && s.cap % 2 == 0 && |s.buf| % 2 == 0 && EvenEvent(e)
    ensures Leaving(s, e) % 2 == 0
  {
    if e.Append? {
      EvenSum(|s.buf|, |e.chunk|);
      if |s.buf| + |e.chunk| > s.cap { EvenDifference(|s.buf| + |e.chunk|, s.cap); }
    }
  }

  lemma StepTakesEvenly<T>(s: State<T>, e: Event<T>)
    requires s.Valid() && SameRate(e, s.rate) && s.cap % 2 == 0 && |s.buf| % 2 == 0 && EvenEvent(e)
    ensures Leaving(s, e) % 2 == 0 && |Step(s, e).buf| % 2 == 0
  {
    LeavesEvenly(s, e);
    StepTakesFromFront(s, e);
    EvenSum(|s.buf|, |Chunk(e)|);
    EvenDifference(|s.buf| + |Chunk(e)|, Leaving(s, e));
  }

  lemma EvenDifference(a: nat, b: nat)
    requires a % 2 == 0 && b % 2 == 0
    ensures (a - b) % 2 == 0
  {
  }

  /** Samples alternate left, right: at a rate for two channels, with even chunks and
      even callbacks, the oldest buffered sample is always a left one. */
  lemma {:induction false} StereoAlignment<T>(s: State<T>, evs: seq<Event<T>>)
    requires s.Valid() && Steady(evs, s.rate)
    requires s.rate % 2 == 0 && |s.buf| % 2 == 0
    requires forall e :: e in evs ==> EvenEvent(e)
    ensures Legal(evs) && Gone(s, evs) % 2 == 0 && |Run(s, evs).buf| % 2 == 0
  {
    if evs != [] {
      var before, e := evs[..|evs| - 1], evs[|evs| - 1];
      assert evs == before + [e] && e in evs && forall x :: x in before ==> x in evs;
      StereoAlignment(s, before);
      EvenExtends(s, before, e);
    }
  }

  lemma EvenExtends<T>(s: State<T>, before: seq<Event<T>>, e: Event<T>)
    requires s.Valid() && s.rate % 2 == 0 && EvenEvent(e)
    requires Legal(before + [e]) && Steady(before, s.rate) && Legal(before) && SameRate(e, s.rate)
    requires Gone(s, before) % 2 == 0 && |Run(s, before).buf| % 2 == 0
    ensures Gone(s, before + [e]) % 2 == 0 && |Run(s, before + [e]).buf| % 2 == 0
  {
    FirstInFirstOut(s, before);
    EvenTriple(s.rate, s.cap);
    OneMoreStep(s, before, e);
    EvenStep(Run(s, before), e, Gone(s, before), Gone(s, before + [e]), Run(s, before + [e]));
  }

  lemma EvenStep<T>(mid: State<T>, e: Event<T>, g: nat, g': nat, now: State<T>)
    requires mid.Valid() && SameRate(e, mid.rate) && mid.cap % 2 == 0 && |mid.buf| % 2 == 0 && EvenEvent(e)
    requires g % 2 == 0 && g' == g + Leaving(mid, e) && now == Step(mid, e)
    ensures g' % 2 == 0 && |now.buf| % 2 == 0
  {
    StepTakesEvenly(mid, e);
    EvenSum(g, Leaving(mid, e));
  }

  lemma EvenTriple(a: nat, b: nat)
    requires a % 2 == 0 && b == 3 * a
    ensures b % 2 == 0
  {
    assert b == 2 * (3 * (a / 2));
  }

  lemma EvenSum(a: nat, b: nat)
    requires a % 2 == 0 && b % 2 == 0
    ensures (a + b) % 2 == 0
  {
  }

  // ---------------------------------------------------------------- the drop bound

  /** A level that is still counted in the histogram, and the rate it was counted at. */
  datatype Mark = Mark(level: nat, rate: nat)

  /** The levels counted since the histogram was last cleared. */
  function Window<T>(s: State<T>, evs: seq<Event<T>>): (w: seq<Mark>)
    requires s.Valid() && Legal(evs)
    ensures forall m :: m in w ==> m.rate > 0
  {
    if evs == [] then []
    else
      assert forall e :: e in evs[..|evs| - 1] ==> e in evs;
      var before := evs[..|evs| - 1];
      var w := Window(s, before);
      match evs[|evs| - 1]
      case Measure(level, fire) => if fire then [] else w + [Mark(level, Run(s, before).rate)]
      case _ => w
  }

  ghost predicate Rated(w: seq<Mark>) { forall m :: m in w ==> m.rate > 0 }

  function Count(w: seq<Mark>, b: nat): (n: nat)
    requires Rated(w)
  {
    if w == [] then 0
    else
      assert forall m :: m in w[..|w| - 1] ==> m in w;
      var last := w[|w| - 1];
      assert last in w;
      Count(w[..|w| - 1], b) + if Bucket(last.level, last.rate) == b then 1 else 0
  }

  ghost predicate Tallies(h: seq<nat>, w: seq<Mark>) {
    |h| == BUCKETS && Rated(w) && forall b :: 0 <= b < BUCKETS ==> h[b] == Count(w, b)
  }

  lemma TallyOneMore(h: seq<nat>, w: seq<Mark>, m: Mark)
    requires Tallies(h, w) && m.rate > 0
    ensures Tallies(Recorded(h, Bucket(m.level, m.rate)), w + [m])
  {
    assert (w + [m])[..|w|] == w;
  }

  /** The histogram always counts exactly the levels of the current window. */
  lemma {:induction false} HistogramCountsWindow<T>(s: State<T>, evs: seq<Event<T>>)
    requires s.Valid() && s.hist == Zeros() && Legal(evs)
    ensures Tallies(Run(s, evs).hist, Window(s, evs))
  {
    if evs != [] {
      var before, e := evs[..|evs| - 1], evs[|evs| - 1];
      assert forall x :: x in before ==> x in evs;
      HistogramCountsWindow(s, before);
      if e.Measure? && !e.fire {
        TallyOneMore(Run(s, before).hist, Window(s, before), Mark(e.level, Run(s, before).rate));
      }
    }
  }

  lemma {:induction false} CountedMark(w: seq<Mark>, m: Mark)
    requires Rated(w) && m in w
    ensures m.rate > 0 && Count(w, Bucket(m.level, m.rate)) > 0
  {
    var front, last := w[..|w| - 1], w[|w| - 1];
    if last != m {
      assert m in front;
      assert forall x :: x in front ==> x in w;
      CountedMark(front, m);
    }
  }

  /** No level of the window lies below the leading empty buckets. */
  lemma LevelAboveEmptyBuckets(h: seq<nat>, w: seq<Mark>, m: Mark)
    requires Tallies(h, w) && m in w
    ensures m.rate > 0 && LeadingZeros(h) < BUCKETS
    ensures LeadingZeros(h) * m.rate <= 10 * m.level
  {
    CountedMark(w, m);
    var b := Bucket(m.level, m.rate);
    BucketBounds(m.level, m.rate);
    assert h[b] > 0;
    MulMono(LeadingZeros(h), b, m.rate);
  }

  lemma SkipBound(rate: nat, zero: nat, peak: nat)
    ensures 15 * SkipAmount(3 * rate, zero, peak) <= zero * rate + 15
  {
    if peak >= 6 {
      var z := zero * 2 / 3;
      var m := if peak > z * 4 then z * 4 else peak;
      TimesRate(rate, zero, m);
      EvenPart(3 * rate * m);
    }
  }

  lemma TimesRate(rate: nat, zero: nat, m: nat)
    requires 3 * m <= 8 * zero
    ensures 3 * rate * m <= 8 * (zero * rate)
  {
    MulMono(3 * m, 8 * zero, rate);
    assert 3 * m * rate == 3 * rate * m && 8 * zero * rate == 8 * (zero * rate);
  }

  lemma EvenPart(x: nat)
    ensures 120 * ((x / 120 + 1) / 2 * 2) <= x + 120
  {
  }

  lemma ScaledBound(d: nat, zero: nat, rate: nat, m: Mark)
    requires 15 * d <= zero * rate + 15
    requires zero * m.rate <= 10 * m.level
    ensures 3 * d * m.rate <= 2 * m.level * rate + 3 * m.rate
  {
    MulMono(15 * d, zero * rate + 15, m.rate);
    MulMono(zero * m.rate, 10 * m.level, rate);
    assert 15 * d * m.rate == 5 * (3 * d * m.rate);
    assert (zero * rate + 15) * m.rate == zero * m.rate * rate + 15 * m.rate;
    assert 10 * m.level * rate == 5 * (2 * m.level * rate);
  }

  /** What one statistics step drops after a run. */
  ghost function Dropped<T>(s: State<T>, evs: seq<Event<T>>, level: nat): (d: int)
    requires s.Valid() && Legal(evs)
  {
    var now := Run(s, evs);
    |now.buf| - |AfterMeasure(now, level, true).buf|
  }

  /** The drop bound. A drop never exceeds two thirds of any level counted in the
      window (up to rounding to an even number). All levels are compared in seconds, those
      counted at the current rate or at a higher one in samples too. */
  lemma DropBound<T>(s: State<T>, evs: seq<Event<T>>, level: nat, m: Mark)
    requires s.Valid() && s.hist == Zeros() && Legal(evs)
    requires m in Window(s, evs) + [Mark(level, Run(s, evs).rate)]
    ensures 3 * Dropped(s, evs, level) * m.rate <= 2 * m.level * Run(s, evs).rate + 3 * m.rate
    ensures m.rate >= Run(s, evs).rate ==> 3 * Dropped(s, evs, level) <= 2 * m.level + 3
  {
    var now := Run(s, evs);
    var w := Window(s, evs);
    HistogramCountsWindow(s, evs);
    TallyOneMore(now.hist, w, Mark(level, now.rate));
    var h := Recorded(now.hist, Bucket(level, now.rate));
    LevelAboveEmptyBuckets(h, w + [Mark(level, now.rate)], m);
    SkipBound(now.rate, LeadingZeros(h), Peak(h));
    var d := DropCount(now.cap, h, |now.buf|);
    assert Dropped(s, evs, level) == d;
    ScaledBound(d, LeadingZeros(h), now.rate, m);
    if m.rate >= now.rate { SampleBound(d, LeadingZeros(h), now.rate, m); }
  }

  lemma SampleBound(d: nat, zero: nat, rate: nat, m: Mark)
    requires 15 * d <= zero * rate + 15 && rate <= m.rate
    requires zero * m.rate <= 10 * m.level
    ensures 3 * d <= 2 * m.level + 3
  {
    MulMono(rate, m.rate, zero);
  }

  /** A drop needs a level of at least 600 ms somewhere in the window, no level below
      200 ms, and leaves more than two thirds of what is buffered. */
  lemma DropNeeds<T>(s: State<T>, evs: seq<Event<T>>, level: nat)
    requires s.Valid() && s.hist == Zeros() && Legal(evs)
    ensures var now := Run(s, evs);
            var w := Window(s, evs) + [Mark(level, now.rate)];
            Dropped(s, evs, level) > 0 ==>
              && Dropped(s, evs, level) % 2 == 0
              && 3 * Dropped(s, evs, level) < |now.buf|
              && (exists m :: m in w && 10 * m.level >= 6 * m.rate)
              && (forall m :: m in w ==> 10 * m.level >= 2 * m.rate)
  {
    var now := Run(s, evs);
    var w := Window(s, evs) + [Mark(level, now.rate)];
    HistogramCountsWindow(s, evs);
    TallyOneMore(now.hist, Window(s, evs), Mark(level, now.rate));
    var h := Recorded(now.hist, Bucket(level, now.rate));
    assert Dropped(s, evs, level) == DropCount(now.cap, h, |now.buf|);
    if Dropped(s, evs, level) > 0 {
      DropNeedsBuckets(now.cap, h, |now.buf|);
      WindowLevels(h, w);
    }
  }

  lemma DropNeedsBuckets(cap: nat, h: seq<nat>, having: nat)
    requires DropCount(cap, h, having) > 0
    ensures Peak(h) >= 6 && LeadingZeros(h) >= 2
  {
    assert cap * 0 == 0;
  }

  lemma WindowLevels(h: seq<nat>, w: seq<Mark>)
    requires Tallies(h, w) && Peak(h) >= 6 && LeadingZeros(h) >= 2
    ensures exists m :: m in w && 10 * m.level >= 6 * m.rate
    ensures forall m :: m in w ==> 10 * m.level >= 2 * m.rate
  {
    forall m | m in w ensures 10 * m.level >= 2 * m.rate {
      LevelAboveEmptyBuckets(h, w, m);
      MulMono(2, LeadingZeros(h), m.rate);
    }
    var m := MarkOf(w, Peak(h));
    BucketBounds(m.level, m.rate);
    MulMono(6, Peak(h), m.rate);
  }

  lemma {:induction false} MarkOf(w: seq<Mark>, b: nat) returns (m: Mark)
    requires Rated(w) && Count(w, b) > 0
    ensures m in w && m.rate > 0 && Bucket(m.level, m.rate) == b
  {
    m := w[|w| - 1];
    assert m in w;
    if Bucket(m.level, m.rate) != b {
      assert forall x :: x in w[..|w| - 1] ==> x in w;
      m := MarkOf(w[..|w| - 1], b);
    }
  }

  // ---------------------------------------------------------------- the size of a drop

  /** The water mark: the peak bucket, but at most four times two thirds of the leading
      empty buckets, these rounded down to `z`. */
  ghost predicate IsWaterMark(zero: nat, z: nat, peak: nat, m: nat) {
    3 * z <= 2 * zero < 3 * z + 3 && m <= peak && m <= 4 * z && (m == peak || m == 4 * z)
  }

  /** The skip, exactly: the only even number within one sample of the share that the water
      mark has of the capacity, in 120ths. */
  lemma SkipIs(cap: nat, zero: nat, z: nat, peak: nat, m: nat, k: nat)
    requires IsWaterMark(zero, z, peak, m) && peak >= 6
    ensures k == SkipAmount(cap, zero, peak) <==> k % 2 == 0 && cap * m < 120 * k + 120 <= cap * m + 240
  {
    assert z == zero * 2 / 3;
    EvenShare(cap * m, k);
  }

  lemma EvenShare(x: nat, k: nat)
    ensures k == (x / 120 + 1) / 2 * 2 <==> k % 2 == 0 && x < 120 * k + 120 <= x + 240
  {
    var f := x / 120;
    assert 120 * f <= x < 120 * f + 120;
    assert (f + 1) / 2 * 2 == if f % 2 == 0 then f else f + 1;
  }

  lemma SkipTwoSided(rate: nat, zero: nat, peak: nat)
    requires peak >= 6
    ensures var k := SkipAmount(3 * rate, zero, peak);
            && 40 * k <= rate * peak + 40 && 15 * k <= zero * rate + 15
            && (120 * k + 120 >= rate * (3 * peak) || 120 * k + 120 >= rate * (8 * zero - 8))
  {
    var z := zero * 2 / 3;
    var m := if peak > 4 * z then 4 * z else peak;
    SkipIs(3 * rate, zero, z, peak, m, SkipAmount(3 * rate, zero, peak));
    SkipBound(rate, zero, peak);
    MarkTwoSided(rate, zero, peak, m, SkipAmount(3 * rate, zero, peak));
  }

  lemma MarkTwoSided(rate: nat, zero: nat, peak: nat, m: nat, k: nat)
    requires 3 * rate * m < 120 * k + 120 <= 3 * rate * m + 240 && m <= peak && (m == peak || 3 * m >= 8 * zero - 8)
    ensures 40 * k <= rate * peak + 40
    ensures 120 * k + 120 >= rate * (3 * peak) || 120 * k + 120 >= rate * (8 * zero - 8)
  {
    Thrice(rate, m);
    Thrice(rate, peak);
    MulMono(m, peak, rate);
    if m != peak { Scaled(rate, 8 * zero - 8, 3 * m); }
  }

  lemma Thrice(a: nat, b: nat)
    ensures 3 * a * b == 3 * (a * b) == a * (3 * b)
  {
  }

  lemma Scaled(rate: nat, a: int, b: int)
    requires a <= b
    ensures rate * a <= rate * b
  {
  }

  /** What one statistics step drops, after any run: nothing while the peak is below bucket
      6 or no more than three times the skip is buffered, and otherwise the whole skip,
      which grows with the peak or with the leading empty buckets. */
  lemma DropSize<T>(s: State<T>, evs: seq<Event<T>>, level: nat) returns (k: nat)
    requires s.Valid() && s.hist == Zeros() && Legal(evs)
    ensures var now := Run(s, evs);
            var h := Recorded(now.hist, Bucket(level, now.rate));
            && Tallies(h, Window(s, evs) + [Mark(level, now.rate)])
            && (Peak(h) < 6 ==> Dropped(s, evs, level) == 0)
            && (Peak(h) >= 6 ==>
                && k % 2 == 0 && Dropped(s, evs, level) == (if |now.buf| > 3 * k then k else 0)
                && 40 * k <= now.rate * Peak(h) + 40 && 15 * k <= LeadingZeros(h) * now.rate + 15
                && (120 * k + 120 >= now.rate * (3 * Peak(h)) || 120 * k + 120 >= now.rate * (8 * LeadingZeros(h) - 8)))
  {
    var now := Run(s, evs);
    HistogramCountsWindow(s, evs);
    TallyOneMore(now.hist, Window(s, evs), Mark(level, now.rate));
    var h := Recorded(now.hist, Bucket(level, now.rate));
    k := SkipAmount(now.cap, LeadingZeros(h), Peak(h));
    assert Dropped(s, evs, level) == DropCount(now.cap, h, |now.buf|);
    if Peak(h) >= 6 { SkipTwoSided(now.rate, LeadingZeros(h), Peak(h)); }
  }

  /** Six empty buckets, peak bucket 20, three seconds at 96 kHz: a fifth of the rate per
      five buckets of the water mark 16. */
  lemma SkipExample()
    ensures SkipAmount(288000, 6, 20) == 38400 && DropWith(288000, 6, 20, 200000) == 38400
  {
    SkipIs(288000, 6, 4, 20, 16, 38400);
  }

  // ---------------------------------------------------------------- the twelve seconds

  /** Which of the statistics steps at the given times, in milliseconds, end a window. */
  function Ends(t: int, times: seq<int>): (ends: seq<bool>)
    ensures |ends| == |times|
    decreases |times|
  {
    if times == [] then []
    else [WindowOver(t, times[0])] + Ends(TimerAfter(t, times[0]), times[1..])
  }

  /** A window lasts twelve seconds: from a running timer, or else from the first step, no
      step ends it before, and the first one after does. */
  lemma {:induction false} WindowEndsIff(t: int, times: seq<int>, j: nat)
    requires j < |times| && (forall i :: 0 <= i < |times| ==> times[i] != 0) && (forall i :: 0 <= i < j ==> !Ends(t, times)[i])
    ensures Ends(t, times)[j] <==> (t != 0 || j > 0) && times[j] >= (if t != 0 then t else times[0]) + 12_000
    decreases |times|
  {
    if j > 0 {
      var t', rest := TimerAfter(t, times[0]), times[1..];
      assert !Ends(t, times)[0];
      forall i | 0 <= i < j - 1 ensures !Ends(t', rest)[i] { assert !Ends(t, times)[i + 1]; }
      WindowEndsIff(t', rest, j - 1);
    }
  }

  /** The next window starts where this one ends. */
  lemma {:induction false} NextWindow(t: int, times: seq<int>, i: nat)
    requires i < |times| && Ends(t, times)[i]
    ensures Ends(t, times)[i + 1..] == Ends(times[i], times[i + 1..])
    decreases |times|
  {
    if i > 0 {
      var rest := times[1..];
      NextWindow(TimerAfter(t, times[0]), rest, i - 1);
      assert rest[i..] == times[i + 1..];
      assert Ends(t, times)[i + 1..] == Ends(TimerAfter(t, times[0]), rest)[i..];
    } else {
      assert Ends(t, times)[1..] == Ends(TimerAfter(t, times[0]), times[1..]);
    }
  }
}
