/** Where the drop rule keeps what its comment says, and where the drop bound holds in
    samples: both exactly. */
module AudioLimits {
  import opened Wrappers
  import opened AudioPlayback
  import opened AudioRuns

  function Fresh<T>(rate: nat): (s: State<T>)
    requires rate > 0
    ensures s.Valid()
  {
    State(rate, 3 * rate, [], Zeros())
  }

  // ---------------------------------------------------------------- nothing dropped below 600 ms

  /** With these two buckets nothing is dropped from less than 600 ms. */
  ghost predicate Keeps600ms(rate: nat, zero: nat, peak: nat) {
    forall having: nat :: DropWith(3 * rate, zero, peak, having) > 0 ==> 10 * having >= 6 * rate
  }

  /** The least fill level that is dropped from is one more than three times the skip. */
  lemma Keeps600msIff(rate: nat, zero: nat, peak: nat)
    ensures var k := SkipAmount(3 * rate, zero, peak);
            Keeps600ms(rate, zero, peak) <==> k == 0 || 30 * k + 10 >= 6 * rate
  {
    var k := SkipAmount(3 * rate, zero, peak);
    if k > 0 { assert DropWith(3 * rate, zero, peak, 3 * k + 1) == k; }
  }

  /** At the usual rates the buckets alone decide: the rule looks for a peak of 600 ms
      where it would need one of 800 ms, and no level below 300 ms. */
  lemma Keeps600msInBuckets(rate: nat, zero: nat, peak: nat)
    requires rate >= 60 && rate % 5 == 0
    ensures Keeps600ms(rate, zero, peak) <==> peak < 6 || zero < 2 || (peak >= 8 && zero >= 3)
  {
    Keeps600msIff(rate, zero, peak);
    if peak >= 6 && zero >= 2 {
      var m := WaterMark(zero, peak);
      assert SkipAmount(3 * rate, zero, peak) == (3 * rate * m / 120 + 1) / 2 * 2;
      SkipSize(rate, m);
    } else if peak >= 6 {
      assert zero * 2 / 3 == 0 && SkipAmount(3 * rate, zero, peak) == (3 * rate * 0 / 120 + 1) / 2 * 2 == 0;
    }
  }

  lemma WaterMark(zero: nat, peak: nat) returns (m: nat)
    requires zero >= 2 && peak >= 6
    ensures m == (if peak > zero * 2 / 3 * 4 then zero * 2 / 3 * 4 else peak)
    ensures m >= 4 && (m >= 8 <==> peak >= 8 && zero >= 3)
  {
    m := if peak > zero * 2 / 3 * 4 then zero * 2 / 3 * 4 else peak;
  }

  lemma SkipSize(rate: nat, m: nat)
    requires rate >= 60 && rate % 5 == 0 && m >= 4
    ensures var k := (3 * rate * m / 120 + 1) / 2 * 2;
            if m >= 8 then 30 * k >= 6 * rate else 0 < k && 30 * k + 10 < 6 * rate
  {
    if m >= 8 { MulMono(8, m, 3 * rate); } else { MulMono(m, 7, 3 * rate); MulMono(4, m, 3 * rate); }
    SkipBetween(rate, 3 * rate * m);
  }

  lemma SkipBetween(rate: nat, x: nat)
    requires rate >= 60 && rate % 5 == 0
    ensures var k := (x / 120 + 1) / 2 * 2;
            && (x >= 24 * rate ==> 30 * k >= 6 * rate)
            && (12 * rate <= x <= 21 * rate ==> 0 < k && 30 * k + 10 < 6 * rate)
  {
    assert 24 * rate == rate / 5 * 120;
  }

  /** The statistics step, after the callback has played `count` samples. */
  ghost predicate PromiseKept<T>(s: State<T>, evs: seq<Event<T>>, count: nat, level: nat)
    requires s.Valid() && Legal(evs)
  {
    var now := AfterPlay(Run(s, evs), count);
    var left := |AfterMeasure(now, level, true).buf|;
    left < |now.buf| ==> 10 * |now.buf| >= 6 * now.rate
  }

  /** After any run, however much the callback plays between the append and the drop:
      nothing is dropped from less than 600 ms exactly when the skip is nothing, too much
      for what is buffered, or large enough by itself. */
  lemma PromiseKeptIff<T>(s: State<T>, evs: seq<Event<T>>, level: nat)
    requires s.Valid() && Legal(evs)
    ensures var now := Run(s, evs);
            var h := Recorded(now.hist, Bucket(level, now.rate));
            var k := SkipAmount(now.cap, LeadingZeros(h), Peak(h));
            (forall count :: PromiseKept(s, evs, count, level))
            <==> k == 0 || |now.buf| <= 3 * k || 30 * k + 10 >= 6 * now.rate
  {
    var now := Run(s, evs);
    var h := Recorded(now.hist, Bucket(level, now.rate));
    var k := SkipAmount(now.cap, LeadingZeros(h), Peak(h));
    forall count ensures PromiseKept(s, evs, count, level) <==>
        (|AfterPlay(now, count).buf| > 3 * k > 0 ==> 10 * |AfterPlay(now, count).buf| >= 6 * now.rate)
    {
      var t := AfterPlay(now, count);
      assert |AfterMeasure(t, level, true).buf| == |t.buf| - DropCount(t.cap, h, |t.buf|);
    }
    if k > 0 && |now.buf| > 3 * k {
      var count := |now.buf| - 3 * k - 1;
      assert |AfterPlay(now, count).buf| == 3 * k + 1;
      assert PromiseKept(s, evs, count, level) ==> 10 * (3 * k + 1) >= 6 * now.rate;
    }
  }

  /** In terms of the window, at the usual rates and with 600 ms buffered: the promise is
      kept exactly when nothing can be dropped at all, or the peak is at 800 ms or more and
      no level of the window was below 300 ms. */
  lemma PromiseKeptInWindow<T>(s: State<T>, evs: seq<Event<T>>, level: nat)
    requires s.Valid() && s.hist == Zeros() && Legal(evs)
    requires var now := Run(s, evs); now.rate >= 60 && now.rate % 5 == 0 && 10 * |now.buf| >= 6 * now.rate
    ensures var now := Run(s, evs);
            var w := Window(s, evs) + [Mark(level, now.rate)];
            var h := Recorded(now.hist, Bucket(level, now.rate));
            && Tallies(h, w)
            && ((forall count :: PromiseKept(s, evs, count, level))
                <==> Peak(h) < 6 || (exists m :: m in w && 10 * m.level < 2 * m.rate)
                     || (Peak(h) >= 8 && forall m :: m in w ==> 10 * m.level >= 3 * m.rate))
  {
    var now := Run(s, evs);
    var w := Window(s, evs) + [Mark(level, now.rate)];
    var h := Recorded(now.hist, Bucket(level, now.rate));
    HistogramCountsWindow(s, evs);
    TallyOneMore(now.hist, Window(s, evs), Mark(level, now.rate));
    PromiseKeptIff(s, evs, level);
    Keeps600msIff(now.rate, LeadingZeros(h), Peak(h));
    Keeps600msInBuckets(now.rate, LeadingZeros(h), Peak(h));
    EmptyBucketsIff(h, w, 2);
    EmptyBucketsIff(h, w, 3);
    assert (exists m :: m in w && 10 * m.level < 2 * m.rate) <==> !(forall m :: m in w ==> 10 * m.level >= 2 * m.rate);
  }

  /** The first b buckets are empty exactly when no level of the window is below them. */
  lemma EmptyBucketsIff(h: seq<nat>, w: seq<Mark>, b: nat)
    requires Tallies(h, w) && b < BUCKETS && w != []
    ensures LeadingZeros(h) >= b <==> forall m :: m in w ==> 10 * m.level >= b * m.rate
  {
    if LeadingZeros(h) >= b {
      forall m | m in w ensures 10 * m.level >= b * m.rate {
        LevelAboveEmptyBuckets(h, w, m);
        MulMono(b, LeadingZeros(h), m.rate);
      }
    } else {
      var m := MarkOf(w, LeadingZeros(h));
      BucketBounds(m.level, m.rate);
      MulMono(LeadingZeros(h) + 1, b, m.rate);
    }
  }

  lemma OneBucket(h: seq<nat>, b: nat)
    requires 1 <= b < |h| && h[b] > 0 && forall k :: 0 <= k < |h| && k != b ==> h[k] == 0
    ensures LeadingZeros(h) == b && Peak(h) == b
  {
    PeakIsUnique(h, b);
  }

  /** A run that breaks the promise: 600 ms are appended, 100 ms of them played, and 150 ms
      of the remaining 500 ms dropped. */
  lemma DropBelow600ms<T>(chunk: seq<T>)
    requires |chunk| == 57600
    ensures var s := AfterPlay(AfterAppend(Fresh(96000), chunk), 9600);
            && s.Valid() && |s.buf| == 48000
            && |AfterMeasure(s, 57600, true).buf| == 48000 - 14400
  {
    var s := AfterPlay(AfterAppend(Fresh(96000), chunk), 9600);
    assert s.rate == 96000 && s.cap == 288000 && s.hist == Zeros() && |s.buf| == 48000;
    DropAtSix(s);
  }

  lemma DropAtSix<T>(s: State<T>)
    requires s.Valid() && s.rate == 96000 && s.hist == Zeros() && |s.buf| == 48000
    ensures |AfterMeasure(s, 57600, true).buf| == 48000 - 14400
  {
    OneBucket(Recorded(Zeros(), 6), 6);
    BucketAtSix();
  }

  lemma BucketAtSix()
    ensures Bucket(57600, 96000) == 6 && DropWith(288000, 6, 6, 48000) == 14400
  {
  }

  // ---------------------------------------------------------------- the drop bound in samples

  /** The least level that is not below the first `zero` buckets. */
  function LeastLevel(zero: nat, rate: nat): (level: nat)
    ensures zero * rate <= 10 * level <= zero * rate + 9
  {
    (zero * rate + 9) / 10
  }

  /** Whatever the buckets, two thirds of the least level counted at the rate `r` (up to
      rounding) are not less than what can be dropped at the rate `now`. */
  predicate Fits(r: nat, now: nat) {
    forall zero, peak | 0 <= zero <= peak < BUCKETS ::
      SkipAmount(3 * now, zero, peak) < now ==> 3 * SkipAmount(3 * now, zero, peak) <= 2 * LeastLevel(zero, r) + 3
  }

  /** A run, and a level of its window that was counted at the rate `r`. */
  ghost predicate Concerns<T>(s: State<T>, evs: seq<Event<T>>, level: nat, m: Mark, r: nat, now: nat) {
    && s.Valid() && s.hist == Zeros() && Legal(evs) && m.rate == r && Run(s, evs).rate == now
    && m in Window(s, evs) + [Mark(level, now)]
  }

  ghost predicate BoundAt<T>(s: State<T>, evs: seq<Event<T>>, level: nat, m: Mark, r: nat, now: nat) {
    Concerns(s, evs, level, m, r, now) ==> 3 * Dropped(s, evs, level) <= 2 * m.level + 3
  }

  lemma FitsDrop(r: nat, now: nat, h: seq<nat>, having: nat, level: nat)
    requires Fits(r, now) && |h| == BUCKETS && having <= 3 * now
    requires LeadingZeros(h) * r <= 10 * level && LeadingZeros(h) < BUCKETS
    ensures 3 * DropCount(3 * now, h, having) <= 2 * level + 3
  {
    var zero, peak := LeadingZeros(h), Peak(h);
    if DropCount(3 * now, h, having) > 0 {
      DropNeedsBuckets(3 * now, h, having);
      assert zero <= peak < BUCKETS;
      assert SkipAmount(3 * now, zero, peak) < now;
      assert LeastLevel(zero, r) <= level;
    }
  }

  lemma FitsBounds<T>(s: State<T>, evs: seq<Event<T>>, level: nat, m: Mark, now: nat)
    requires s.Valid() && s.hist == Zeros() && Legal(evs) && Run(s, evs).rate == now && Fits(m.rate, now)
    requires m in Window(s, evs) + [Mark(level, now)]
    ensures 3 * Dropped(s, evs, level) <= 2 * m.level + 3
  {
    var t, w := Run(s, evs), Window(s, evs) + [Mark(level, now)];
    HistogramCountsWindow(s, evs);
    TallyOneMore(t.hist, Window(s, evs), Mark(level, now));
    var h := Recorded(t.hist, Bucket(level, now));
    LevelAboveEmptyBuckets(h, w, m);
    assert Dropped(s, evs, level) == DropCount(t.cap, h, |t.buf|);
    FitsDrop(m.rate, now, h, |t.buf|, m.level);
  }

  // What a run with the given buckets looks like: at ten samples a second a level is its
  // bucket, so the histogram is filled at that rate, but for the level at the rate `r`.

  function Filling<T>(zero: nat, peak: nat): (evs: seq<Event<T>>) {
    [Measure(zero, false), Measure(peak, false), Measure(peak, false), Measure(peak, false), Measure(peak, false)]
  }

  lemma Extend<T>(s: State<T>, evs: seq<Event<T>>, e: Event<T>)
    requires s.Valid() && Legal(evs) && (e.Resize? ==> e.newRate > 0)
    ensures Legal(evs + [e]) && Run(s, evs + [e]) == Step(Run(s, evs), e)
    ensures e.Measure? && !e.fire ==> Window(s, evs + [e]) == Window(s, evs) + [Mark(e.level, Run(s, evs).rate)]
    ensures !e.Measure? ==> Window(s, evs + [e]) == Window(s, evs)
  {
    forall x | x in evs + [e] ensures x.Resize? ==> x.newRate > 0 { assert x in evs || x == e; }
    OneMoreStep(s, evs, e);
    assert (evs + [e])[..|evs|] == evs;
  }

  ghost predicate Holds(h: seq<nat>, zero: nat, peak: nat, ones: seq<nat>) {
    |h| == BUCKETS && forall k :: 0 <= k < BUCKETS ==>
      h[k] == (if k == zero then 1 else 0) + (if k == peak then 4 else 0) + Among(ones, k)
  }

  function Among(ones: seq<nat>, k: nat): (n: nat) {
    if ones == [] then 0 else (if ones[0] == k then 1 else 0) + Among(ones[1..], k)
  }

  lemma HoldsMore(h: seq<nat>, zero: nat, peak: nat, ones: seq<nat>, b: nat)
    requires Holds(h, zero, peak, ones) && b < BUCKETS
    ensures Holds(Recorded(h, b), zero, peak, [b] + ones)
  {
    assert ([b] + ones)[1..] == ones;
  }

  /** Two further levels, neither below the first one, change neither bucket. */
  lemma FilledBuckets(h: seq<nat>, zero: nat, peak: nat, b: nat, c: nat)
    requires Holds(h, zero, peak, [c, b]) && zero <= peak < BUCKETS && 1 <= peak && zero <= b < BUCKETS && zero <= c < BUCKETS
    ensures LeadingZeros(h) == zero && Peak(h) == peak
  {
    forall k | 0 <= k < BUCKETS
      ensures h[k] == (if k == zero then 1 else 0) + (if k == peak then 4 else 0) + (if k == b then 1 else 0) + (if k == c then 1 else 0)
    {
      assert [c, b][1..] == [b] && [b][1..] == [];
      assert Among([], k) == 0 && Among([b], k) == if b == k then 1 else 0;
    }
    assert h[zero] > 0;
    assert forall k :: 0 <= k < zero ==> h[k] == 0;
    PeakIsUnique(h, peak);
  }

  /** A run at ten samples a second that has only filled the histogram. */
  ghost predicate Fills<T>(evs: seq<Event<T>>, h: seq<nat>) {
    |h| == BUCKETS && Legal(evs) && Run(Fresh(10), evs) == State(10, 30, [], h)
  }

  lemma FillsMore<T>(evs: seq<Event<T>>, h: seq<nat>, b: nat)
    requires Fills(evs, h) && b < BUCKETS
    ensures Fills(evs + [Measure(b, false)], Recorded(h, b))
  {
    Extend(Fresh(10), evs, Measure(b, false));
    assert Bucket(b, 10) == b;
  }

  lemma Filled<T>(zero: nat, peak: nat) returns (h: seq<nat>)
    requires zero <= peak < BUCKETS
    ensures Fills<T>(Filling(zero, peak), h) && Holds(h, zero, peak, [])
  {
    var e: Event<T>, p: Event<T> := Measure(zero, false), Measure(peak, false);
    h := Recorded(Zeros(), zero);
    assert Fills<T>([], Zeros());
    FillsMore<T>([], Zeros(), zero);
    assert [] + [e] == [e] && [e] + [p] == [e, p] && [e, p] + [p] == [e, p, p];
    assert [e, p, p] + [p] == [e, p, p, p] && [e, p, p, p] + [p] == Filling(zero, peak);
    FillsMore([e], h, peak);
    h := Recorded(h, peak);
    FillsMore([e, p], h, peak);
    h := Recorded(h, peak);
    FillsMore([e, p, p], h, peak);
    h := Recorded(h, peak);
    FillsMore([e, p, p, p], h, peak);
    h := Recorded(h, peak);
  }

  function Breaking<T>(zero: nat, peak: nat, r: nat, now: nat, x: T): (evs: seq<Event<T>>) {
    Filling(zero, peak) + [Resize(r)] + [Measure(LeastLevel(zero, r), false)] + [Resize(now)] + [Append(seq(3 * now, _ => x))]
  }

  lemma BreakingState<T>(zero: nat, peak: nat, r: nat, now: nat, x: T) returns (h: seq<nat>)
    requires zero <= peak < BUCKETS && r > 0 && now > 0
    ensures Holds(h, zero, peak, [Bucket(LeastLevel(zero, r), r)])
    ensures var s, evs := Fresh<T>(10), Breaking(zero, peak, r, now, x);
            && Legal(evs) && Run(s, evs) == State(now, 3 * now, seq(3 * now, _ => x), h)
            && Mark(LeastLevel(zero, r), r) in Window(s, evs)
  {
    var s := Fresh<T>(10);
    var level := LeastLevel(zero, r);
    var e0 := Filling<T>(zero, peak);
    var e1 := e0 + [Resize(r)];
    var e2 := e1 + [Measure(level, false)];
    var e3 := e2 + [Resize(now)];
    var g := Filled<T>(zero, peak);
    Extend(s, e0, Resize(r));
    assert Run(s, e1) == State(r, 3 * r, [], g);
    Extend(s, e1, Measure(level, false));
    h := Recorded(g, Bucket(level, r));
    HoldsMore(g, zero, peak, [], Bucket(level, r));
    assert [Bucket(level, r)] + [] == [Bucket(level, r)];
    assert Run(s, e2) == State(r, 3 * r, [], h);
    assert Mark(level, r) in Window(s, e2);
    Extend(s, e2, Resize(now));
    assert Run(s, e3) == State(now, 3 * now, [], h);
    Extend(s, e3, Append(seq(3 * now, _ => x)));
    assert [] + seq(3 * now, _ => x) == seq(3 * now, _ => x);
  }

  /** The run with these buckets: a full buffer, the least level as a mark, and a drop of
      the whole skip. */
  lemma BreakingRun<T>(zero: nat, peak: nat, r: nat, now: nat, x: T)
    requires 1 <= zero <= peak < BUCKETS && r > 0 && now > 0 && SkipAmount(3 * now, zero, peak) < now
    ensures var s, evs := Fresh<T>(10), Breaking(zero, peak, r, now, x);
            && Concerns(s, evs, 3 * now, Mark(LeastLevel(zero, r), r), r, now)
            && Dropped(s, evs, 3 * now) == SkipAmount(3 * now, zero, peak)
  {
    var b, c := Bucket(LeastLevel(zero, r), r), Bucket(3 * now, now);
    var h := BreakingState(zero, peak, r, now, x);
    LeastBucket(zero, r);
    assert c == 29 by { FullBucket(now); }
    HoldsMore(h, zero, peak, [b], c);
    assert [c] + [b] == [c, b];
    FilledBuckets(Recorded(h, c), zero, peak, b, c);
    var t := Run(Fresh<T>(10), Breaking(zero, peak, r, now, x));
    assert Dropped(Fresh<T>(10), Breaking(zero, peak, r, now, x), 3 * now) == DropCount(t.cap, Recorded(h, c), |t.buf|);
  }

  lemma FullBucket(rate: nat)
    requires rate > 0
    ensures Bucket(3 * rate, rate) == 29
  {
    assert 3 * rate * 10 == 30 * rate;
    DivBounds(30 * rate, rate);
    if 30 * rate / rate < 29 { MulMono(30 * rate / rate + 1, 29, rate); }
  }

  lemma LeastBucket(zero: nat, r: nat)
    requires r > 0 && zero < BUCKETS
    ensures zero <= Bucket(LeastLevel(zero, r), r)
  {
    var level := LeastLevel(zero, r);
    var q := level * 10 / r;
    DivBounds(level * 10, r);
    if q < zero { MulMono(q + 1, zero, r); }
  }

  /** The drop bound in samples, exactly: it holds in all runs, for levels counted at `r`
      and drops at the rate `now`, when and only when these two rates fit. */
  lemma SampleBoundIff<T>(r: nat, now: nat, x: T)
    requires r > 0 && now > 0
    ensures (forall s: State<T>, evs, level, m :: BoundAt(s, evs, level, m, r, now)) <==> Fits(r, now)
  {
    if Fits(r, now) {
      forall s: State<T>, evs, level, m ensures BoundAt(s, evs, level, m, r, now) {
        if Concerns(s, evs, level, m, r, now) { FitsBounds(s, evs, level, m, now); }
      }
    } else {
      var zero, peak :| 0 <= zero <= peak < BUCKETS && SkipAmount(3 * now, zero, peak) < now
                        && 3 * SkipAmount(3 * now, zero, peak) > 2 * LeastLevel(zero, r) + 3;
      SkipBound(now, zero, peak);
      assert zero * now > 0;
      BreakingRun(zero, peak, r, now, x);
      assert !BoundAt(Fresh<T>(10), Breaking(zero, peak, r, now, x), 3 * now, Mark(LeastLevel(zero, r), r), r, now);
    }
  }

  /** Rates that have not grown fit; rates that have grown by five samples a second or
      more never do. */
  lemma WhichRatesFit(r: nat, now: nat)
    requires now > 0
    ensures now <= r ==> Fits(r, now)
    ensures now >= r + 5 ==> !Fits(r, now)
  {
    if now <= r {
      forall zero, peak | 0 <= zero <= peak < BUCKETS
        ensures 3 * SkipAmount(3 * now, zero, peak) <= 2 * LeastLevel(zero, r) + 3
      {
        SkipBound(now, zero, peak);
        MulMono(now, r, zero);
      }
    } else if now >= r + 5 {
      assert SkipAmount(3 * now, 9, 24) == (3 * now * 24 / 120 + 1) / 2 * 2;
      SkipAtNine(now);
      assert 3 * SkipAmount(3 * now, 9, 24) > 2 * LeastLevel(9, r) + 3;
    }
  }

  lemma SkipAtNine(now: nat)
    requires now >= 5
    ensures var k := (3 * now * 24 / 120 + 1) / 2 * 2; k < now && 5 * k >= 3 * now - 4
  {
    assert 3 * now * 24 / 120 == 3 * now / 5;
  }
}
