/** The click-spark overlay: every accepted click inside the host region
    emits a ring of `sparkCount` sparks at the click point, and a per-frame
    tick drops the sparks whose lifetime is over and keeps the frame loop
    running while any remain. Time is in integer milliseconds; canvas
    drawing, the clock and the frame scheduler are inputs or left out. */
module ClickSpark {
  import opened Common

  /** Clicks closer together than this many milliseconds are ignored. */
  const DebounceMs: int := 100

  datatype Easing = Linear | EaseIn | EaseInOut | EaseOut

  /** The component's props; `sparkColor` only affects drawing and is left out. */
  datatype Config = Config(
    sparkSize: real,
    sparkRadius: real,
    sparkCount: int,
    duration: int,
    easing: Easing,
    extraScale: real)

  /** The defaults of the props. They meet what the frame computations
      need: a positive lifetime and non-negative sizes and scale, so the
      bounds of `TravelAndTailBounded` hold for them. */
  function DefaultConfig(): (c: Config)
    ensures c.duration > 0 && c.sparkCount > 0
    ensures c.sparkSize >= 0.0 && c.sparkRadius >= 0.0 && c.extraScale >= 0.0
  {
    Config(10.0, 15.0, 8, 400, EaseOut, 1.0)
  }

  /** One spark. Its emission angle is `2π · angleIndex / sparkCount`; the
      model keeps the index, from which the angle and its cosine and sine
      are computed. */
  datatype Spark = Spark(x: real, y: real, angleIndex: nat, startTime: int)

  /** The easing curves, as polynomials over the progress `t`. Each fixes
      both ends of the unit interval and keeps it inside itself. */
  function Ease(e: Easing, t: real): (r: real)
    ensures t == 0.0 ==> r == 0.0
    ensures t == 1.0 ==> r == 1.0
    ensures 0.0 <= t <= 1.0 ==> 0.0 <= r <= 1.0
  {
    match e
    case Linear => t
    case EaseIn =>
      assert 0.0 <= t <= 1.0 ==> t * t <= t * 1.0;
      t * t
    case EaseInOut =>
      if t < 0.5 then
        assert 0.0 <= t ==> t * t <= t * 0.5;
        2.0 * t * t
      else
        var u := 1.0 - t;
        assert -1.0 + (4.0 - 2.0 * t) * t == 1.0 - 2.0 * u * u;
        assert 0.0 <= u <= 0.5 ==> u * u <= u * 0.5;
        -1.0 + (4.0 - 2.0 * t) * t
    case EaseOut =>
      var u := 1.0 - t;
      assert t * (2.0 - t) == 1.0 - u * u;
      assert 0.0 <= u <= 1.0 ==> u * u <= u * 1.0;
      t * (2.0 - t)
  }

  /** The midpoint values of the four curves. */
  lemma EaseAtHalf()
    ensures Ease(Linear, 0.5) == 0.5
    ensures Ease(EaseIn, 0.5) == 0.25
    ensures Ease(EaseInOut, 0.5) == 0.5
    ensures Ease(EaseOut, 0.5) == 0.75
  {
  }

  /** Fraction of its lifetime a spark has lived, `elapsed / duration`. */
  function Progress(elapsed: int, duration: int): (p: real)
    requires duration > 0
    ensures 0 <= elapsed < duration ==> 0.0 <= p < 1.0
  {
    elapsed as real / duration as real
  }

  /** Distance from the click point to the near end of the spark's line. */
  function Travel(c: Config, elapsed: int): real
    requires c.duration > 0
  {
    Ease(c.easing, Progress(elapsed, c.duration)) * c.sparkRadius * c.extraScale
  }

  /** Length of the spark's line. */
  function TailLength(c: Config, elapsed: int): real
    requires c.duration > 0
  {
    c.sparkSize * (1.0 - Ease(c.easing, Progress(elapsed, c.duration)))
  }

  /** While a spark is alive, it travels at most `sparkRadius · extraScale`
      and its line is never longer than `sparkSize` nor negative. */
  lemma TravelAndTailBounded(c: Config, elapsed: int)
    requires c.duration > 0 && 0 <= elapsed < c.duration
    requires c.sparkRadius >= 0.0 && c.extraScale >= 0.0 && c.sparkSize >= 0.0
    ensures 0.0 <= Travel(c, elapsed) <= c.sparkRadius * c.extraScale
    ensures 0.0 <= TailLength(c, elapsed) <= c.sparkSize
  {
    var e := Ease(c.easing, Progress(elapsed, c.duration));
    var m := c.sparkRadius * c.extraScale;
    NonNegativeProduct(c.sparkRadius, c.extraScale);
    NonNegativeProduct(e, m);
    NonNegativeProduct(1.0 - e, m);
    NonNegativeProduct(c.sparkSize, 1.0 - e);
    NonNegativeProduct(c.sparkSize, e);
    assert Travel(c, elapsed) == e * m;
    assert TailLength(c, elapsed) == c.sparkSize - c.sparkSize * e;
  }

  /** A product of non-negative factors is non-negative. */
  lemma NonNegativeProduct(a: real, b: real)
    requires a >= 0.0 && b >= 0.0
    ensures a * b >= 0.0
  {
  }

  /** At birth a spark has not moved and has its full length. */
  lemma FreshSpark(c: Config)
    requires c.duration > 0
    ensures Travel(c, 0) == 0.0
    ensures TailLength(c, 0) == c.sparkSize
  {
  }

  /** Whether a click at `now` falls inside the debounce window. */
  predicate Debounced(now: int, lastClickTime: int) {
    now - lastClickTime < DebounceMs
  }

  /** The sparks of one burst: `sparkCount` of them (none when it is not
      positive), all at the click point and time, the i-th with angle index i. */
  method NewSparks(sparkCount: int, x: real, y: real, now: int) returns (burst: seq<Spark>)
    ensures |burst| == if sparkCount > 0 then sparkCount else 0
    ensures forall i | 0 <= i < |burst| :: burst[i] == Spark(x, y, i, now)
  {
    burst := [];
    var i := 0;
    while i < sparkCount
      invariant 0 <= i <= (if sparkCount > 0 then sparkCount else 0)
      invariant |burst| == i
      invariant forall k | 0 <= k < i :: burst[k] == Spark(x, y, k, now)
    {
      burst := burst + [Spark(x, y, i, now)];
      i := i + 1;
    }
  }

  /** A spark is still alive at frame time `ts` while it has lived less than `duration`. */
  predicate Alive(s: Spark, ts: int, duration: int) {
    ts - s.startTime < duration
  }

  /** The filter a frame applies: the live sparks, unchanged and in order. */
  function Survivors(sparks: seq<Spark>, ts: int, duration: int): (kept: seq<Spark>)
    ensures IsSubsequence(kept, sparks)
    ensures forall s :: s in kept <==> s in sparks && Alive(s, ts, duration)
    ensures forall s :: multiset(kept)[s] == if Alive(s, ts, duration) then multiset(sparks)[s] else 0
  {
    var keep := (s: Spark) => Alive(s, ts, duration);
    SelectIsSubsequence(sparks, keep);
    SelectCount(sparks, keep);
    Select(sparks, keep)
  }

  /** A burst emitted at `t` disappears entirely at the first frame at least
      `duration` later, and with a positive duration it is still whole at `t`. */
  lemma BurstLifetime(sparks: seq<Spark>, t: int, duration: int)
    requires forall k | 0 <= k < |sparks| :: sparks[k].startTime == t
    ensures forall ts | ts >= t + duration :: Survivors(sparks, ts, duration) == []
    ensures duration > 0 ==> Survivors(sparks, t, duration) == sparks
  {
    forall ts | ts >= t + duration
      ensures Survivors(sparks, ts, duration) == []
    {
      SurvivorsDropsAll(sparks, ts, duration);
    }
    if duration > 0 {
      SurvivorsKeepsAll(sparks, t, duration);
    }
  }

  /** A frame at which no spark is alive leaves none. */
  lemma {:induction false} SurvivorsDropsAll(sparks: seq<Spark>, ts: int, duration: int)
    requires forall k | 0 <= k < |sparks| :: !Alive(sparks[k], ts, duration)
    ensures Survivors(sparks, ts, duration) == []
  {
    if sparks != [] {
      SurvivorsDropsAll(sparks[1..], ts, duration);
      var keep := (s: Spark) => Alive(s, ts, duration);
      assert Select(sparks, keep) == Select(sparks[1..], keep);
    }
  }

  /** A frame at which every spark is alive keeps the list as it is. */
  lemma {:induction false} SurvivorsKeepsAll(sparks: seq<Spark>, ts: int, duration: int)
    requires forall k | 0 <= k < |sparks| :: Alive(sparks[k], ts, duration)
    ensures Survivors(sparks, ts, duration) == sparks
  {
    if sparks != [] {
      SurvivorsKeepsAll(sparks[1..], ts, duration);
      var keep := (s: Spark) => Alive(s, ts, duration);
      assert Select(sparks, keep) == [sparks[0]] + Select(sparks[1..], keep);
      assert sparks == [sparks[0]] + sparks[1..];
    }
  }

  /** The engine's state: the live sparks, whether a frame loop is running,
      the time of the last click that passed the debounce, and whether a
      frame callback is pending. */
  class SparkEngine {
    const config: Config
    var sparks: seq<Spark>
    var isAnimating: bool
    var lastClickTime: int
    var framePending: bool

    /** A frame is pending exactly while the loop runs, and the loop runs
        whenever there are sparks to draw. */
    ghost predicate Valid()
      reads this
    {
      framePending == isAnimating && (sparks != [] ==> isAnimating)
    }

    constructor (config: Config)
      ensures Valid() && this.config == config
      ensures sparks == [] && !isAnimating && !framePending && lastClickTime == 0
    {
      this.config := config;
      sparks := [];
      isAnimating := false;
      lastClickTime := 0;
      framePending := false;
    }

    /** The global click listener. `hit` says that the drawing surface and
        the host region exist and the click target lies inside the region;
        `(x, y)` is the click point relative to the surface. A click inside
        the debounce window changes nothing. Any other click records its
        time, even one that lands outside the region; one that lands inside
        appends a burst after the existing sparks and starts the loop. */
    method Click(now: int, hit: bool, x: real, y: real)
      requires Valid()
      modifies this
      ensures Valid()
      ensures Debounced(now, old(lastClickTime)) ==>
        sparks == old(sparks) && lastClickTime == old(lastClickTime) &&
        isAnimating == old(isAnimating) && framePending == old(framePending)
      ensures !Debounced(now, old(lastClickTime)) ==> lastClickTime == now
      ensures !Debounced(now, old(lastClickTime)) && !hit ==>
        sparks == old(sparks) && isAnimating == old(isAnimating) && framePending == old(framePending)
      ensures !Debounced(now, old(lastClickTime)) && hit ==>
        && |sparks| == |old(sparks)| + (if config.sparkCount > 0 then config.sparkCount else 0)
        && sparks[..|old(sparks)|] == old(sparks)
        && (forall i | 0 <= i < |sparks| - |old(sparks)| :: sparks[|old(sparks)| + i] == Spark(x, y, i, now))
        && isAnimating && framePending
    {
      if Debounced(now, lastClickTime) {
        return;
      }
      lastClickTime := now;
      if hit {
        var burst := NewSparks(config.sparkCount, x, y, now);
        sparks := sparks + burst;
        if !isAnimating {
          isAnimating := true;
          framePending := true;
        }
      }
    }

    /** One frame at time `ts`: keep the live sparks, then either request
        the next frame or, when none are left, stop the loop. */
    method Tick(ts: int)
      requires Valid() && framePending
      modifies this
      ensures Valid()
      ensures sparks == Survivors(old(sparks), ts, config.duration)
      ensures isAnimating == (sparks != []) && framePending == (sparks != [])
      ensures lastClickTime == old(lastClickTime)
    {
      framePending := false;
      sparks := Survivors(sparks, ts, config.duration);
      if sparks != [] {
        framePending := true;
      } else {
        isAnimating := false;
      }
    }

    /** Starts the loop only when it is stopped and there are sparks. */
    method StartAnimation()
      modifies this
      ensures if !old(isAnimating) && old(sparks) != [] then isAnimating && framePending
              else isAnimating == old(isAnimating) && framePending == old(framePending)
      ensures sparks == old(sparks) && lastClickTime == old(lastClickTime)
      ensures isAnimating || sparks == []
      ensures old(Valid()) ==> Valid() && isAnimating == old(isAnimating) && framePending == old(framePending)
    {
      if !isAnimating && sparks != [] {
        isAnimating := true;
        framePending := true;
      }
    }

    /** The 100 ms safety-net interval: restart the loop if sparks exist
        but it is not running. In a consistent state it never acts. */
    method IntervalCheck()
      modifies this
      ensures sparks == old(sparks) && lastClickTime == old(lastClickTime)
      ensures isAnimating || sparks == []
      ensures old(sparks) != [] && !old(isAnimating) ==> isAnimating && framePending
      ensures old(Valid()) ==> Valid() && isAnimating == old(isAnimating) && framePending == old(framePending)
    {
      if sparks != [] && !isAnimating {
        StartAnimation();
      }
    }
  }

  /** Starting twice is starting once. */
  method StartTwice(e: SparkEngine)
    modifies e
    ensures e.sparks == old(e.sparks) && e.lastClickTime == old(e.lastClickTime)
    ensures e.isAnimating == (old(e.isAnimating) || old(e.sparks) != [])
    ensures e.framePending == (old(e.framePending) || (!old(e.isAnimating) && old(e.sparks) != []))
  {
    e.StartAnimation();
    e.StartAnimation();
  }

  /** The first click on a freshly mounted engine with the default props.
      The last click time starts at 0, so a click before 100 ms is ignored;
      a later one inside the region emits 8 sparks and starts the loop. */
  method FirstClickWithDefaults(now: int, x: real, y: real) returns (added: nat, animating: bool)
    ensures now >= DebounceMs ==> added == 8 && animating
    ensures now < DebounceMs ==> added == 0 && !animating
  {
    var e := new SparkEngine(DefaultConfig());
    e.Click(now, true, x, y);
    added := |e.sparks|;
    animating := e.isAnimating;
  }
}
