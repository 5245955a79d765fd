/** The animation's mutable state and the operations that change it: the
    module-level variables of the star-field script, gathered in one object. */
module Animation {
  import opened Numerics
  import StarField
  import MeteorSystem

  /** The largest frame delta, in ms, `frame` lets through. */
  const MAX_DT: real := 40.0

  /** The frame delta: the time since the previous frame, capped at `MAX_DT`. */
  function ClampDt(t: real, lastTime: real): (dt: real)
    ensures dt <= MAX_DT && dt <= t - lastTime
    ensures dt == MAX_DT || dt == t - lastTime
  {
    Min(MAX_DT, t - lastTime)
  }

  /** The device pixel ratio in use: the reported one, but never below 1. */
  function PixelRatio(reported: real): (dpr: real)
    ensures 1.0 <= dpr && reported <= dpr
    ensures dpr == 1.0 || dpr == reported
  {
    Max(1.0, reported)
  }

  /** The pixel-buffer size along one axis: the logical size scaled by the
      ratio and truncated, so never fewer pixels than whole logical units. */
  function PixelSize(logical: real, dpr: real): (pixels: int)
    requires 0.0 <= logical && 1.0 <= dpr
    ensures logical.Floor <= pixels
    ensures pixels as real <= logical * dpr < pixels as real + 1.0
  {
    assert logical <= logical * dpr by {
      assert logical * dpr - logical == logical * (dpr - 1.0);
    }
    (logical * dpr).Floor
  }

  /** The star field's state: surface size, pixel ratio and buffer size, the
      configured density and spawn chance, the stars, the meteors and the
      timestamp of the previous frame. */
  class Scene {
    var width: real
    var height: real
    var dpr: real
    var canvasWidth: int
    var canvasHeight: int
    const starDensity: real
    const prefersReducedMotion: bool
    const shootingChance: real
    var stars: seq<StarField.Star>
    var meteors: seq<MeteorSystem.Meteor>
    var lastTime: real

    /** The surface sizes are non-negative and the pixel ratio is at least 1. */
    ghost predicate SurfaceValid()
      reads this
    {
      0.0 <= width && 0.0 <= height && 1.0 <= dpr
    }

    /** The object invariant: a sane surface; every star drawn in range and on
        the current surface; no stars at all under a negative density; every
        meteor drawn in range; no spawning under reduced motion. */
    ghost predicate Valid()
      reads this
    {
      && SurfaceValid()
      && (forall s :: s in stars ==> StarField.WellFormed(s) && StarField.Within(s, width, height))
      && (starDensity < 0.0 ==> stars == [])
      && (forall m :: m in meteors ==> MeteorSystem.WellFormed(m))
      && (prefersReducedMotion ==> shootingChance == 0.0)
    }

    /** The state when the script starts: an empty 0 by 0 surface, no stars,
        no meteors, and a spawn chance forced to 0 under reduced motion. */
    constructor (reportedDpr: real, density: real, chance: real, reducedMotion: bool)
      ensures Valid()
      ensures width == 0.0 && height == 0.0 && dpr == PixelRatio(reportedDpr)
      ensures starDensity == density && prefersReducedMotion == reducedMotion
      ensures shootingChance == (if reducedMotion then 0.0 else chance)
      ensures stars == [] && meteors == [] && lastTime == 0.0
    {
      width, height := 0.0, 0.0;
      dpr := PixelRatio(reportedDpr);
      starDensity := density;
      prefersReducedMotion := reducedMotion;
      shootingChance := if reducedMotion then 0.0 else chance;
      stars, meteors := [], [];
      lastTime := 0.0;
    }

    /** Replaces the whole star field with a fresh one for the current surface.
        `new Array(count)` refuses a negative count; then nothing changes and
        `ok` is false. */
    method GenerateStars(rand: Draws) returns (ok: bool)
      requires SurfaceValid() && IsDrawStream(rand)
      modifies this`stars
      ensures ok <==> StarField.StarCount(width, height, starDensity) >= 0
      ensures ok ==> stars == StarField.GeneratedStars(rand, width, height, starDensity)
      ensures !ok ==> stars == old(stars)
    {
      var w, h := width, height;
      var count := StarField.StarCount(w, h, starDensity);
      if count < 0 {
        return false;
      }
      stars := seq(count, i requires 0 <= i => StarField.NewStar(rand, i, w, h));
      ok := true;
    }

    /** Adopts a new surface size and pixel ratio, resizes the pixel buffer and
        regenerates the stars; meteors in flight are left as they are. */
    method Resize(clientWidth: real, clientHeight: real, reportedDpr: real, rand: Draws) returns (ok: bool)
      requires Valid()
      requires 0.0 <= clientWidth && 0.0 <= clientHeight && IsDrawStream(rand)
      modifies this
      ensures Valid()
      ensures width == clientWidth && height == clientHeight && dpr == PixelRatio(reportedDpr)
      ensures canvasWidth == PixelSize(clientWidth, dpr) && canvasHeight == PixelSize(clientHeight, dpr)
      ensures ok <==> StarField.StarCount(width, height, starDensity) >= 0
      ensures ok ==> stars == StarField.GeneratedStars(rand, width, height, starDensity)
      ensures !ok ==> stars == old(stars)
      ensures meteors == old(meteors) && lastTime == old(lastTime)
    {
      dpr := PixelRatio(reportedDpr);
      width := clientWidth;
      height := clientHeight;
      canvasWidth := PixelSize(width, dpr);
      canvasHeight := PixelSize(height, dpr);
      ok := GenerateStars(rand);
      if ok {
        StarField.GeneratedStarsWithin(rand, width, height, starDensity);
        if starDensity < 0.0 {
          StarField.NegativeDensityGivesNoStars(width, height, starDensity);
        }
      } else {
        StarField.NegativeCountNeedsNegativeDensity(width, height, starDensity);
      }
    }

    /** Start-up: the first resize, then the clock reading that the first frame
        measures from. A refused star count aborts start-up before the clock
        is read. */
    method Init(clientWidth: real, clientHeight: real, reportedDpr: real, now: real, rand: Draws) returns (started: bool)
      requires Valid()
      requires 0.0 <= clientWidth && 0.0 <= clientHeight && IsDrawStream(rand)
      modifies this
      ensures Valid()
      ensures width == clientWidth && height == clientHeight && dpr == PixelRatio(reportedDpr)
      ensures canvasWidth == PixelSize(clientWidth, dpr) && canvasHeight == PixelSize(clientHeight, dpr)
      ensures started <==> StarField.StarCount(width, height, starDensity) >= 0
      ensures started ==> stars == StarField.GeneratedStars(rand, width, height, starDensity) && lastTime == now
      ensures !started ==> stars == old(stars) && lastTime == old(lastTime)
      ensures meteors == old(meteors)
    {
      started := Resize(clientWidth, clientHeight, reportedDpr, rand);
      if started {
        lastTime := now;
      }
    }

    /** Appends one freshly drawn meteor, leaving the earlier ones alone. */
    method SpawnMeteor(rand: Draws)
      requires IsDrawStream(rand)
      modifies this`meteors
      ensures meteors == old(meteors) + [MeteorSystem.NewMeteor(rand, width, height)]
    {
      meteors := meteors + [MeteorSystem.NewMeteor(rand, width, height)];
    }

    /** The meteor pass of a frame: walking the list from the last index to
        the first, each meteor is advanced in place and spliced out once it has
        passed the right or bottom edge by more than the margin. */
    method AdvanceMeteors(sin: real -> real, cos: real -> real)
      modifies this`meteors
      ensures meteors == MeteorSystem.Step(old(meteors), width, height, cos, sin)
    {
      ghost var before := meteors;
      var i := |meteors| - 1;
      while i >= 0
        invariant -1 <= i < |before|
        invariant meteors == before[..i + 1] + MeteorSystem.Step(before[i + 1..], width, height, cos, sin)
        decreases i + 1
      {
        MeteorSystem.StepInPlace(before, i, meteors, width, height, cos, sin);
        var m := meteors[i];
        var dx, dy := cos(m.angle) * m.speed, sin(m.angle) * m.speed;
        m := m.(x := m.x + dx);
        m := m.(y := m.y + dy);
        assert m == MeteorSystem.Advance(before[i], cos, sin);
        meteors := meteors[i := m];
        if m.x > width + MeteorSystem.EXIT_MARGIN || m.y > height + MeteorSystem.EXIT_MARGIN {
          meteors := meteors[..i] + meteors[i + 1..];
        }
        i := i - 1;
      }
      assert before[..0] == [] && before[0..] == before;
    }

    /** One animation frame at time `t` ms: the capped delta, the `drawStar`
        calls for every star, the advance-and-retire pass over the meteors in
        reverse index order with in-place removal, and the spawn check. */
    method Frame(t: real, sin: real -> real, cos: real -> real, rand: Draws)
      returns (dt: real, sprites: seq<StarField.StarSprite>)
      requires Valid() && IsDrawStream(rand)
      modifies this`meteors, this`lastTime
      ensures Valid()
      ensures dt == ClampDt(t, old(lastTime)) && lastTime == t
      ensures |sprites| == |stars|
      ensures forall i :: 0 <= i < |stars| ==> sprites[i] == StarField.Sprite(stars[i], t, sin)
      ensures meteors == MeteorSystem.FrameMeteors(old(meteors), width, height, shootingChance, cos, sin, rand)
      ensures |meteors| <= |old(meteors)| + 1
      ensures prefersReducedMotion ==> |meteors| <= |old(meteors)|
    {
      dt := ClampDt(t, lastTime);
      lastTime := t;

      sprites := [];
      for j := 0 to |stars|
        invariant |sprites| == j
        invariant forall k :: 0 <= k < j ==> sprites[k] == StarField.Sprite(stars[k], t, sin)
      {
        sprites := sprites + [StarField.Sprite(stars[j], t, sin)];
      }

      MeteorSystem.FrameKeepsWellFormed(meteors, width, height, shootingChance, cos, sin, rand);
      ghost var expected := MeteorSystem.FrameMeteors(meteors, width, height, shootingChance, cos, sin, rand);
      AdvanceMeteors(sin, cos);
      if rand(0) < shootingChance {
        SpawnMeteor(Tail(rand));
      }
      assert meteors == expected;
    }
  }
}
