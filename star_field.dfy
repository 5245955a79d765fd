/** The star field: the records `generateStars` draws whenever the surface is
    resized, and the twinkle alpha each frame hands to `drawStar`. */
module StarField {
  import opened Numerics

  /** The only shape `drawStar` knows how to draw. */
  const STAR_SHAPE: string := "star"

  /** Each star consumes this many `Math.random()` draws, in this order: two
      for the size, then x, y, base alpha, twinkle speed and twinkle phase. */
  const DRAWS_PER_STAR: nat := 7

  /** One star record; nothing in it changes after it is drawn. */
  datatype Star = Star(
    x: real,
    y: real,
    r: real,
    baseAlpha: real,
    twinkleSpeed: real,
    twinklePhase: real,
    shape: string)

  /** The arguments of one `drawStar` call: position, outer radius, alpha and shape. */
  datatype StarSprite = StarSprite(x: real, y: real, radius: real, alpha: real, shape: string)

  /** The ranges every drawn star falls in, whatever the surface size. */
  ghost predicate WellFormed(s: Star)
  {
    && 0.0 <= s.r < 3.2
    && 0.4 <= s.baseAlpha < 1.0
    && 0.6 <= s.twinkleSpeed < 2.4
    && 0.0 <= s.twinklePhase < 2.0 * PI
    && s.shape == STAR_SHAPE
  }

  /** The star lies on a `width` by `height` surface. */
  ghost predicate Within(s: Star, width: real, height: real)
  {
    0.0 <= s.x < width && 0.0 <= s.y < height
  }

  /** The record built for the star at index `i` of the field. */
  function NewStar(rand: Draws, i: nat, width: real, height: real): (s: Star)
    requires IsDrawStream(rand)
    ensures WellFormed(s)
    ensures 0.0 < width && 0.0 < height ==> Within(s, width, height)
  {
    var k := DRAWS_PER_STAR * i;
    var size := rand(k) * 1.4 + rand(k + 1) * 1.8;
    var s := Star(rand(k + 2) * width, rand(k + 3) * height, size,
                  0.4 + rand(k + 4) * 0.6, 0.6 + rand(k + 5) * 1.8,
                  rand(k + 6) * PI * 2.0, STAR_SHAPE);
    assert 0.0 < width && 0.0 < height ==> Within(s, width, height) by {
      if 0.0 < width && 0.0 < height {
        ScaledDraw(rand(k + 2), width);
        ScaledDraw(rand(k + 3), height);
      }
    }
    s
  }

  /** How many stars a `width` by `height` surface gets at `density` stars per unit area. */
  function StarCount(width: real, height: real, density: real): (count: int)
    ensures width * height * density - 0.5 < count as real <= width * height * density + 0.5
  {
    Round(width * height * density)
  }

  /** The whole field `generateStars` builds; it does not depend on the previous field. */
  function GeneratedStars(rand: Draws, width: real, height: real, density: real): (stars: seq<Star>)
    requires IsDrawStream(rand)
    requires StarCount(width, height, density) >= 0
    ensures |stars| == StarCount(width, height, density)
    ensures forall s :: s in stars ==> WellFormed(s)
  {
    seq(StarCount(width, height, density), i requires 0 <= i => NewStar(rand, i, width, height))
  }

  /** A surface that gets at least one star has positive width and height. */
  lemma StarsNeedArea(width: real, height: real, density: real)
    requires 0.0 <= width && 0.0 <= height
    requires StarCount(width, height, density) >= 1
    ensures 0.0 < width && 0.0 < height
  {
  }

  /** Every generated star lies on the surface it was generated for. */
  lemma GeneratedStarsWithin(rand: Draws, width: real, height: real, density: real)
    requires IsDrawStream(rand)
    requires 0.0 <= width && 0.0 <= height
    requires StarCount(width, height, density) >= 0
    ensures forall s :: s in GeneratedStars(rand, width, height, density) ==> Within(s, width, height)
  {
  }

  /** With non-negative sizes, `new Array(count)` can only be refused when the density is negative. */
  lemma NegativeCountNeedsNegativeDensity(width: real, height: real, density: real)
    requires 0.0 <= width && 0.0 <= height
    requires StarCount(width, height, density) < 0
    ensures density < 0.0
  {
  }

  /** Any successful generation with a negative density yields no stars. */
  lemma NegativeDensityGivesNoStars(width: real, height: real, density: real)
    requires 0.0 <= width && 0.0 <= height && density < 0.0
    ensures StarCount(width, height, density) <= 0
  {
  }

  /** An 800 by 600 surface at the default density of 0.001 gets 480 stars. */
  lemma DefaultDensityCount()
    ensures StarCount(800.0, 600.0, 0.001) == 480
  {
  }

  /** The twinkle term of star `s` at time `t` ms: its base alpha plus a
      quarter of the sine of its phase, before any floor is applied. It stays
      within a quarter of the base alpha. */
  function Twinkle(s: Star, t: real, sin: real -> real): (a: real)
    ensures IsTrig(sin) ==> s.baseAlpha - 0.25 <= a <= s.baseAlpha + 0.25
  {
    s.baseAlpha + sin(t / 1000.0 * s.twinkleSpeed + s.twinklePhase) * 0.25
  }

  /** The alpha `frame` passes to `drawStar` for star `s` at time `t` ms:
      the twinkle term floored at 0, with no upper clamp. */
  function TwinkleAlpha(s: Star, t: real, sin: real -> real): (alpha: real)
    ensures 0.0 <= alpha && Twinkle(s, t, sin) <= alpha
    ensures alpha == 0.0 || alpha == Twinkle(s, t, sin)
  {
    Max(0.0, Twinkle(s, t, sin))
  }

  /** The `drawStar` call `frame` makes for star `s` at time `t` ms: at the
      star's position, twice its radius, never a negative alpha; for a drawn
      star an outer radius below 6.4 and an alpha in [0.15, 1.25). */
  function Sprite(s: Star, t: real, sin: real -> real): (sprite: StarSprite)
    ensures sprite.x == s.x && sprite.y == s.y && sprite.shape == s.shape
    ensures sprite.radius == 2.0 * s.r && 0.0 <= sprite.alpha
    ensures WellFormed(s) && IsTrig(sin) ==>
              0.0 <= sprite.radius < 6.4 && 0.15 <= sprite.alpha < 1.25 && sprite.shape == STAR_SHAPE
  {
    StarSprite(s.x, s.y, s.r * 2.0, TwinkleAlpha(s, t, sin), s.shape)
  }

  /** The alpha is never negative, never below the base alpha less a
      quarter, and never above the base alpha plus a quarter (or 0). */
  lemma TwinkleAlphaBounds(s: Star, t: real, sin: real -> real)
    requires IsTrig(sin)
    ensures 0.0 <= TwinkleAlpha(s, t, sin) <= Max(0.0, s.baseAlpha + 0.25)
    ensures s.baseAlpha - 0.25 <= TwinkleAlpha(s, t, sin)
  {
  }

  /** For a generated star the floor at 0 never takes effect: the alpha is
      exactly the twinkle term, at least 0.15 and below 1.25. */
  lemma WellFormedStarNeverFloored(s: Star, t: real, sin: real -> real)
    requires WellFormed(s) && IsTrig(sin)
    ensures TwinkleAlpha(s, t, sin) == Twinkle(s, t, sin)
    ensures 0.15 <= TwinkleAlpha(s, t, sin) < 1.25
  {
  }

  /** There is no upper clamp: a bright star at the crest of its twinkle gets an alpha above 1. */
  lemma TwinkleAlphaExceedsOne()
    ensures TwinkleAlpha(Star(0.0, 0.0, 1.0, 0.9, 1.0, 0.0, STAR_SHAPE), 0.0, a => 1.0) == 1.15
  {
  }
}
