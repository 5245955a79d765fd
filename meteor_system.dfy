/** The meteor system: the records `spawnMeteor` appends, the per-frame
    advance-and-retire pass over them, and the probabilistic spawn that ends
    each frame. */
module MeteorSystem {
  import opened Numerics

  /** How far past the right or bottom edge a meteor may travel before it is retired. */
  const EXIT_MARGIN: real := 100.0

  /** One meteor record. `life` and `ttl` are stored but never consulted again. */
  datatype Meteor = Meteor(
    x: real,
    y: real,
    length: real,
    speed: real,
    angle: real,
    life: real,
    ttl: real)

  /** An angle in radians, in degrees. */
  function Degrees(radians: real): real
  {
    radians * 180.0 / PI
  }

  /** The ranges every spawned meteor falls in, and which motion never changes. */
  ghost predicate WellFormed(m: Meteor)
  {
    && 120.0 <= m.length < 340.0
    && 6.0 <= m.speed < 16.0
    && 20.0 <= Degrees(m.angle) < 50.0
    && m.life == 0.0
  }

  /** The meteor starts in the upper-left band of a `width` by `height` surface. */
  ghost predicate StartsInBand(m: Meteor, width: real, height: real)
  {
    0.0 <= m.x < 0.6 * width && 0.0 <= m.y < 0.3 * height
  }

  /** Start coordinates scaled from draws in [0, 1) fall in the upper-left band. */
  lemma StartInBand(u: real, v: real, width: real, height: real)
    requires 0.0 <= u < 1.0 && 0.0 <= v < 1.0 && 0.0 < width && 0.0 < height
    ensures 0.0 <= u * (width * 0.6) < 0.6 * width
    ensures 0.0 <= v * (height * 0.3) < 0.3 * height
  {
    ScaledDraw(u, width * 0.6);
    ScaledDraw(v, height * 0.3);
  }

  /** The angle built from a draw in [0, 1) lies in [20°, 50°). */
  lemma AngleInRange(u: real)
    requires 0.0 <= u < 1.0
    ensures 20.0 <= Degrees((20.0 + u * 30.0) * PI / 180.0) < 50.0
  {
    assert Degrees((20.0 + u * 30.0) * PI / 180.0) == 20.0 + u * 30.0;
  }

  /** The record `spawnMeteor` builds from its five draws: length, speed,
      start x, start y and angle, in that order. */
  function NewMeteor(rand: Draws, width: real, height: real): (m: Meteor)
    requires IsDrawStream(rand)
    ensures WellFormed(m)
    ensures 0.0 < width && 0.0 < height ==> StartsInBand(m, width, height)
    ensures m.ttl * m.speed == width + height
  {
    var u0, u1, u2, u3, u4 := rand(0), rand(1), rand(2), rand(3), rand(4);
    assert 0.0 <= u0 < 1.0 && 0.0 <= u1 < 1.0 && 0.0 <= u2 < 1.0 && 0.0 <= u3 < 1.0 && 0.0 <= u4 < 1.0;
    var length := 120.0 + u0 * 220.0;
    var speed := 6.0 + u1 * 10.0;
    // The script multiplies left to right (`rand * width * 0.6`); over exact
    // reals grouping the two constants first denotes the same number.
    var startX := u2 * (width * 0.6);
    var startY := u3 * (height * 0.3);
    var angle := (20.0 + u4 * 30.0) * PI / 180.0;
    AngleInRange(u4);
    assert 0.0 < width && 0.0 < height ==> 0.0 <= startX < 0.6 * width && 0.0 <= startY < 0.3 * height by {
      if 0.0 < width && 0.0 < height {
        StartInBand(u2, u3, width, height);
      }
    }
    var ttl := (width + height) / speed;
    assert ttl * speed == width + height;
    Meteor(startX, startY, length, speed, angle, 0.0, ttl)
  }

  /** One frame of motion: `speed` units along `angle`. Only the position
      changes, and by at most `speed` along each axis. */
  function Advance(m: Meteor, cos: real -> real, sin: real -> real): (a: Meteor)
    ensures a.length == m.length && a.speed == m.speed && a.angle == m.angle
    ensures a.life == m.life && a.ttl == m.ttl
    ensures WellFormed(m) ==> WellFormed(a)
    ensures IsTrig(cos) && IsTrig(sin) && 0.0 <= m.speed ==>
              m.x - m.speed <= a.x <= m.x + m.speed && m.y - m.speed <= a.y <= m.y + m.speed
  {
    assert IsTrig(cos) && IsTrig(sin) && 0.0 <= m.speed ==>
             -m.speed <= cos(m.angle) * m.speed <= m.speed && -m.speed <= sin(m.angle) * m.speed <= m.speed by {
      if IsTrig(cos) && IsTrig(sin) && 0.0 <= m.speed {
        UnitScaled(cos(m.angle), m.speed);
        UnitScaled(sin(m.angle), m.speed);
      }
    }
    m.(x := m.x + cos(m.angle) * m.speed, y := m.y + sin(m.angle) * m.speed)
  }

  /** The meteor has not yet passed the right or bottom edge by more than the
      margin: it is kept up to and including the margin line itself. */
  function Retained(m: Meteor, width: real, height: real): (keep: bool)
    ensures keep <==> m.x <= width + EXIT_MARGIN && m.y <= height + EXIT_MARGIN
  {
    !(m.x > width + EXIT_MARGIN || m.y > height + EXIT_MARGIN)
  }

  /** The meteor list after the advance-and-retire pass of one frame. */
  function Step(ms: seq<Meteor>, width: real, height: real, cos: real -> real, sin: real -> real): (kept: seq<Meteor>)
    ensures |kept| <= |ms|
    decreases |ms|
  {
    if ms == [] then []
    else
      var a := Advance(ms[0], cos, sin);
      (if Retained(a, width, height) then [a] else []) + Step(ms[1..], width, height, cos, sin)
  }

  /** The pass over the meteors from index `i` on decides meteor `i`, then the rest. */
  lemma StepFrom(ms: seq<Meteor>, i: nat, width: real, height: real, cos: real -> real, sin: real -> real)
    requires i < |ms|
    ensures Step(ms[i..], width, height, cos, sin) ==
              (if Retained(Advance(ms[i], cos, sin), width, height) then [Advance(ms[i], cos, sin)] else [])
              + Step(ms[i + 1..], width, height, cos, sin)
  {
    assert ms[i..][0] == ms[i] && ms[i..][1..] == ms[i + 1..];
  }

  /** Overwriting the element between `front` and `rest`, and then splicing
      that position out, leaves `front` followed by `rest`. */
  lemma ReplaceThenSplice<T>(front: seq<T>, x: T, a: T, rest: seq<T>)
    ensures (front + [x] + rest)[|front| := a] == front + ([a] + rest)
    ensures var u := (front + [x] + rest)[|front| := a];
            u[..|front|] + u[|front| + 1..] == front + rest
  {
    var u := (front + [x] + rest)[|front| := a];
    assert u[..|front|] == front && u[|front| + 1..] == rest;
    assert u == front + ([a] + rest);
  }

  /** One step of the in-place pass, run from the back: if every meteor after
      index `i` has already been handled, advancing the meteor at `i` where it
      stands, and splicing it out when it has left, leaves every meteor from
      index `i` on handled. */
  lemma StepInPlace(before: seq<Meteor>, i: nat, current: seq<Meteor>,
                    width: real, height: real, cos: real -> real, sin: real -> real)
    requires i < |before|
    requires current == before[..i + 1] + Step(before[i + 1..], width, height, cos, sin)
    ensures current[i] == before[i]
    ensures var a := Advance(before[i], cos, sin);
            var updated := current[i := a];
            && (Retained(a, width, height) ==> updated == before[..i] + Step(before[i..], width, height, cos, sin))
            && (!Retained(a, width, height) ==>
                  updated[..i] + updated[i + 1..] == before[..i] + Step(before[i..], width, height, cos, sin))
  {
    var rest := Step(before[i + 1..], width, height, cos, sin);
    var a := Advance(before[i], cos, sin);
    assert current == before[..i] + [before[i]] + rest by {
      assert before[..i + 1] == before[..i] + [before[i]];
    }
    ReplaceThenSplice(before[..i], before[i], a, rest);
    StepFrom(before, i, width, height, cos, sin);
    if !Retained(a, width, height) {
      assert Step(before[i..], width, height, cos, sin) == rest;
    }
  }

  /** A meteor survives the pass exactly when it is the advanced form of some
      meteor of the list that is still retained. */
  lemma {:induction false} StepMembers(ms: seq<Meteor>, width: real, height: real, cos: real -> real, sin: real -> real, m: Meteor)
    ensures m in Step(ms, width, height, cos, sin) <==>
              exists j :: 0 <= j < |ms| && m == Advance(ms[j], cos, sin) && Retained(m, width, height)
    decreases |ms|
  {
    if ms != [] {
      StepMembers(ms[1..], width, height, cos, sin, m);
      if m in Step(ms[1..], width, height, cos, sin) {
        var j :| 0 <= j < |ms[1..]| && m == Advance(ms[1..][j], cos, sin) && Retained(m, width, height);
        assert ms[j + 1] == ms[1..][j];
      }
      if exists j :: 0 <= j < |ms| && m == Advance(ms[j], cos, sin) && Retained(m, width, height) {
        var j :| 0 <= j < |ms| && m == Advance(ms[j], cos, sin) && Retained(m, width, height);
        if j > 0 {
          assert ms[1..][j - 1] == ms[j];
        }
      }
    }
  }

  /** The pass handles each meteor on its own and keeps their relative order:
      the survivors of a concatenation are the survivors of each part, in order. */
  lemma {:induction false} StepDistributes(a: seq<Meteor>, b: seq<Meteor>, width: real, height: real, cos: real -> real, sin: real -> real)
    ensures Step(a + b, width, height, cos, sin) == Step(a, width, height, cos, sin) + Step(b, width, height, cos, sin)
    decreases |a|
  {
    if a == [] {
      assert a + b == b;
    } else {
      var ab := a + b;
      assert ab[0] == a[0];
      assert ab[1..] == a[1..] + b;
      var adv := Advance(a[0], cos, sin);
      var head := if Retained(adv, width, height) then [adv] else [];
      assert Step(ab, width, height, cos, sin) == head + Step(a[1..] + b, width, height, cos, sin);
      StepDistributes(a[1..], b, width, height, cos, sin);
      assert Step(a, width, height, cos, sin) == head + Step(a[1..], width, height, cos, sin);
    }
  }

  /** An equivalent back-to-front formulation of the pass: it decides the
      meteors from the last one to the first, each on its own, and keeps the
      survivors in their original order. */
  function StepFromBack(ms: seq<Meteor>, width: real, height: real, cos: real -> real, sin: real -> real): seq<Meteor>
    decreases |ms|
  {
    if ms == [] then []
    else
      var a := Advance(ms[|ms| - 1], cos, sin);
      StepFromBack(ms[..|ms| - 1], width, height, cos, sin) + (if Retained(a, width, height) then [a] else [])
  }

  /** Scanning from the back gives the same list as scanning from the front:
      the pass is an order-preserving filter, whichever end it starts from. */
  lemma {:induction false} StepFromBackAgrees(ms: seq<Meteor>, width: real, height: real, cos: real -> real, sin: real -> real)
    ensures StepFromBack(ms, width, height, cos, sin) == Step(ms, width, height, cos, sin)
    decreases |ms|
  {
    if ms != [] {
      var front := ms[..|ms| - 1];
      var last := ms[|ms| - 1];
      assert ms == front + [last];
      StepFromBackAgrees(front, width, height, cos, sin);
      StepDistributes(front, [last], width, height, cos, sin);
      assert [last][1..] == [];
    }
  }

  /** The exit test is strict: a meteor that lands exactly on the margin is kept. */
  lemma ExitBoundaryIsStrict(m: Meteor, width: real, height: real, cos: real -> real, sin: real -> real)
    requires Advance(m, cos, sin).x == width + EXIT_MARGIN
    requires Advance(m, cos, sin).y <= height + EXIT_MARGIN
    ensures Step([m], width, height, cos, sin) == [Advance(m, cos, sin)]
  {
  }

  /** Motion changes only the position: every meteor left after the pass is still well formed. */
  lemma StepKeepsWellFormed(ms: seq<Meteor>, width: real, height: real, cos: real -> real, sin: real -> real)
    requires forall m :: m in ms ==> WellFormed(m)
    ensures forall m :: m in Step(ms, width, height, cos, sin) ==> WellFormed(m)
  {
    forall m | m in Step(ms, width, height, cos, sin)
      ensures WellFormed(m)
    {
      StepMembers(ms, width, height, cos, sin, m);
      var j :| 0 <= j < |ms| && m == Advance(ms[j], cos, sin) && Retained(m, width, height);
      assert ms[j] in ms;
    }
  }

  /** The meteor list after the spawn check that ends a frame: `rand(0)` is
      the gate draw and the following five feed `spawnMeteor`. */
  function Spawn(ms: seq<Meteor>, width: real, height: real, chance: real, rand: Draws): (r: seq<Meteor>)
    requires IsDrawStream(rand)
    ensures |ms| <= |r| <= |ms| + 1 && r[..|ms|] == ms
    ensures |r| == |ms| + 1 <==> rand(0) < chance
    ensures |r| == |ms| + 1 ==> r[|ms|] == NewMeteor(Tail(rand), width, height)
  {
    if rand(0) < chance then ms + [NewMeteor(Tail(rand), width, height)] else ms
  }

  /** The meteor list at the end of one frame: the survivors of the pass,
      then at most one new meteor, and none when the chance is not positive. */
  function FrameMeteors(ms: seq<Meteor>, width: real, height: real, chance: real,
                        cos: real -> real, sin: real -> real, rand: Draws): (r: seq<Meteor>)
    requires IsDrawStream(rand)
    ensures |r| <= |ms| + 1
    ensures chance <= 0.0 ==> r == Step(ms, width, height, cos, sin)
  {
    Spawn(Step(ms, width, height, cos, sin), width, height, chance, rand)
  }

  /** A frame keeps every meteor well formed, the new one included. */
  lemma FrameKeepsWellFormed(ms: seq<Meteor>, width: real, height: real, chance: real,
                           cos: real -> real, sin: real -> real, rand: Draws)
    requires IsDrawStream(rand)
    requires forall m :: m in ms ==> WellFormed(m)
    ensures forall m :: m in FrameMeteors(ms, width, height, chance, cos, sin, rand) ==> WellFormed(m)
  {
    var stepped := Step(ms, width, height, cos, sin);
    StepKeepsWellFormed(ms, width, height, cos, sin);
    var r := Spawn(stepped, width, height, chance, rand);
    forall m | m in r
      ensures WellFormed(m)
    {
      var k :| 0 <= k < |r| && r[k] == m;
      if k < |stepped| {
        assert r[..|stepped|][k] == m;
      }
    }
  }

  /** The meteor list after `frames` frames on a fixed surface, frame `i`
      drawing from `rands(i)`. Each frame adds at most one meteor, so `frames`
      frames add at most `frames`. */
  function Run(ms: seq<Meteor>, frames: nat, width: real, height: real, chance: real,
               cos: real -> real, sin: real -> real, rands: nat -> Draws): (r: seq<Meteor>)
    requires forall i: nat :: IsDrawStream(rands(i))
    ensures |r| <= |ms| + frames
    decreases frames
  {
    if frames == 0 then ms
    else FrameMeteors(Run(ms, frames - 1, width, height, chance, cos, sin, rands),
                      width, height, chance, cos, sin, rands(frames - 1))
  }

  /** With a spawn chance of 0, as under reduced motion, no frame ever adds a
      meteor: the list never grows, and an empty list stays empty. */
  lemma {:induction false} ZeroChanceNeverSpawns(ms: seq<Meteor>, frames: nat, width: real, height: real, chance: real,
                                                 cos: real -> real, sin: real -> real, rands: nat -> Draws)
    requires forall i: nat :: IsDrawStream(rands(i))
    requires chance <= 0.0
    ensures |Run(ms, frames, width, height, chance, cos, sin, rands)| <= |ms|
    ensures ms == [] ==> Run(ms, frames, width, height, chance, cos, sin, rands) == []
    decreases frames
  {
    if frames > 0 {
      ZeroChanceNeverSpawns(ms, frames - 1, width, height, chance, cos, sin, rands);
      var before := Run(ms, frames - 1, width, height, chance, cos, sin, rands);
      assert |Step(before, width, height, cos, sin)| <= |before|;
      assert IsDrawStream(rands(frames - 1));
      assert rands(frames - 1)(0) >= 0.0;
    }
  }
}
