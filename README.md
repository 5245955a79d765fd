# Star-field background animation, modelled in Dafny

This project models the state machine behind the page background animation in
`app/static/starfield.js`: a field of twinkling five-pointed stars, regenerated
whenever the drawing surface is resized, and streaking meteors that are spawned
with a fixed probability per frame, advanced by a fixed step each frame and
retired once they leave the surface by more than 100 units.

Canvas drawing is not modelled. The state changes are, together with the
arguments each frame hands to `drawStar`.

- `numerics.dfy` (module `Numerics`): `Math.round`, `Math.min`, `Math.max`,
  `Math.PI`, and the injected `Math.random` / `Math.sin` / `Math.cos` values.
  Numbers are exact reals.
  - `Math.random()` is a stream `rand: nat -> real`: the k-th call made by one
    operation returns `rand(k)`, and every draw lies in [0, 1).
  - `Math.sin` and `Math.cos` are functions `real -> real` with values in
    [-1, 1], supplied by the caller.
- `star_field.dfy` (module `StarField`): the star record, the field that
  `generateStars` builds, and the floored twinkle alpha.
- `meteor_system.dfy` (module `MeteorSystem`): the meteor record built by
  `spawnMeteor`, and the advance-and-retire pass (`Step`) with its properties.
  Also the spawn check that ends a frame, and runs of many frames.
- `animation.dfy` (module `Animation`): the class `Scene`. It holds the
  script's module-level variables (`width`, `height`, `DPR`, the canvas pixel
  size, `stars`, `meteors`, `lastTime`, `starDensity`, `shootingChance`).
  Its methods are `resize`, `generateStars`, `spawnMeteor`, `frame` and
  `init`. The meteor pass of `frame` is the method `AdvanceMeteors`. It walks
  the list in reverse index order, updates each meteor in place and splices it
  out when it has left. Its loop invariant says that indices below the cursor
  are untouched.

Each star draws seven values, in the script's evaluation order: two for the
size, then x, y, base alpha, twinkle speed and twinkle phase. Star `i` uses
draws `7i` to `7i+6`. In a frame, draw 0 is the spawn gate and draws 1 to 5
feed `spawnMeteor`.

The model follows the code exactly, including these details:
- The star count is exactly `Math.round(width*height*density)`, not an expected value.
- The radius can be 0 (both size draws 0).
- Base alpha lies in [0.4, 1.0), not [0.4, 1.0].
- Meteor angles lie in [20°, 50°), not [20°, 50°].
- `new Array(count)` throws a RangeError for a negative count. That happens
  only under a negative configured density. The model treats it as an error
  path: `GenerateStars`, `Resize` and `Init` report `false` and the stars stay
  as they were. `Init` then stops before reading the clock.

## Model

| member | source | states |
|---|---|---|
| Numerics.Round | app/static/starfield.js:23 | `Math.round` gives the integer within one half of its argument, halves rounded up |
| Numerics.Max | app/static/starfield.js:92 | `Math.max` is an upper bound of both arguments and equals one of them |
| Numerics.Min | app/static/starfield.js:86 | `Math.min` is a lower bound of both arguments and equals one of them |
| Numerics.Tail | app/static/starfield.js:119 | the draws left after the spawn gate are the next ones of the stream, still in [0,1) |
| StarField.NewStar | app/static/starfield.js:25-33 | a star built from draws in [0,1) has 0 <= r < 3.2, 0.4 <= baseAlpha < 1.0, 0.6 <= twinkleSpeed < 2.4, 0 <= twinklePhase < 2π and shape `'star'`; on a surface of positive size it lies in [0,width) × [0,height) |
| StarField.StarCount | app/static/starfield.js:23 | the star count is the integer within one half of width·height·density (`Math.round`), not a random quantity |
| StarField.GeneratedStars | app/static/starfield.js:22-35 | the regenerated field has exactly `round(width*height*density)` stars, every one in the ranges above; it does not depend on the previous field |
| StarField.StarsNeedArea | app/static/starfield.js:23 | a surface that gets at least one star has positive width and height |
| StarField.GeneratedStarsWithin | app/static/starfield.js:22-35 | every generated star lies inside [0,width) × [0,height), for every non-negative surface size |
| StarField.NegativeCountNeedsNegativeDensity | app/static/starfield.js:23-24 | on a non-negative surface, a negative star count (refused by `new Array`) can only come from a negative density |
| StarField.NegativeDensityGivesNoStars | app/static/starfield.js:23-24 | under a negative density the star count is never positive |
| StarField.DefaultDensityCount | app/static/starfield.js:6 | an 800 × 600 surface at the default density 0.001 gets 480 stars |
| StarField.TwinkleAlpha | app/static/starfield.js:91-92 | the alpha passed to `drawStar` is never negative, never below the twinkle term, and equals the twinkle term unless it was floored to 0 |
| StarField.Twinkle | app/static/starfield.js:91 | for sine values in [-1,1] the unfloored twinkle term lies within baseAlpha ± 0.25 |
| StarField.TwinkleAlphaBounds | app/static/starfield.js:91-92 | the alpha lies in [max(0, baseAlpha-0.25), max(0, baseAlpha+0.25)] |
| StarField.WellFormedStarNeverFloored | app/static/starfield.js:91-92 | for any generated star the floor at 0 never takes effect, and the alpha lies in [0.15, 1.25) |
| StarField.Sprite | app/static/starfield.js:92 | each `drawStar` call gets the star's own position and shape, twice its radius and a non-negative alpha; for a generated star the outer radius is below 6.4, the alpha in [0.15, 1.25) and the shape `'star'` |
| StarField.TwinkleAlphaExceedsOne | app/static/starfield.js:92 | there is no upper clamp: a star with base alpha 0.9 at a sine of 1 gets alpha 1.15 |
| MeteorSystem.NewMeteor | app/static/starfield.js:75-81 | a new meteor has length in [120,340), speed in [6,16), angle in [20°,50°) and life 0; ttl·speed = width+height; on a surface of positive size it starts in [0,0.6·width) × [0,0.3·height) |
| MeteorSystem.Advance | app/static/starfield.js:97-98 | one frame of motion changes only the position, by at most `speed` along each axis when sine and cosine lie in [-1,1]; a well-formed meteor stays well formed |
| MeteorSystem.Retained | app/static/starfield.js:116 | a meteor is kept exactly when x <= width+100 and y <= height+100 |
| MeteorSystem.Step | app/static/starfield.js:95-117 | the meteor pass never lengthens the list |
| MeteorSystem.StepMembers | app/static/starfield.js:95-117 | a meteor is in the list after the pass if and only if it is the advanced form of a meteor of the list whose advanced position satisfies x <= width+100 and y <= height+100 |
| MeteorSystem.StepDistributes | app/static/starfield.js:95-117 | the pass decides each meteor on its own and keeps relative order: the survivors of `a + b` are those of `a` followed by those of `b` |
| MeteorSystem.StepInPlace | app/static/starfield.js:95-117 | one iteration of the reverse loop: when every meteor after index i has been handled, advancing meteor i where it stands and splicing it out once it has left leaves every meteor from i on handled, and the earlier ones untouched |
| MeteorSystem.StepFromBackAgrees | app/static/starfield.js:95-117 | an equivalent back-to-front formulation of the pass, deciding the last meteor first, gives exactly the front-to-back order-preserving filter |
| MeteorSystem.ExitBoundaryIsStrict | app/static/starfield.js:116 | a meteor that lands exactly on x = width+100 (with y <= height+100) is kept |
| MeteorSystem.StepKeepsWellFormed | app/static/starfield.js:96-98 | motion changes only the position, so every surviving meteor keeps its length, speed, angle and life ranges |
| MeteorSystem.Spawn | app/static/starfield.js:119 | the spawn check keeps every earlier meteor and adds exactly one new meteor at the end exactly when the gate draw is below `shootingChance`, otherwise none |
| MeteorSystem.FrameMeteors | app/static/starfield.js:95-119 | a frame adds at most one meteor; with a spawn chance of at most 0 the list after the frame is exactly the survivors of the pass |
| MeteorSystem.FrameKeepsWellFormed | app/static/starfield.js:95-119 | a frame keeps every meteor well formed, the newly spawned one included |
| MeteorSystem.Run | app/static/starfield.js:95-120 | n successive frames, each drawing its own values, leave at most n more meteors than at the start |
| MeteorSystem.ZeroChanceNeverSpawns | app/static/starfield.js:9 | with spawn chance 0 (reduced motion) the list never grows over any number of frames, and an empty list stays empty |
| Animation.ClampDt | app/static/starfield.js:86 | the frame delta never exceeds 40 ms nor the time since the previous frame, and equals one of them |
| Animation.PixelRatio | app/static/starfield.js:13 | the pixel ratio in use is at least 1 and at least the reported one, and equals one of them |
| Animation.PixelSize | app/static/starfield.js:16-17 | the pixel-buffer size is `floor(logical*DPR)`, never fewer pixels than whole logical units |
| Animation.Scene.constructor | app/static/starfield.js:4-10 | start-up state: 0 × 0 surface, DPR at least 1, no stars, no meteors, `lastTime` 0, and spawn chance 0 under reduced motion |
| Animation.Scene.GenerateStars | app/static/starfield.js:22-36 | replaces the whole star array with the generated field, or leaves it as it was when the count is negative |
| Animation.Scene.Resize | app/static/starfield.js:12-20 | adopts the new size and DPR, sets the pixel buffer to `floor(width*DPR)` × `floor(height*DPR)`, regenerates the stars, leaves meteors and `lastTime` alone, and keeps the object invariant |
| Animation.Scene.Init | app/static/starfield.js:123-127 | the first resize (new size and DPR, pixel buffer `floor(width*DPR)` × `floor(height*DPR)`, regenerated stars, meteors untouched), then `lastTime` := now, unless the star count was refused |
| Animation.Scene.SpawnMeteor | app/static/starfield.js:75-82 | appends exactly one new meteor at the end; earlier meteors are unchanged |
| Animation.Scene.AdvanceMeteors | app/static/starfield.js:95-117 | the reverse in-place advance-and-splice loop leaves exactly the order-preserving filter `Step` of the old list |
| Animation.Scene.Frame | app/static/starfield.js:85-121 | `dt` = min(40, t - old lastTime) and `lastTime` := t; one `drawStar` call per star with its floored twinkle alpha; meteors become the advanced survivors plus at most one spawn, none under reduced motion; the object invariant is kept |

## Left out

- Canvas rendering is not modelled: `drawStar`'s path, `clearRect`, gradients, `'lighter'` compositing, `arc`, `save`/`restore`, `setTransform` (starfield.js:38-73, 88, 99-115). These are side effects on the drawing surface with no state to verify. The model keeps only the arguments of each `drawStar` call.
- DOM and environment reads are not modelled: `getElementById`, `getComputedStyle`, `matchMedia`, `devicePixelRatio`, `clientWidth`/`clientHeight`. Their results are parameters.
- The `--star-density` / `--shooting-chance` parsing with `||` fallbacks is not modelled. The constructor receives the resolved values. Under that parsing, a CSS value of 0 falls back to the default.
- `Math.random`, `Math.sin` and `Math.cos` are not computed. They are injected values with the ranges the platform promises.
- Scheduling and lifecycle are not modelled: `requestAnimationFrame`, `performance.now`, and the `resize` / `DOMContentLoaded` listeners. `now` and `t` are parameters.
- IEEE-754 rounding, NaN and infinities are not modelled. Numbers are exact reals, and `Math.PI` is the decimal 3.141592653589793.
- Meteors are values in a sequence, not shared objects. The source holds each meteor only through the array, so no aliasing is lost.
- `new Array(count)` also throws for counts above 2^32-1. Only the negative-count case is modelled.
- Negative client sizes are not modelled: layout never reports them, so `Resize` takes them as non-negative and the unsigned wrap of a negative canvas size does not arise.
- The canvas pixel size before the first resize is left unspecified. The script never sets it.
- `dt` is returned but used for nothing, as in the source. `life` and `ttl` are stored and never read. No time-based expiry is invented.
- Two statistical properties are not stated: the spawn frequency over many frames, and the meteor count settling under a spawn chance of 1. Both depend on probabilities or on actual cosine values of the angles, which the injected values do not pin down.
- `app/main.py` is a web route that renders a template. It has no logic and is not part of this model.
