# audio-collider, core logic in Dafny

audio-collider is a generative-art toy: triangular bodies drift in a
gravity-free arena, wrap around the screen edges, collide, and react to mouse
clicks with outward impulses, fading rings and bell/drone tones. Physics
(Matter.js), synthesis (Tone.js) and colour (chroma-js) are libraries; this
project models the small amount of logic the repository owns itself, in both
of its copies:

- the modular copy (`src/simulation.js` + `src/audio.js`), treated as primary;
- the older monolithic copy (`src/main.js`), whose effects update radius and
  fill *before* checking for removal, while the modular explosion checks
  first and returns without redrawing.

Modules (one file each):

| module | file | models |
|---|---|---|
| `Basics` | basics.dfy | points, opaque colours, body render style, collision pairs, `bodies.includes` |
| `Wrap` | wrap.dfy | the `beforeUpdate` toroidal wrap (identical in both copies) |
| `Animation` | animation.dfy | the outcome of one interval callback (`Alive`/`Removed`), running `k` callbacks, and the countdown that bounds every effect's life |
| `Explosion` | explosion.dfy | `createExplosion` of the modular copy |
| `LegacyEffects` | legacy_effects.dfy | `createClickIndicator` and `createBloom` of the monolithic copy |
| `Impulse` | impulse.dfy | the capped inverse-distance impulse magnitude (same constants in both copies) |
| `Scale` | scale.dfy | the octave × interval semitone table of both copies |
| `Audio` | audio.dfy | the start flag, `constructFrequencies`, `triggerBell`, `triggerSaw` |
| `Glow` | glow.dfy | `triggerGlow` (modular) and `makeBallGlow` (monolithic) with their reverts |
| `Simulation` | simulation.dfy | the click and collision handlers of the modular copy, and timer callbacks as explicit operations |
| `LegacyMain` | legacy_main.dfy | the click and collision handlers of the monolithic copy |

Modelling choices:

- Positions, radii, scales and alphas are `real` (exact arithmetic).
- Every timer callback (`Step`, `FireEffectTick`, `FireGlowRevert`), and the
  continuation after `await Tone.start()` (`StartResolved`), is an explicit operation. An effect's
  life is `Run(e, k)`, its first `k` callbacks.
- `Tone.start()` is asynchronous. `EnsureTone` is the synchronous part of
  `ensureTone`: with the flag off it issues a start (one more pending start)
  and never sets the flag. `StartResolved` is the continuation after the
  `await`, and it is the only place the flag is set.
- Random draws (`_.random`, `_.sample`) are inputs with range preconditions.
  The distance of each body from the click is a given non-negative real.
- Frequencies are semitone offsets above C2. `freqObj.transpose(t).harmonize(scale)`
  becomes `t + scale[i]`. A low voice at `x` times half of `frequencies[0]` is
  `Low(frequencies[0], x / 2)`.
- Colours are opaque tokens: `Rgb(r, g, b)` for literal strings, and
  `Derived(shade, hue)` for chroma derivations from the base background colour.
- Matter's `Body.setPosition` moves `body.position` in place and shifts the
  previous position by the same amount, so velocity is kept. This is why the
  vertical check of the wrap handler sees the already-wrapped x.

Details of the code the model keeps:

- The hue is drawn with `_.random(0, 360, true)`, which can return 360
  (lodash clamps to the upper bound), so the model admits `[0, 360]`.
- The modular click handler plays the drone before it changes the hue and
  spawns the rings; only the state after the handler is modelled.
- The monolithic click indicator is created with radius 5. Its first callback
  redraws it with radius `5 * 9 = 45`, not `5 * 5`. The bloom is created with fill
  `rgb(255, 255, 100)`, and every callback redraws it with `rgb(255, 255, 0)`.

## Model

| member | source | states |
|---|---|---|
| `Wrap.WrapX` | src/simulation.js:69-73 | x < 0 moves to x = width, x > width moves to x = 0, an in-range x leaves the body unchanged; y, velocity and render are untouched |
| `Wrap.WrapY` | src/simulation.js:76-80 | the same rule for y against height, reading the x already corrected; x, velocity and render are untouched |
| `Wrap.WrapBody` | src/simulation.js:66-80 | after the wrap the position is in [0, width] × [0, height]; each of the six per-axis cases moves exactly as written; a body already in bounds is returned unchanged; velocity and render never change |
| `Wrap.AxesIndependent` | src/simulation.js:68-80 | the wrapped x depends only on the old x, and the wrapped y only on the old y |
| `Wrap.WrapIdempotent` | src/simulation.js:64-82 | wrapping an already wrapped body changes nothing |
| `Wrap.BeforeUpdate` | src/main.js:60-78 | the handler wraps every body in order: same length, every result in bounds, bodies already in bounds kept |
| `Animation.TicksUntilNonPositive` | src/simulation.js:121-130 | a positive quantity with a negative per-tick increment becomes non-positive at tick k ≥ 1 and is positive at every earlier tick; this is the termination argument for every effect |
| `Animation.TicksUnique` | src/simulation.js:125-130 | that first non-positive tick is unique |
| `Animation.RunOneMore` | src/simulation.js:121-134 | k + 1 callbacks are k callbacks and then one more, unless the effect has already removed itself |
| `Explosion.Create` | src/simulation.js:107-120 | a new circle has radius initScale, fill alpha initAlpha, both factors 1, and carries its parameters |
| `Explosion.CreateDefault` | src/simulation.js:107 | omitted rates default to scale +0.1, alpha −0.1 and interval 70 |
| `Explosion.Step` | src/simulation.js:121-134 | a callback removes the circle exactly when the new alpha factor is ≤ 0; the removal callback leaves radius and fill as they were; a live callback strictly lowers the alpha factor when alphaIncrease < 0 and keeps a positive fill alpha |
| `Explosion.Lifetime` | src/simulation.js:123-130 | the removal callback is the first k with 1 + k·alphaIncrease ≤ 0 |
| `Explosion.StepAfterTicks` | src/simulation.js:121-134 | one callback on the closed form after k callbacks gives the closed form after k + 1, or removal without a redraw |
| `Explosion.Lifecycle` | src/simulation.js:119-134 | a fresh circle is alive, in closed form, for every k before its lifetime; it is removed at its lifetime, with the radius and fill of the previous callback; later callbacks change nothing, so it is never stepped again |
| `Explosion.Appearance` | src/simulation.js:132-133 | after k live callbacks the radius is initScale·(1 + k·scaleIncrease) and the fill alpha is initAlpha·(1 + k·alphaIncrease) |
| `Explosion.AlphaFades` | src/simulation.js:123-133 | after 1 ≤ k live callbacks the fill alpha lies strictly between 0 and initAlpha, and it falls with every callback |
| `Explosion.CollisionExplosionLifetime` | src/simulation.js:101 | the collision explosion (alpha −0.1) is removed on its 10th callback |
| `Explosion.ClickRingLifetimes` | src/simulation.js:57-59 | the three click rings are removed on their 20th, 15th and 12th callbacks |
| `LegacyEffects.ClickIndicator` | src/main.js:118-137 | the indicator starts with radius 5, fill rgb(255, 100, 100) at alpha 0.7, scale 5 (+4), opacity 0.7 (−0.1), every 30 ms; its callbacks draw radius 5·scale in rgb(255, 100, 100) |
| `LegacyEffects.Bloom` | src/main.js:250-264 | the bloom starts with radius 30, fill rgb(255, 255, 100) at alpha 0.5, scale 1 (+0.18), opacity 0.5 (−0.05), every 70 ms; its callbacks draw radius 30·scale in rgb(255, 255, 0) |
| `LegacyEffects.Step` | src/main.js:132-143 | a callback first writes the new scale, radius = unit·scale and the new opacity (old + increment), which is also the fill's alpha, then removes the circle exactly when that opacity is ≤ 0; the removal callback has written a non-positive alpha |
| `LegacyEffects.Lifetime` | src/main.js:134-142 | the removal callback is the first k with initOpacity + k·increment ≤ 0 |
| `LegacyEffects.StepIgnoresDrawn` | src/main.js:265-269 | a callback reads only the parameters, the scale and the opacity; what was drawn before is overwritten |
| `LegacyEffects.FreshStepsLikeClosedForm` | src/main.js:129-137 | the first callback of a fresh circle gives the same result as a callback on the closed form at 0 |
| `LegacyEffects.StepAfterTicks` | src/main.js:264-275 | one callback on the closed form after k callbacks redraws the closed form after k + 1, and removes it when the opacity is no longer positive |
| `LegacyEffects.Lifecycle` | src/main.js:129-143 | a fresh circle is alive in closed form after every callback before its lifetime; it is removed at its lifetime after that callback has redrawn radius and fill; later callbacks change nothing |
| `LegacyEffects.ClickIndicatorLifetime` | src/main.js:129-142 | the indicator is removed on its 7th callback, which draws radius 165 at opacity 0 |
| `LegacyEffects.BloomLifetime` | src/main.js:262-274 | the bloom is removed on its 10th callback, which draws radius 84 at opacity 0 |
| `Impulse.GuardedDistance` | src/simulation.js:154 | a zero distance is replaced by 0.001; any other distance is kept; the result is positive |
| `Impulse.Magnitude` | src/simulation.js:154-156 | the magnitude lies in (0, 0.04]; it equals the cap 0.04 exactly when distance ≤ 75; beyond that it is 3 / distance |
| `Impulse.MagnitudeNonIncreasing` | src/main.js:160-165 | a farther body is never pushed harder |
| `Impulse.ZeroDistanceIsCapped` | src/main.js:162-164 | for a body exactly at the click the distance becomes 0.001, so the computed magnitude is the cap 0.04 |
| `Impulse.OutwardMagnitudes` | src/simulation.js:150-161 | every body gets one magnitude, min(3 / distance, 0.04) of its own distance: bounded, capped exactly within distance 75, and never larger for a farther body |
| `Scale.BuildScale` | src/audio.js:40-46 | the flattened table has one entry per (octave, interval) pair |
| `Scale.ScaleIndex` | src/audio.js:38-46 | entry i·\|intervals\| + j is octave i times 12 plus interval j (octave-major order) |
| `Scale.ScaleLowerBound` | src/audio.js:39-46 | with increasing octaves and steps inside one octave (0 to 11), no entry lies below the first octave's C |
| `Scale.ScaleIncreasing` | src/audio.js:40-46 | with increasing octaves and increasing intervals inside one octave, the table is strictly increasing |
| `Scale.ModularScaleFacts` | src/audio.js:37-46 | the modular table is [12, 16, 19, 22, …, 55, 58]: 16 entries, strictly increasing, from 12 to 58 |
| `Scale.LegacyScaleFacts` | src/main.js:188-197 | the monolithic table has 25 entries, is strictly increasing, and runs from 0 to 58 |
| `Audio.ConstructFrequencies` | src/audio.js:53-57 | the transposed list has one entry per scale element |
| `Audio.UntransposeInverts` | src/audio.js:54 | shifting the list back by the transposition gives the scale |
| `Audio.TransposeKeepsOrder` | src/audio.js:53-57 | transposing an increasing scale gives an increasing list, whose first entry is its lowest |
| `Audio.Init` | src/audio.js:48-50 | at load time the flag is off, no start is pending, and the list is the untransposed scale |
| `Audio.SetTranspose` | src/audio.js:53-57 | the list is replaced by the scale shifted by the transposition; the flag is untouched |
| `Audio.SetTransposeForgetsOld` | src/audio.js:56 | the new list does not depend on the previous one |
| `Audio.EnsureTone` | src/audio.js:8-14 | with the flag on the call does nothing; with it off the call issues one start; it never sets the flag itself |
| `Audio.StartResolved` | src/audio.js:10-11 | the flag is set once the awaited start completes |
| `Audio.EnsureToneAwaited` | src/simulation.js:41 | after awaiting, audio has started, and nothing else has changed |
| `Audio.EnsureToneIdempotent` | src/audio.js:8-14 | awaiting twice is awaiting once, and a later call is a no-op |
| `Audio.TriggerBell` | src/audio.js:82-89 | at most one note; a note sounds exactly when audio has started, and it is the drawn entry of the current list |
| `Audio.TriggerSaw` | src/audio.js:92-102 | nothing unless audio has started; otherwise it releases all low voices first, then plays three voices on frequencies[0] at 0.995/2, 1.5/2 and 1.005/2 |
| `Audio.SawRootIsLowest` | src/audio.js:93 | after a transposition of an increasing scale, the drone's root is the lowest entry of the list |
| `Glow.TriggerGlow` | src/simulation.js:138-140 | the fill becomes the glow colour and lineWidth becomes 2; position, velocity and stroke are untouched |
| `Glow.RevertGlow` | src/simulation.js:143-146 | the fill becomes the given original colour and lineWidth becomes 1; nothing else changes |
| `Glow.GlowThenRevert` | src/simulation.js:138-147 | a default-styled body is restored exactly by the revert, even after overlapping glows |
| `Glow.MakeBallGlow` | src/main.js:279-281 | the fill becomes rgb(255, 255, 0); the line width, stroke, position and velocity are untouched |
| `Glow.RevertBallGlow` | src/main.js:284-286 | the fill returns to rgb(80, 80, 80); nothing else changes |
| `Glow.BallGlowThenRevert` | src/main.js:279-287 | the single revert restores a default-coloured body exactly |
| `Basics.SetPosition` | src/simulation.js:70 | moving a body sets its position and keeps its velocity and render style |
| `Basics.Midpoint` | src/simulation.js:98-99 | the explosion centre is equidistant from both bodies on each axis |
| `Simulation.OnCollisionPair` | src/simulation.js:86-102 | a pair that fails the guard changes nothing; otherwise the pair gets one bell from the current list, two glows with a revert scheduled for each body, and one default-rate explosion (30, 0.5) at the midpoint; no other body changes, and no position or velocity changes |
| `Simulation.OnCollisionStart` | src/simulation.js:85-104 | over all reported pairs in order: the bells, explosions and scheduled reverts are exactly those of the pairs that pass the guard (reference definitions `NewBells`, `NewExplosions`, `NewReverts`: the drawn note, the default-rate explosion at the pair's midpoint, both bodies); existing effects are kept; a body glows exactly when a reacting pair names it, and every other body is untouched; nothing moves |
| `Simulation.HandleOneMore` | src/simulation.js:86-102 | handling one more pair extends the bells, explosions and reverts of the earlier pairs by that pair's own, and keeps the glow rule for bodies |
| `Simulation.FireGlowRevert` | src/simulation.js:143-146 | a revert restores the default fill and lineWidth 1 of its body only, keeping its stroke, position and velocity; other bodies, effects, audio, hue and background are unchanged |
| `Simulation.FireEffectTick` | src/simulation.js:121-134 | an effect callback either redraws that effect in place or removes it from the world, leaving all other effects, bodies, audio, hue and background as they were |
| `Simulation.ClickRings` | src/simulation.js:55-59 | three fresh rings at the pointer position, each with radius 5 and alpha 0.7, rates (1.5, −0.05), (2, −0.07), (3, −0.09), every 30 ms |
| `Simulation.OnClick` | src/simulation.js:40-61 | after a click audio has started; the list is the modular table shifted by transpose ∈ [0, 11] (16 entries); the drone releases and plays three voices on the lowest entry at 0.995/2, 1.5/2 and 1.005/2 of it; the pending-start count is unchanged; hue and background follow the drawn hue; the three rings are appended; each body's magnitude is min(3 / distance, 0.04) of its own distance, never larger for a farther body |
| `Simulation.ClickOpensCollisions` | src/simulation.js:40-101 | since the handler awaits the start, a tracked collision right after the first click already rings and spawns an explosion |
| `LegacyMain.OnCollisionPair` | src/main.js:232-246 | a bell is requested for every pair and sounds exactly when audio has started; glow and bloom happen only when both bodies are tracked and audio has started; the glow changes only the two fills, keeping line width, stroke, position and velocity |
| `LegacyMain.FireGlowRevert` | src/main.js:284-286 | the revert sets rgb(80, 80, 80) on its body only, and keeps its line width, stroke, position and velocity; other bodies, effects and audio are unchanged |
| `LegacyMain.FireEffectTick` | src/main.js:132-143 | an indicator or bloom callback redraws that effect in place, or removes it after its last redraw |
| `LegacyMain.FireStartResolved` | src/main.js:112-113 | the flag is set when a pending start resolves, one fewer start is pending, and bodies, effects and the list are kept |
| `LegacyMain.OnClick` | src/main.js:150-169 | the click leaves the flag as it was, because the start is not awaited; the list is the 25-entry table shifted by transpose; one click indicator is appended; each body's magnitude is min(3 / distance, 0.04) of its own distance, never larger for a farther body |
| `LegacyMain.FirstClickCollisionsSilent` | src/main.js:150-238 | until the start resolves, a collision after the first click plays nothing and glows nothing |

## Left out

- `src/init-scene.js`: engine, renderer and mouse-constraint set-up. It has no logic of its own.
- Body generation: the count `floor(area · density)`, random placement, sizes and angles. The commented-out render hook in `src/main.js` is left out too.
- Matter.js internals: integration, collision detection, `Body.applyForce`, and the
  direction `Vector.normalise(direction)`, which is float and square-root based.
  Only the impulse magnitude is modelled. `Body.setPosition` is assumed to move
  the body in place and keep its velocity.
- The applied force at distance 0: the direction is the zero vector there, and its normalisation is left out. So the model does not state that such a body gets no push, although its computed magnitude is the cap.
- Tone.js: the synth voices, effect chains, Hz values, note durations
  (0.51 s and 0.15 s) and start offsets (`now + Math.random() * 0.1`, `now + 0.05`).
  Notes are semitone indices.
- chroma-js: hue setting, saturation, brightening and darkening, and CSS strings. Colours are opaque tokens.
- Timer scheduling: the effect intervals (30 ms, 70 ms) are recorded as data in each effect, and the 200 ms glow delay appears only in comments. The interleaving of independent timers, and which of several overlapping glow reverts fires last, are not modelled.
- Randomness: the draws are inputs constrained to their ranges.
- IEEE-754 drift: the removal ticks (10, 20, 15, 12, 7, 10) hold in exact arithmetic. Float accumulation can move them by one tick.
- A rejected `Tone.start()` promise. In the modular copy the awaiting click handler would throw before doing anything else. In the monolithic copy `ensureTone()` is not awaited, so that handler runs to the end, the rejection goes unhandled, and the flag stays off. Neither path is modelled.
- `console.log` calls.
- Simulation.OnClick: treats the handler as atomic once its `await` has resolved. Another event that runs while the start is pending is not interleaved with it. The pointer position is read after the `await`, so on a first click the rings and the impulse centre are the pointer position when the start resolves; `click` and `distances` stand for that position.
- Audio.TriggerBell: the random draw `_.sample(frequencies)` happens before the flag check and is modelled as the `pick` input. The list is never empty after load, so `pick` is required to be a valid index.
- Audio.TriggerSaw: requires a non-empty list. The source would compute `undefined / 2` on an empty list, but the list always holds the 16 or 25 table entries after load.
