# Scroll-synced frame player — a Dafny model

The Obsidian X1 site plays three scroll-scrubbed image sequences on a `<canvas>`:
the hero (`components/Hero.tsx`), the two "inside the machine" parts
(`MachineSection` in `components/InsideTheMachine.tsx`, chassis and engine,
40 frames each) and the design sequence (`DesignScrollSequence` in
`components/DesignSection.tsx`, fixed at 40 frames from `/Car_Design_Sequence/`).
Each player names its frames, loads them, turns scroll progress into a frame
index, fits the chosen frame onto the canvas and paints it; overlay captions fade
on the same progress value. This project models that player and proves its
contracts.

Layout, one module per concern:

- `naming.dfy` (`Naming`): `toString`, `padStart(3, "0")` and the frame path
  `prefix + "ezgif-frame-" + NNN + ".jpg"`, with a parse-back function as the partner.
- `geometry.dfy` (`Geometry`): contain and cover ratios and the centred
  destination rectangle, on exact reals.
- `interpolation.dfy` (`Interpolation`): the clamped piecewise-linear interpolation of
  `useTransform`, used for overlay opacities and for the frame value.
- `mapping.dfy` (`Mapping`): frame value `p * (N - 1)` and the two index rules:
  the sections' `min(max(floor(v), 0), len - 1)` and the hero's `min(floor(v), len - 1)`.
- `loading.dfy` (`Loading`): JavaScript sparse-array writes and the array the
  concurrent loader publishes, for any settle order of the callbacks.
- `painter.dfy` (`Painter`): the visible canvas as a value, plus the two paint rules.
- `hero.dfy` (`HeroSequence`): the class `HeroPlayer`, its sequential loader and
  the hero overlays.
- `section.dfy` (`SectionSequence`): the class `SectionPlayer`, with constructors
  `Machine` and `Design`, plus the section overlays. `MachineSection` and
  `DesignScrollSequence` run the same code; the `SectionPlayer` methods model
  both (`components/DesignSection.tsx:60-144` mirrors
  `components/InsideTheMachine.tsx:163-263`).

Modelling choices:

- Loading outcomes are inputs. `outcome[i - 1]` is how request `i` settles:
  `Some(image)` when it loads, `None` when it fails. The section loader also
  takes the order in which the callbacks run, and its result is proved to be the
  same for every order.
- The hero appends every element, failed or not. So its array always has 40
  entries, and the `if (image)` guard never skips one. The model keeps a failed
  element as `None` in the hero's array, and painting it draws nothing. The
  hero clears before it draws, so scrolling onto a failed frame leaves the canvas
  blank (`HeroSequence.FailedFrameBlanks`). The section players return before
  clearing, so the previous frame stays visible.
- Assigning a canvas's `width` or `height` resets its bitmap. So every resize
  blanks the canvas before redrawing. This is why the hero's resize path needs no
  `clearRect` (`Painter.HeroResizeNeedsNoClear`), and why a section resize whose
  current slot is a hole leaves the canvas blank.
- A fresh canvas is 300 x 150. The hero attaches its resize handler only once
  loading is done. The sections run theirs at mount, which only sizes the canvas.
- On every change of the frame value the code redraws, even when the index stays
  the same. The model follows the code here, not the rule "only redraw when the
  index changes".
- The sections' published array ends at the last frame that loaded. A trailing
  failure therefore shortens it and leaves no hole
  (`Loading.OneTrailingFailure`), and the clamp bound follows the shorter length.

## Model

| member | source | states |
|---|---|---|
| `Naming.Decimal` | components/InsideTheMachine.tsx:172 | `i.toString()` is a non-empty string of digits with no leading zero, and has at most 3 digits below 1000 |
| `Naming.DecimalValue` | components/InsideTheMachine.tsx:172 | reading the decimal string back yields the number |
| `Naming.LeadingZeros` | components/InsideTheMachine.tsx:172 | zero padding does not change the value of a digit string |
| `Naming.PadStart` | components/InsideTheMachine.tsx:172 | `padStart` reaches the target length (or keeps a longer string), keeps the string as its suffix and fills in front |
| `Naming.Pad3` | components/Hero.tsx:32 | the padded frame number is all digits, the decimal digits with zeros in front up to length 3, so exactly 3 long below 1000 |
| `Naming.Pad3Spec` | components/Hero.tsx:32 | the padded frame number reads back as the frame number |
| `Naming.Pad3Injective` | components/DesignSection.tsx:68 | distinct frame numbers get distinct padded names |
| `Naming.FramePath` | components/InsideTheMachine.tsx:173 | a frame's source starts with the sequence folder, ends in `.jpg`, and is 16 characters plus the padded number longer than the folder |
| `Naming.FramePathInjective` | components/InsideTheMachine.tsx:173 | distinct frames of one sequence are fetched from distinct paths |
| `Naming.FramePathNumber` | components/DesignSection.tsx:69 | the characters between `ezgif-frame-` and `.jpg` are digits that read back as the frame number; the path is prefix + 19 characters long below frame 1000 |
| `Naming.FramePaths` | components/InsideTheMachine.tsx:168-173 | request k of a batch (0-based) is the path of frame k + 1 |
| `Naming.HeroPathExamples` | components/Hero.tsx:28-33 | hero frames 1 and 40 are `/obsidian_sequence_images/ezgif-frame-001.jpg` and `…-040.jpg` |
| `Geometry.ContainRatio` | components/InsideTheMachine.tsx:215-217 | the contain ratio fits the image on both axes and touches the canvas on one |
| `Geometry.CoverRatio` | components/Hero.tsx:62-64 | the cover ratio spans the canvas on both axes and matches it on one |
| `Geometry.ContainFit` | components/InsideTheMachine.tsx:215-225 | the contain rectangle lies inside the canvas, fills one axis, keeps the aspect ratio and has equal margins on opposite sides |
| `Geometry.CoverFit` | components/Hero.tsx:62-80 | the cover rectangle covers the canvas, matches one axis, keeps the aspect ratio and overflows equally on opposite sides (offsets ≤ 0) |
| `Geometry.ContainIsLargest` | components/DesignSection.tsx:104-108 | no larger scale keeps the whole image visible |
| `Geometry.CoverIsSmallest` | components/Hero.tsx:60-64 | no smaller scale paints the whole canvas |
| `Geometry.ContainExample` | components/InsideTheMachine.tsx:215-220 | a 1920x1080 frame on a 1200x900 canvas gets ratio 0.625 and is drawn at (0, 112.5) with size 1200x675 |
| `Interpolation.Clamp` | components/Hero.tsx:19 | the interpolator's input is held inside the first and last key |
| `Interpolation.MixBetween` | components/Hero.tsx:22 | inside a segment the output lies between the segment's two values |
| `Interpolation.Interp` | components/Hero.tsx:19-23 | at or before the first key the output is the first value; at or after the last key it is the last value |
| `Interpolation.SegmentLine` | components/Hero.tsx:22-23 | an induction showing the segment search returns the linear mix of any two adjacent keys between them |
| `Interpolation.InterpBetween` | components/Hero.tsx:22-23 | between two adjacent keys of any well-formed list the output is the linear mix of their values |
| `Interpolation.InterpWithin` | components/Hero.tsx:22-23 | the interpolated output never leaves the range of the keyframe values |
| `Interpolation.SegmentAtLast` | components/Hero.tsx:22 | the segment search gives the last value at the last key |
| `Interpolation.SegmentFlat` | components/DesignSection.tsx:154 | between two keys with equal values the segment search returns that value |
| `Interpolation.InterpFlat` | components/DesignSection.tsx:154 | between two keys with equal values the output is that value |
| `Interpolation.InterpLine` | components/InsideTheMachine.tsx:280 | with two keys the output inside the range is the straight line through them |
| `Interpolation.InterpRising` | components/InsideTheMachine.tsx:201 | with two keys and a rising output, the output never decreases as the input grows |
| `Interpolation.FadeOutSpec` | components/InsideTheMachine.tsx:280 | a `[0, end] → [1, 0]` fade is 1 at the top, 0 from `end` on, `1 - p/end` in between, and always in [0, 1] |
| `Mapping.FrameValue` | components/InsideTheMachine.tsx:200-201 | the frame value is 0 at or before the top, N - 1 at or after the bottom, and always in [0, N - 1] |
| `Mapping.FrameValueSpec` | components/InsideTheMachine.tsx:200-201 | inside [0, 1] the frame value is the straight line `p * (N - 1)` |
| `Mapping.FrameValueMonotone` | components/DesignSection.tsx:94 | scrolling down never lowers the frame value |
| `Mapping.ClampIndex` | components/InsideTheMachine.tsx:231-234 | the section index is always a valid index, and equals the floor whenever the floor is one |
| `Mapping.MinIndex` | components/Hero.tsx:56 | the hero index never exceeds `len - 1`, is not negative for a non-negative value, equals the floor when that is at most `len - 1`, and `len - 1` otherwise |
| `Mapping.SectionFrame` | components/DesignSection.tsx:119-121 | the index a section draws at progress p is below the published length |
| `Mapping.HeroFrame` | components/Hero.tsx:50-57 | the index the hero draws at progress p is a valid index |
| `Mapping.ClampInRange` | components/DesignSection.tsx:121 | for a value in [0, len - 1] both index rules give its floor |
| `Mapping.SectionFrameMonotone` | components/InsideTheMachine.tsx:229-234 | scrolling down never selects an earlier section frame |
| `Mapping.HeroFrameMonotone` | components/Hero.tsx:56 | scrolling down never selects an earlier hero frame |
| `Mapping.SectionFrameFormula` | components/InsideTheMachine.tsx:201-234 | with all N frames published the section index is `floor(p * (N - 1))`: 0 at the top, N - 1 at the bottom |
| `Mapping.HeroFrameFormula` | components/Hero.tsx:19-56 | with all N elements the hero index is `floor(p * (N - 1))`: 0 at the top, N - 1 at the bottom |
| `Loading.Assign` | components/InsideTheMachine.tsx:175 | writing slot k sets it, keeps every other slot, and grows the array to k + 1 with holes |
| `Loading.Published` | components/InsideTheMachine.tsx:165-189 | the published array agrees with the outcomes slot by slot, ends with a loaded frame, and only failures lie beyond it |
| `Loading.PublishedFrames` | components/DesignSection.tsx:70-84 | the published array is empty exactly when every load failed; every frame that loaded sits in its own slot |
| `Loading.PublishedUnique` | components/InsideTheMachine.tsx:165-189 | those properties determine the published array |
| `Loading.SettleStep` | components/InsideTheMachine.tsx:174-182 | a success writes its own slot and no other; a failure writes nothing |
| `Loading.AllSettled` | components/InsideTheMachine.tsx:187 | once every request has settled, the partial view is the whole outcome |
| `Loading.SettleAll` | components/InsideTheMachine.tsx:166-189 | for any settle order the callbacks build exactly the published array |
| `Loading.OneInnerFailure` | components/DesignSection.tsx:70-84 | 5 requests with the third failing publish 4 frames and 1 hole |
| `Loading.OneTrailingFailure` | components/InsideTheMachine.tsx:174-189 | 5 requests with the last failing publish 4 frames and no hole |
| `Painter.Resized` | components/InsideTheMachine.tsx:243-244 | setting the width and height resets the bitmap: the canvas equals a fresh one of the new size |
| `Painter.SectionPaint` | components/InsideTheMachine.tsx:204-226 | drawImage never changes the canvas size |
| `Painter.HeroPaint` | components/Hero.tsx:69-80 | the hero's draw never changes the canvas size |
| `Painter.SectionPaintShows` | components/DesignSection.tsx:96-117 | a present frame is shown inside the canvas; a hole or an index past the array leaves the canvas unchanged |
| `Painter.SectionPaintForgets` | components/InsideTheMachine.tsx:212 | clear-then-draw: the result does not depend on what was visible before |
| `Painter.SectionPaintIdempotent` | components/DesignSection.tsx:102-116 | drawing the same index twice equals drawing it once |
| `Painter.SectionHoleKeepsLast` | components/InsideTheMachine.tsx:207 | after frame k, requesting a hole keeps frame k visible |
| `Painter.HeroPaintShows` | components/Hero.tsx:56-81 | the hero shows frame i covering the canvas when it loaded, and a blank canvas when it failed |
| `Painter.HeroPaintIdempotent` | components/Hero.tsx:69-80 | repainting the same hero frame equals painting it once |
| `Painter.HeroDrawNoClear` | components/Hero.tsx:95-106 | the resize handler's draw keeps the canvas size, and leaves the canvas exactly as it was for a failed element |
| `Painter.HeroResizeNeedsNoClear` | components/Hero.tsx:90-106 | on a freshly sized canvas the draw without `clearRect` equals a clear-then-draw; on a canvas still showing a picture, a failed element would leave that picture where a clear-then-draw blanks it |
| `Painter.SectionResizeExample` | components/InsideTheMachine.tsx:242-248 | after a resize to 1200x900, a 1920x1080 frame k is drawn at (0, 112.5) with size 1200x675 |
| `HeroSequence.LoadInOrder` | components/Hero.tsx:27-40 | the sequential loader requests frames 1..40 in order and keeps all 40 elements in order, failed ones included |
| `HeroSequence.HeroPlayer.constructor` | components/Hero.tsx:7-10 | at mount nothing is loaded and the canvas is blank at its default size |
| `HeroSequence.HeroPlayer.Load` | components/Hero.tsx:26-43 | after all 40 requests the 40 elements are published, and only then the loaded flag |
| `HeroSequence.HeroPlayer.OnScroll` | components/Hero.tsx:50-82 | does nothing before images exist; otherwise clears and draws the capped frame with a cover fit |
| `HeroSequence.HeroPlayer.Resize` | components/Hero.tsx:85-115 | ignored before loading; afterwards the canvas takes the window size and shows the current frame with a cover fit |
| `HeroSequence.HeroPlayer.AfterLoad` | components/Hero.tsx:85-112 | once the elements are published the resize handler runs at once: the canvas takes the window size and shows the current frame covering it |
| `HeroSequence.TitleOpacity` | components/Hero.tsx:22 | the title is fully visible up to 0.2, fades linearly as `1 - (p - 0.2) / 0.2` on [0.2, 0.4], and is gone from 0.4 on |
| `HeroSequence.BrandOpacity` | components/Hero.tsx:23 | the brand is hidden up to 0.5, fades in linearly as `(p - 0.5) / 0.2` on [0.5, 0.7], and is fully visible from 0.7 on |
| `HeroSequence.HeroFrameSelection` | components/Hero.tsx:19 | with 40 elements the hero shows frame `floor(p * 39)`: 0 at the top, 39 at the bottom |
| `HeroSequence.FailedFrameBlanks` | components/Hero.tsx:34-39 | scrolling onto a failed hero frame leaves the canvas blank |
| `SectionSequence.RequestAll` | components/InsideTheMachine.tsx:168-173 | the request loop issues frames 1..n in order |
| `SectionSequence.SectionPlayer.Machine` | components/InsideTheMachine.tsx:240-254 | at mount nothing is loaded and the canvas is sized to the window and blank |
| `SectionSequence.SectionPlayer.Design` | components/DesignSection.tsx:55-57 | the design sequence is fixed at 40 frames from `/Car_Design_Sequence/` |
| `SectionSequence.SectionPlayer.Load` | components/InsideTheMachine.tsx:163-193 | every frame is requested; after all settle, in any order, the published array and then the loaded flag are set |
| `SectionSequence.SectionPlayer.Draw` | components/InsideTheMachine.tsx:204-226 | a hole leaves the canvas unchanged; a frame is drawn alone with a contain fit |
| `SectionSequence.SectionPlayer.OnScroll` | components/InsideTheMachine.tsx:229-237 | draws the clamped frame only when loaded with a non-empty array |
| `SectionSequence.SectionPlayer.Resize` | components/InsideTheMachine.tsx:240-257 | sizes the canvas to the window and redraws the current clamped frame |
| `SectionSequence.SectionPlayer.AfterLoad` | components/InsideTheMachine.tsx:240-263 | when loading completes the canvas is resized and, with images, redrawn at the current frame and then at frame 0: frame 0 is shown if it loaded, whatever the progress; with no images the canvas is left blank at the new size |
| `SectionSequence.MountMachineParts` | components/InsideTheMachine.tsx:337-361 | the page mounts two distinct players, chassis and engine, from their own folders with 40 frames each, unloaded and sized to the window |
| `SectionSequence.PartTitleOpacity` | components/InsideTheMachine.tsx:280-286 | part label and title are fully visible at the top and gone from 0.2 on |
| `SectionSequence.ExploreHintOpacity` | components/InsideTheMachine.tsx:297 | the scroll hint is fully visible at the top and gone from 0.1 on |
| `SectionSequence.SculptedOpacity` | components/DesignSection.tsx:154 | "SCULPTED" is 0 at the top, rises as `p / 0.1` on [0, 0.1], is 1 on [0.1, 0.8], falls as `1 - (p - 0.8) / 0.1` on [0.8, 0.9] and is 0 from 0.9 on |
| `SectionSequence.DesignCaptionOpacity` | components/DesignSection.tsx:163 | the caption is fully visible at the top and gone from 0.2 on |
| `SectionSequence.SectionFrameSelection` | components/InsideTheMachine.tsx:201-234 | a loaded section's index is below the published length; with every frame loaded it is `floor(p * (N - 1))` |

## Left out

- Browser and React plumbing is not modelled. This covers the canvas and
  `Image` DOM objects, `getContext` and the `!canvas || !ctx` early returns
  (the canvas is taken to be present), effect lifecycles and listener
  registration. A handler is modelled as the method that runs it.
- `requestAnimationFrame`: a section's scroll draw runs on the next animation
  frame. The model runs it at once, so coalescing of draws is not modelled.
- Asynchrony: every request is taken to settle. A request that never settles
  would leave the player unloaded for good, since there is no timeout; the model
  does not cover that. Loads that finish after unmount are not modelled either.
  The source has no cancellation flag, so such a load would still set state.
- Re-running the machine loader when `sequencePath` or `frameCount` change
  (`components/InsideTheMachine.tsx:193`) is not modelled. Two batches that
  overlap in time are not modelled either.
- `useScroll` measurement: scroll progress is an input of `OnScroll`. The
  interpolation inside `useTransform` is library code, modelled by `Interpolation.Interp`
  as clamped piecewise-linear.
- Logging (`console.error`) and the loading placeholder markup are not modelled.
- Floating point: geometry and progress use exact reals.
- Painter.HeroResizeNeedsNoClear: the canvas holds at most one picture, so a
  draw replaces what was visible and pixels left over from an earlier draw
  cannot be represented. A missing clear is therefore visible in the model only
  when nothing is drawn (a failed hero element). For the same reason
  `Painter.SectionPaintIdempotent`, `Painter.SectionPaintForgets` and
  `Painter.HeroPaintIdempotent` follow from this representation rather than from
  the `clearRect` calls (`components/InsideTheMachine.tsx:212`,
  `components/Hero.tsx:69`); they still hold of the source, where every draw
  follows a clear or a size reset.
- Overlay styling and all static page content (engineering specs, reservation
  form, navigation bar, footer, page layout) are not modelled.
