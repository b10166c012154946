# Logo editor core: ViewBox math, zoom/pan controller, SVG attribute helpers, store transitions

A Dafny model of the non-UI core of the logo editor (pereira162/Gerador-de-logo-2):

- `ViewBoxManager` (viewbox.dfy). The rectangle `{x, y, width, height}` of SVG user space that the
  drawing surface shows. The module covers parsing and printing it, zoom about an anchor,
  pan, client-to-SVG mapping, aspect ratio, fitting to a container and the default box.
  Coordinates are `real`.
- `Stabilizer` (stabilizer.dfy). The hysteresis filter `getStableViewBox`. The class hides its
  last stable ViewBox in a static field; here that field is an explicit input and output.
- `ZoomPan` (zoompan.dfy). The `useZoomPan` hook as a state machine. The store's ViewBox and
  zoom level, the hook's two refs (drag in progress, last mouse position) and the cursor style it
  writes are fields of one record. Each handler is a pure function from state and event to
  state. The SVG element is an `Option<Rect>`: absent, or its bounding rectangle.
- `SvgTransform` / `SvgTransformProofs` (transform.dfy). `parseTransform`, whose three regular
  expressions are modelled by functions that return the capture groups JavaScript's
  backtracking matcher returns for the leftmost match, and `formatTransform`.
- `SvgAttributes` (svgattrs.dfy). The numeric check of `getViewBox` on the root's `viewBox`
  attribute, and the temporary highlight as operations on an attribute map (element) and on a
  map from ids to elements (document).
- `LogoStore` (store.dfy). `updateElementProperty`'s dotted-path write, `updateTextProperty`,
  `setTaglineEnabled` and `selectTemplate`. The SVG work these delegate (extracting element
  properties, rendering them into the template, reading the root's `viewBox` attribute) is
  passed in as opaque functions.
- `Text` (text.dfy) holds the JavaScript primitives the core relies on, over `seq<char>`:
  - `\s`;
  - `trim`;
  - `split(/\s+|,/)`, `split(/[\s,]+/)` and `split(".")`;
  - `join`;
  - `Number(token)` and `parseFloat`;
  - an integer printer `ShowInt`, which is enough to state round trips.

  `Wrappers` has `Option`, and `RealMath` has `Abs`, `Max`, `Min` and a few product lemmas.

JavaScript `NaN` is `None` where the source only tests for it (`isNaN` on ViewBox tokens). It is
the constructor `Text.NaN` of `Text.Number` where it can end up stored in a transform field. The wheel
handler as written is followed through `zoom`'s own arithmetic. For that, `ZoomPan.Float` models a
JavaScript number: `NaN`, ±`Infinity` or a finite value. Its `-`, `*` and `/` follow IEEE 754 for
those values. Rounding and the sign of zero are not modelled.

## Model

| member | source | states |
|---|---|---|
| ViewBoxManager.FromNumbers | services/ViewBoxManager.ts:68-78 | four converted tokens give a ViewBox exactly when none is NaN, with the fields in token order x, y, width, height |
| ViewBoxManager.ParseViewBoxString | services/ViewBoxManager.ts:64-78 | null and "" give null; otherwise, with the trimmed string split on `/\s+\|,/`, a result exists exactly when there are four tokens and `Number` reads none of them as NaN, and it is x, y, width, height in token order |
| ViewBoxManager.ToString | services/ViewBoxManager.ts:86-88 | the four printed fields joined by single spaces: when each is a non-empty token without spaces or commas, the string has no surrounding white space and splitting it on `/\s+\|,/` gives the four fields back in the order x, y, width, height |
| ViewBoxManager.ParseJoinedTokens | services/ViewBoxManager.ts:67-71 | for tokens joined by single spaces, any count other than four is rejected, and four tokens give the ViewBox of their numbers, or null if one is NaN |
| ViewBoxManager.ParseToString | services/ViewBoxManager.ts:64-88 | parsing what `toString` printed gives the same ViewBox back whenever the number printer is exact on its four fields |
| ViewBoxManager.ShowIntegralExact | services/ViewBoxManager.ts:86-88 | an integer is printed as a non-empty token without spaces or commas that `Number` reads back as the same value |
| ViewBoxManager.ParseToStringIntegral | services/ViewBoxManager.ts:64-88 | the round trip `parse(toString(vb)) == vb` for every ViewBox with integer fields, printed the way JavaScript prints integers |
| ViewBoxManager.ParseRejectsCommaSpace | services/ViewBoxManager.ts:67-71 | four numbers separated by ", " split into seven tokens and are rejected |
| ViewBoxManager.ParseRejectsTestCommaString | services/ViewBoxManager.test.ts:12 | the string "10, 20, 100, 200", which the unit test expects to parse, is rejected by the code |
| ViewBoxManager.ParseViewBoxStringLenient | services/ViewBoxManager.test.ts:11-13 | the parse the test expects, splitting the trimmed string on runs of white space and commas: null and "" give null; otherwise a result exists exactly when there are four numeric tokens, and it holds them in order |
| ViewBoxManager.LenientParseJoinedTokens | services/ViewBoxManager.test.ts:11-13 | the lenient parse of tokens joined by " " or ", " gives the ViewBox of four numeric tokens and rejects any other count |
| ViewBoxManager.LenientParseTestCommaString | services/ViewBoxManager.test.ts:12 | the lenient parse accepts "10, 20, 100, 200" as (10, 20, 100, 200) |
| ViewBoxManager.Zoom | services/ViewBoxManager.ts:97-113 | the size is divided by the scale, and the anchor keeps its relative position (p - origin) / size |
| ViewBoxManager.ZoomByOne | services/ViewBoxManager.ts:97-113 | zooming by scale 1 is the identity |
| ViewBoxManager.ZoomComposes | services/ViewBoxManager.ts:97-113 | two zooms about the same point equal one zoom by the product of the scales |
| ViewBoxManager.SameRelSameBox | services/ViewBoxManager.ts:102-106 | a ViewBox is determined by its size and the relative position of any one point, so zoom's result is the only box with that size and anchor position |
| ViewBoxManager.ZoomAboutOrigin | services/ViewBoxManager.ts:102-106 | zooming about the ViewBox origin keeps the origin where it is |
| ViewBoxManager.ZoomStep | services/ViewBoxManager.test.ts:62-73 | the direction wrapper: 'in' divides width and height by 1 + f, 'out' multiplies them by 1 + f, the anchor keeps its relative position, and f = 0 changes nothing |
| ViewBoxManager.ZoomInThenOut | services/ViewBoxManager.test.ts:62-73 | zooming in and then out by the same step about the same point restores the ViewBox exactly |
| ViewBoxManager.ZoomStepDirection | services/ViewBoxManager.test.ts:62-73 | with f > 0, 'in' makes a positive ViewBox strictly smaller in both dimensions and 'out' strictly larger |
| ViewBoxManager.Pan | services/ViewBoxManager.ts:123-130 | the size is unchanged and the origin moves by minus the delta |
| ViewBoxManager.PanComposes | services/ViewBoxManager.test.ts:117-145 | two pans equal one pan by the summed deltas |
| ViewBoxManager.PanInverse | services/ViewBoxManager.ts:123-130 | panning by the opposite delta undoes a pan |
| ViewBoxManager.ClientToSVG | services/ViewBoxManager.ts:140-157 | the surface's top-left corner maps to the ViewBox origin and its bottom-right corner to the ViewBox's far corner |
| ViewBoxManager.ClientToSVGRoundTrip | services/ViewBoxManager.ts:149-156 | mapping a client point into SVG space and back with the inverse map gives the same point |
| ViewBoxManager.SVGToClientRoundTrip | services/ViewBoxManager.ts:149-156 | the inverse map followed by the mapping gives the same SVG point, so the mapping is a bijection |
| ViewBoxManager.ClientToSVGAffine | services/ViewBoxManager.ts:149-156 | moving the client point by (dx, dy) moves the SVG point by the delta scaled by ViewBox size over surface size |
| ViewBoxManager.AnchorStaysUnderCursor | hooks/useZoomPan.ts:38-47 | any new ViewBox that keeps the cursor point's relative position keeps that point under the cursor |
| ViewBoxManager.PanFollowsCursor | hooks/useZoomPan.ts:77-84 | panning by the mouse delta converted to ViewBox units keeps the SVG point that was under the old mouse position under the new one |
| ViewBoxManager.ClientToSVGExample | services/ViewBoxManager.test.ts:166-185 | surface (10, 20, 400x200) with ViewBox (0, 0, 200, 100) maps client (60, 70) to (25, 25), and with the panned ViewBox (50, 25, ...) maps it to (75, 50) |
| ViewBoxManager.AspectRatio | services/ViewBoxManager.ts:164-166 | the ratio times the height is the width |
| ViewBoxManager.FitToContainer | services/ViewBoxManager.ts:175-200 | the centre is kept and one of the two dimensions is unchanged |
| ViewBoxManager.FitToContainerFits | services/ViewBoxManager.ts:175-200 | for positive sizes the result has the container's aspect ratio, is at least as wide and tall as the input, and contains the input rectangle |
| ViewBoxManager.DefaultViewBox | services/ViewBoxManager.ts:206-208 | the default box (0, 0, 100, 100) is positive and `toString` prints it as "0 0 100 100" |
| Stabilizer.PositionScale | services/ViewBoxManager.ts:35-39 | the divisor for a position change is at least 1 |
| Stabilizer.PositionScaleIsMax | services/ViewBoxManager.ts:35-39 | replacing an old position within 0.1 of zero by 1 makes no difference: the divisor is max(1, abs(old)) |
| Stabilizer.GetStableViewBox | services/ViewBoxManager.ts:22-57 | the result is the stored value; it is either the old stored value or the candidate; a null candidate keeps the old value; the first non-null candidate is stored; once stored, a value is never cleared |
| Stabilizer.DefaultThresholdExamples | services/ViewBoxManager.ts:22-44 | with the default threshold of 5%, a ViewBox (0, 0, 100, 100) absorbs a candidate 4% wider and lets through one 6% wider |
| Stabilizer.AcceptedIffMaxChangeExceeds | services/ViewBoxManager.ts:31-53 | against an independent definition (the largest of the four relative changes), the candidate is stored exactly when that change exceeds the threshold or the candidate equals the stored value |
| Stabilizer.StableRepeat | services/ViewBoxManager.ts:44-56 | offering the stored ViewBox again changes nothing |
| Stabilizer.StableIdempotent | services/ViewBoxManager.ts:22-57 | a second call with the same candidate returns and stores what the first returned |
| Stabilizer.StableTracksCandidate | services/ViewBoxManager.ts:31-56 | the returned ViewBox is within the threshold of the candidate in every component, measured against the stored value's scale |
| Stabilizer.FeedAbsorbsJitter | services/ViewBoxManager.ts:44-56 | a stream of candidates that are each absent or within the threshold of the stored ViewBox never moves it |
| Stabilizer.FeedKeepsSome | services/ViewBoxManager.ts:23-28 | once a ViewBox is stored, no stream of calls clears it |
| ZoomPan.NextZoomLevel | hooks/useZoomPan.ts:52-53 | the level is clamp(raw, minZoom, maxZoom) for raw = level * (1 + f) zooming in and level * (1 - f) zooming out: raw when in range, maxZoom above it, minZoom below it, and minZoom whenever minZoom > maxZoom |
| ZoomPan.HandleWheel | hooks/useZoomPan.ts:33-57 | no element or no ViewBox changes nothing; otherwise the new ViewBox is the zoom step about the SVG point under the cursor, in when deltaY < 0 and out otherwise, so that the SVG point under the cursor stays under it, the zoom level is the clamped product for the direction given by the sign of deltaY, and the drag state is untouched |
| ZoomPan.ZoomLevelClampExamples | hooks/useZoomPan.test.ts:160-178 | with minZoom 0.5, maxZoom 2 and f 0.1, 1.9 zoomed in gives 2 and 0.55 zoomed out gives 0.5 |
| ZoomPan.WheelDirection | hooks/useZoomPan.ts:46-47 | deltaY < 0 shrinks a positive ViewBox (zoom in) and any other deltaY grows it |
| ZoomPan.WheelInThenOut | hooks/useZoomPan.ts:33-57 | a wheel step up and a step down at the same mouse position restore the ViewBox exactly |
| ZoomPan.HandleWheelAsWritten | hooks/useZoomPan.ts:33-47 | with the default import taken to resolve to the class: without element or ViewBox the handler returns with nothing changed; otherwise it throws a `TypeError`, because the `DOMRect` it passes to `clientToSVGCoordinates` has no `getBoundingClientRect` (services/ViewBoxManager.ts:146) |
| ZoomPan.ZoomAsCalled | hooks/useZoomPan.ts:46-47 | `zoom` called with the direction string where its numeric scale belongs, evaluated with JavaScript arithmetic, yields a ViewBox whose four fields are all NaN, because `Number("in")` and `Number("out")` are NaN |
| ZoomPan.FSub | services/ViewBoxManager.ts:102-106 | a NaN operand gives NaN; on two finite numbers, JavaScript `-` is real subtraction |
| ZoomPan.FMul | services/ViewBoxManager.ts:105-106 | a NaN operand gives NaN; on two finite numbers, JavaScript `*` is real multiplication |
| ZoomPan.FDiv | services/ViewBoxManager.ts:98-103 | a NaN operand gives NaN; on two finite numbers with a non-zero divisor, JavaScript `/` is real division |
| ZoomPan.ZoomJsAgrees | services/ViewBoxManager.ts:97-113 | with a finite non-zero scale and a non-degenerate ViewBox, `zoom` evaluated with JavaScript arithmetic gives exactly the real-valued `ViewBoxManager.Zoom` |
| ZoomPan.ZoomJsOfNaN | services/ViewBoxManager.ts:97-113 | `zoom` with a NaN scale gives four NaN fields, whatever the ViewBox and the point |
| ZoomPan.WheelWithElementStoresNaN | hooks/useZoomPan.ts:38-55 | even with the element passed, the handler as written would store an all-NaN ViewBox where the corrected handler stores a real one |
| ZoomPan.ZoomLevelInOutDrift | hooks/useZoomPan.ts:52-53 | away from the clamps, a step in and a step out leave the zoom level at z * (1 + f) * (1 - f), not at z |
| ZoomPan.DefaultDrift | hooks/useZoomPan.ts:18-20 | with the default options a zoom level of 1 comes back as 0.99 after one step in and one out |
| ZoomPan.HandleMouseDown | hooks/useZoomPan.ts:62-70 | a button other than 0 changes nothing; button 0 starts a drag at the pointer and shows "grabbing" when the element is mounted; ViewBox and zoom are untouched |
| ZoomPan.HandleMouseUp | hooks/useZoomPan.ts:93-96 | the drag always ends, the cursor becomes "grab" when the element is mounted, and nothing else changes |
| ZoomPan.HandleMouseEnter | hooks/useZoomPan.ts:99-101 | the cursor becomes "grab" only when no drag is running and the element is mounted; otherwise nothing changes |
| ZoomPan.HandleMouseMove | hooks/useZoomPan.ts:73-90 | outside a drag, or without element or ViewBox, nothing changes; during a drag the last mouse position becomes the pointer and the ViewBox keeps its size |
| ZoomPan.DragFollowsCursor | hooks/useZoomPan.ts:77-87 | during a drag the SVG point under the new pointer is the one that was under the previous pointer: the drawing follows the mouse |
| ZoomPan.DragSteps | hooks/useZoomPan.ts:77-87 | two drag events in a row end where one event to the final position would: the per-event deltas are incremental and add up |
| ZoomPan.ResetView | hooks/useZoomPan.ts:108-112 | the ViewBox becomes (0, 0, 100, 100) and the zoom level 1; drag state and cursor are untouched |
| ZoomPan.Step | hooks/useZoomPan.ts:33-112 | every event keeps the stored ViewBox divisible |
| ZoomPan.Run | hooks/useZoomPan.ts:33-112 | any sequence of events keeps the stored ViewBox divisible |
| ZoomPan.StepKeepsCursorConsistent | hooks/useZoomPan.ts:62-101 | with the element mounted, every event keeps "cursor is grabbing exactly while dragging" |
| ZoomPan.RunKeepsCursorConsistent | hooks/useZoomPan.ts:62-101 | the same for every sequence of events |
| ZoomPan.DetachedMouseDownBreaksCursor | hooks/useZoomPan.ts:64-67 | without a mounted element a mouse-down starts a drag while the cursor stays unset |
| ZoomPan.DragSession | hooks/useZoomPan.ts:62-96 | mouse-down, any moves, mouse-up: the drag has ended, the cursor is "grab", the zoom level is unchanged and the ViewBox keeps its size |
| ZoomPan.MoveAllKeepsSize | hooks/useZoomPan.ts:73-90 | any number of drag moves keep zoom level, drag flag, presence and size of the ViewBox |
| SvgTransform.ParseTransform | utils/svgUtils.ts:7-32 | null or "" gives the identity transform (translate 0 0, scale 1 1, rotate 0) |
| SvgTransformProofs.SearchLeftmost | utils/svgUtils.ts:13-26 | `match` finds nothing exactly when the pattern matches at no position, and otherwise returns the groups of the leftmost position where it matches |
| SvgTransformProofs.TranslateGroupsNumeric | utils/svgUtils.ts:13 | both groups the translate pattern captures are `[-\d.]+` runs |
| SvgTransformProofs.ScaleGroupsNumeric | utils/svgUtils.ts:20 | the groups the scale pattern captures are `[-\d.]+` runs |
| SvgTransformProofs.RotateGroupNumeric | utils/svgUtils.ts:26 | the angle group of the rotate pattern is a `[-\d.]+` run |
| SvgTransformProofs.TranslateArgsOfPair | utils/svgUtils.ts:13 | after `translate(`, "x y)" gives the groups x and y, in the code as written and corrected |
| SvgTransformProofs.ScaleArgsOfSpacedPair | utils/svgUtils.ts:20 | after `scale(`, "x y)" does not match the pattern as written and gives x and y in the corrected one |
| SvgTransformProofs.RotateArgOfSingle | utils/svgUtils.ts:26 | after `rotate(`, "r)" gives the angle r |
| SvgTransform.ParseTransformFixed | utils/svgUtils.ts:7-32 | the corrected parse gives the identity for null or "" and reads the rotation exactly as the code as written does; it differs only in the translate and scale patterns |
| SvgTransformProofs.ParseScaleOnly | utils/svgUtils.ts:19-24 | an attribute holding only `scale(s)` sets both scale factors to s and keeps the other fields at the identity |
| SvgTransformProofs.ScaleOneToken | utils/svgUtils.ts:20 | the scale pattern on one factor yields that factor and no second group |
| SvgTransformProofs.ParseRotateWithCentre | utils/svgUtils.ts:26-30 | `rotate(a cx cy)` keeps only the angle a; the centre is dropped |
| SvgTransformProofs.ParseTranslateOnly | utils/svgUtils.ts:13-17 | `translate(x)` parses as the token split before its last character (as written) and as (x, 0) (corrected) |
| SvgTransformProofs.TranslateOneToken | utils/svgUtils.ts:13 | the translate pattern on a single token gives all but its last character to the first group and the last character to the second |
| SvgTransformProofs.TranslateTenExample | utils/svgUtils.ts:13-17 | "translate(10)" is read as translation (1, 0); the corrected parse gives (10, 0) |
| SvgTransform.FormatTransform | utils/svgUtils.ts:34-49 | the result is the parts translate(X Y), scale(SX SY), rotate(R), in that order, joined by single spaces; each part is present exactly when one of its fields is defined; a missing, zero or NaN translate component or rotation prints as 0, scaleX defaults to 1 and scaleY to scaleX; an all-undefined transform gives "" |
| SvgTransformProofs.FormatFullLayout | utils/svgUtils.ts:34-49 | a complete transform is written as translate(X Y), then scale(SX SY), then rotate(R), separated by single spaces |
| SvgTransformProofs.FormatScaleXOnly | utils/svgUtils.ts:39-43 | with only scaleX defined, the same factor is written for y and no other part appears |
| SvgTransformProofs.FormatScaleYOnly | utils/svgUtils.ts:39-43 | with only scaleY defined, x is written as 1 |
| SvgTransformProofs.FormatTranslateXOnly | utils/svgUtils.ts:36-37 | with only translateX defined, y is written as 0, and x too when it is 0 or NaN |
| SvgTransformProofs.FormatRotateOnly | utils/svgUtils.ts:45-47 | with only rotate defined, only the rotate part is written |
| SvgTransformProofs.PrintedFields | utils/svgUtils.ts:37-46 | the fields of a printable transform are printed as numeric tokens that `parseFloat` reads back as the fields |
| SvgTransformProofs.FormatThenParseLosesScale | utils/svgUtils.ts:20-43 | formatting a complete transform and parsing it back keeps translate and rotate but resets the scale to 1 |
| SvgTransformProofs.FormatThenParseFixed | utils/svgUtils.ts:7-49 | with the argument patterns corrected, parsing a formatted complete transform gives it back exactly |
| SvgTransformProofs.ScaleLostExample | utils/svgUtils.ts:20-43 | translate(10 20) scale(2 2) rotate(45) comes back with scale 1, and with scale 2 from the corrected parse |
| SvgTransformProofs.IntegralPrintsExactly | utils/svgUtils.ts:37-46 | integers are printed as numeric tokens that `parseFloat` reads back exactly |
| SvgAttributes.GetViewBox | utils/svgUtils.ts:157-169 | a missing or empty attribute gives null; otherwise, with the untrimmed attribute split on runs of white space and commas, a result exists exactly when there are at least four tokens and `Number` reads none of the first four as NaN, and it is those four in order |
| SvgAttributes.GetViewBoxJoined | utils/svgUtils.ts:161-168 | for tokens joined by " " or ", ", fewer than four give null; otherwise the first four are read in order, null if one is NaN, and any further tokens are ignored |
| SvgAttributes.GetViewBoxOfToString | utils/svgUtils.ts:157-169 | what `ViewBoxManager.toString` writes is read back, with either separator, and the DOM check agrees with `parseViewBoxString` on it |
| SvgAttributes.GetViewBoxLeadingSpaceTokens | utils/svgUtils.ts:163-165 | with a leading space, the split starts with an empty token, which `Number` reads as 0, and the real tokens move one place right |
| SvgAttributes.GetViewBoxLeadingSpace | utils/svgUtils.ts:163-165 | a written ViewBox with a leading space is read as (0, x, y, width) |
| SvgAttributes.GetViewBoxLeadingSpaceExample | utils/svgUtils.ts:163-165 | " 0 0 100 100" is read with width 0 |
| SvgAttributes.GetViewBoxTrimmed | utils/svgUtils.ts:161-168 | the corrected check trims first: null for a missing, empty or blank (white space only) attribute; otherwise a result exactly when the first four tokens of the trimmed split exist and are numbers, holding them in order |
| SvgAttributes.GetViewBoxTrimmedLeadingSpace | utils/svgUtils.ts:161-165 | trimmed, a written ViewBox is read back with or without leading white space |
| SvgAttributes.SetOrRemove | utils/svgUtils.ts:197-199 | the attribute is set when the value is truthy and allowed, removed otherwise, and no other attribute changes |
| SvgAttributes.Highlight | utils/svgUtils.ts:171-186 | the saved attributes hold the old stroke, width and dash pattern, or "none", "0", "none" when these are missing or empty; stroke and width are the highlight's; the dash pattern is the highlight's only when one is given; unrelated attributes are untouched |
| SvgAttributes.Unhighlight | utils/svgUtils.ts:188-207 | stroke and width are restored from truthy saved values and removed otherwise; the dash pattern likewise, except that a saved "none" removes it; no saved attribute remains; unrelated attributes are untouched |
| SvgAttributes.ApplyTempHighlight | utils/svgUtils.ts:171-186 | an unknown id leaves the document unchanged; otherwise only that element is highlighted |
| SvgAttributes.RemoveTempHighlight | utils/svgUtils.ts:188-207 | an unknown id leaves the document unchanged; otherwise only that element is restored |
| SvgAttributes.HighlightRoundTrip | utils/svgUtils.ts:171-207 | an element with a non-empty stroke and width and no dash pattern, or a real one, gets all its attributes back when the highlight is removed |
| SvgAttributes.HighlightAddsZeroWidth | utils/svgUtils.ts:177-198 | an element with only `stroke="red"` comes back with an added `stroke-width="0"` |
| SvgAttributes.HighlightExact | utils/svgUtils.ts:171-186 | the corrected highlight saves exactly the attributes that were present, and otherwise acts like the original |
| SvgAttributes.Restore | utils/svgUtils.ts:197-199 | the corrected restore gives the attribute the saved value when there is one and removes it otherwise, touching nothing else |
| SvgAttributes.UnhighlightExact | utils/svgUtils.ts:188-207 | the corrected removal restores each attribute to exactly what was saved and drops the saved copies |
| SvgAttributes.HighlightExactRoundTrip | utils/svgUtils.ts:171-207 | with the corrected pair, removing the highlight restores every element that had no saved attributes of its own |
| SvgAttributes.DocumentRoundTrip | utils/svgUtils.ts:171-207 | at the document level, removing the highlight restores the whole document when the element qualifies or the id does not exist |
| LogoStore.SetPath | store/logoStore.ts:70-81 | a successful write contains the first key of the path, and every other top-level key keeps its value |
| LogoStore.SetPathThenGet | store/logoStore.ts:73-81 | after a successful dotted-path write, reading the same path gives the written value |
| LogoStore.SetPathFailsIffBlocked | store/logoStore.ts:75-80 | the write throws exactly when the walk meets a truthy non-object before the last key |
| LogoStore.SetPathKeepsSiblings | store/logoStore.ts:73-83 | a write never changes the value at any path that leaves the written path at some key |
| LogoStore.UpdateElementProperty | store/logoStore.ts:67-91 | a blocked walk leaves the store unchanged; otherwise the element's properties become exactly the walk's result (`SetPath`), the value is at the dotted path, keys other than the path's first segment keep their values, the edited SVG is regenerated from the original SVG and the new properties when the original is truthy and kept otherwise; other elements, texts, screen, selection, template id and template list are untouched |
| LogoStore.NestedWriteCreatesObject | store/logoStore.ts:75-81 | writing transform.rotate on an element without a transform creates the transform object |
| LogoStore.NestedWriteThroughNumberFails | store/logoStore.ts:75-81 | writing through a truthy number fails |
| LogoStore.Read | store/logoStore.ts:137 | reading a text property gives an edit of that same property |
| LogoStore.ApplyEdit | store/logoStore.ts:137 | `{ ...t, [property]: value }` sets the named property and leaves every other property as it was |
| LogoStore.ReadDetermines | store/logoStore.ts:137 | two text records that agree on every property are equal |
| LogoStore.UpdateTextProperty | store/logoStore.ts:132-145 | an absent tagline stays absent; otherwise the chosen slot's named property takes the new value, its other properties keep theirs, and the other slot, elements, screen, edited and original SVG, selection and templates are untouched |
| LogoStore.UpdateTextPropertyUnchanged | store/logoStore.ts:132-145 | setting a property to the value it already has changes nothing |
| LogoStore.UpdateTextPropertyCommutes | store/logoStore.ts:132-145 | edits of two different properties commute |
| LogoStore.EditsCommute | store/logoStore.ts:137 | two spread updates of different properties commute |
| LogoStore.PlacementInside | store/logoStore.ts:49-50 | in a ViewBox of positive height both text lines lie inside it, with the company name above the tagline |
| LogoStore.SetTaglineEnabled | store/logoStore.ts:147-158 | disabling clears the tagline and changes nothing else; enabling always leaves one and changes nothing but the tagline; enabling an existing tagline is a no-op |
| LogoStore.EnabledTaglinePosition | store/logoStore.ts:149-152 | a tagline created from nothing is a fresh default tagline at 95% of the original SVG's ViewBox, or at y = 95 when there is no original SVG |
| LogoStore.TaglineFallback | store/logoStore.ts:151 | the per-field fallbacks 0 and 100 for an unreadable ViewBox equal placing the tagline in the default ViewBox |
| LogoStore.SetTaglineEnabledIdempotent | store/logoStore.ts:147-158 | enabling or disabling twice is the same as once |
| LogoStore.FindTemplate | store/logoStore.ts:42 | `find` gives nothing exactly when no template has the id, and otherwise the first template that has it |
| LogoStore.SelectTemplate | store/logoStore.ts:41-63 | an unknown id changes nothing; a known one opens the editor with no element selected, stores the id and the template's SVG, sets the element properties to those extracted from that SVG and the edited SVG to that SVG with them applied, and keeps the tagline present exactly when it was |
| LogoStore.SelectTemplatePlacesText | store/logoStore.ts:47-59 | after a selection the company name is the default text at y = vb.y + 0.85 * vb.height, inside the ViewBox and above the tagline when its height is positive |
| LogoStore.SelectThenEnableTagline | store/logoStore.ts:47-60 | selecting with the tagline off and then enabling it places the tagline where selecting with it on would have |
| Text.JoinSplitOn | store/logoStore.ts:73 | joining the pieces of `split(".")` with "." gives back the property path |
| Text.SplitJoinSpace | services/ViewBoxManager.ts:67 | splitting a space-joined list of tokens on `/\s+|,/` gives the tokens back |
| Text.SplitJoinCommaSpace | services/ViewBoxManager.ts:67 | splitting a ", "-joined list on `/\s+|,/` gives 2n - 1 tokens, the first of them the first token |
| Text.SplitRunsJoin | utils/svgUtils.ts:163 | splitting on `/[\s,]+/` undoes a join with " " or ", " |
| Text.TrimJoin | services/ViewBoxManager.ts:67 | a join of tokens has no surrounding white space, so `trim` leaves it unchanged |
| Text.JsNumberShowInt | services/ViewBoxManager.ts:67 | `Number` reads back every integer as JavaScript prints it |
| Text.ParseFloatShowInt | utils/svgUtils.ts:15-28 | `parseFloat` reads back every integer as JavaScript prints it |
| Text.Trim | services/ViewBoxManager.ts:67 | the result neither starts nor ends with white space |
| Text.TrimSpan | services/ViewBoxManager.ts:67 | `trim` keeps one contiguous piece of the string and removes only white space before and after it |
| Text.SplitSpacesOrComma | services/ViewBoxManager.ts:67 | `split(/\s+\|,/)` gives at least one token, and no token holds white space or a comma |
| Text.SplitRuns | utils/svgUtils.ts:163 | `split(/[\s,]+/)` gives at least one token, and no token holds white space or a comma |
| Text.SplitSeparatorFree | services/ViewBoxManager.ts:67 | a string without white space or commas is a single token for both splits |
| Text.SplitOn | store/logoStore.ts:73 | `split(".")` gives at least one piece, and no piece contains a dot |
| Text.SplitOnAbsent | store/logoStore.ts:73 | a path without a dot is its own single piece |
| Text.JsNumber | services/ViewBoxManager.ts:67 | `Number` of an empty or blank string is 0 |
| Text.JsNumberOfWord | utils/svgUtils.ts:163 | `Number` of a string whose first non-space character is not a digit, sign or dot is NaN |
| Text.ParseFloatOfWord | utils/svgUtils.ts:15-28 | `parseFloat` of a blank string, or of one whose first non-space character is not a digit, sign or dot, is NaN |

## Left out

- React wiring is left out:
  - the hook's `useCallback`/`useEffect` plumbing and the window `mouseup` listener (hooks/useZoomPan.ts:103-106);
  - `preventDefault`;
  - the zustand `set`/`get` mechanics.

  Each handler is a pure transition. The SVG element's bounding rectangle is a parameter, because reading it is a DOM call.
- DOM parsing and serialisation (`DOMParser`, `XMLSerializer`, `getElementById`) are left out.
  - The highlight works on one element's attribute map, and on a document given as a map from element ids to those maps.
  - `getViewBox` starts from the root's `viewBox` attribute, passed in as an optional string.
  - The store takes `extractInitialElementsProperties`, `applyElementPropertiesToSvg` and the root's `viewBox` attribute as opaque function parameters.
- Number-to-string conversion and floating point are left out:
  - Coordinates are exact `real`s.
  - `toString` and `formatTransform` take the printer as a parameter `show`.
  - Round trips are proved for a printer that is exact on the fields, and concretely for integers (`ShowInt`).
  - Rounding, `-0`, `Infinity` and exponent notation in printed numbers are not modelled.
- Text.JsNumber reads "Infinity", "+Infinity" and "-Infinity" as not-a-number, while JavaScript's `Number` reads them as infinities. Very large or very small exponents are exact here instead of overflowing or underflowing.
- Text.ParseFloat likewise does not recognise an "Infinity" prefix.
- ViewBoxManager.Zoom: requires a non-zero scale, width and height, because division by zero has no `real` value; JavaScript would produce `Infinity` or `NaN` fields.
- ZoomPan.ZoomJs: evaluates `zoom` on exact values. It does not model floating-point rounding or the sign of zero, and it treats a zero divisor as +0. It is used only to follow the NaN of the wheel handler as written.
- ViewBoxManager.ZoomStep: requires 1 + f and the width and height to be non-zero, for the same reason.
- ViewBoxManager.ClientToSVG: requires a surface of non-zero width and height, for the same reason.
- ViewBoxManager.AspectRatio: requires a non-zero height, for the same reason.
- ViewBoxManager.FitToContainer: requires a non-zero ViewBox height and non-zero container sizes, for the same reason.
- ZoomPan.HandleWheel: requires the stored ViewBox and the mounted surface to have non-zero sizes, for the same reason.
- ZoomPan.HandleMouseMove: requires the same as `HandleWheel`, for the same reason.
- The hook and the unit tests import `ViewBoxManager` as a default export (hooks/useZoomPan.ts:4, services/ViewBoxManager.test.ts:2). services/ViewBoxManager.ts:7 has only the named export `ViewBoxManager`, so as written the hook module fails to link before any handler runs. The model of the hook assumes that import resolves to the class. Module linking is not modelled.
- services/ViewBoxManager.test.ts is written against a different API. It imports a `DEFAULT_VIEW_BOX` that does not exist, calls `zoom` with 'in' or 'out' and a factor, and calls `toString(null)`. The model therefore does not treat those tests as a description of this file. It takes from them only the evidently intended behaviour of the parse (`ParseViewBoxStringLenient`) and of a direction-based zoom step (`ZoomStep`).
- ZoomPan.HandleWheel is the handler as evidently intended: it takes the surface rectangle, and it zooms through the direction wrapper `ZoomStep`, following the convention the unit tests spell out ('in' divides the size by 1 + f and 'out' multiplies it by 1 + f, services/ViewBoxManager.test.ts:55-73). The handler as written is `ZoomPan.HandleWheelAsWritten`; see "## Findings".
- The hook reads `currentViewBox`, `zoomLevel` and their setters from the store, but the store in store/logoStore.ts defines none of them. The hook's ViewBox and zoom level are therefore fields of its own state record, not of `LogoStore.Store`.
- The unit test's `toString(null)` expectation (services/ViewBoxManager.test.ts:42-45) is outside the typed signature, so it is not modelled. `ToString` takes a ViewBox.
- The two `console.log`/`console.error` calls in ViewBoxManager.ts are left out.
- LogoStore.UpdateElementProperty and LogoStore.SetPath treat property objects as maps holding only their own keys. Names that a JavaScript value inherits from any prototype behave differently in the source, and the model does not follow them:
  - a path step such as "toString" or "constructor" finds an inherited function, which is truthy, so no `{}` is created and the write lands on that shared function;
  - a "__proto__" step writes onto `Object.prototype`;
  - after a string or number value, a step naming a method of `String.prototype` or `Number.prototype` ("a.charAt.b") finds that shared function, so the write lands on it and does not throw;
  - an element id such as "constructor" makes `newElementsProps[elementId] || {}` yield the `Object` function.

  In each case the model creates fresh nested objects instead.
- LogoStore.UpdateElementProperty assumes the module's strict mode. Walking through a truthy primitive (a number, string or `true`) then makes the assignment throw a `TypeError`, and the store is left unchanged. The exception is the inherited-method step above.
  - The deep clone `JSON.parse(JSON.stringify(...))` is the identity on the modelled JSON values.
  - JSON arrays are not modelled.
- Other store actions are left out, because they are not part of the modelled core:
  - `setScreen`, `loadTemplates` and `setSelectedElementId` are one-field assignments.
  - `applyGlobalPalette` and `getFinalSvgForExport` are DOM walks.
- `utils/exportUtils.ts`, the screens and components, the static data and the Python scripts are I/O or UI.

## Findings

| source | as written | input that shows it | evidently intended | confidence | as-written member | corrected member |
|---|---|---|---|---|---|---|
| services/ViewBoxManager.ts:67 | splits on `/\s+|,/`, so ", " produces an empty token | "10, 20, 100, 200" splits into 7 tokens and is rejected; the unit test at services/ViewBoxManager.test.ts:12 expects (10, 20, 100, 200) | split on runs of white space and commas, `/[\s,]+/` | high, not executed | ViewBoxManager.ParseRejectsTestCommaString | ViewBoxManager.LenientParseTestCommaString |
| utils/svgUtils.ts:20 | the scale pattern accepts a second factor only after a comma, while `formatTransform` (utils/svgUtils.ts:43) separates the factors by a space | formatting translate(10 20) scale(2 2) rotate(45) and parsing it back gives scale 1 | `formatTransform` followed by `parseTransform` is the identity on printable transforms | high, not executed | SvgTransformProofs.FormatThenParseLosesScale | SvgTransformProofs.FormatThenParseFixed |
| utils/svgUtils.ts:13 | the translate pattern requires two numeric runs, so the backtracking matcher splits a single argument before its last character | "translate(10)" gives translateX 1 and translateY 0 | a single argument is tx with ty = 0, as in the SVG transform syntax | medium, not executed | SvgTransformProofs.TranslateTenExample | SvgTransformProofs.ParseTranslateOnly |
| utils/svgUtils.ts:163 | the `viewBox` attribute is split without trimming, so leading white space yields an empty first token that `Number` reads as 0 | " 0 0 100 100" is read as (0, 0, 0, 100) | trim before splitting, as `parseViewBoxString` does | low, not executed | SvgAttributes.GetViewBoxLeadingSpace | SvgAttributes.GetViewBoxTrimmedLeadingSpace |
| hooks/useZoomPan.ts:38-44 | `handleWheel` passes the element's bounding `DOMRect` to `clientToSVGCoordinates`, which calls `getBoundingClientRect` on that argument (services/ViewBoxManager.ts:146) | once the default import resolves to the class (see "## Left out"), any wheel event over a mounted surface with a ViewBox throws a `TypeError`; the hook's unit tests mock `ViewBoxManager` and so do not see it | pass the SVG element, so that the point under the cursor is computed | high, not executed | ZoomPan.HandleWheelAsWritten | ZoomPan.HandleWheel |
| hooks/useZoomPan.ts:47 | `zoom(currentViewBox, zoomDirection, point, zoomFactor)` puts the string 'in' or 'out' where `zoom` expects its numeric scale (services/ViewBoxManager.ts:97-99) and drops the factor | with the element passed, any wheel event would store a ViewBox whose four fields are NaN | zoom in by dividing the size by 1 + f and out by multiplying it, about the point under the cursor | high, not executed | ZoomPan.ZoomAsCalled | ViewBoxManager.ZoomStep |
| utils/svgUtils.ts:177 | a missing `stroke-width` is saved as "0", and the removal (utils/svgUtils.ts:198) restores it because "0" is truthy | an element with only `stroke="red"` gets `stroke-width="0"` after highlight and removal, which hides its stroke | removing the highlight gives back exactly the element's original attributes | medium, not executed | SvgAttributes.HighlightAddsZeroWidth | SvgAttributes.HighlightExactRoundTrip |

The store keeps reading the ViewBox through `SvgAttributes.GetViewBox` as written, so `LogoStore`'s placement lemmas describe the code as it is.
