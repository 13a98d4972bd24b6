# react-lineto-hooks: a Dafny model of the connector geometry

`react-lineto-hooks` draws a line between two elements of a page. `LineTo`
takes the class names of two elements and the descriptors of two anchors
(`"top left"`, `"50% 25%"`, …). It measures both elements and computes one end
point from each element's bounding box and anchor. It then draws either one
straight segment or a `SteppedLine`. A `SteppedLine` joins the two points with
one segment, or with three axis-aligned segments that meet on a rounded
midline.

This project models that logic as pure Dafny functions and proves properties
of it:

- `JsNumbers`: the JavaScript built-ins the connector relies on.
  - `parseInt(s, 10)` and `parseFloat(s)` as decimal-prefix readers; `None` stands for NaN.
  - `Math.round` as `(r + 0.5).Floor`.
  - NaN and the infinities, as the `JsNum` values a caller may pass as a delay.
  - `ShowNat` and `ShowInt`, the decimal forms used in round-trip lemmas.
- `JsStrings`: `String.prototype.split` on a single character, with `Join`, which undoes it, and `Occurrences` to count separators.
- `SteppedLine`: `renderVertical`, `renderHorizontal`, the orientation default and dispatch, and the border-width default.
- `LineTo`:
  - the parsers `parseDelay`, `parseAnchorPercent`, `parseAnchorText` and `parseAnchor`;
  - the arithmetic of `detect`;
  - the nothing / straight / stepped choice.
  - `Frame` composes them into one render with the current properties.
- `Wrappers`: `Option` and `Result`. A thrown `Error` becomes an `Err` holding an `Error` value. A bad delay carries the delay and a bad percentage carries its token. The anchor format error carries nothing, as the source's message names no value.

Numbers are exact reals throughout. The element lookups and
`getBoundingClientRect` become `Option<Rect>` inputs: `None` is an element that
is not in the document.

## Model

| member | source | states |
|---|---|---|
| JsNumbers.ParseIntPrefix | lib/components/LineTo.tsx:116 | `parseInt` gives a number exactly when a digit follows the optional sign; the number is not positive after '-' and not negative otherwise |
| JsNumbers.ParseIntDigits | lib/components/LineTo.tsx:116 | a run of digits with no sign, a '+' or a '-', followed by any text that does not start with a digit, reads as its decimal value, negated after '-' |
| JsNumbers.ParseIntShowInt | lib/components/LineTo.tsx:116 | `parseInt` reads back the decimal form of every integer, negative ones included, whatever non-digit text follows |
| JsNumbers.ParseFloatPrefix | lib/components/LineTo.tsx:125 | `parseFloat` gives a number exactly when a digit, or a '.' and then a digit, follows the optional sign; the number is not positive after '-' and not negative otherwise |
| JsNumbers.ParseFloatDigits | lib/components/LineTo.tsx:125 | a run of digits with no sign, a '+' or a '-', followed by text that starts with neither a digit nor '.', reads as the run's integer value, negated after '-' |
| JsNumbers.ReadDigitsAcc | lib/components/LineTo.tsx:125 | reading a run of digits on top of a value already read shifts that value left by one decimal place per digit |
| JsNumbers.FractionOfDigits | lib/components/LineTo.tsx:125 | the digits after a point, up to the first non-digit, are worth their integer value over 10 to the power of their count |
| JsNumbers.ParseFloatSigned | lib/components/LineTo.tsx:125 | a '+' before unsigned text changes nothing and a '-' negates the number read |
| JsNumbers.ParseFloatFraction | lib/components/LineTo.tsx:125 | an optional sign, whole digits, a point and fraction digits (either run possibly empty, not both; "50." reads as 50) read as the whole value plus the fraction, negated after '-'; with `FractionOfDigits` this is whole + digits / 10^count |
| JsNumbers.ParseFloatShowNat | lib/components/LineTo.tsx:125 | `parseFloat` reads back the decimal form of every natural number |
| JsNumbers.ParseFloatExamples | lib/components/LineTo.tsx:125 | "12.5%" reads as 12.5, "-.5" as -0.5; "." and "abc" are NaN |
| JsNumbers.TrailingPointExamples | lib/components/LineTo.tsx:125 | a point with no fraction digits adds nothing: "50.%" reads as 50, "-7." as -7 |
| JsNumbers.Round | lib/components/SteppedLine.tsx:21-24 | `Math.round(r)` lies within half a unit of `r`, with halves rounded up |
| JsNumbers.RoundUnique | lib/components/SteppedLine.tsx:21-24 | the only integer less than half a unit below `r` and at most half a unit above it is `Math.round(r)` |
| JsNumbers.RoundOfInt | lib/components/SteppedLine.tsx:21-24 | rounding a whole number returns it unchanged |
| JsNumbers.RoundHalf | lib/components/SteppedLine.tsx:32 | `Math.round((a + b) / 2)` for integers is `(a + b + 1) / 2` in floor division; twice it is `a + b` or `a + b + 1`; it lies between `a` and `b` |
| JsStrings.Split | lib/components/LineTo.tsx:154 | `split(" ")` gives one more part than the string has separators, and no part contains a separator |
| JsStrings.JoinSplit | lib/components/LineTo.tsx:154 | joining the parts with the separator gives back the original string |
| JsStrings.SplitWithoutSeparator | lib/components/LineTo.tsx:154 | a string without the separator splits into itself alone |
| JsStrings.SplitTwo | lib/components/LineTo.tsx:154 | `x + " " + y`, where neither `x` nor `y` has a space, splits into exactly `[x, y]` |
| SteppedLine.BorderWidth | lib/components/SteppedLine.tsx:13-31 | a falsy width, absent or 0, becomes the default 1; any other width, negative included, is kept; the result is never 0 |
| SteppedLine.OrientationOf | lib/components/SteppedLine.tsx:16 | horizontal exactly when the orientation is absent or "h" |
| SteppedLine.RenderVertical | lib/components/SteppedLine.tsx:18-45 | on the rounded inputs: when the x distance is at most 1 pixel, exactly one segment from the start down its own column to the end's y. Otherwise three segments: start to midline, end to midline, and the midline from min x less the offset to max x. The midline is the upper middle of the two y values; the offset is the border width when moving right and 0 otherwise |
| SteppedLine.RenderHorizontal | lib/components/SteppedLine.tsx:47-74 | the same shape with the axes exchanged: one segment along the start's row when the y distance is at most 1 pixel; otherwise the offset is the border width only when moving up |
| SteppedLine.Render | lib/components/SteppedLine.tsx:76 | one or three segments; the first starts at the rounded start point; a horizontal path's first segment is horizontal, a vertical path's is vertical |
| SteppedLine.OrientationDefault | lib/components/SteppedLine.tsx:76 | no orientation or "h" renders horizontally; any other value renders vertically |
| SteppedLine.VerticalJointsMeet | lib/components/SteppedLine.tsx:31-42 | with a non-negative border width, both outer segments end on the midline, inside the x span of the connecting segment |
| SteppedLine.HorizontalJointsMeet | lib/components/SteppedLine.tsx:60-71 | the horizontal counterpart: both outer segments end on the midline inside the y span of the connecting segment |
| SteppedLine.NegativeWidthLeavesGap | lib/components/SteppedLine.tsx:31-36 | a negative width is truthy and is used as the offset, so from (0, 0) to (10, 10) with width -3 the connecting segment starts at x = 3, away from the start column x = 0 |
| SteppedLine.VerticalBoundingBox | lib/components/SteppedLine.tsx:31-42 | every vertical segment lies in the box spanned by the rounded end points, widened on the low-x side by the border width when moving right |
| SteppedLine.HorizontalBoundingBox | lib/components/SteppedLine.tsx:60-71 | every horizontal segment lies in the box spanned by the rounded end points, widened on the low-y side by the border width when moving up |
| SteppedLine.VerticalOnPixels | lib/components/SteppedLine.tsx:21-42 | with an absent or whole-pixel border width, every coordinate of a vertical path is a whole number |
| SteppedLine.HorizontalOnPixels | lib/components/SteppedLine.tsx:50-71 | with an absent or whole-pixel border width, every coordinate of a horizontal path is a whole number |
| SteppedLine.RoundedInputsOnly | lib/components/SteppedLine.tsx:21-53 | rounding the inputs first changes neither path: only the rounded values are used |
| SteppedLine.VerticalEndpoints | lib/components/SteppedLine.tsx:26-42 | a vertical path starts at the rounded start. With three segments the second starts at the rounded end; a single segment ends at the end's y, at most one pixel away in x |
| SteppedLine.HorizontalEndpoints | lib/components/SteppedLine.tsx:55-71 | the horizontal counterpart of `VerticalEndpoints` |
| SteppedLine.VerticalExamples | lib/components/SteppedLine.tsx:18-45 | (0, 0) to (100, 100) with width 2 gives three segments, the midline at y = 50 starting at x = -2; (10, 0) to (11, 100) collapses to one segment down x = 10 |
| SteppedLine.ThreeSegmentExamples | lib/components/SteppedLine.test.tsx:6-48 | (10, 20) to (20, 30) with width 1 gives three segments in both orientations |
| LineTo.ParseDelay | lib/components/LineTo.tsx:105-122 | absent and boolean delays are 0; a number is kept exactly when finite; a string gives its `parseInt` value exactly when that is a number; every failure carries the offending value |
| LineTo.ParseDelayText | lib/components/LineTo.tsx:105-122 | the decimal form of any integer, followed by any text not starting with a digit, is that many milliseconds |
| LineTo.ParseDelayExamples | lib/components/LineTo.tsx:105-122 | undefined, `true` and `false` give 0; 500 and "500" give 500; NaN and +Infinity throw; "abc" throws with the value |
| LineTo.ParseAnchorPercent | lib/components/LineTo.tsx:124-130 | succeeds exactly when `parseFloat` gives a number; the result times 100 is that number; an error carries the token |
| LineTo.ParseAnchorText | lib/components/LineTo.tsx:132-149 | a part exactly for the six keywords; "top", "middle" and "bottom" set y, the others x; every value is in [0, 1] |
| LineTo.Overlay | lib/components/LineTo.tsx:159-163 | spreading a part onto an anchor replaces the part's axis and keeps the other one |
| LineTo.ResolveToken | lib/components/LineTo.tsx:161-162 | an empty token sets nothing. A keyword sets its own part in either slot. Any other token is a percentage on the slot's axis, or throws with the token |
| LineTo.Combine | lib/components/LineTo.tsx:159-163 | the x-slot error wins over the y-slot error; without errors, the x part then the y part are spread over (0.5, 0.5) |
| LineTo.ParseAnchor | lib/components/LineTo.tsx:152 | an absent or empty descriptor is exactly (0.5, 0.5) |
| LineTo.TooManyTokens | lib/components/LineTo.tsx:154-157 | a non-empty descriptor throws the format error exactly when it contains two spaces or more |
| LineTo.TooManyTokensExamples | lib/components/LineTo.tsx:154-157 | "a b c" and "a  b" both throw the format error |
| LineTo.KeywordHasNoSpace | lib/components/LineTo.tsx:132-149 | no keyword is empty or contains a space |
| LineTo.ParseAnchorOneToken | lib/components/LineTo.tsx:154-163 | a descriptor without a space is one x-slot token |
| LineTo.ParseAnchorTwoTokens | lib/components/LineTo.tsx:154-163 | `x + " " + y` is the x-slot token `x` and the y-slot token `y`, resolved independently and applied in that order |
| LineTo.KeywordAnchors | lib/components/LineTo.tsx:132-163 | alone, "top" is (0.5, 0), "bottom" (0.5, 1), "left" (0, 0.5), "right" (1, 0.5), and "middle" and "center" are both (0.5, 0.5) |
| LineTo.KeywordSetsOwnAxis | lib/components/LineTo.tsx:132-163 | a keyword alone, after a space or before a space gives the same anchor: its own axis at its value, the other axis at 0.5 |
| LineTo.LaterKeywordWins | lib/components/LineTo.tsx:159-163 | two keywords for the same axis give what the second alone gives; keywords for different axes both apply |
| LineTo.TopBottomExample | lib/components/LineTo.tsx:159-163 | "top bottom" is (0.5, 1) |
| LineTo.TopLeftExample | lib/components/LineTo.tsx:132-163 | "top left" is (0, 0) |
| LineTo.BottomRightExample | lib/components/LineTo.tsx:132-163 | "bottom right" is (1, 1) |
| LineTo.NumericToken | lib/components/LineTo.tsx:124-162 | a token starting with a digit is no keyword, `parseFloat` reads it, and it sets its slot's axis to that value / 100 |
| LineTo.PercentToken | lib/components/LineTo.tsx:124-162 | a run of digits followed by "%" or by nothing sets its slot's axis to the run's value / 100 |
| LineTo.PositionalPair | lib/components/LineTo.tsx:159-163 | two space-free tokens that each resolve on their own slot's axis give the anchor made of their two values |
| LineTo.PercentPair | lib/components/LineTo.tsx:124-163 | "a% b%", for runs of digits a and b, is the anchor (a / 100, b / 100) |
| LineTo.BarePercentPair | lib/components/LineTo.tsx:124-163 | "a b", for runs of digits a and b, is the anchor (a / 100, b / 100) |
| LineTo.PercentExample | lib/components/LineTo.tsx:124-163 | "25% 75%" is (0.25, 0.75) |
| LineTo.TrailingSpaceSkipped | lib/components/LineTo.tsx:161-162 | a trailing space leaves an empty y token, which is skipped: `x + " "` parses as `x` |
| LineTo.LeadingSpaceShifts | lib/components/LineTo.tsx:161-162 | a leading space leaves an empty x token, which is skipped; the one real token is then resolved in the y slot |
| LineTo.BadTokenThrows | lib/components/LineTo.tsx:124-162 | a non-empty token that is neither a keyword nor a number throws with that token, alone or after "top" |
| LineTo.Detect | lib/components/LineTo.tsx:214-220 | no end points exactly when either element is missing |
| LineTo.PlaceWithin | lib/components/LineTo.tsx:228-233 | a fraction in [0, 1] of a non-negative extent lands inside the extent |
| LineTo.DetectCorners | lib/components/LineTo.tsx:228-233 | anchors (0, 0) and (1, 1) give the first box's top-left and the second box's bottom-right corner; (1, 0) and (0, 1) give the top-right and bottom-left corners; the default anchor gives both centres |
| LineTo.DetectInterpolates | lib/components/LineTo.tsx:228-233 | each coordinate moves linearly with its own anchor component, from its value at component 0 to its value at component 1 |
| LineTo.DetectSeparatesAxes | lib/components/LineTo.tsx:228-233 | the x coordinates depend only on the boxes' `left` and `width` and the anchors' x; the y coordinates only on `top`, `height` and the anchors' y |
| LineTo.DetectWithinRegions | lib/components/LineTo.tsx:228-233 | for boxes with non-negative sizes and anchors in the unit square, each end point lies inside its own box |
| LineTo.DetectTranslates | lib/components/LineTo.tsx:228-233 | moving both boxes by (dx, dy) moves both end points by (dx, dy) |
| LineTo.Render | lib/components/LineTo.tsx:259-265 | nothing exactly without end points. When not stepped: one straight segment between the unrounded points. When stepped: the `SteppedLine` path with the given orientation and width |
| LineTo.Frame | lib/components/LineTo.tsx:204-265 | a render throws exactly when one of the anchors or the delay fails to parse, and throws the first failure in the order from-anchor, to-anchor, delay; otherwise it draws nothing exactly when an element is missing |
| LineTo.FrameOfParsed | lib/components/LineTo.tsx:249-265 | once the properties parse, a render draws what `Render` chooses for the detected end points |
| LineTo.MissingRegionRendersNothing | lib/components/LineTo.test.tsx:43-53 | with a missing element and well-formed properties, nothing is drawn and nothing is thrown |
| LineTo.SteppedToggle | lib/components/LineTo.tsx:259-265 | unset `stepped` gives the straight segment between the detected points; set `stepped` gives one or three segments starting at the rounded start point |
| LineTo.CornerToCorner | lib/components/LineTo.tsx:214-265 | anchors that parse to (0, 0) and (1, 1) with `stepped` unset draw a straight line from the first box's top-left to the second box's bottom-right corner |

## Left out

- `lib/components/Line.tsx` is not part of this model. It covers:
  - the angle and length computed with `Math.atan2` and `Math.sqrt`, which is floating-point trigonometry;
  - the DOM reparenting with `appendChild` and `removeChild`;
  - the CSS style defaults.
  A segment here is just its two end points.
- The React lifecycle of `LineTo` is left out (lib/components/LineTo.tsx:204-212, 236-247). This covers `useRef`, `useState`, the effects that re-parse the anchors, and the `setTimeout` / `clearTimeout` re-render after the delay. These are host scheduling, not logic.
  - `Frame` models a steady-state render with the current properties. It does not model the first render after an anchor changes, which still uses the previous anchors.
  - The delay's value only decides whether a render throws.
- `findElement` and `getBoundingClientRect` (lib/components/LineTo.tsx:166-168, 215-216, 225-226) are DOM queries. They become `Option<Rect>` inputs.
- `JsNumbers.ParseIntPrefix` reads an optional sign and decimal digits. Unlike `parseInt(s, 10)` it does not skip leading whitespace; that is its only narrowing.
- `JsNumbers.ParseFloatPrefix` reads an optional sign, decimal digits and an optional fraction. Unlike `parseFloat` it does not skip leading whitespace, and it reads neither exponents (`"1e3"` gives 1, not 1000) nor the `"Infinity"` literal. An anchor token of `"Infinity"` throws in the model and in the source alike.
- `LineTo.ParseDelay` and `LineTo.ParseAnchorPercent` do not model overflow to Infinity. A run of digits worth more than about 1.8e308 reads as Infinity in JavaScript, so the source throws (lib/components/LineTo.tsx:118 and 126); the model returns that large value.
- `JsNumbers.Round` and all other arithmetic use exact reals and unbounded integers. IEEE-754 rounding, overflow and negative zero are not modelled.
- `SteppedLine.BorderWidth` takes the border width as an optional real. A NaN width, which is falsy in JavaScript and would become 1, is not modelled.
- `LineTo.Detect` uses `anchor.x` where the source writes `anchor.x || 0` (lib/components/LineTo.tsx:229-232). The two agree on every anchor that can be parsed, because parsed anchors never hold NaN.
- `LineTo.ParseAnchor`'s own contract only covers the empty and absent cases. Its other behaviour is stated by the lemmas `TooManyTokens`, `ParseAnchorOneToken`, `ParseAnchorTwoTokens` and the lemmas built on them.
- `LineTo.Detect`'s own contract only states when end points exist. The coordinate arithmetic is stated by `DetectInterpolates` and `DetectSeparatesAxes` together with `DetectCorners`, which pin each coordinate to its box's start plus its anchor component times its box's size.
- `SteppedLine.VerticalJointsMeet`, `SteppedLine.HorizontalJointsMeet`, `SteppedLine.VerticalBoundingBox` and `SteppedLine.HorizontalBoundingBox` require a non-negative border width. `NegativeWidthLeavesGap` shows the joint does not hold for a negative one. For a negative width the model states no bounding box.
- The style properties that `LineTo` and `SteppedLine` pass through to each segment are left out. This covers `borderStyle`, `borderColor`, `zIndex` and `className`, plus the `react-steppedlineto` wrapper element.
- An absent `stepped` property is modelled as `false`: the source only looks at its truthiness (lib/components/LineTo.tsx:260).
