/** The `LineTo` connector: parsing of the anchor and delay properties, the
    endpoint computation from the two regions' bounding boxes, and the choice
    between rendering nothing, one straight segment, or a stepped line. */
module LineTo {
  import opened Wrappers
  import opened JsNumbers
  import opened JsStrings
  import SteppedLine

  /** A fractional position inside a region's bounding box. */
  datatype Anchor = Anchor(x: real, y: real)

  const DEFAULT_ANCHOR: Anchor := Anchor(0.5, 0.5)

  datatype Axis = X | Y

  /** What one anchor token sets: a value on one axis. */
  datatype AnchorPart = AnchorPart(axis: Axis, value: real)

  /** The `delay` property: absent, a boolean, a number or a string. */
  datatype DelayValue = Undefined | Bool(b: bool) | Number(n: JsNum) | Text(s: string)

  /** The errors the connector throws on malformed properties. */
  datatype Error =
    | BadDelay(delay: DelayValue)
    | BadPercent(token: string)
    | BadAnchorFormat

  /** A bounding box `{left, top, width, height}` reported by the host layout. */
  datatype Rect = Rect(left: real, top: real, width: real, height: real)

  /** The two absolute points the line connects. */
  datatype Endpoints = Endpoints(x0: real, y0: real, x1: real, y1: real)

  /** What the connector renders. */
  datatype Rendering = Nothing | Straight(line: SteppedLine.Segment) | Stepped(segments: seq<SteppedLine.Segment>)

  /** `parseDelay`: absent and boolean delays are 0, a finite number is kept,
      a string is read by `parseInt(s, 10)`; NaN and infinities throw. */
  function ParseDelay(value: DelayValue): (r: Result<real, Error>)
    ensures value.Undefined? || value.Bool? ==> r == Ok(0.0)
    ensures value.Number? ==> (r.Ok? <==> value.n.Finite?) && (r.Ok? ==> r.value == value.n.v)
    ensures value.Text? ==>
      (r.Ok? <==> ParseIntPrefix(value.s).Some?) &&
      (r.Ok? ==> r.value == ParseIntPrefix(value.s).value as real)
    ensures r.Err? ==> r.error == BadDelay(value)
  {
    match value
    case Undefined => Ok(0.0)
    case Bool(_) => Ok(0.0)
    case Number(n) => if n.Finite? then Ok(n.v) else Err(BadDelay(value))
    case Text(s) =>
      match ParseIntPrefix(s)
      case None => Err(BadDelay(value))
      case Some(d) => Ok(d as real)
  }

  /** `parseAnchorPercent`: `parseFloat(value) / 100`, throwing on NaN. */
  function ParseAnchorPercent(value: string): (r: Result<real, Error>)
    ensures r.Ok? <==> ParseFloatPrefix(value).Some?
    ensures r.Ok? ==> r.value * 100.0 == ParseFloatPrefix(value).value
    ensures r.Err? ==> r.error == BadPercent(value)
  {
    match ParseFloatPrefix(value)
    case None => Err(BadPercent(value))
    case Some(f) => Ok(f / 100.0)
  }

  /** `parseAnchorText`: the keyword table. Each keyword names its own axis. */
  function ParseAnchorText(value: string): (r: Option<AnchorPart>)
    ensures r.Some? <==> value in {"top", "left", "middle", "center", "bottom", "right"}
    ensures r.Some? ==> (r.value.axis == Y <==> value in {"top", "middle", "bottom"})
    ensures r.Some? ==> 0.0 <= r.value.value <= 1.0
  {
    if value == "top" then Some(AnchorPart(Y, 0.0))
    else if value == "left" then Some(AnchorPart(X, 0.0))
    else if value == "middle" then Some(AnchorPart(Y, 0.5))
    else if value == "center" then Some(AnchorPart(X, 0.5))
    else if value == "bottom" then Some(AnchorPart(Y, 1.0))
    else if value == "right" then Some(AnchorPart(X, 1.0))
    else None
  }

  /** The object spread `{...a, ...part}`: the part's axis is replaced, the
      other axis is kept. */
  function Overlay(a: Anchor, part: Option<AnchorPart>): (r: Anchor)
    ensures part.None? ==> r == a
    ensures part.Some? && part.value.axis == X ==> r == Anchor(part.value.value, a.y)
    ensures part.Some? && part.value.axis == Y ==> r == Anchor(a.x, part.value.value)
  {
    match part
    case None => a
    case Some(AnchorPart(X, v)) => a.(x := v)
    case Some(AnchorPart(Y, v)) => a.(y := v)
  }

  /** One token of an anchor string in the given positional slot: an empty token
      sets nothing; a keyword sets its own axis whatever the slot; anything else
      is a percentage on the slot's axis, or an error. */
  function ResolveToken(token: string, slot: Axis): (r: Result<Option<AnchorPart>, Error>)
    ensures token == "" ==> r == Ok(None)
    ensures token != "" && ParseAnchorText(token).Some? ==> r == Ok(ParseAnchorText(token))
    ensures token != "" && ParseAnchorText(token).None? ==>
      (r.Ok? <==> ParseAnchorPercent(token).Ok?) &&
      (r.Ok? ==> r.value == Some(AnchorPart(slot, ParseAnchorPercent(token).value))) &&
      (r.Err? ==> r.error == BadPercent(token))
  {
    if token == "" then Ok(None)
    else
      match ParseAnchorText(token)
      case Some(part) => Ok(Some(part))
      case None =>
        match ParseAnchorPercent(token)
        case Err(e) => Err(e)
        case Ok(p) => Ok(Some(AnchorPart(slot, p)))
  }

  /** Starting from the default anchor, apply the x-slot token and then the
      y-slot token; the first error wins. */
  function Combine(x: Result<Option<AnchorPart>, Error>, y: Result<Option<AnchorPart>, Error>): (r: Result<Anchor, Error>)
    ensures x.Err? ==> r == Err(x.error)
    ensures x.Ok? && y.Err? ==> r == Err(y.error)
    ensures x.Ok? && y.Ok? ==> r == Ok(Overlay(Overlay(DEFAULT_ANCHOR, x.value), y.value))
  {
    match x
    case Err(e) => Err(e)
    case Ok(px) =>
      match y
      case Err(e) => Err(e)
      case Ok(py) => Ok(Overlay(Overlay(DEFAULT_ANCHOR, px), py))
  }

  /** `parseAnchor`: an absent or empty descriptor is the default anchor; the
      descriptor is split on single spaces and more than two pieces throw. */
  function ParseAnchor(value: Option<string>): (r: Result<Anchor, Error>)
    ensures value.None? || value == Some("") ==> r == Ok(DEFAULT_ANCHOR)
  {
    if value.None? || value.value == "" then Ok(DEFAULT_ANCHOR)
    else
      var parts := Split(value.value, ' ');
      if |parts| > 2 then Err(BadAnchorFormat)
      else
        var y := if |parts| == 2 then parts[1] else "";
        Combine(ResolveToken(parts[0], X), ResolveToken(y, Y))
  }

  /** The coordinate a fraction `t` of the way along an extent of `size` from `start`. */
  function Place(start: real, size: real, t: real): real {
    start + size * t
  }

  /** `detect`: nothing when either region is missing; otherwise each end point
      is its region's top-left corner plus the anchor times the region's size. */
  function Detect(a: Option<Rect>, b: Option<Rect>, anchor0: Anchor, anchor1: Anchor): (r: Option<Endpoints>)
    ensures r.None? <==> a.None? || b.None?
  {
    if a.None? || b.None? then None
    else
      var box0, box1 := a.value, b.value;
      Some(Endpoints(
        Place(box0.left, box0.width, anchor0.x),
        Place(box0.top, box0.height, anchor0.y),
        Place(box1.left, box1.width, anchor1.x),
        Place(box1.top, box1.height, anchor1.y)))
  }

  /** The choice at the end of `LineTo`: nothing without points, the stepped line
      when `stepped` is set, otherwise one straight segment between the points. */
  function Render(points: Option<Endpoints>, stepped: bool, orientation: Option<string>, borderWidth: Option<real>): (r: Rendering)
    ensures r.Nothing? <==> points.None?
    ensures points.Some? && !stepped ==>
      r == Straight(SteppedLine.Segment(points.value.x0, points.value.y0, points.value.x1, points.value.y1))
    ensures points.Some? && stepped ==>
      r.Stepped? && r.segments == SteppedLine.Render(points.value.x0, points.value.y0, points.value.x1, points.value.y1, orientation, borderWidth)
  {
    match points
    case None => Nothing
    case Some(p) =>
      if stepped then Stepped(SteppedLine.Render(p.x0, p.y0, p.x1, p.y1, orientation, borderWidth))
      else Straight(SteppedLine.Segment(p.x0, p.y0, p.x1, p.y1))
  }

  /** The properties of `LineTo` that reach the geometry. An absent `stepped` is `false`. */
  datatype LineToProps = LineToProps(
    fromAnchor: Option<string>,
    toAnchor: Option<string>,
    delay: DelayValue,
    stepped: bool,
    orientation: Option<string>,
    borderWidth: Option<real>)

  /** One render of `LineTo` once its anchor references hold the parsed current
      descriptors: both anchors and the delay are parsed (in that order, the
      first failure is thrown), the regions are measured, and the output chosen. */
  function Frame(from: Option<Rect>, to: Option<Rect>, props: LineToProps): (r: Result<Rendering, Error>)
    ensures r.Err? <==> ParseAnchor(props.fromAnchor).Err? || ParseAnchor(props.toAnchor).Err? || ParseDelay(props.delay).Err?
    ensures r.Ok? ==> (r.value.Nothing? <==> from.None? || to.None?)
    ensures ParseAnchor(props.fromAnchor).Err? ==> r == Err(ParseAnchor(props.fromAnchor).error)
    ensures ParseAnchor(props.fromAnchor).Ok? && ParseAnchor(props.toAnchor).Err? ==>
      r == Err(ParseAnchor(props.toAnchor).error)
    ensures ParseAnchor(props.fromAnchor).Ok? && ParseAnchor(props.toAnchor).Ok? && ParseDelay(props.delay).Err? ==>
      r == Err(ParseDelay(props.delay).error)
  {
    match ParseAnchor(props.fromAnchor)
    case Err(e) => Err(e)
    case Ok(anchor0) =>
      match ParseAnchor(props.toAnchor)
      case Err(e) => Err(e)
      case Ok(anchor1) =>
        match ParseDelay(props.delay)
        case Err(e) => Err(e)
        case Ok(_) => Ok(Render(Detect(from, to, anchor0, anchor1), props.stepped, props.orientation, props.borderWidth))
  }

  // Properties of anchor parsing

  /** A descriptor throws the format error exactly when it has two spaces or more. */
  lemma TooManyTokens(s: string)
    requires s != ""
    ensures ParseAnchor(Some(s)) == Err(BadAnchorFormat) <==> Occurrences(s, ' ') >= 2
  {
  }

  /** A keyword contains no space. */
  lemma KeywordHasNoSpace(k: string)
    requires ParseAnchorText(k).Some?
    ensures ' ' !in k && k != ""
  {
  }

  /** With no space, the descriptor is one x-slot token. */
  lemma {:induction false} ParseAnchorOneToken(x: string)
    requires ' ' !in x && x != ""
    ensures ParseAnchor(Some(x)) == Combine(ResolveToken(x, X), Ok(None))
  {
    SplitWithoutSeparator(x, ' ');
  }

  /** With one space, the descriptor is an x-slot token and a y-slot token,
      resolved independently and applied in that order. */
  lemma {:induction false} ParseAnchorTwoTokens(x: string, y: string)
    requires ' ' !in x && ' ' !in y
    ensures ParseAnchor(Some(x + " " + y)) == Combine(ResolveToken(x, X), ResolveToken(y, Y))
  {
    SplitTwo(x, y, ' ');
    assert x + " " + y == x + [' '] + y;
    assert |x + " " + y| > 0;
  }

  /** A keyword sets its own axis, to the same value, in either slot; the other
      axis keeps its default 0.5. */
  lemma KeywordSetsOwnAxis(k: string)
    requires ParseAnchorText(k).Some?
    ensures var part := ParseAnchorText(k).value;
      var expected := Ok(if part.axis == X then Anchor(part.value, 0.5) else Anchor(0.5, part.value));
      ParseAnchor(Some(k)) == expected &&
      ParseAnchor(Some(" " + k)) == expected &&
      ParseAnchor(Some(k + " ")) == expected
  {
    KeywordHasNoSpace(k);
    ParseAnchorOneToken(k);
    TrailingSpaceSkipped(k);
    LeadingSpaceShifts(k);
  }

  /** The value of each keyword on its own: "top" and "bottom" move the point
      to the top and bottom edge, "left" and "right" to the left and right
      edge, "middle" and "center" leave it at the centre. */
  lemma KeywordAnchors()
    ensures ParseAnchor(Some("top")) == Ok(Anchor(0.5, 0.0))
    ensures ParseAnchor(Some("bottom")) == Ok(Anchor(0.5, 1.0))
    ensures ParseAnchor(Some("middle")) == Ok(Anchor(0.5, 0.5))
    ensures ParseAnchor(Some("left")) == Ok(Anchor(0.0, 0.5))
    ensures ParseAnchor(Some("right")) == Ok(Anchor(1.0, 0.5))
    ensures ParseAnchor(Some("center")) == Ok(Anchor(0.5, 0.5))
  {
    KeywordSetsOwnAxis("top");
    KeywordSetsOwnAxis("bottom");
    KeywordSetsOwnAxis("middle");
    KeywordSetsOwnAxis("left");
    KeywordSetsOwnAxis("right");
    KeywordSetsOwnAxis("center");
  }

  /** Two keywords for the same axis: the y-slot one wins and the other axis
      stays 0.5. Keywords for different axes both apply. */
  lemma LaterKeywordWins(k1: string, k2: string)
    requires ParseAnchorText(k1).Some? && ParseAnchorText(k2).Some?
    ensures var p1, p2 := ParseAnchorText(k1).value, ParseAnchorText(k2).value;
      var r := ParseAnchor(Some(k1 + " " + k2));
      (p1.axis == p2.axis ==> r == ParseAnchor(Some(k2))) &&
      (p1.axis != p2.axis ==> r == Ok(Overlay(Overlay(DEFAULT_ANCHOR, Some(p1)), Some(p2))))
  {
    KeywordHasNoSpace(k1);
    KeywordHasNoSpace(k2);
    ParseAnchorTwoTokens(k1, k2);
    ParseAnchorOneToken(k2);
  }

  /** A token that starts with a digit is not a keyword: it is read as a
      percentage on the slot's axis. */
  lemma NumericToken(s: string, slot: Axis)
    requires |s| > 0 && IsDigit(s[0])
    ensures ParseAnchorText(s).None?
    ensures ParseFloatPrefix(s).Some?
    ensures ResolveToken(s, slot) == Ok(Some(AnchorPart(slot, ParseFloatPrefix(s).value / 100.0)))
  {
    assert s[0] != 't' && s[0] != 'l' && s[0] != 'm' && s[0] != 'c' && s[0] != 'b' && s[0] != 'r';
    assert SignLength(s) == 0;
  }

  lemma NoSpaceInPercent(d: string, t: string)
    requires AllDigits(d)
    requires t == "%" || t == ""
    ensures ' ' !in d + t
  {
    var s := d + t;
    forall i | 0 <= i < |s| ensures s[i] != ' ' {
      if i < |d| { assert s[i] == d[i]; }
    }
  }

  /** A run of digits followed by `"%"` or by nothing is read as that many
      hundredths on the slot's axis. */
  lemma PercentToken(d: string, t: string, slot: Axis)
    requires |d| > 0 && AllDigits(d)
    requires t == "%" || t == ""
    ensures ResolveToken(d + t, slot) == Ok(Some(AnchorPart(slot, DecimalValue(d) as real / 100.0)))
  {
    var s := d + t;
    assert s[0] == d[0];
    NumericToken(s, slot);
    ParseFloatDigits(d, t);
  }

  /** Two tokens that each resolve to a part on their own slot's axis give the
      anchor made of the two values. */
  lemma PositionalPair(x: string, y: string, p: real, q: real)
    requires ' ' !in x && ' ' !in y
    requires ResolveToken(x, X) == Ok(Some(AnchorPart(X, p)))
    requires ResolveToken(y, Y) == Ok(Some(AnchorPart(Y, q)))
    ensures ParseAnchor(Some(x + " " + y)) == Ok(Anchor(p, q))
  {
    ParseAnchorTwoTokens(x, y);
  }

  /** `"a% b%"`, for runs of digits a and b, is the anchor (a / 100, b / 100). */
  lemma PercentPair(a: string, b: string)
    requires |a| > 0 && AllDigits(a) && |b| > 0 && AllDigits(b)
    ensures ParseAnchor(Some(a + "% " + b + "%")) == Ok(Anchor(DecimalValue(a) as real / 100.0, DecimalValue(b) as real / 100.0))
  {
    PercentToken(a, "%", X);
    PercentToken(b, "%", Y);
    NoSpaceInPercent(a, "%");
    NoSpaceInPercent(b, "%");
    PositionalPair(a + "%", b + "%", DecimalValue(a) as real / 100.0, DecimalValue(b) as real / 100.0);
    PercentPairText(a, b);
  }

  lemma PercentPairText(a: string, b: string)
    ensures a + "% " + b + "%" == (a + "%") + " " + (b + "%")
  {
  }

  /** A bare number is a percentage too: `"a b"` is the anchor (a / 100, b / 100). */
  lemma BarePercentPair(a: string, b: string)
    requires |a| > 0 && AllDigits(a) && |b| > 0 && AllDigits(b)
    ensures ParseAnchor(Some(a + " " + b)) == Ok(Anchor(DecimalValue(a) as real / 100.0, DecimalValue(b) as real / 100.0))
  {
    PercentToken(a, "", X);
    PercentToken(b, "", Y);
    NoSpaceInPercent(a, "");
    NoSpaceInPercent(b, "");
    assert a + "" == a && b + "" == b;
    PositionalPair(a, b, DecimalValue(a) as real / 100.0, DecimalValue(b) as real / 100.0);
  }

  /** A trailing space leaves an empty y-slot token, which is skipped. */
  lemma TrailingSpaceSkipped(x: string)
    requires ' ' !in x && x != ""
    ensures ParseAnchor(Some(x + " ")) == ParseAnchor(Some(x))
  {
    ParseAnchorOneToken(x);
    ParseAnchorTwoTokens(x, "");
    assert x + " " + "" == x + " ";
  }

  /** A leading space leaves an empty x-slot token: the only token then sits in
      the y slot, so a number in it sets y, not x. */
  lemma LeadingSpaceShifts(x: string)
    requires ' ' !in x
    ensures ParseAnchor(Some(" " + x)) == Combine(Ok(None), ResolveToken(x, Y))
  {
    ParseAnchorTwoTokens("", x);
    assert "" + " " + x == " " + x;
  }

  /** A non-empty token that is neither a keyword nor a number is an error. */
  lemma BadTokenThrows(x: string)
    requires ' ' !in x && x != ""
    requires ParseAnchorText(x).None? && ParseFloatPrefix(x).None?
    ensures ParseAnchor(Some(x)) == Err(BadPercent(x))
    ensures ParseAnchor(Some("top " + x)) == Err(BadPercent(x))
  {
    ParseAnchorOneToken(x);
    ParseAnchorTwoTokens("top", x);
    assert "top " + x == "top" + " " + x;
  }

  /** Two percentages. */
  lemma PercentExample()
    ensures ParseAnchor(Some("25% 75%")) == Ok(Anchor(0.25, 0.75))
  {
    PercentPair("25", "75");
    DecimalValueExamples();
    assert "25% 75%" == "25" + "% " + "75" + "%";
  }

  lemma DecimalValueExamples()
    ensures DecimalValue("25") == 25 && DecimalValue("75") == 75
  {
    assert "25"[1..] == "5" && "75"[1..] == "5" && "5"[1..] == "";
    assert ReadDigits("25", 0) == ReadDigits("5", 2) == ReadDigits("", 25);
    assert ReadDigits("75", 0) == ReadDigits("5", 7) == ReadDigits("", 75);
  }


  /** One keyword for each axis. */
  lemma TopLeftExample()
    ensures ParseAnchor(Some("top left")) == Ok(Anchor(0.0, 0.0))
  {
    ParseAnchorTwoTokens("top", "left");
    assert "top left" == "top" + " " + "left";
  }

  /** Opposite corners for both regions. */
  lemma BottomRightExample()
    ensures ParseAnchor(Some("bottom right")) == Ok(Anchor(1.0, 1.0))
  {
    ParseAnchorTwoTokens("bottom", "right");
    assert "bottom right" == "bottom" + " " + "right";
    assert ResolveToken("bottom", X) == Ok(Some(AnchorPart(Y, 1.0)));
    assert ResolveToken("right", Y) == Ok(Some(AnchorPart(X, 1.0)));
  }

  /** Two keywords for the same axis: the later one wins. */
  lemma TopBottomExample()
    ensures ParseAnchor(Some("top bottom")) == Ok(Anchor(0.5, 1.0))
  {
    ParseAnchorTwoTokens("top", "bottom");
    assert "top bottom" == "top" + " " + "bottom";
  }

  /** Three tokens, and a double space (which makes three tokens too), throw. */
  lemma TooManyTokensExamples()
    ensures ParseAnchor(Some("a b c")) == Err(BadAnchorFormat)
    ensures ParseAnchor(Some("a  b")) == Err(BadAnchorFormat)
  {
    assert Occurrences("a b c", ' ') == 2 by {
      assert "a b c"[1..] == " b c" && " b c"[1..] == "b c" && "b c"[1..] == " c" && " c"[1..] == "c" && "c"[1..] == "";
    }
    assert Occurrences("a  b", ' ') == 2 by {
      assert "a  b"[1..] == "  b" && "  b"[1..] == " b" && " b"[1..] == "b" && "b"[1..] == "";
    }
  }

  // Properties of delay parsing

  /** A decimal integer string, whatever non-digit text follows it, is that
      many milliseconds. */
  lemma ParseDelayText(n: int, t: string)
    requires !StartsWithDigit(t)
    ensures ParseDelay(Text(ShowInt(n) + t)) == Ok(n as real)
  {
    ParseIntShowInt(n, t);
  }

  lemma ParseDelayExamples()
    ensures ParseDelay(Undefined) == Ok(0.0)
    ensures ParseDelay(Bool(true)) == Ok(0.0) && ParseDelay(Bool(false)) == Ok(0.0)
    ensures ParseDelay(Number(Finite(500.0))) == Ok(500.0)
    ensures ParseDelay(Number(NaN)).Err? && ParseDelay(Number(PosInf)).Err?
    ensures ParseDelay(Text("500")) == Ok(500.0)
    ensures ParseDelay(Text("abc")) == Err(BadDelay(Text("abc")))
  {
    var s := "500";
    assert s[0..] == s && s[1..] == "00" && "00"[1..] == "0" && "0"[1..] == "";
    assert ReadDigits(s, 0) == ReadDigits("00", 5) == ReadDigits("0", 50) == ReadDigits("", 500);
    assert ParseIntPrefix(s) == Some(500);
    assert "abc"[0..] == "abc";
  }

  // Properties of the end points

  /** Anchor (0, 0) is the top-left corner, (1, 1) the bottom-right one,
      (1, 0) the top-right one, (0, 1) the bottom-left one and the default
      anchor the centre. */
  lemma DetectCorners(a: Rect, b: Rect)
    ensures Detect(Some(a), Some(b), Anchor(0.0, 0.0), Anchor(1.0, 1.0)) ==
      Some(Endpoints(a.left, a.top, b.left + b.width, b.top + b.height))
    ensures Detect(Some(a), Some(b), Anchor(1.0, 0.0), Anchor(0.0, 1.0)) ==
      Some(Endpoints(a.left + a.width, a.top, b.left, b.top + b.height))
    ensures Detect(Some(a), Some(b), DEFAULT_ANCHOR, DEFAULT_ANCHOR) ==
      Some(Endpoints(a.left + a.width / 2.0, a.top + a.height / 2.0, b.left + b.width / 2.0, b.top + b.height / 2.0))
  {
  }

  /** Each coordinate moves linearly with its own anchor component, between the
      value at anchor 0 and the value at anchor 1 on that axis. */
  lemma DetectInterpolates(a: Rect, b: Rect, anchor0: Anchor, anchor1: Anchor)
    ensures var p := Detect(Some(a), Some(b), anchor0, anchor1).value;
      var lo := Detect(Some(a), Some(b), Anchor(0.0, 0.0), Anchor(0.0, 0.0)).value;
      var hi := Detect(Some(a), Some(b), Anchor(1.0, 1.0), Anchor(1.0, 1.0)).value;
      p.x0 == lo.x0 + anchor0.x * (hi.x0 - lo.x0) && p.y0 == lo.y0 + anchor0.y * (hi.y0 - lo.y0) &&
      p.x1 == lo.x1 + anchor1.x * (hi.x1 - lo.x1) && p.y1 == lo.y1 + anchor1.y * (hi.y1 - lo.y1)
  {
  }

  /** The horizontal coordinates depend only on the regions' `left` and
      `width` and the anchors' `x`; the vertical ones only on `top`, `height`
      and `y`. */
  lemma DetectSeparatesAxes(a: Rect, b: Rect, anchor0: Anchor, anchor1: Anchor, c: Rect, d: Rect, anchor2: Anchor, anchor3: Anchor)
    ensures var p, q := Detect(Some(a), Some(b), anchor0, anchor1).value, Detect(Some(c), Some(d), anchor2, anchor3).value;
      (a.left == c.left && a.width == c.width && anchor0.x == anchor2.x ==> p.x0 == q.x0) &&
      (a.top == c.top && a.height == c.height && anchor0.y == anchor2.y ==> p.y0 == q.y0) &&
      (b.left == d.left && b.width == d.width && anchor1.x == anchor3.x ==> p.x1 == q.x1) &&
      (b.top == d.top && b.height == d.height && anchor1.y == anchor3.y ==> p.y1 == q.y1)
  {
  }

  /** A fraction in [0, 1] of a non-negative extent stays within the extent. */
  lemma PlaceWithin(start: real, size: real, t: real)
    requires size >= 0.0 && 0.0 <= t <= 1.0
    ensures start <= Place(start, size, t) <= start + size
  {
    assert size * t <= size * 1.0 by {
      assert size * (1.0 - t) >= 0.0;
    }
  }

  predicate InUnitSquare(anchor: Anchor) {
    0.0 <= anchor.x <= 1.0 && 0.0 <= anchor.y <= 1.0
  }

  predicate HasSize(box: Rect) {
    box.width >= 0.0 && box.height >= 0.0
  }

  /** An anchor inside the unit square puts its end point inside its region. */
  lemma DetectWithinRegions(a: Rect, b: Rect, anchor0: Anchor, anchor1: Anchor)
    requires HasSize(a) && HasSize(b) && InUnitSquare(anchor0) && InUnitSquare(anchor1)
    ensures var p := Detect(Some(a), Some(b), anchor0, anchor1).value;
      a.left <= p.x0 <= a.left + a.width && a.top <= p.y0 <= a.top + a.height &&
      b.left <= p.x1 <= b.left + b.width && b.top <= p.y1 <= b.top + b.height
  {
    PlaceWithin(a.left, a.width, anchor0.x);
    PlaceWithin(a.top, a.height, anchor0.y);
    PlaceWithin(b.left, b.width, anchor1.x);
    PlaceWithin(b.top, b.height, anchor1.y);
  }

  /** Moving both regions by (dx, dy) moves both end points by (dx, dy). */
  lemma DetectTranslates(a: Rect, b: Rect, anchor0: Anchor, anchor1: Anchor, dx: real, dy: real)
    ensures var p := Detect(Some(a), Some(b), anchor0, anchor1).value;
      var a', b' := Rect(a.left + dx, a.top + dy, a.width, a.height), Rect(b.left + dx, b.top + dy, b.width, b.height);
      Detect(Some(a'), Some(b'), anchor0, anchor1) == Some(Endpoints(p.x0 + dx, p.y0 + dy, p.x1 + dx, p.y1 + dy))
  {
    var a', b' := Rect(a.left + dx, a.top + dy, a.width, a.height), Rect(b.left + dx, b.top + dy, b.width, b.height);
    var p := Detect(Some(a), Some(b), anchor0, anchor1).value;
    var q := Detect(Some(a'), Some(b'), anchor0, anchor1).value;
    assert q.x0 == p.x0 + dx && q.y0 == p.y0 + dy;
    assert q.x1 == p.x1 + dx && q.y1 == p.y1 + dy;
  }

  // Properties of one render

  /** Once both anchors and the delay parse, a render draws what `Render`
      chooses for the detected end points. */
  lemma FrameOfParsed(from: Option<Rect>, to: Option<Rect>, props: LineToProps, anchor0: Anchor, anchor1: Anchor)
    requires ParseAnchor(props.fromAnchor) == Ok(anchor0) && ParseAnchor(props.toAnchor) == Ok(anchor1)
    requires ParseDelay(props.delay).Ok?
    ensures Frame(from, to, props) == Ok(Render(Detect(from, to, anchor0, anchor1), props.stepped, props.orientation, props.borderWidth))
  {
  }

  /** A missing region renders nothing and throws nothing, once the properties parse. */
  lemma MissingRegionRendersNothing(from: Option<Rect>, to: Option<Rect>, props: LineToProps)
    requires from.None? || to.None?
    requires ParseAnchor(props.fromAnchor).Ok? && ParseAnchor(props.toAnchor).Ok? && ParseDelay(props.delay).Ok?
    ensures Frame(from, to, props) == Ok(Nothing)
  {
  }

  /** Turning `stepped` on changes one straight segment into a stepped line of
      one or three segments starting at the rounded start point. */
  lemma SteppedToggle(a: Rect, b: Rect, props: LineToProps)
    requires ParseAnchor(props.fromAnchor).Ok? && ParseAnchor(props.toAnchor).Ok? && ParseDelay(props.delay).Ok?
    ensures var p := Detect(Some(a), Some(b), ParseAnchor(props.fromAnchor).value, ParseAnchor(props.toAnchor).value).value;
      Frame(Some(a), Some(b), props.(stepped := false)) == Ok(Straight(SteppedLine.Segment(p.x0, p.y0, p.x1, p.y1))) &&
      var r := Frame(Some(a), Some(b), props.(stepped := true));
      r.Ok? && r.value.Stepped? && (|r.value.segments| == 1 || |r.value.segments| == 3) &&
      r.value.segments[0].x0 == Round(p.x0) as real && r.value.segments[0].y0 == Round(p.y0) as real
  {
  }

  /** Anchors (0, 0) and (1, 1), such as "top left" and "bottom right" (see
      `TopLeftExample` and `BottomRightExample`), draw a straight line from the
      first region's top-left corner to the second region's bottom-right corner. */
  lemma CornerToCorner(a: Rect, b: Rect, props: LineToProps)
    requires ParseAnchor(props.fromAnchor) == Ok(Anchor(0.0, 0.0)) && ParseAnchor(props.toAnchor) == Ok(Anchor(1.0, 1.0))
    requires ParseDelay(props.delay).Ok? && !props.stepped
    ensures Frame(Some(a), Some(b), props) == Ok(Straight(SteppedLine.Segment(a.left, a.top, b.left + b.width, b.top + b.height)))
  {
    FrameOfParsed(Some(a), Some(b), props, Anchor(0.0, 0.0), Anchor(1.0, 1.0));
    DetectCorners(a, b);
  }
}
