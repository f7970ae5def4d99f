/** Focus and metering areas: from corners in [-1000, 1000] to pixels of the preview.
    Scaling is exact; the source computes it in single precision.
 */
module Areas {
  import opened Common
  import opened AreaText

  const INT_MIN := -0x8000_0000
  const INT_MAX := 0x7fff_ffff

  predicate FitsInt(x: int) { INT_MIN <= x <= INT_MAX }

  /** What a sum, difference or product of two ints is in 32 bits. */
  function Wrap(x: int): (r: int)
    ensures FitsInt(r)
    ensures FitsInt(x) ==> r == x
  {
    (x + 0x8000_0000) % 0x1_0000_0000 - 0x8000_0000
  }

  /** C division by a positive number. */
  function Trunc(x: int, d: int): int
    requires d > 0
  {
    if x >= 0 then x / d else -(-x / d)
  }

  /** cam_rect_t */
  datatype Rect = Rect(left: int, top: int, width: int, height: int)

  /** cam_area_t */
  datatype Area = Area(rect: Rect, weight: int)

  const DEFAULT_AREA := Area(Rect(0, 0, 0, 0), 0)

  datatype Point = Point(x: int, y: int)

  /** Overran: an area in the text was too long for the buffer it is copied to. */
  datatype Outcome<R> = Unsupported | Refused | Overran | Staged(rois: seq<R>)

  // ---------- what is accepted ----------

  function AreaOf(v: Written): Area {
    Area(Rect(v.left, v.top, Wrap(v.right - v.left), Wrap(v.bottom - v.top)), v.weight)
  }

  function AreasOf(vs: seq<Written>): seq<Area> {
    seq(|vs|, i requires 0 <= i < |vs| => AreaOf(vs[i]))
  }

  predicate AcceptsArea(a: Area) {
    && a.rect.left >= -1000 && a.rect.top >= -1000
    && a.rect.width > 0 && a.rect.height > 0
    && Wrap(a.rect.left + a.rect.width) <= 1000
    && Wrap(a.rect.top + a.rect.height) <= 1000
    && 1 <= a.weight <= 1000
  }

  predicate Accepts(areas: seq<Area>) {
    areas == [DEFAULT_AREA] || forall i | 0 <= i < |areas| :: AcceptsArea(areas[i])
  }

  /** What the check is for: the rectangle lies in the square from -1000 to 1000. */
  predicate InRange(r: Rect) {
    && -1000 <= r.left < r.left + r.width <= 1000
    && -1000 <= r.top < r.top + r.height <= 1000
  }

  predicate InOrder(v: Written) { v.left <= v.right && v.top <= v.bottom }

  /** An accepted area lies in range exactly when its corners were written in order: the check
      alone does not see to it, because the sizes wrap around.
   */
  lemma AcceptedInRangeIff(v: Written)
    requires AcceptsArea(AreaOf(v))
    ensures InRange(AreaOf(v).rect) <==> InOrder(v)
  {
  }

  /** Nothing in range is refused, if its weight is. */
  lemma InRangeAccepted(v: Written)
    requires InOrder(v) && -1000 <= v.left < v.right <= 1000 && -1000 <= v.top < v.bottom <= 1000
    ensures AcceptsArea(AreaOf(v)) <==> 1 <= v.weight <= 1000
  {
  }

  lemma WrapIs(x: int, r: int)
    requires FitsInt(r) && (r == x || r == x + 0x1_0000_0000 || r == x - 0x1_0000_0000)
    ensures Wrap(x) == r
  {
  }

  /** An area that is far out of range, and accepted. */
  lemma AcceptedOutOfRange()
    ensures var v := Written(1, -1000, INT_MIN, 1000, 1);
            AcceptsArea(AreaOf(v)) && AreaOf(v).rect.width == INT_MAX && !InRange(AreaOf(v).rect)
  {
    WrapIs(INT_MIN - 1, INT_MAX);
    WrapIs(1 + INT_MAX, INT_MIN);
    hide Wrap;
  }

  // ---------- scaling ----------

  /** (int32_t)((left + 1000.0f) * (size / 2000.0f)) */
  function ScaledStart(lo: int, size: int): int { Trunc((lo + 1000) * size, 2000) }

  /** (int32_t)(width * size / 2000.0f), where the product is one of ints */
  function ScaledLength(length: int, size: int): int { Trunc(Wrap(length * size), 2000) }

  /** (uint32_t)(((left + width / 2) + 1000.0f) * size / 2000.0f) */
  function ScaledCentre(lo: int, length: int, size: int): int { Trunc((lo + Trunc(length, 2) + 1000) * size, 2000) }

  function FocusRoi(r: Rect, w: int, h: int): Rect {
    Rect(ScaledStart(r.left, w), ScaledStart(r.top, h), ScaledLength(r.width, w), ScaledLength(r.height, h))
  }

  function MeteringPoint(r: Rect, w: int, h: int): Point {
    Point(ScaledCentre(r.left, r.width, w), ScaledCentre(r.top, r.height, h))
  }

  lemma TruncBounds(x: int)
    requires x >= 0
    ensures 0 <= 2000 * Trunc(x, 2000) <= x < 2000 * Trunc(x, 2000) + 2000
  {
  }

  lemma MulMonotone(a: int, b: int, c: int)
    requires a <= b && c >= 0
    ensures a * c <= b * c
  {
  }

  /** In spite of the separate truncations no side leaves the preview, whatever its size; and it
      is the length scaled exactly when the product of ints does not overflow.
   */
  lemma SideInPreview(lo: int, length: int, size: int)
    requires -1000 <= lo && 0 < length && lo + length <= 1000 && size > 0
    ensures 0 <= ScaledStart(lo, size) < size
    ensures ScaledStart(lo, size) + ScaledLength(length, size) <= size
    ensures length * size <= INT_MAX <==> ScaledLength(length, size) == length * size / 2000
    ensures length * size <= INT_MAX ==> ScaledLength(length, size) >= 0
  {
    var p, q := (lo + 1000) * size, length * size;
    MulMonotone(0, lo + 1000, size);
    MulMonotone(0, length, size);
    MulMonotone(lo + 1000 + length, 2000, size);
    MulMonotone(1, length, size);
    assert p + q == (lo + 1000 + length) * size;
    hide Wrap;
    SideSums(p, q, size);
  }

  lemma SideSums(p: int, q: int, size: int)
    requires 0 <= p && 0 < q && p + q <= 2000 * size
    ensures 0 <= Trunc(p, 2000) < size && Trunc(p, 2000) + Trunc(Wrap(q), 2000) <= size
    ensures q <= INT_MAX <==> Trunc(Wrap(q), 2000) == q / 2000
    ensures q <= INT_MAX ==> Trunc(Wrap(q), 2000) >= 0
  {
  }

  /** A start is the coordinate moved and scaled, exactly but for the truncation. */
  lemma StartIs(lo: int, size: int)
    requires lo >= -1000 && size > 0
    ensures 2000 * ScaledStart(lo, size) <= (lo + 1000) * size < 2000 * (ScaledStart(lo, size) + 1)
  {
    MulMonotone(0, lo + 1000, size);
    TruncBounds((lo + 1000) * size);
  }

  /** And so is a centre, of the coordinate in the middle of a side. */
  lemma CentreIs(lo: int, length: int, size: int)
    requires lo >= -1000 && length > 0 && size > 0
    ensures var middle := lo + length / 2;
            && 2000 * ScaledCentre(lo, length, size) <= (middle + 1000) * size
            && (middle + 1000) * size < 2000 * (ScaledCentre(lo, length, size) + 1)
  {
    var middle := lo + length / 2;
    MulMonotone(0, middle + 1000, size);
    TruncBounds((middle + 1000) * size);
  }

  /** The position and the size of a rectangle, side by side: the left and the width go with the width
      of the preview, the top and the height with its height.
   */
  lemma FocusRoiIs(r: Rect, w: int, h: int)
    requires InRange(r) && w > 0 && h > 0
    ensures var f := FocusRoi(r, w, h);
            && 2000 * f.left <= (r.left + 1000) * w < 2000 * (f.left + 1)
            && 2000 * f.top <= (r.top + 1000) * h < 2000 * (f.top + 1)
            && (r.width * w <= INT_MAX ==> 2000 * f.width <= r.width * w < 2000 * (f.width + 1))
            && (r.height * h <= INT_MAX ==> 2000 * f.height <= r.height * h < 2000 * (f.height + 1))
  {
    StartIs(r.left, w);
    StartIs(r.top, h);
    if r.width * w <= INT_MAX { LengthIs(r.width, w); }
    if r.height * h <= INT_MAX { LengthIs(r.height, h); }
    hide ScaledStart, ScaledLength;
  }

  lemma LengthIs(length: int, size: int)
    requires length > 0 && size > 0 && length * size <= INT_MAX
    ensures 2000 * ScaledLength(length, size) <= length * size < 2000 * (ScaledLength(length, size) + 1)
  {
    MulMonotone(0, length, size);
    TruncBounds(length * size);
  }

  lemma MeteringPointIs(r: Rect, w: int, h: int)
    requires InRange(r) && w > 0 && h > 0
    ensures var m := MeteringPoint(r, w, h);
            && 2000 * m.x <= (r.left + r.width / 2 + 1000) * w < 2000 * (m.x + 1)
            && 2000 * m.y <= (r.top + r.height / 2 + 1000) * h < 2000 * (m.y + 1)
  {
    CentreIs(r.left, r.width, w);
    CentreIs(r.top, r.height, h);
    hide ScaledCentre;
  }

  /** An area of the upper right quarter, in a preview of 1920 by 1080. */
  lemma ExampleArea()
    ensures AreaOf(Written(200, -600, 400, -400, 1)).rect == Rect(200, -600, 200, 200)
    ensures FocusRoi(Rect(200, -600, 200, 200), 1920, 1080) == Rect(1152, 216, 192, 108)
    ensures MeteringPoint(Rect(200, -600, 200, 200), 1920, 1080) == Point(1248, 270)
  {
  }

  /** The corners written are those of the rectangle, if it is in order and in range. */
  lemma CornersAre(v: Written)
    requires -1000 <= v.left <= v.right <= 1000 && -1000 <= v.top <= v.bottom <= 1000
    ensures var a := AreaOf(v);
            && a.rect.left == v.left && a.rect.top == v.top && a.weight == v.weight
            && a.rect.left + a.rect.width == v.right && a.rect.top + a.rect.height == v.bottom
  {
  }

  /** The centre of an area in range is a pixel of the preview. */
  lemma CentreInPreview(lo: int, length: int, size: int)
    requires -1000 <= lo && 0 < length && lo + length <= 1000 && size > 0
    ensures 0 <= ScaledCentre(lo, length, size) < size
    ensures ScaledStart(lo, size) <= ScaledCentre(lo, length, size)
  {
    var c := lo + Trunc(length, 2) + 1000;
    assert lo + 1000 <= c <= 1999;
    MulMonotone(0, lo + 1000, size);
    MulMonotone(lo + 1000, c, size);
    MulMonotone(c, 1999, size);
    TruncBounds(c * size);
    TruncBounds((lo + 1000) * size);
  }

  predicate InPreview(r: Rect, w: int, h: int) {
    && 0 <= r.left && 0 <= r.width && r.left + r.width <= w
    && 0 <= r.top && 0 <= r.height && r.top + r.height <= h
  }

  /** No length of an area overflows at this preview size. */
  predicate Fitting(size: int) { 2000 * size <= INT_MAX }

  /** Lengths are scaled to lengths exactly at the preview sizes for which not even the longest
      overflows: at any other size some length becomes negative.
   */
  lemma LengthsFitIff(size: int)
    requires 0 < size <= INT_MAX
    ensures (forall length | 1 <= length <= 2000 :: ScaledLength(length, size) >= 0) <==> Fitting(size)
  {
    if Fitting(size) {
      forall length | 1 <= length <= 2000 ensures ScaledLength(length, size) >= 0 {
        MulMonotone(length, 2000, size);
        SideInPreview(-1000, length, size);
      }
    } else {
      assert ScaledLength(NegativeLength(size), size) < 0 by { NegativeLengthIs(size); }
    }
  }

  /** A length that overflows to below -2000. */
  function NegativeLength(size: int): (length: int)
    requires 0 < size <= INT_MAX
  {
    if size > INT_MAX - 999 then 2000 else if size > INT_MAX - 1998 then 2 else INT_MAX / size + 1
  }

  lemma NegativeLengthIs(size: int)
    requires 0 < size <= INT_MAX && !Fitting(size)
    ensures 1 <= NegativeLength(size) <= 2000 && ScaledLength(NegativeLength(size), size) < 0
  {
    if size <= INT_MAX - 1998 {
      var length := INT_MAX / size + 1;
      assert INT_MAX < length * size <= INT_MAX + size by { FirstOverflow(size); }
      if length > 2000 {
        MulMonotone(2000, length - 1, size);
      }
      hide Wrap;
      WrapsBelow(length * size);
    }
  }

  /** The first size at which the longest length becomes negative. */
  lemma LengthOverflows()
    ensures Fitting(1_073_741) && !Fitting(1_073_742) && ScaledLength(2000, 1_073_742) < 0
  {
    WrapIs(2000 * 1_073_742, 2000 * 1_073_742 - 0x1_0000_0000);
  }

  lemma FirstOverflow(size: int)
    requires 0 < size
    ensures (INT_MAX / size) * size <= INT_MAX < (INT_MAX / size + 1) * size <= INT_MAX + size
  {
    assert INT_MAX == (INT_MAX / size) * size + INT_MAX % size;
  }

  lemma WrapsBelow(x: int)
    requires INT_MAX < x <= 2 * INT_MAX - 1998
    ensures Trunc(Wrap(x), 2000) < 0
  {
  }

  /** Every area in range is focused on inside the preview, and metered inside it. */
  lemma AreaInPreview(r: Rect, w: int, h: int)
    requires InRange(r) && w > 0 && h > 0
    ensures Fitting(w) && Fitting(h) ==> InPreview(FocusRoi(r, w, h), w, h)
    ensures var m := MeteringPoint(r, w, h); 0 <= m.x < w && 0 <= m.y < h
  {
    hide ScaledStart, ScaledLength, ScaledCentre;
    SideInPreview(r.left, r.width, w);
    SideInPreview(r.top, r.height, h);
    CentreInPreview(r.left, r.width, w);
    CentreInPreview(r.top, r.height, h);
    if Fitting(w) { MulMonotone(r.width, 2000, w); }
    if Fitting(h) { MulMonotone(r.height, 2000, h); }
  }

  // ---------- the setters ----------

  /** The areas written, their corners turned into sizes. */
  method ToAreas(vs: seq<Written>) returns (areas: seq<Area>)
    ensures areas == AreasOf(vs)
  {
    hide Wrap;
    areas := [];
    for index := 0 to |vs|
      invariant areas == AreasOf(vs[..index])
    {
      assert AreasOf(vs[..index + 1]) == AreasOf(vs[..index]) + [AreaOf(vs[index])];
      areas := areas + [AreaOf(vs[index])];
    }
    assert vs[..|vs|] == vs;
  }

  method ValidateCameraAreas(areas: seq<Area>) returns (ok: bool)
    ensures ok == Accepts(areas)
  {
    hide Wrap;
    if |areas| == 1 && areas[0] == DEFAULT_AREA { return true; }
    var i := 0;
    while i < |areas|
      invariant 0 <= i <= |areas| && forall j | 0 <= j < i :: AcceptsArea(areas[j])
    {
      var a := areas[i];
      if a.rect.left < -1000 { return false; }
      if a.rect.top < -1000 { return false; }
      if a.rect.width <= 0 || a.rect.height <= 0 { return false; }
      if Wrap(a.rect.left + a.rect.width) > 1000 { return false; }
      if Wrap(a.rect.top + a.rect.height) > 1000 { return false; }
      if a.weight < 1 || a.weight > 1000 { return false; }
      i := i + 1;
    }
    return true;
  }

  /** What a list of written areas comes to: refused, or these areas; the default area is none. */
  function Resolved(vs: seq<Written>): Outcome<Area> {
    if !Accepts(AreasOf(vs)) then Refused
    else if AreasOf(vs) == [DEFAULT_AREA] then Staged([])
    else Staged(AreasOf(vs))
  }

  /** And a text, if there is one and areas are supported at all. */
  function ResolvedText(str: Option<string>, maxAreas: nat): Outcome<Area> {
    if maxAreas == 0 || str.None? then Unsupported
    else
      match ParseText(str.value, maxAreas)
      case Bad => Refused
      case Overrun => Overran
      case Areas(vs) => Resolved(vs)
  }

  /** The part the two setters have in common. */
  method ReadAreas(str: Option<string>, maxAreas: nat) returns (r: Outcome<Area>)
    ensures r == ResolvedText(str, maxAreas)
  {
    hide ParseText, Accepts;
    if maxAreas == 0 || str.None? { return Unsupported; }
    var parsed := ParseCameraAreaString(str.value, maxAreas);
    if parsed.Overrun? { return Overran; }
    if parsed.Bad? { return Refused; }
    var areas := ToAreas(parsed.areas);
    var ok := ValidateCameraAreas(areas);
    if !ok { return Refused; }
    return Staged(if areas == [DEFAULT_AREA] then [] else areas);
  }

  method SetFocusAreas(str: Option<string>, maxAreas: nat, previewWidth: int, previewHeight: int)
    returns (r: Outcome<(Rect, int)>)
    ensures match ResolvedText(str, maxAreas)
            case Unsupported => r == Unsupported
            case Refused => r == Refused
            case Overran => r == Overran
            case Staged(areas) =>
              && r.Staged? && |r.rois| == |areas|
              && forall i | 0 <= i < |areas| ::
                   r.rois[i] == (FocusRoi(areas[i].rect, previewWidth, previewHeight), areas[i].weight)
  {
    hide FocusRoi, ResolvedText;
    var read := ReadAreas(str, maxAreas);
    match read
    case Unsupported => return Unsupported;
    case Refused => return Refused;
    case Overran => return Overran;
    case Staged(areas) =>
      var rois := [];
      for i := 0 to |areas|
        invariant |rois| == i
        invariant forall j | 0 <= j < i ::
                    rois[j] == (FocusRoi(areas[j].rect, previewWidth, previewHeight), areas[j].weight)
      {
        rois := rois + [(FocusRoi(areas[i].rect, previewWidth, previewHeight), areas[i].weight)];
      }
      return Staged(rois);
  }

  method SetMeteringAreas(str: Option<string>, maxAreas: nat, previewWidth: int, previewHeight: int)
    returns (r: Outcome<Point>)
    ensures match ResolvedText(str, maxAreas)
            case Unsupported => r == Unsupported
            case Refused => r == Refused
            case Overran => r == Overran
            case Staged(areas) =>
              && r.Staged? && |r.rois| == |areas|
              && forall i | 0 <= i < |areas| :: r.rois[i] == MeteringPoint(areas[i].rect, previewWidth, previewHeight)
  {
    hide MeteringPoint, ResolvedText;
    var read := ReadAreas(str, maxAreas);
    match read
    case Unsupported => return Unsupported;
    case Refused => return Refused;
    case Overran => return Overran;
    case Staged(areas) =>
      var points := [];
      for i := 0 to |areas|
        invariant |points| == i
        invariant forall j | 0 <= j < i :: points[j] == MeteringPoint(areas[j].rect, previewWidth, previewHeight)
      {
        points := points + [MeteringPoint(areas[i].rect, previewWidth, previewHeight)];
      }
      return Staged(points);
  }

  /** In range, and of a weight that is allowed. */
  predicate Valid(v: Written) {
    && -1000 <= v.left < v.right <= 1000 && -1000 <= v.top < v.bottom <= 1000
    && 1 <= v.weight <= 1000
  }

  /** Areas written in order are staged exactly if all are valid; five zeros alone stand for none. */
  lemma ResolvedIs(vs: seq<Written>)
    requires AllInOrder(vs)
    ensures Resolved(vs) ==
            if vs == [Written(0, 0, 0, 0, 0)] then Staged([])
            else if forall i | 0 <= i < |vs| :: Valid(vs[i]) then Staged(AreasOf(vs))
            else Refused
  {
    hide AcceptsArea, Valid, Wrap, InOrder;
    forall i | 0 <= i < |vs| ensures AcceptsArea(AreasOf(vs)[i]) <==> Valid(vs[i]) {
      ValidIs(vs[i]);
    }
    if |vs| == 1 {
      DefaultIs(vs[0]);
      assert AreasOf(vs) == [AreaOf(vs[0])];
    } else {
      assert |AreasOf(vs)| != 1;
    }
  }

  lemma ValidIs(v: Written)
    requires InOrder(v)
    ensures AcceptsArea(AreaOf(v)) <==> Valid(v)
  {
    if AcceptsArea(AreaOf(v)) {
      AcceptedInRangeIff(v);
    }
  }

  lemma DefaultIs(v: Written)
    ensures AreaOf(v) == DEFAULT_AREA <==> v == Written(0, 0, 0, 0, 0)
    ensures v == Written(0, 0, 0, 0, 0) ==> !Valid(v)
  {
    hide Wrap;
    WrapZero(v.right);
    WrapZero(v.bottom);
    if v.left == 0 && v.top == 0 {
      assert AreaOf(v) == Area(Rect(0, 0, Wrap(v.right), Wrap(v.bottom)), v.weight);
    }
  }

  lemma WrapZero(x: int)
    requires -0x1_0000_0000 < x < 0x1_0000_0000
    ensures Wrap(x) == 0 <==> x == 0
  {
  }

  lemma ValidResolved(vs: seq<Written>)
    requires 0 < |vs| && forall i | 0 <= i < |vs| :: Valid(vs[i])
    ensures Resolved(vs) == Staged(AreasOf(vs))
  {
    hide AcceptsArea, Wrap;
    forall i | 0 <= i < |vs| ensures AcceptsArea(AreasOf(vs)[i]) {
      InRangeAccepted(vs[i]);
    }
    assert AreasOf(vs)[0] != DEFAULT_AREA;
  }

  /** Areas in range, as an application writes them: they come through whole, and none of them
      overruns the buffer.
   */
  lemma ValidComesThrough(vs: seq<Written>, maxAreas: nat)
    requires 0 < |vs| <= maxAreas && forall i | 0 <= i < |vs| :: Valid(vs[i])
    ensures ResolvedText(Some(AreasText(vs)), maxAreas) == Staged(AreasOf(vs))
  {
    ValidResolved(vs);
    forall i | 0 <= i < |vs| ensures Short(vs[i]) {
      FourDigitsShort(vs[i]);
    }
    hide AreasText, ParseText, Short, Resolved;
    AreasRoundTripIff(vs, maxAreas);
  }

  predicate AllInOrder(vs: seq<Written>) {
    forall i | 0 <= i < |vs| :: InOrder(vs[i])
  }

  predicate FocusInPreview(vs: seq<Written>, w: int, h: int) {
    Resolved(vs).Staged? ==>
      forall i | 0 <= i < |Resolved(vs).rois| ::
        InPreview(FocusRoi(Resolved(vs).rois[i].rect, w, h), w, h)
  }

  lemma StagedInRange(vs: seq<Written>, i: nat)
    requires AllInOrder(vs) && Resolved(vs).Staged? && i < |Resolved(vs).rois|
    ensures InRange(Resolved(vs).rois[i].rect)
  {
    hide InRange, Wrap, AcceptsArea, InOrder;
    assert AreasOf(vs)[i] == AreaOf(vs[i]);
    AcceptedInRangeIff(vs[i]);
  }

  /** Areas written in order are always metered at pixels of the preview. */
  lemma StagedMetering(vs: seq<Written>, w: int, h: int)
    requires AllInOrder(vs) && w > 0 && h > 0 && Resolved(vs).Staged?
    ensures forall i | 0 <= i < |Resolved(vs).rois| ::
              var m := MeteringPoint(Resolved(vs).rois[i].rect, w, h);
              0 <= m.x < w && 0 <= m.y < h
  {
    var rects := Resolved(vs).rois;
    hide MeteringPoint, FocusRoi, InRange, Resolved, AllInOrder;
    forall i | 0 <= i < |rects|
      ensures 0 <= MeteringPoint(rects[i].rect, w, h).x < w && 0 <= MeteringPoint(rects[i].rect, w, h).y < h
    {
      StagedInRange(vs, i);
      AreaInPreview(rects[i].rect, w, h);
    }
  }

  /** And they are all focused on inside the preview, whatever they are, exactly at the preview
      sizes at which no length overflows.
   */
  lemma StagedInPreviewIff(w: int, h: int)
    requires 0 < w <= INT_MAX && 0 < h <= INT_MAX
    ensures (forall vs | AllInOrder(vs) :: FocusInPreview(vs, w, h)) <==> Fitting(w) && Fitting(h)
  {
    if Fitting(w) && Fitting(h) {
      forall vs | AllInOrder(vs) ensures FocusInPreview(vs, w, h) {
        StagedFocus(vs, w, h);
      }
    } else {
      NotFitting(w, h);
    }
  }

  lemma StagedFocus(vs: seq<Written>, w: int, h: int)
    requires AllInOrder(vs) && w > 0 && h > 0 && Fitting(w) && Fitting(h)
    ensures FocusInPreview(vs, w, h)
  {
    hide FocusRoi, InPreview, InRange, Resolved, AllInOrder, MeteringPoint, Fitting;
    if Resolved(vs).Staged? {
      var rects := Resolved(vs).rois;
      forall i | 0 <= i < |rects| ensures InPreview(FocusRoi(rects[i].rect, w, h), w, h) {
        StagedInRange(vs, i);
        AreaInPreview(rects[i].rect, w, h);
      }
    }
  }

  /** One area that leaves a preview too large to fit. */
  lemma NotFitting(w: int, h: int)
    requires 0 < w <= INT_MAX && 0 < h <= INT_MAX && !(Fitting(w) && Fitting(h))
    ensures exists vs :: AllInOrder(vs) && !FocusInPreview(vs, w, h)
  {
    var a := if Fitting(w) then 1 else NegativeLength(w);
    var b := if Fitting(h) then 1 else NegativeLength(h);
    if !Fitting(w) { NegativeLengthIs(w); }
    if !Fitting(h) { NegativeLengthIs(h); }
    assert ScaledLength(a, w) < 0 || ScaledLength(b, h) < 0;
    hide NegativeLength, ScaledLength, ScaledStart, Resolved, AllInOrder, Fitting, FocusInPreview;
    WrittenResolves(a, b);
    NegativeSide(a, b, w, h);
    OneOutside([Written(-1000, -1000, a - 1000, b - 1000, 1)], Rect(-1000, -1000, a, b), w, h);
  }

  lemma NegativeSide(a: int, b: int, w: int, h: int)
    requires ScaledLength(a, w) < 0 || ScaledLength(b, h) < 0
    ensures !InPreview(FocusRoi(Rect(-1000, -1000, a, b), w, h), w, h)
  {
    hide ScaledLength, ScaledStart;
  }

  lemma OneOutside(vs: seq<Written>, r: Rect, w: int, h: int)
    requires Resolved(vs) == Staged([Area(r, 1)]) && !InPreview(FocusRoi(r, w, h), w, h)
    ensures !FocusInPreview(vs, w, h)
  {
    hide Resolved, InPreview, FocusRoi;
    assert Resolved(vs).rois[0].rect == r;
  }

  lemma WrittenResolves(a: int, b: int)
    requires 1 <= a <= 2000 && 1 <= b <= 2000
    ensures var vs := [Written(-1000, -1000, a - 1000, b - 1000, 1)];
            AllInOrder(vs) && Resolved(vs) == Staged([Area(Rect(-1000, -1000, a, b), 1)])
  {
    var v := Written(-1000, -1000, a - 1000, b - 1000, 1);
    assert AreaOf(v) == Area(Rect(-1000, -1000, a, b), 1);
    assert AreasOf([v]) == [AreaOf(v)];
    assert AcceptsArea(AreaOf(v));
  }
}
