/**
 * ButtonLayout: measures and arranges a native button without creating one,
 * reproducing the button's observed title font and padding.
 */
module ButtonLayouts {
  import opened Wrappers
  import opened Geometry
  import opened Texts
  import opened TextMeasurement

  /**
   * UIButtonType. `Unknown` stands for any value the layout predates (for
   * instance a kind a later platform adds); it is handled by the default arm.
   */
  datatype ButtonType =
    | Custom
    | System
    | DetailDisclosure
    | InfoLight
    | InfoDark
    | ContactAdd
    | Unknown(rawValue: int)
  {
    /** Kinds that show a title, padded around it. */
    predicate IsTitled() {
      Custom? || System?
    }

    /** Kinds that show a fixed 22x22 glyph beside their title. */
    predicate IsIcon() {
      ContactAdd? || InfoLight? || InfoDark? || DetailDisclosure?
    }
  }

  const DefaultAlignment: Alignment := TopLeading
  const DefaultFlexibility: Flexibility := Flexible

  /**
   * A button layout node. Alignment, flexibility and the reuse id are carried
   * for the container and the view applier; measurement reads none of them,
   * and arrangement reads only the alignment.
   */
  datatype ButtonLayout = ButtonLayout(
    buttonType: ButtonType,
    title: Text,
    font: Option<Font> := None,
    alignment: Alignment := DefaultAlignment,
    flexibility: Flexibility := DefaultFlexibility,
    viewReuseId: Option<string> := None)

  /** The size a layout asked for, the bound it was computed under, and its children's measurements. */
  datatype LayoutMeasurement =
    LayoutMeasurement(layout: ButtonLayout, size: Size, maxSize: Size, sublayouts: seq<LayoutMeasurement>)

  /** The frame a layout is given, and its children's arrangements. */
  datatype LayoutArrangement =
    LayoutArrangement(layout: ButtonLayout, frame: Rect, sublayouts: seq<LayoutArrangement>)

  /** Point size of the system font used when no supplied font applies. */
  function DefaultPointSize(t: ButtonType): (p: real)
    ensures t.Custom? ==> p == 18.0
    ensures (t.System? || t.IsIcon()) ==> p == 15.0
    ensures t.Unknown? ==> p == 0.0
  {
    match t
    case Custom => 18.0
    case System => 15.0
    case ContactAdd => 15.0
    case InfoLight => 15.0
    case InfoDark => 15.0
    case DetailDisclosure => 15.0
    case Unknown(_) => 0.0
  }

  /**
   * The font the title is measured with. A supplied font is honoured only by
   * custom and system buttons; every other case is the system font at the
   * kind's default point size.
   */
  function FontForMeasurement(layout: ButtonLayout): (f: Font)
    ensures layout.buttonType.IsTitled() && layout.font.Some? ==> f == layout.font.value
    ensures !(layout.buttonType.IsTitled() && layout.font.Some?) ==>
              f == SystemFont(DefaultPointSize(layout.buttonType))
  {
    match layout.buttonType
    case Custom => layout.font.GetOr(SystemFont(18.0))
    case System => layout.font.GetOr(SystemFont(15.0))
    case ContactAdd => SystemFont(15.0)
    case InfoLight => SystemFont(15.0)
    case InfoDark => SystemFont(15.0)
    case DetailDisclosure => SystemFont(15.0)
    case Unknown(_) => SystemFont(0.0)
  }

  /**
   * The title's size. An empty title is measured as a single space of the same
   * variant (so the button keeps a line's height) and reports width 0; any other
   * title is measured as it is.
   */
  function SizeOfTitle(layout: ButtonLayout, measure: TextMeasurer, maxSize: Size): (r: Size)
    ensures layout.title.IsEmpty() ==>
              r == Size(0.0, measure(layout.title.WithContent(" "), FontForMeasurement(layout), maxSize).height)
    ensures !layout.title.IsEmpty() ==> r == measure(layout.title, FontForMeasurement(layout), maxSize)
  {
    // sizeOf(text:maxSize:) is the service applied at the measurement font.
    var font := FontForMeasurement(layout);
    match layout.title
    case Attributed(s, attrs) =>
      if s == "" then Size(0.0, measure(Attributed(" ", attrs), font, maxSize).height)
      else measure(layout.title, font, maxSize)
    case Unattributed(s) =>
      if s == "" then Size(0.0, measure(Unattributed(" "), font, maxSize).height)
      else measure(layout.title, font, maxSize)
  }

  /**
   * The button's size before clamping: a title padded to at least 30 wide and
   * 12 taller, or a 22x22 glyph beside the title, or nothing for an unknown kind;
   * each padded extent is rounded up to a whole number.
   */
  function PaddedSize(t: ButtonType, titleSize: Size): (r: Size)
    ensures t.IsTitled() ==>
              && Whole(r.width) && Whole(r.height)
              && 30.0 <= r.width && titleSize.width <= r.width
              && r.width < Max(titleSize.width, 30.0) + 1.0
              && titleSize.height + 12.0 <= r.height < titleSize.height + 13.0
    ensures t.IsIcon() ==>
              && r.height == 22.0
              && Whole(r.width) && titleSize.width + 22.0 <= r.width < titleSize.width + 23.0
    ensures t.Unknown? ==> r == Zero
  {
    WholeSum(22.0, Ceil(titleSize.width));
    match t
    case Custom => Size(Ceil(Max(titleSize.width, 30.0)), Ceil(titleSize.height + 12.0))
    case System => Size(Ceil(Max(titleSize.width, 30.0)), Ceil(titleSize.height + 12.0))
    case ContactAdd => Size(22.0 + Ceil(titleSize.width), 22.0)
    case InfoLight => Size(22.0 + Ceil(titleSize.width), 22.0)
    case InfoDark => Size(22.0 + Ceil(titleSize.width), 22.0)
    case DetailDisclosure => Size(22.0 + Ceil(titleSize.width), 22.0)
    case Unknown(_) => Zero
  }

  /**
   * measurement(within:): the padded title size clamped to `maxSize`, recorded
   * with the bound it was computed under; a button has no children.
   */
  function Measurement(layout: ButtonLayout, measure: TextMeasurer, maxSize: Size): (m: LayoutMeasurement)
    ensures m.layout == layout && m.maxSize == maxSize && m.sublayouts == []
    ensures Fits(m.size, maxSize)
  {
    var titleSize := SizeOfTitle(layout, measure, maxSize);
    var size := DecreasedToSize(PaddedSize(layout.buttonType, titleSize), maxSize);
    LayoutMeasurement(layout, size, maxSize, [])
  }

  /**
   * arrangement(within:measurement:): the measured size placed in `rect` by the
   * layout's alignment. It takes no text-measurement service, so it cannot
   * measure again.
   */
  function Arrangement(layout: ButtonLayout, position: Positioner, rect: Rect, measurement: LayoutMeasurement)
    : (a: LayoutArrangement)
    ensures a.layout == layout && a.sublayouts == []
    ensures a.frame == position(layout.alignment, measurement.size, rect)
  {
    LayoutArrangement(layout, position(layout.alignment, measurement.size, rect), [])
  }
}
