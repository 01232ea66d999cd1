/**
 * What ButtonLayout promises about the sizes it measures and the frames it
 * arranges, stated over every title, font, text-measurement service and bound.
 */
module ButtonLayoutProperties {
  import opened Wrappers
  import opened Geometry
  import opened Texts
  import opened TextMeasurement
  import opened ButtonLayouts

  /** The text actually handed to the measurement service for a title. */
  function MeasuredTitle(title: Text): (t: Text)
    ensures !t.IsEmpty()
    ensures title.IsEmpty() ==> t.content == " "
    ensures t.Unattributed? <==> title.Unattributed?
    ensures title.Attributed? ==> t.attributes == title.attributes
    ensures !title.IsEmpty() ==> t == title
  {
    if title.IsEmpty() then title.WithContent(" ") else title
  }

  /** Custom and system buttons: title width floored at 30, title height plus 12, each rounded up, then clamped. */
  lemma TitledButtonSizing(layout: ButtonLayout, measure: TextMeasurer, maxSize: Size)
    requires layout.buttonType.IsTitled()
    ensures var t := SizeOfTitle(layout, measure, maxSize);
            var s := Measurement(layout, measure, maxSize).size;
            && s.width == Min(Ceil(Max(t.width, 30.0)), maxSize.width)
            && s.height == Min(Ceil(t.height + 12.0), maxSize.height)
            && PaddedSize(layout.buttonType, t).width >= 30.0
  {
  }

  /**
   * A custom button and a system button are sized alike: a custom button
   * measures exactly as a system button given the custom button's font.
   */
  lemma CustomSizedAsSystem(layout: ButtonLayout, measure: TextMeasurer, maxSize: Size)
    requires layout.buttonType.Custom?
    ensures var asSystem := layout.(buttonType := System, font := Some(FontForMeasurement(layout)));
            Measurement(asSystem, measure, maxSize).size == Measurement(layout, measure, maxSize).size
  {
  }

  /** Icon buttons: a 22-wide glyph beside the rounded-up title width, and a fixed height of 22, then clamped. */
  lemma IconButtonSizing(layout: ButtonLayout, measure: TextMeasurer, maxSize: Size)
    requires layout.buttonType.IsIcon()
    ensures var t := SizeOfTitle(layout, measure, maxSize);
            var s := Measurement(layout, measure, maxSize).size;
            && s.width == Min(22.0 + Ceil(t.width), maxSize.width)
            && s.height == Min(22.0, maxSize.height)
  {
  }

  /** An icon button's size ignores any supplied font. */
  lemma IconSizeIgnoresSuppliedFont(layout: ButtonLayout, measure: TextMeasurer, maxSize: Size, font: Option<Font>)
    requires layout.buttonType.IsIcon()
    ensures Measurement(layout.(font := font), measure, maxSize).size == Measurement(layout, measure, maxSize).size
  {
  }

  /** An icon button's size depends on the title's width only, never on its height. */
  lemma IconSizeIgnoresTitleHeight(layout: ButtonLayout, m1: TextMeasurer, m2: TextMeasurer, maxSize: Size)
    requires layout.buttonType.IsIcon()
    requires SizeOfTitle(layout, m1, maxSize).width == SizeOfTitle(layout, m2, maxSize).width
    ensures Measurement(layout, m1, maxSize).size == Measurement(layout, m2, maxSize).size
  {
  }

  /** An unknown kind pads to nothing: it measures to (0, 0) under every non-negative bound. */
  lemma UnknownMeasuresZero(layout: ButtonLayout, measure: TextMeasurer, maxSize: Size)
    requires layout.buttonType.Unknown?
    ensures Measurement(layout, measure, maxSize).size == Size(Min(0.0, maxSize.width), Min(0.0, maxSize.height))
    ensures NonNegative(maxSize) ==> Measurement(layout, measure, maxSize).size == Zero
  {
  }

  /**
   * The fallback arm is the only way to measure to nothing: a layout measures to
   * (0, 0) under every non-negative bound exactly when its kind is unknown.
   */
  lemma ZeroEverywhereIffUnknown(layout: ButtonLayout, measure: TextMeasurer)
    ensures layout.buttonType.Unknown? <==>
            forall maxSize :: NonNegative(maxSize) ==> Measurement(layout, measure, maxSize).size == Zero
  {
    if layout.buttonType.Unknown? {
      forall maxSize | NonNegative(maxSize)
        ensures Measurement(layout, measure, maxSize).size == Zero
      {
        UnknownMeasuresZero(layout, measure, maxSize);
      }
    } else {
      var probe := Size(100.0, 100.0);
      var s := Measurement(layout, measure, probe).size;
      if layout.buttonType.IsTitled() {
        assert s.width >= 30.0;
      } else {
        assert s.height == 22.0;
      }
    }
  }

  /**
   * An empty title still gives a button height: a custom button with an empty
   * plain title and no font is the floor width 30 wide and as tall as a space
   * in the 18-point system font plus 12, so, when the service reports a
   * non-negative height for that space, it has height under any positive bound.
   */
  lemma EmptyTitleKeepsHeight(layout: ButtonLayout, measure: TextMeasurer, maxSize: Size)
    requires layout.buttonType.Custom? && layout.title == Unattributed("") && layout.font.None?
    ensures var space := measure(Unattributed(" "), SystemFont(18.0), maxSize);
            var s := Measurement(layout, measure, maxSize).size;
            && s.width == Min(30.0, maxSize.width)
            && s.height == Min(Ceil(space.height + 12.0), maxSize.height)
            && (space.height >= 0.0 ==> (s.height > 0.0 <==> maxSize.height > 0.0))
  {
    assert SizeOfTitle(layout, measure, maxSize).width == 0.0;
    CeilOfWhole(30.0);
  }

  /** The title is measured through the service on the substituted text, at the measurement font. */
  lemma TitleMeasuredAs(layout: ButtonLayout, measure: TextMeasurer, maxSize: Size)
    ensures var r := measure(MeasuredTitle(layout.title), FontForMeasurement(layout), maxSize);
            SizeOfTitle(layout, measure, maxSize) == if layout.title.IsEmpty() then Size(0.0, r.height) else r
  {
  }

  /** Under a non-negative bound and a service that never reports negative extents, no size is negative. */
  lemma MeasurementNonNegative(layout: ButtonLayout, measure: TextMeasurer, maxSize: Size)
    requires NonNegative(maxSize)
    requires NonNegativeService(measure)
    ensures NonNegative(Measurement(layout, measure, maxSize).size)
  {
    assert NonNegative(measure(MeasuredTitle(layout.title), FontForMeasurement(layout), maxSize));
  }

  /** With a monotone service, a smaller bound never gives a larger button. */
  lemma MeasurementMonotone(layout: ButtonLayout, measure: TextMeasurer, small: Size, large: Size)
    requires Fits(small, large)
    requires MonotoneService(measure)
    ensures Fits(Measurement(layout, measure, small).size, Measurement(layout, measure, large).size)
  {
    var text, font := MeasuredTitle(layout.title), FontForMeasurement(layout);
    assert Fits(measure(text, font, small), measure(text, font, large));
    var t1, t2 := SizeOfTitle(layout, measure, small), SizeOfTitle(layout, measure, large);
    assert Fits(t1, t2);
    var p1, p2 := PaddedSize(layout.buttonType, t1), PaddedSize(layout.buttonType, t2);
    CeilMonotone(t1.width, t2.width);
    CeilMonotone(Max(t1.width, 30.0), Max(t2.width, 30.0));
    CeilMonotone(t1.height + 12.0, t2.height + 12.0);
    assert Fits(p1, p2);
    DecreasedToSizeMonotone(p1, p2, small, large);
  }

  /** The arrangement reads the measurement's size only, not the bound or layout it records. */
  lemma ArrangementUsesMeasuredSizeOnly(
    layout: ButtonLayout, position: Positioner, rect: Rect, m1: LayoutMeasurement, m2: LayoutMeasurement)
    requires m1.size == m2.size
    ensures Arrangement(layout, position, rect, m1) == Arrangement(layout, position, rect, m2)
  {
  }
}
