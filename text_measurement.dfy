/**
 * The text-measurement service a button relies on: a label layout with an
 * unlimited number of lines, measured within a maximum size. Its internals
 * (font metrics, line breaking) are not part of this model; callers pass the
 * service in as a function value.
 */
module TextMeasurement {
  import opened Geometry
  import opened Texts

  /** A UIFont: the system font at a point size, or a font the caller supplies by name. */
  datatype Font = SystemFont(pointSize: real) | NamedFont(name: string, pointSize: real)

  /** LabelLayout(text:font:numberOfLines: 0).measurement(within:).size */
  type TextMeasurer = (Text, Font, Size) -> Size

  /** The service never reports a negative extent. */
  ghost predicate NonNegativeService(measure: TextMeasurer) {
    forall t, f, m :: NonNegative(measure(t, f, m))
  }

  /** Shrinking the maximum size never grows the measured size. */
  ghost predicate MonotoneService(measure: TextMeasurer) {
    forall t, f, a, b :: Fits(a, b) ==> Fits(measure(t, f, a), measure(t, f, b))
  }
}
