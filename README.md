# ButtonLayout measurement and arrangement, in Dafny

This project models the measure/arrange logic of LayoutKit's `ButtonLayout`. LayoutKit computes how large a native `UIButton` would be, and where it goes, without creating the button. The model follows the source step by step:

- `FontForMeasurement` picks the font for measuring the title. Custom buttons use the supplied font, else the 18-point system font. System buttons use the supplied font, else the 15-point system font. Icon buttons always use the 15-point system font. An unknown kind uses the 0-point system font.
- `SizeOfTitle` measures the title with that font. An empty title, plain or attributed, is measured as a single space of the same variant and reports width 0.
- `PaddedSize` applies the button's observed padding. Custom and system buttons get `ceil(max(w, 30))` by `ceil(h + 12)`. Icon buttons get `22 + ceil(w)` by `22`. An unknown kind gets `0` by `0`.
- `Measurement` clamps the padded size to `maxSize` with `DecreasedToSize`. It records `maxSize` and has no sublayouts.
- `Arrangement` places the measured size in a rectangle with the layout's alignment. It has no sublayouts.

Modules:

- `Geometry`: sizes, points, rectangles, `Ceil`, `DecreasedToSize`, alignment and flexibility.
- `Texts`: the plain and attributed `Text` variants.
- `TextMeasurement`: fonts, plus the text-measurement service as a function type.
- `ButtonLayouts`: the layout node and its operations.
- `ButtonLayoutProperties`: the lemmas about the layout.
- `Wrappers`: `Option`.

The `ButtonLayout` datatype constructor has the same default arguments as the Swift initializer (`ButtonLayout.swift:20-31`). Font defaults to none. Alignment defaults to `DefaultAlignment` (top-leading) and flexibility to `DefaultFlexibility` (flexible), which are the private constants at `ButtonLayout.swift:128-129`. The reuse id defaults to none.

Three parts of the real system are outside this source file, so they enter the model as parameters:

- The text-measurement service is `LabelLayout(text:font:numberOfLines: 0).measurement(within:).size`. Here it is a function value of type `TextMeasurer`.
- `Alignment.position(size:in:)` is a function value of type `Positioner`.
- `UIFont.systemFont(ofSize:)` is the constructor `SystemFont(pointSize)`.

`CGSize.decreasedToSize(_:)` comes from LayoutKit's `CGSize` extension, which is not part of this model. `DecreasedToSize` defines it as the component-wise minimum of the size and the bound.

Lemmas assume only what they say about these parameters. Where a lemma needs a well-behaved service, it says so in its `requires`: non-negative results, or monotone in the bound. Measurement and arrangement are functions, so the same inputs always give the same outputs. `Arrangement` takes no text-measurement service, so it cannot measure again.

Two consequences of the code are easy to miss:

- A custom button with an empty title is not 0 wide. Only its title width is forced to 0. The button is then padded to `ceil(max(0, 30)) = 30` and clamped (`EmptyTitleKeepsHeight`).
- An unknown kind measures to (0, 0) only under a non-negative bound. Under a negative bound, clamping gives `min(0, bound)` in each dimension (`UnknownMeasuresZero`).

## Model

| member | source | states |
|---|---|---|
| `Geometry.Ceil` | LayoutKit/Layouts/ButtonLayout.swift:42-48 | the result is the least whole number not below its argument |
| `Geometry.CeilMonotone` | LayoutKit/Layouts/ButtonLayout.swift:42-48 | rounding up preserves order, which is what makes the padded size monotone in the title size |
| `Geometry.DecreasedToSize` | LayoutKit/Layouts/ButtonLayout.swift:57 | the clamped size fits the bound, each dimension is either the original or the bound, it never grows, and a size that already fits is unchanged |
| `Geometry.DecreasedToSizeMonotone` | LayoutKit/Layouts/ButtonLayout.swift:57 | a smaller size under a smaller bound clamps to a smaller size |
| `Texts.Text.WithContent` | LayoutKit/Layouts/ButtonLayout.swift:66-68 | replacing a title's string keeps its variant, and an attributed title keeps its attributes |
| `ButtonLayouts.DefaultPointSize` | LayoutKit/Layouts/ButtonLayout.swift:89-102 | the system-font point size is 18 for custom, 15 for system and icon kinds, and 0 for an unknown kind |
| `ButtonLayouts.FontForMeasurement` | LayoutKit/Layouts/ButtonLayout.swift:89-102 | the supplied font is used exactly when the button is custom or system and a font was supplied; otherwise the font is the system font at the kind's default size |
| `ButtonLayouts.SizeOfTitle` | LayoutKit/Layouts/ButtonLayout.swift:62-83 | `sizeOf(text:maxSize:)` is inlined here as the service applied at the measurement font; an empty title, plain or attributed, has width 0 and the height the service gives a single space of the same variant; any other title has exactly the service's size for the unmodified text, at the measurement font |
| `ButtonLayouts.PaddedSize` | LayoutKit/Layouts/ButtonLayout.swift:37-55 | custom and system buttons are whole-numbered, at least 30 wide and at least the title wide (less than one more than the larger of the two), and 12 to 13 taller than the title; icon buttons are 22 tall and 22 to 23 wider than the title; an unknown kind is (0, 0) |
| `ButtonLayouts.Measurement` | LayoutKit/Layouts/ButtonLayout.swift:34-59 | the measured size never exceeds `maxSize` in either dimension; the measurement records its layout and `maxSize` and has no sublayouts |
| `ButtonLayouts.Arrangement` | LayoutKit/Layouts/ButtonLayout.swift:104-107 | the frame is the alignment's placement of the measurement's size in the rectangle, computed from the given measurement and with no sublayouts |
| `ButtonLayoutProperties.MeasuredTitle` | LayoutKit/Layouts/ButtonLayout.swift:62-78 | the text sent to the service is never empty and has the title's variant and attributes; it is a single space when the title is empty and the title itself otherwise |
| `ButtonLayoutProperties.TitledButtonSizing` | LayoutKit/Layouts/ButtonLayout.swift:40-57 | custom and system buttons measure `min(ceil(max(w, 30)), maxW)` by `min(ceil(h + 12), maxH)`, and the unclamped width is at least 30 |
| `ButtonLayoutProperties.CustomSizedAsSystem` | LayoutKit/Layouts/ButtonLayout.swift:41-46 | a custom button measures exactly like a system button given the custom button's measurement font |
| `ButtonLayoutProperties.IconButtonSizing` | LayoutKit/Layouts/ButtonLayout.swift:47-49 | icon buttons measure `min(22 + ceil(w), maxW)` by `min(22, maxH)` |
| `ButtonLayoutProperties.IconSizeIgnoresSuppliedFont` | LayoutKit/Layouts/ButtonLayout.swift:95-97 | an icon button's size is the same whatever font is supplied |
| `ButtonLayoutProperties.IconSizeIgnoresTitleHeight` | LayoutKit/Layouts/ButtonLayout.swift:47-49 | two services that agree on the title width give an icon button the same size, whatever title heights they report |
| `ButtonLayoutProperties.UnknownMeasuresZero` | LayoutKit/Layouts/ButtonLayout.swift:50-57 | an unknown kind measures to `(min(0, maxW), min(0, maxH))`, which is (0, 0) under every non-negative bound |
| `ButtonLayoutProperties.ZeroEverywhereIffUnknown` | LayoutKit/Layouts/ButtonLayout.swift:40-57 | a layout measures to (0, 0) under every non-negative bound if and only if its kind is unknown |
| `ButtonLayoutProperties.EmptyTitleKeepsHeight` | LayoutKit/Layouts/ButtonLayout.swift:61-74 | a custom button with an empty plain title and no font is `min(30, maxW)` wide and `min(ceil(space height at system 18 + 12), maxH)` tall, so, when the service gives that space a non-negative height, it has positive height exactly when the bound does |
| `ButtonLayoutProperties.TitleMeasuredAs` | LayoutKit/Layouts/ButtonLayout.swift:62-83 | the title size is the service's result on the substituted text at the measurement font, with the width forced to 0 for an empty title |
| `ButtonLayoutProperties.MeasurementNonNegative` | LayoutKit/Layouts/ButtonLayout.swift:34-59 | under a non-negative bound and a service with non-negative results, the measured size is non-negative |
| `ButtonLayoutProperties.MeasurementMonotone` | LayoutKit/Layouts/ButtonLayout.swift:34-83 | with a service that is monotone in its bound, a smaller bound never gives a larger button |
| `ButtonLayoutProperties.ArrangementUsesMeasuredSizeOnly` | LayoutKit/Layouts/ButtonLayout.swift:104-107 | two measurements with the same size give the same arrangement, whatever bound or layout they record |

## Left out

- `makeView()` and `configure(view:)` (`ButtonLayout.swift:109-125`): they create and mutate a `UIButton`, which is a platform side effect. The `config` closure is used only there, so the layout does not carry it.
- Text measurement internals (`LabelLayout`, font metrics): these are not part of this model. The service is a parameter, and nothing is assumed about its values except where a lemma's `requires` says so.
- `Alignment.position(size:in:)`: its definition is not part of this model, so it is the `Positioner` parameter. Its vertical anchors (top, center, bottom, fill) and horizontal anchors (leading, center, trailing, fill) are carried as inert values.
- `Flexibility` and `viewReuseId`: carried as inert fields, because only container layouts and the view applier read them.
- `UIFont`: a supplied font is a name and a point size. No font property is modelled.
- `CGFloat`: sizes are exact reals, and `ceil` is exact. Rounding, NaN and infinity are not modelled.
- `Texts.Text.WithContent`: setting the string of a mutable copy of an empty attributed string is modelled as keeping the attribute value unchanged. Foundation's rule for which attributes newly inserted characters inherit is not modelled.
- `LayoutKitTests/TextExtension.swift`: a test fixture that builds font and text combinations through `UIFont(name:size:)`. It contains no layout logic.
