/** The enumerations of the Yoga layout engine and their `*ToString` functions, which
    name each member of an enumeration with a fixed lower-case label and answer
    "unknown" for any other value of the enumeration's type. In the versioned copy these
    functions carry the prefix `ABI33_0_0` (`ABI33_0_0YGAlignToString`, ...). */
module YogaEnums {

  /** A value of a C enumeration type: one of its declared members, or any other integer
      the type can hold. `Undeclared(code)` stands only for codes that no declared member
      has (which none of the `switch` cases names); a member's own value, such as the 0
      of `YGAlignAuto`, is always written `Declared(member)`. */
  datatype EnumValue<E> = Declared(member: E) | Undeclared(code: int)

  /** The label every `*ToString` function falls back to. */
  const Unknown: string := "unknown"

  /** The labels are non-empty and spelled with lower-case letters and hyphens only. */
  predicate IsLabel(s: string) {
    |s| > 0 && forall i :: 0 <= i < |s| ==> ('a' <= s[i] <= 'z' || s[i] == '-')
  }

  datatype Align = Auto | FlexStart | Center | FlexEnd | Stretch | Baseline | SpaceBetween | SpaceAround

  /** `YGAlignToString`. */
  function AlignToString(value: EnumValue<Align>): (s: string)
    ensures s == Unknown <==> value.Undeclared?
    ensures IsLabel(s)
  {
    match value
    case Undeclared(_) => Unknown
    case Declared(m) =>
      match m
      case Auto => "auto"
      case FlexStart => "flex-start"
      case Center => "center"
      case FlexEnd => "flex-end"
      case Stretch => "stretch"
      case Baseline => "baseline"
      case SpaceBetween => "space-between"
      case SpaceAround => "space-around"
  }

  /** Distinct members of `Align` get distinct labels. */
  lemma AlignLabelsDistinct(a: Align, b: Align)
    ensures AlignToString(Declared(a)) == AlignToString(Declared(b)) ==> a == b
  {
  }

  datatype Dimension = Width | Height

  /** `YGDimensionToString`. */
  function DimensionToString(value: EnumValue<Dimension>): (s: string)
    ensures s == Unknown <==> value.Undeclared?
    ensures IsLabel(s)
  {
    match value
    case Undeclared(_) => Unknown
    case Declared(m) =>
      match m
      case Width => "width"
      case Height => "height"
  }

  /** Distinct members of `Dimension` get distinct labels. */
  lemma DimensionLabelsDistinct(a: Dimension, b: Dimension)
    ensures DimensionToString(Declared(a)) == DimensionToString(Declared(b)) ==> a == b
  {
  }

  datatype Direction = Inherit | LTR | RTL

  /** `YGDirectionToString`. */
  function DirectionToString(value: EnumValue<Direction>): (s: string)
    ensures s == Unknown <==> value.Undeclared?
    ensures IsLabel(s)
  {
    match value
    case Undeclared(_) => Unknown
    case Declared(m) =>
      match m
      case Inherit => "inherit"
      case LTR => "ltr"
      case RTL => "rtl"
  }

  /** Distinct members of `Direction` get distinct labels. */
  lemma DirectionLabelsDistinct(a: Direction, b: Direction)
    ensures DirectionToString(Declared(a)) == DirectionToString(Declared(b)) ==> a == b
  {
  }

  datatype Display = Flex | None

  /** `YGDisplayToString`. */
  function DisplayToString(value: EnumValue<Display>): (s: string)
    ensures s == Unknown <==> value.Undeclared?
    ensures IsLabel(s)
  {
    match value
    case Undeclared(_) => Unknown
    case Declared(m) =>
      match m
      case Flex => "flex"
      case None => "none"
  }

  /** Distinct members of `Display` get distinct labels. */
  lemma DisplayLabelsDistinct(a: Display, b: Display)
    ensures DisplayToString(Declared(a)) == DisplayToString(Declared(b)) ==> a == b
  {
  }

  datatype Edge = Left | Top | Right | Bottom | Start | End | Horizontal | Vertical | All

  /** `YGEdgeToString`. */
  function EdgeToString(value: EnumValue<Edge>): (s: string)
    ensures s == Unknown <==> value.Undeclared?
    ensures IsLabel(s)
  {
    match value
    case Undeclared(_) => Unknown
    case Declared(m) =>
      match m
      case Left => "left"
      case Top => "top"
      case Right => "right"
      case Bottom => "bottom"
      case Start => "start"
      case End => "end"
      case Horizontal => "horizontal"
      case Vertical => "vertical"
      case All => "all"
  }

  /** Distinct members of `Edge` get distinct labels. */
  lemma EdgeLabelsDistinct(a: Edge, b: Edge)
    ensures EdgeToString(Declared(a)) == EdgeToString(Declared(b)) ==> a == b
  {
  }

  datatype ExperimentalFeature = WebFlexBasis

  /** `YGExperimentalFeatureToString`. */
  function ExperimentalFeatureToString(value: EnumValue<ExperimentalFeature>): (s: string)
    ensures s == Unknown <==> value.Undeclared?
    ensures IsLabel(s)
  {
    match value
    case Undeclared(_) => Unknown
    case Declared(m) =>
      match m
      case WebFlexBasis => "web-flex-basis"
  }

  datatype FlexDirection = Column | ColumnReverse | Row | RowReverse

  /** `YGFlexDirectionToString`. */
  function FlexDirectionToString(value: EnumValue<FlexDirection>): (s: string)
    ensures s == Unknown <==> value.Undeclared?
    ensures IsLabel(s)
  {
    match value
    case Undeclared(_) => Unknown
    case Declared(m) =>
      match m
      case Column => "column"
      case ColumnReverse => "column-reverse"
      case Row => "row"
      case RowReverse => "row-reverse"
  }

  /** Distinct members of `FlexDirection` get distinct labels. */
  lemma FlexDirectionLabelsDistinct(a: FlexDirection, b: FlexDirection)
    ensures FlexDirectionToString(Declared(a)) == FlexDirectionToString(Declared(b)) ==> a == b
  {
  }

  datatype Justify = FlexStart | Center | FlexEnd | SpaceBetween | SpaceAround | SpaceEvenly

  /** `YGJustifyToString`. */
  function JustifyToString(value: EnumValue<Justify>): (s: string)
    ensures s == Unknown <==> value.Undeclared?
    ensures IsLabel(s)
  {
    match value
    case Undeclared(_) => Unknown
    case Declared(m) =>
      match m
      case FlexStart => "flex-start"
      case Center => "center"
      case FlexEnd => "flex-end"
      case SpaceBetween => "space-between"
      case SpaceAround => "space-around"
      case SpaceEvenly => "space-evenly"
  }

  /** Distinct members of `Justify` get distinct labels. */
  lemma JustifyLabelsDistinct(a: Justify, b: Justify)
    ensures JustifyToString(Declared(a)) == JustifyToString(Declared(b)) ==> a == b
  {
  }

  datatype LogLevel = Error | Warn | Info | Debug | Verbose | Fatal

  /** `YGLogLevelToString`. */
  function LogLevelToString(value: EnumValue<LogLevel>): (s: string)
    ensures s == Unknown <==> value.Undeclared?
    ensures IsLabel(s)
  {
    match value
    case Undeclared(_) => Unknown
    case Declared(m) =>
      match m
      case Error => "error"
      case Warn => "warn"
      case Info => "info"
      case Debug => "debug"
      case Verbose => "verbose"
      case Fatal => "fatal"
  }

  /** Distinct members of `LogLevel` get distinct labels. */
  lemma LogLevelLabelsDistinct(a: LogLevel, b: LogLevel)
    ensures LogLevelToString(Declared(a)) == LogLevelToString(Declared(b)) ==> a == b
  {
  }

  datatype MeasureMode = Undefined | Exactly | AtMost

  /** `YGMeasureModeToString`. */
  function MeasureModeToString(value: EnumValue<MeasureMode>): (s: string)
    ensures s == Unknown <==> value.Undeclared?
    ensures IsLabel(s)
  {
    match value
    case Undeclared(_) => Unknown
    case Declared(m) =>
      match m
      case Undefined => "undefined"
      case Exactly => "exactly"
      case AtMost => "at-most"
  }

  /** Distinct members of `MeasureMode` get distinct labels. */
  lemma MeasureModeLabelsDistinct(a: MeasureMode, b: MeasureMode)
    ensures MeasureModeToString(Declared(a)) == MeasureModeToString(Declared(b)) ==> a == b
  {
  }

  datatype NodeType = Default | Text

  /** `YGNodeTypeToString`. */
  function NodeTypeToString(value: EnumValue<NodeType>): (s: string)
    ensures s == Unknown <==> value.Undeclared?
    ensures IsLabel(s)
  {
    match value
    case Undeclared(_) => Unknown
    case Declared(m) =>
      match m
      case Default => "default"
      case Text => "text"
  }

  /** Distinct members of `NodeType` get distinct labels. */
  lemma NodeTypeLabelsDistinct(a: NodeType, b: NodeType)
    ensures NodeTypeToString(Declared(a)) == NodeTypeToString(Declared(b)) ==> a == b
  {
  }

  datatype Overflow = Visible | Hidden | Scroll

  /** `YGOverflowToString`. */
  function OverflowToString(value: EnumValue<Overflow>): (s: string)
    ensures s == Unknown <==> value.Undeclared?
    ensures IsLabel(s)
  {
    match value
    case Undeclared(_) => Unknown
    case Declared(m) =>
      match m
      case Visible => "visible"
      case Hidden => "hidden"
      case Scroll => "scroll"
  }

  /** Distinct members of `Overflow` get distinct labels. */
  lemma OverflowLabelsDistinct(a: Overflow, b: Overflow)
    ensures OverflowToString(Declared(a)) == OverflowToString(Declared(b)) ==> a == b
  {
  }

  datatype PositionType = Relative | Absolute

  /** `YGPositionTypeToString`. */
  function PositionTypeToString(value: EnumValue<PositionType>): (s: string)
    ensures s == Unknown <==> value.Undeclared?
    ensures IsLabel(s)
  {
    match value
    case Undeclared(_) => Unknown
    case Declared(m) =>
      match m
      case Relative => "relative"
      case Absolute => "absolute"
  }

  /** Distinct members of `PositionType` get distinct labels. */
  lemma PositionTypeLabelsDistinct(a: PositionType, b: PositionType)
    ensures PositionTypeToString(Declared(a)) == PositionTypeToString(Declared(b)) ==> a == b
  {
  }

  /** Any value other than these three, such as two options combined, is `Undeclared`
      here and is labelled "unknown". */
  datatype PrintOptions = Layout | Style | Children

  /** `YGPrintOptionsToString`. */
  function PrintOptionsToString(value: EnumValue<PrintOptions>): (s: string)
    ensures s == Unknown <==> value.Undeclared?
    ensures IsLabel(s)
  {
    match value
    case Undeclared(_) => Unknown
    case Declared(m) =>
      match m
      case Layout => "layout"
      case Style => "style"
      case Children => "children"
  }

  /** Distinct members of `PrintOptions` get distinct labels. */
  lemma PrintOptionsLabelsDistinct(a: PrintOptions, b: PrintOptions)
    ensures PrintOptionsToString(Declared(a)) == PrintOptionsToString(Declared(b)) ==> a == b
  {
  }

  datatype Unit = Undefined | Point | Percent | Auto

  /** `YGUnitToString`. */
  function UnitToString(value: EnumValue<Unit>): (s: string)
    ensures s == Unknown <==> value.Undeclared?
    ensures IsLabel(s)
  {
    match value
    case Undeclared(_) => Unknown
    case Declared(m) =>
      match m
      case Undefined => "undefined"
      case Point => "point"
      case Percent => "percent"
      case Auto => "auto"
  }

  /** Distinct members of `Unit` get distinct labels. */
  lemma UnitLabelsDistinct(a: Unit, b: Unit)
    ensures UnitToString(Declared(a)) == UnitToString(Declared(b)) ==> a == b
  {
  }

  datatype Wrap = NoWrap | Wrap | WrapReverse

  /** `YGWrapToString`. */
  function WrapToString(value: EnumValue<Wrap>): (s: string)
    ensures s == Unknown <==> value.Undeclared?
    ensures IsLabel(s)
  {
    match value
    case Undeclared(_) => Unknown
    case Declared(m) =>
      match m
      case NoWrap => "no-wrap"
      case Wrap => "wrap"
      case WrapReverse => "wrap-reverse"
  }

  /** Distinct members of `Wrap` get distinct labels. */
  lemma WrapLabelsDistinct(a: Wrap, b: Wrap)
    ensures WrapToString(Declared(a)) == WrapToString(Declared(b)) ==> a == b
  {
  }

  /** The one member of `ExperimentalFeature` is labelled "web-flex-basis". */
  lemma ExperimentalFeatureLabel(f: ExperimentalFeature)
    ensures ExperimentalFeatureToString(Declared(f)) == "web-flex-basis"
  {
  }

  /** Labels with more than one word are joined by hyphens. */
  lemma HyphenatedLabels()
    ensures FlexDirectionToString(Declared(FlexDirection.ColumnReverse)) == "column-reverse"
    ensures JustifyToString(Declared(Justify.SpaceEvenly)) == "space-evenly"
    ensures MeasureModeToString(Declared(MeasureMode.AtMost)) == "at-most"
  {
  }

  /** Labels are unique only within one enumeration: the same label names members of
      different enumerations. */
  lemma LabelsSharedAcrossEnums()
    ensures AlignToString(Declared(Align.FlexStart)) == JustifyToString(Declared(Justify.FlexStart))
    ensures AlignToString(Declared(Align.Auto)) == UnitToString(Declared(Unit.Auto))
    ensures MeasureModeToString(Declared(MeasureMode.Undefined)) == UnitToString(Declared(Unit.Undefined))
  {
  }
}
