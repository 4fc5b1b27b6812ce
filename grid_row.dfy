/**
 * The grid row (src/grid/Row.tsx): the breakpoint classification of the
 * window width, and the inline style a gutter specification produces.
 *
 * CSS lengths are kept as numbers (`x` for the text `${x}px`), and the
 * breakpoint thresholds read from CSS custom properties are parameters.
 */
module GridRow {
  import opened Wrappers

  /** The six size classes, smallest first. */
  datatype Size = Xs | Sm | Md | Lg | Xl | Xxl

  function Rank(s: Size): nat
  {
    match s
    case Xs => 0
    case Sm => 1
    case Md => 2
    case Lg => 3
    case Xl => 4
    case Xxl => 5
  }

  /**
   * The values `getCssVarsValue('--td-screen-*')` returned, as numbers
   * (`None` for `undefined`, `null`, `''` or `NaN`).
   */
  datatype RawThresholds = RawThresholds(sm: Option<real>, md: Option<real>, lg: Option<real>,
                                         xl: Option<real>, xxl: Option<real>)

  /** The threshold used when the custom property is falsy. */
  function DefaultThreshold(s: Size): real
    requires s != Xs
  {
    match s
    case Sm => 768.0
    case Md => 992.0
    case Lg => 1200.0
    case Xl => 1400.0
    case Xxl => 1880.0
  }

  /** The raw value read for one size class. */
  function Raw(t: RawThresholds, s: Size): Option<real>
    requires s != Xs
  {
    match s
    case Sm => t.sm
    case Md => t.md
    case Lg => t.lg
    case Xl => t.xl
    case Xxl => t.xxl
  }

  /** `getCssVarsValue(...) || default`: a falsy value (absent or `0`) gives the default. */
  function Threshold(t: RawThresholds, s: Size): (r: real)
    requires s != Xs
    ensures r != 0.0
    ensures r == DefaultThreshold(s) || Raw(t, s) == Some(r)
    ensures Raw(t, s).Some? && Raw(t, s).value != 0.0 ==> r == Raw(t, s).value
  {
    var raw := Raw(t, s);
    if raw.Some? && raw.value != 0.0 then raw.value else DefaultThreshold(s)
  }

  /**
   * `calcSize(width)`: the first test of `xxl`, `xl`, `lg`, `md`, `sm` that
   * the width reaches, else `xs`. Whatever the thresholds, that is the
   * largest class whose threshold is at most the width.
   */
  function CalcSize(width: real, t: RawThresholds): (size: Size)
    ensures size == Xs <==> forall s :: s != Xs ==> width < Threshold(t, s)
    ensures size != Xs ==> Threshold(t, size) <= width
    ensures forall s :: s != Xs && Rank(s) > Rank(size) ==> width < Threshold(t, s)
  {
    if width >= Threshold(t, Xxl) then Xxl
    else if width >= Threshold(t, Xl) then Xl
    else if width >= Threshold(t, Lg) then Lg
    else if width >= Threshold(t, Md) then Md
    else if width >= Threshold(t, Sm) then Sm
    else Xs
  }

  /** The next larger size class. */
  function Next(s: Size): Size
    requires s != Xxl
  {
    match s
    case Xs => Sm
    case Sm => Md
    case Md => Lg
    case Lg => Xl
    case Xl => Xxl
  }

  /** `sm < md < lg < xl < xxl`. */
  predicate Ascending(t: RawThresholds)
  {
    Threshold(t, Sm) < Threshold(t, Md) < Threshold(t, Lg) < Threshold(t, Xl) < Threshold(t, Xxl)
  }

  /** The breakpoints in force when no custom property is set ascend. */
  lemma DefaultsAscend()
    ensures Ascending(RawThresholds(None, None, None, None, None))
    ensures forall s :: s != Xs ==> Threshold(RawThresholds(None, None, None, None, None), s) == DefaultThreshold(s)
  {
  }

  /**
   * With ascending thresholds the result is the class whose band
   * `[threshold, next threshold)` contains the width.
   */
  lemma CalcSizeBand(width: real, t: RawThresholds)
    requires Ascending(t)
    ensures var size := CalcSize(width, t);
            (size == Xs ==> width < Threshold(t, Sm)) &&
            (size != Xs ==> Threshold(t, size) <= width) &&
            (size != Xxl ==> width < Threshold(t, Next(size)))
  {
  }

  /** A wider window never gives a smaller size class, whatever the thresholds. */
  lemma CalcSizeMonotone(w1: real, w2: real, t: RawThresholds)
    requires w1 <= w2
    ensures Rank(CalcSize(w1, t)) <= Rank(CalcSize(w2, t))
  {
  }

  /**
   * `canUseDocument ? calcSize(window.innerWidth) : 'md'`: without a document
   * the row starts at `md`; with one, at the largest class whose threshold the
   * window width reaches.
   */
  function InitialSize(innerWidth: Option<real>, t: RawThresholds): (size: Size)
    ensures innerWidth.None? ==> size == Md
    ensures innerWidth.Some? ==>
              (size == Xs <==> forall s :: s != Xs ==> innerWidth.value < Threshold(t, s))
    ensures innerWidth.Some? ==>
              (size != Xs ==> Threshold(t, size) <= innerWidth.value) &&
              forall s :: s != Xs && Rank(s) > Rank(size) ==> innerWidth.value < Threshold(t, s)
  {
    if innerWidth.Some? then CalcSize(innerWidth.value, t) else Md
  }

  /**
   * The resize listener `updateSize` as written: it computes the size of the
   * new width but stores the size the row already had.
   */
  function UpdateSizeAsWritten(size: Size, width: real, t: RawThresholds): (next: Size)
    ensures next == size
  {
    var currentSize := CalcSize(width, t);
    if currentSize != size then size else size
  }

  /** With the default breakpoints a row started at `md` stays `md` after widening the window to 2000. */
  lemma StaleSizeAfterResize()
    ensures var t := RawThresholds(None, None, None, None, None);
            CalcSize(2000.0, t) == Xxl && UpdateSizeAsWritten(Md, 2000.0, t) == Md
  {
  }

  /** `updateSize` as evidently intended: a changed size class is stored. */
  function UpdateSize(size: Size, width: real, t: RawThresholds): (next: Size)
    ensures next == size <==> CalcSize(width, t) == size
    ensures (next == Xs <==> forall s :: s != Xs ==> width < Threshold(t, s))
    ensures next != Xs ==> Threshold(t, next) <= width
    ensures forall s :: s != Xs && Rank(s) > Rank(next) ==> width < Threshold(t, s)
  {
    var currentSize := CalcSize(width, t);
    if currentSize != size then currentSize else size
  }

  /** After any resize the stored size is that of the new width, however the row started. */
  lemma UpdateSizeTracksWidth(w0: Option<real>, w1: real, w2: real, t: RawThresholds)
    ensures UpdateSize(InitialSize(w0, t), w1, t) == CalcSize(w1, t)
    ensures UpdateSize(UpdateSize(InitialSize(w0, t), w1, t), w2, t) == CalcSize(w2, t)
    ensures w1 <= w2 ==>
              Rank(UpdateSize(InitialSize(w0, t), w1, t)) <= Rank(UpdateSize(UpdateSize(InitialSize(w0, t), w1, t), w2, t))
  {
  }

  // ---------------------------------------------------------------------------
  // calcRowStyle
  // ---------------------------------------------------------------------------

  /** A per-size gutter table, `{ [size]: number }`. */
  type SizeTable = map<Size, real>

  /** An element of an array gutter: a number, a per-size table, or anything else. */
  datatype GutterElem = ElemNum(n: real) | ElemTable(table: SizeTable) | ElemOther

  /** An entry of a per-size gutter object: a number or an array of numbers. */
  datatype TableEntry = EntryNum(n: real) | EntryArray(xs: seq<real>)

  /** The `gutter` prop. `Other` is anything else, `null` included. */
  datatype Gutter =
    | GutterNum(n: real)
    | GutterArray(elems: seq<GutterElem>)
    | GutterTable(entries: map<Size, TableEntry>)
    | GutterOther

  /** A `rowGap` value: `${x}px`, or `undefinedpx` when the array has no second element. */
  datatype Gap = GapPx(x: real) | GapUndefined

  /** The style object, with one optional field per property `calcRowStyle` writes. */
  datatype RowStyle = RowStyle(marginLeft: Option<real>, marginRight: Option<real>, rowGap: Option<Gap>)

  const EmptyStyle := RowStyle(None, None, None)

  /** `Object.assign(rowStyle, { marginLeft: g / -2, marginRight: g / -2 })`. */
  function WithMargins(s: RowStyle, g: real): (r: RowStyle)
    ensures r.rowGap == s.rowGap
    ensures r.marginLeft == r.marginRight && r.marginLeft.Some? && r.marginLeft.value * -2.0 == g
  {
    s.(marginLeft := Some(g / -2.0), marginRight := Some(g / -2.0))
  }

  /** `Object.assign(rowStyle, { rowGap })`. */
  function WithGap(s: RowStyle, gap: Gap): (r: RowStyle)
    ensures r.marginLeft == s.marginLeft && r.marginRight == s.marginRight && r.rowGap == Some(gap)
  {
    s.(rowGap := Some(gap))
  }

  /** The array branch: four guarded assignments, later ones overriding earlier ones. */
  function ArrayStyle(elems: seq<GutterElem>, size: Size): (r: RowStyle)
    requires |elems| > 0
    ensures r.marginLeft == r.marginRight
    ensures r.marginLeft.None? ==> !elems[0].ElemNum?
    ensures r.rowGap.Some? ==> |elems| > 1 && !elems[1].ElemOther?
  {
    var s0 := EmptyStyle;
    var s1 := if elems[0].ElemNum? then WithMargins(s0, elems[0].n) else s0;
    var s2 := if |elems| > 1 && elems[1].ElemNum? then WithGap(s1, GapPx(elems[1].n)) else s1;
    var s3 := if elems[0].ElemTable? && size in elems[0].table then WithMargins(s2, elems[0].table[size]) else s2;
    if |elems| > 1 && elems[1].ElemTable? && size in elems[1].table then WithGap(s3, GapPx(elems[1].table[size])) else s3
  }

  /** The per-size object branch, entered only for a truthy entry. */
  function TableStyle(entry: TableEntry): (r: RowStyle)
    ensures r.marginLeft.Some? && r.marginLeft == r.marginRight
    ensures entry.EntryNum? ==> r.rowGap.None?
    ensures entry.EntryArray? ==> (r.rowGap.Some? <==> entry.xs != [])
  {
    match entry
    case EntryArray(xs) =>
      if |xs| > 0 then
        WithGap(WithMargins(EmptyStyle, xs[0]), if |xs| > 1 then GapPx(xs[1]) else GapUndefined)
      else
        // `[] / -2` converts the empty array to 0
        WithMargins(EmptyStyle, 0.0)
    case EntryNum(n) => WithMargins(EmptyStyle, n)
  }

  /** JavaScript truthiness of a table entry: only the number 0 is falsy. */
  predicate Truthy(entry: TableEntry)
  {
    !(entry.EntryNum? && entry.n == 0.0)
  }

  /** `calcRowStyle(gutter, currentSize)`. */
  function CalcRowStyle(gutter: Gutter, size: Size): (r: RowStyle)
    ensures r.marginLeft == r.marginRight
  {
    match gutter
    case GutterNum(n) => WithMargins(EmptyStyle, n)
    case GutterArray(elems) =>
      if |elems| > 0 then ArrayStyle(elems, size) else EmptyStyle
    case GutterTable(entries) =>
      if size in entries && Truthy(entries[size]) then TableStyle(entries[size]) else EmptyStyle
    case GutterOther => EmptyStyle
  }

  /** A numeric gutter: both margins are minus half the gutter, and there is no row gap. */
  lemma NumberGutter(n: real, size: Size)
    ensures var r := CalcRowStyle(GutterNum(n), size);
            r.rowGap.None? && r.marginLeft.Some? && r.marginLeft.value * -2.0 == n
  {
  }

  /** The default `gutter = 0` gives zero margins and no row gap. */
  lemma DefaultGutter(size: Size)
    ensures CalcRowStyle(GutterNum(0.0), size) == RowStyle(Some(0.0), Some(0.0), None)
  {
  }

  /**
   * A non-empty array gutter: the margins come from the first element, its
   * per-size entry overriding a number; the row gap likewise from the second.
   */
  lemma ArrayGutter(elems: seq<GutterElem>, size: Size)
    requires |elems| > 0
    ensures var r := CalcRowStyle(GutterArray(elems), size);
            var e0 := elems[0];
            && (r.marginLeft.Some? <==> e0.ElemNum? || (e0.ElemTable? && size in e0.table))
            && (r.marginLeft.Some? ==>
                  r.marginLeft.value * -2.0 == (if e0.ElemNum? then e0.n else e0.table[size]))
            && (r.rowGap.Some? <==>
                  |elems| > 1 && (elems[1].ElemNum? || (elems[1].ElemTable? && size in elems[1].table)))
            && (r.rowGap.Some? ==>
                  r.rowGap.value == GapPx(if elems[1].ElemNum? then elems[1].n else elems[1].table[size]))
  {
  }

  /** An empty array, an unknown gutter, or a missing or falsy per-size entry gives no style at all. */
  lemma EmptyGutters(size: Size, entries: map<Size, TableEntry>)
    requires size !in entries || !Truthy(entries[size])
    ensures CalcRowStyle(GutterArray([]), size) == EmptyStyle
    ensures CalcRowStyle(GutterOther, size) == EmptyStyle
    ensures CalcRowStyle(GutterTable(entries), size) == EmptyStyle
  {
  }

  /**
   * A truthy per-size entry: an array gives margins from `[0]` and the row
   * gap from `[1]`; a number gives the margins only.
   */
  lemma TableGutter(entries: map<Size, TableEntry>, size: Size)
    requires size in entries && Truthy(entries[size])
    ensures var r := CalcRowStyle(GutterTable(entries), size);
            match entries[size]
            case EntryNum(n) =>
              r.rowGap.None? && r.marginLeft.Some? && r.marginLeft.value * -2.0 == n
            case EntryArray(xs) =>
              r.marginLeft.Some? &&
              (|xs| > 0 ==> r.marginLeft.value * -2.0 == xs[0] &&
                            r.rowGap == Some(if |xs| > 1 then GapPx(xs[1]) else GapUndefined)) &&
              (|xs| == 0 ==> r.marginLeft.value == 0.0 && r.rowGap.None?)
  {
  }
}
