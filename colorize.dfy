/**
 * Coloured cells (internal/table-render/colorize.go): the colour a value's type is shown in, the
 * decision whether to colour at all, and the rows of a key/value table with coloured values.
 *
 * The environment (NO_COLOR, CLICOLOR_FORCE and whether standard output is a terminal) is an
 * input, and so is lipgloss's rendering of a text in a foreground colour: `Paint`.
 */
module Colorize {
  import opened Wrappers
  import Strings
  import Maps
  import opened Values
  import TableRender

  /** lipgloss.NewStyle().Foreground(color).Render(text), as a function of the colour and the text. */
  type Paint = (string, string) -> string

  datatype ColorScheme = ColorScheme(
    stringColor: string,
    numberColor: string,
    boolTrueColor: string,
    boolFalseColor: string,
    nullColor: string,
    mapColor: string,
    arrayColor: string)

  /** DefaultColorScheme (internal/table-render/colorize.go:24-34): ANSI 256-colour codes. */
  function DefaultColorScheme(): (scheme: ColorScheme) {
    ColorScheme("149", "170", "76", "203", "245", "105", "39")
  }

  /** What shouldUseColor reads: NO_COLOR, CLICOLOR_FORCE and whether stdout is a terminal. */
  datatype Environment = Environment(noColor: string, cliColorForce: string, isTerminal: bool)

  /**
   * shouldUseColor (internal/table-render/colorize.go:37-53): a non-empty NO_COLOR turns colour
   * off, else a non-empty CLICOLOR_FORCE turns it on, else the terminal decides.
   */
  function ShouldUseColor(env: Environment): (useColor: bool)
    ensures env.noColor != "" ==> !useColor
    ensures env.noColor == "" && env.cliColorForce != "" ==> useColor
    ensures env.noColor == "" && env.cliColorForce == "" ==> (useColor <==> env.isTerminal)
  {
    if env.noColor != "" then false
    else if env.cliColorForce != "" then true
    else env.isTerminal
  }

  /** The kinds of value the colours tell apart; every other Go value is `Uncoloured`. */
  datatype Kind = NullKind | TrueKind | FalseKind | StringKind | NumberKind | MapKind | ArrayKind | Uncoloured

  function KindOf(v: Value): Kind {
    match v
    case Null => NullKind
    case Bool(b) => if b then TrueKind else FalseKind
    case Str(_) => StringKind
    case Int(_) => NumberKind
    case Float(_) => NumberKind
    case Map(_) => MapKind
    case List(_) => ArrayKind
    case Other(_, _) => Uncoloured
  }

  /** The scheme's colour for a kind of value; none for the values shown without colour. */
  function ColorOf(scheme: ColorScheme, kind: Kind): Option<string> {
    match kind
    case NullKind => Some(scheme.nullColor)
    case TrueKind => Some(scheme.boolTrueColor)
    case FalseKind => Some(scheme.boolFalseColor)
    case StringKind => Some(scheme.stringColor)
    case NumberKind => Some(scheme.numberColor)
    case MapKind => Some(scheme.mapColor)
    case ArrayKind => Some(scheme.arrayColor)
    case Uncoloured => None
  }

  /** A cell's text: the table's text of the value, painted in its kind's colour when colour is on. */
  ghost function ColoredText(useColor: bool, scheme: ColorScheme, paint: Paint, v: Value): string {
    match ColorOf(scheme, KindOf(v))
    case Some(color) => if useColor then paint(color, TableRender.Text(v)) else TableRender.Text(v)
    case None => TableRender.Text(v)
  }

  /**
   * FormatValueWithColor (internal/table-render/colorize.go:56-113): without colour, the same
   * text as the table's formatValue; with colour, that text rendered in the colour of the
   * value's type, and any other value as `%v` prints it.
   */
  method FormatValueWithColor(env: Environment, scheme: ColorScheme, paint: Paint, v: Value) returns (s: string)
    ensures s == ColoredText(ShouldUseColor(env), scheme, paint, v)
  {
    var useColor := ShouldUseColor(env);
    if !useColor {
      match v {
        case Null => s := "null";
        case Bool(b) => s := Strings.BoolText(b);
        case Str(text) => s := text;
        case Int(i) => s := Strings.IntText(i);
        case Float(shown) => s := shown;
        case Map(m) => s := TableRender.FormatMap(m);
        case List(items) => s := TableRender.FormatSlice(items);
        case Other(shown, _) => s := shown;
      }
      return;
    }
    match v
    case Null =>
      s := paint(scheme.nullColor, "null");
    case Bool(b) =>
      if b {
        s := paint(scheme.boolTrueColor, Strings.BoolText(b));
      } else {
        s := paint(scheme.boolFalseColor, Strings.BoolText(b));
      }
    case Str(text) =>
      s := paint(scheme.stringColor, text);
    case Int(i) =>
      s := paint(scheme.numberColor, Strings.IntText(i));
    case Float(shown) =>
      s := paint(scheme.numberColor, shown);
    case Map(m) =>
      var formattedMap := TableRender.FormatMap(m);
      s := paint(scheme.mapColor, formattedMap);
    case List(items) =>
      var formattedSlice := TableRender.FormatSlice(items);
      s := paint(scheme.arrayColor, formattedSlice);
    case Other(shown, _) =>
      s := shown;
  }

  /** The coloured rows for a key order: `[key, coloured text of its value]`. */
  ghost function ColoredRows(useColor: bool, scheme: ColorScheme, paint: Paint, data: map<string, Value>, keys: seq<string>): (rows: seq<seq<string>>)
    requires forall k :: k in keys ==> k in data
    ensures |rows| == |keys|
  {
    seq(|keys|, j requires 0 <= j < |keys| => [keys[j], ColoredText(useColor, scheme, paint, data[keys[j]])])
  }

  /** The rows FormatKeyValueDataWithColor gives: one per key, keys ascending. */
  ghost function ColoredKeyValueRows(useColor: bool, scheme: ColorScheme, paint: Paint, data: map<string, Value>): (rows: seq<seq<string>>)
    ensures |rows| == |data|
  {
    ColoredRows(useColor, scheme, paint, data, Strings.SortedList(data.Keys))
  }

  /** FormatKeyValueDataWithColor (internal/table-render/colorize.go:116-135) */
  method FormatKeyValueDataWithColor(env: Environment, scheme: ColorScheme, paint: Paint, data: map<string, Value>) returns (rows: seq<seq<string>>)
    ensures rows == ColoredKeyValueRows(ShouldUseColor(env), scheme, paint, data)
  {
    var keys := Maps.SortedKeys(data);
    rows := FormatColoredRows(env, scheme, paint, data, keys);
  }

  /** FormatKeyValueDataWithColor's loop: one row per key, in the order of `keys`. */
  method FormatColoredRows(env: Environment, scheme: ColorScheme, paint: Paint, data: map<string, Value>, keys: seq<string>)
    returns (rows: seq<seq<string>>)
    requires forall k :: k in keys ==> k in data
    ensures rows == ColoredRows(ShouldUseColor(env), scheme, paint, data, keys)
  {
    rows := [];
    var i := 0;
    while i < |keys|
      invariant i <= |keys|
      invariant |rows| == i
      invariant forall j :: 0 <= j < i ==> rows[j] == [keys[j], ColoredText(ShouldUseColor(env), scheme, paint, data[keys[j]])]
    {
      var valueStr := FormatValueWithColor(env, scheme, paint, data[keys[i]]);
      rows := rows + [[keys[i], valueStr]];
      i := i + 1;
    }
  }

  // ---- What the colours promise ----

  /** A non-empty NO_COLOR wins over CLICOLOR_FORCE and over a terminal. */
  lemma NoColorWins(noColor: string, cliColorForce: string, isTerminal: bool)
    requires noColor != ""
    ensures !ShouldUseColor(Environment(noColor, cliColorForce, isTerminal))
  {
  }

  /** Without colour, a cell is exactly the plain table's cell. */
  lemma WithoutColorIsTableText(scheme: ColorScheme, paint: Paint, v: Value)
    ensures ColoredText(false, scheme, paint, v) == TableRender.Text(v)
  {
  }

  /** Without colour, the coloured key/value table is the plain one, row for row. */
  lemma WithoutColorIsTableRows(scheme: ColorScheme, paint: Paint, data: map<string, Value>)
    ensures ColoredKeyValueRows(false, scheme, paint, data) == TableRender.KeyValueRows(data)
  {
    var keys := Strings.SortedList(data.Keys);
    var colored, plain := ColoredKeyValueRows(false, scheme, paint, data), TableRender.KeyValueRows(data);
    forall j | 0 <= j < |keys|
      ensures colored[j] == plain[j]
    {
      WithoutColorIsTableText(scheme, paint, data[keys[j]]);
    }
  }

  /**
   * Colour changes only how a cell looks: if stripping the escape codes undoes the painting and
   * leaves uncoloured text alone, a stripped coloured cell is the plain table's cell.
   */
  lemma StrippedCellIsTableText(useColor: bool, scheme: ColorScheme, paint: Paint, strip: string -> string, v: Value)
    requires forall color, text :: strip(paint(color, text)) == text
    requires strip(TableRender.Text(v)) == TableRender.Text(v)
    ensures strip(ColoredText(useColor, scheme, paint, v)) == TableRender.Text(v)
  {
  }

  /** The key column does not depend on colour: the same keys in the same order. */
  lemma KeysUnchangedByColor(useColor: bool, scheme: ColorScheme, paint: Paint, data: map<string, Value>)
    ensures var colored, plain := ColoredKeyValueRows(useColor, scheme, paint, data), TableRender.KeyValueRows(data);
      forall i :: 0 <= i < |colored| ==> |colored[i]| == 2 && colored[i][0] == plain[i][0]
  {
  }

  /**
   * The default scheme tells the kinds apart: two values share a colour exactly when they are of
   * the same kind, and only the uncoloured values have none.
   */
  lemma {:induction false} DefaultSchemeTellsKindsApart(v: Value, w: Value)
    ensures ColorOf(DefaultColorScheme(), KindOf(v)) == ColorOf(DefaultColorScheme(), KindOf(w)) <==> KindOf(v) == KindOf(w)
    ensures ColorOf(DefaultColorScheme(), KindOf(v)).None? <==> v.Other?
  {
  }

  /** The default scheme shows null in the table's own text colour. */
  lemma DefaultNullIsTableTextColor()
    ensures ColorOf(DefaultColorScheme(), NullKind) == Some(TableRender.TextColor)
  {
  }
}
