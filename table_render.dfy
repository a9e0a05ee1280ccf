/**
 * The table renderer's arithmetic and text (internal/table-render/table.go): the column widths
 * RenderTable settles on, and the text that stands for a decoded YAML value in a table cell.
 * Drawing the table (lipgloss and bubbles) is not modelled: RenderTable is modelled up to the
 * layout it hands to the table library.
 */
module TableRender {
  import Strings
  import Maps
  import opened Values

  // ---- Widths ----

  /** The width used when maxTableWidth is not configured, and the default colours. */
  const DefaultWidth := 80
  const HeaderColor := "99"
  const TextColor := "245"

  datatype TableStyle = TableStyle(totalWidth: int, firstColWidth: int, headerColor: string, textColor: string, title: string)

  /** viper's maxTableWidth when it is positive, else 80. */
  function MaxWidth(configured: int): (w: int)
    ensures w > 0
    ensures configured > 0 ==> w == configured
    ensures configured <= 0 ==> w == DefaultWidth
  {
    if configured <= 0 then DefaultWidth else configured
  }

  /** 40% of a positive width, rounded down (Go's integer division truncates; the width is positive). */
  function FirstColumnWidth(total: int): (w: int)
    requires total > 0
    ensures 0 <= w < total && 5 * w <= 2 * total < 5 * w + 5
  {
    total * 2 / 5
  }

  /** DefaultTableStyle (internal/table-render/table.go:22-39) */
  function DefaultTableStyle(configured: int): (style: TableStyle)
    ensures style.totalWidth == MaxWidth(configured) && style.firstColWidth == FirstColumnWidth(style.totalWidth)
    ensures style.headerColor == HeaderColor && style.textColor == TextColor && style.title == ""
  {
    var maxWidth := MaxWidth(configured);
    TableStyle(maxWidth, FirstColumnWidth(maxWidth), HeaderColor, TextColor, "")
  }

  /** Borders and padding take three columns; the second column gets the rest. */
  function SecondColumnWidth(style: TableStyle): int {
    style.totalWidth - style.firstColWidth - 3
  }

  /** The default style leaves the second column a positive width exactly when the table is at least 6 wide. */
  lemma DefaultSecondColumn(configured: int)
    ensures SecondColumnWidth(DefaultTableStyle(configured)) > 0 <==> MaxWidth(configured) >= 6
  {
    var total := MaxWidth(configured);
    var first := FirstColumnWidth(total);
    if total >= 6 {
      assert 5 * (total - first) >= 3 * total;
    } else {
      assert total == 1 || total == 2 || total == 3 || total == 4 || total == 5;
    }
  }

  datatype Column = Column(title: string, width: int)

  /** What RenderTable gives the table library: the columns, the rows, the width and the colours. */
  datatype Layout = Layout(columns: seq<Column>, rows: seq<seq<string>>, width: int, headerColor: string, textColor: string, title: string)

  /**
   * RenderTable (internal/table-render/table.go:42-92): settle the style's widths and colours,
   * then lay out two columns and the first two cells of each row. Go indexes `headers[1]` and
   * `row[1]`, so callers give at least two of each.
   */
  method RenderTable(headers: seq<string>, rows: seq<seq<string>>, style: TableStyle, configured: int) returns (layout: Layout)
    requires |headers| >= 2
    requires forall i :: 0 <= i < |rows| ==> |rows[i]| >= 2
    ensures |layout.columns| == 2
    ensures var maxWidth := MaxWidth(configured);
      && layout.width <= maxWidth
      && (style.totalWidth > maxWidth ==> layout.width == maxWidth && layout.columns[0].width == FirstColumnWidth(maxWidth))
      && (style.totalWidth == 0 ==> layout.width == maxWidth)
      && (style.totalWidth != 0 && style.totalWidth <= maxWidth ==> layout.width == style.totalWidth)
      && (style.totalWidth <= maxWidth ==>
            layout.columns[0].width == if style.firstColWidth == 0 then FirstColumnWidth(maxWidth) else style.firstColWidth)
    ensures layout.columns[0].title == headers[0] && layout.columns[1].title == headers[1]
    ensures layout.columns[0].width + layout.columns[1].width + 3 == layout.width
    ensures layout.headerColor == (if style.headerColor == "" then HeaderColor else style.headerColor)
    ensures layout.textColor == (if style.textColor == "" then TextColor else style.textColor)
    ensures layout.title == style.title
    ensures |layout.rows| == |rows| && forall i :: 0 <= i < |rows| ==> layout.rows[i] == rows[i][..2]
  {
    var maxWidth := MaxWidth(configured);
    var s := style;
    if s.totalWidth > maxWidth {
      s := s.(totalWidth := maxWidth, firstColWidth := maxWidth * 2 / 5);
    }
    if s.totalWidth == 0 {
      s := s.(totalWidth := maxWidth);
    }
    if s.firstColWidth == 0 {
      s := s.(firstColWidth := maxWidth * 2 / 5);
    }
    if s.headerColor == "" {
      s := s.(headerColor := HeaderColor);
    }
    if s.textColor == "" {
      s := s.(textColor := TextColor);
    }
    var secondColWidth := s.totalWidth - s.firstColWidth - 3;
    var columns := [Column(headers[0], s.firstColWidth), Column(headers[1], secondColWidth)];
    var tableRows: seq<seq<string>> := [];
    var i := 0;
    while i < |rows|
      invariant i <= |rows|
      invariant |tableRows| == i && forall j :: 0 <= j < i ==> tableRows[j] == rows[j][..2]
    {
      tableRows := tableRows + [[rows[i][0], rows[i][1]]];
      i := i + 1;
    }
    layout := Layout(columns, tableRows, s.totalWidth, s.headerColor, s.textColor, s.title);
  }

  // ---- The text of a value ----

  /**
   * formatValue (internal/table-render/table.go:169-186): the text of a value in a cell. A map
   * lists its entries by ascending key, a list its items in order.
   */
  ghost function Text(v: Value): string
    decreases v, 2
  {
    match v
    case Null => "null"
    case Bool(b) => Strings.BoolText(b)
    case Str(s) => s
    case Int(i) => Strings.IntText(i)
    case Float(shown) => shown
    case Map(m) => MapText(m)
    case List(items) => ListText(items)
    case Other(shown, _) => shown
  }

  /** formatMap (internal/table-render/table.go:189-211) */
  ghost function MapText(m: map<string, Value>): string
    decreases Map(m), 1
  {
    if |m| == 0 then "{}"
    else
      var keys := Strings.SortedList(m.Keys);
      "{ " + Strings.Join(EntryTexts(m, keys, |keys|), ", ") + " }"
  }

  /** `k: v` for the first `n` of `keys`. */
  ghost function EntryTexts(m: map<string, Value>, keys: seq<string>, n: nat): (r: seq<string>)
    requires forall k :: k in keys ==> k in m
    requires n <= |keys|
    ensures |r| == n
    decreases Map(m), 0, n
  {
    if n == 0 then []
    else EntryTexts(m, keys, n - 1) + [keys[n - 1] + ": " + Text(m[keys[n - 1]])]
  }

  /** formatSlice (internal/table-render/table.go:214-229) */
  ghost function ListText(items: seq<Value>): string
    decreases items, 1
  {
    if |items| == 0 then "[]"
    else "[ " + Strings.Join(ItemTexts(items, |items|), ", ") + " ]"
  }

  /** The texts of the first `n` items. */
  ghost function ItemTexts(items: seq<Value>, n: nat): (r: seq<string>)
    requires n <= |items|
    ensures |r| == n
    decreases items, 0, n
  {
    if n == 0 then [] else ItemTexts(items, n - 1) + [Text(items[n - 1])]
  }

  /** formatValue (internal/table-render/table.go:169-186) */
  method FormatValue(v: Value) returns (s: string)
    ensures s == Text(v)
    decreases v, 2
  {
    match v
    case Null => s := "null";
    case Bool(b) => s := Strings.BoolText(b);
    case Str(text) => s := text;
    case Int(i) => s := Strings.IntText(i);
    case Float(shown) => s := shown;
    case Map(m) => s := FormatMap(m);
    case List(items) => s := FormatSlice(items);
    case Other(shown, _) => s := shown;
  }

  /** formatMap (internal/table-render/table.go:189-211): collect and sort the keys, then append `k: v` entries. */
  method FormatMap(m: map<string, Value>) returns (result: string)
    ensures result == MapText(m)
    decreases Map(m), 1
  {
    if |m| == 0 {
      return "{}";
    }
    var keys := Maps.SortedKeys(m);
    result := "{ ";
    var i := 0;
    while i < |keys|
      invariant i <= |keys|
      invariant result == "{ " + Strings.Join(EntryTexts(m, keys, i), ", ")
    {
      result := AppendEntry(m, keys, i, result);
      i := i + 1;
    }
    result := result + " }";
  }

  /** One turn of formatMap's loop: a separator after the first entry, then `k: v`. */
  method AppendEntry(m: map<string, Value>, keys: seq<string>, i: nat, result: string) returns (result': string)
    requires forall k :: k in keys ==> k in m
    requires i < |keys| && result == "{ " + Strings.Join(EntryTexts(m, keys, i), ", ")
    ensures result' == "{ " + Strings.Join(EntryTexts(m, keys, i + 1), ", ")
    decreases Map(m), 0, i
  {
    var entry := keys[i] + ": " + Text(m[keys[i]]);
    Strings.JoinAppend(EntryTexts(m, keys, i), entry, ", ");
    assert EntryTexts(m, keys, i + 1) == EntryTexts(m, keys, i) + [entry];
    result' := result;
    if i > 0 {
      result' := result' + ", ";
    }
    var text := FormatValue(m[keys[i]]);
    result' := result' + (keys[i] + ": " + text);
  }

  /** formatSlice (internal/table-render/table.go:214-229): append the items' texts in order. */
  method FormatSlice(items: seq<Value>) returns (result: string)
    ensures result == ListText(items)
    decreases items, 1
  {
    if |items| == 0 {
      return "[]";
    }
    result := "[ ";
    var i := 0;
    while i < |items|
      invariant i <= |items|
      invariant result == "[ " + Strings.Join(ItemTexts(items, i), ", ")
    {
      Strings.JoinAppend(ItemTexts(items, i), Text(items[i]), ", ");
      if i > 0 {
        result := result + ", ";
      }
      var text := FormatValue(items[i]);
      result := result + text;
      i := i + 1;
    }
    result := result + " ]";
  }

  /** The rows of a key/value table for the given key order: `[key, text of its value]`. */
  ghost function Rows(data: map<string, Value>, keys: seq<string>): (rows: seq<seq<string>>)
    requires forall k :: k in keys ==> k in data
    ensures |rows| == |keys|
  {
    seq(|keys|, j requires 0 <= j < |keys| => [keys[j], Text(data[keys[j]])])
  }

  /** The rows FormatKeyValueData gives: one per key, keys ascending. */
  ghost function KeyValueRows(data: map<string, Value>): (rows: seq<seq<string>>)
    ensures |rows| == |data|
  {
    Rows(data, Strings.SortedList(data.Keys))
  }

  /**
   * FormatKeyValueData (internal/table-render/table.go:147-166): collect and sort the keys, then
   * format one row per key.
   */
  method FormatKeyValueData(data: map<string, Value>) returns (rows: seq<seq<string>>)
    ensures rows == KeyValueRows(data)
  {
    var keys := Maps.SortedKeys(data);
    rows := FormatRows(data, keys);
  }

  /** FormatKeyValueData's loop: one row per key, in the order of `keys`. */
  method FormatRows(data: map<string, Value>, keys: seq<string>) returns (rows: seq<seq<string>>)
    requires forall k :: k in keys ==> k in data
    ensures rows == Rows(data, keys)
  {
    rows := [];
    var i := 0;
    while i < |keys|
      invariant i <= |keys|
      invariant |rows| == i && forall j :: 0 <= j < i ==> rows[j] == [keys[j], Text(data[keys[j]])]
    {
      var valueStr := FormatValue(data[keys[i]]);
      rows := rows + [[keys[i], valueStr]];
      i := i + 1;
    }
  }

  /** Each row is a key of the data with the text of its value. */
  lemma KeyValueRowsAreEntries(data: map<string, Value>)
    ensures var rows := KeyValueRows(data);
      forall i :: 0 <= i < |rows| ==> |rows[i]| == 2 && rows[i][0] in data && rows[i][1] == Text(data[rows[i][0]])
  {
    var keys := Strings.SortedList(data.Keys);
    var rows := KeyValueRows(data);
    assert rows == Rows(data, keys);
    forall i | 0 <= i < |rows|
      ensures rows[i] == [keys[i], Text(data[keys[i]])]
    {
    }
  }

  /** The rows' keys are strictly ascending. */
  lemma KeyValueRowsAscending(data: map<string, Value>)
    ensures var rows := KeyValueRows(data);
      forall i, j :: 0 <= i < j < |rows| ==> Strings.Less(rows[i][0], rows[j][0])
  {
    var keys := Strings.SortedList(data.Keys);
    var rows := KeyValueRows(data);
    forall i, j | 0 <= i < j < |rows| ensures Strings.Less(rows[i][0], rows[j][0]) {
      assert rows[i][0] == keys[i] && rows[j][0] == keys[j];
    }
  }

  /** Every key of the data has a row. */
  lemma KeyValueRowsListEveryKey(data: map<string, Value>)
    ensures var rows := KeyValueRows(data);
      forall key :: key in data ==> exists i :: 0 <= i < |rows| && rows[i][0] == key
  {
    var keys := Strings.SortedList(data.Keys);
    var rows := KeyValueRows(data);
    forall key | key in data
      ensures exists i :: 0 <= i < |rows| && rows[i][0] == key
    {
      var i :| 0 <= i < |keys| && keys[i] == key;
      assert rows[i][0] == key;
    }
  }
}
