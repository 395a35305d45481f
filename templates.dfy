/**
 * Simple JSON templates: the decoded template records, the conversion of
 * each definition to a cell value and back, loading a template into a new
 * table and saving a table as a template. The JSON text itself, and the
 * files it is read from and written to, are not part of this model.
 */
module Templates {
  import opened Wrappers
  import opened Text
  import opened Numbers
  import opened Errors
  import opened Coordinates
  import opened Values
  import opened Functions
  import opened Tables
  import opened Evaluation

  /** `DataValueDefinition`: a cell's text and its type tag, "text" when the document leaves it out. */
  datatype DataValueDefinition = DataValueDefinition(value: string, typeName: string)

  /** `ColumnDefinition` and `RowDefinition`, which have the same two fields. */
  datatype HeaderDefinition = HeaderDefinition(coordinate: string, title: string)

  datatype CellDefinition = CellDefinition(coordinate: string, dataValue: DataValueDefinition)

  datatype SimpleJsonTemplate = SimpleJsonTemplate(
    name: string,
    description: string,
    columns: seq<HeaderDefinition>,
    rows: seq<HeaderDefinition>,
    cells: seq<CellDefinition>)

  /**
   * How `ToString()` writes a decimal, and a value that has no case of its
   * own (a boolean or a date); both depend on the current culture.
   */
  datatype Renderer = Renderer(showDecimal: real -> string, showOther: DataValue -> string)

  /** The three result types a template can name. */
  predicate IsTemplateFormat(format: TypeRef) {
    format == IntType || format == DecimalType || format == StringType
  }

  /** `GetFormatType`: the result type a tag names, decimal for a missing or unknown tag. */
  function GetFormatType(typeName: Option<string>): (format: TypeRef)
    ensures IsTemplateFormat(format)
    ensures format == IntType <==> typeName.Some? && (Lower(typeName.value) == "int" || Lower(typeName.value) == "integer")
    ensures format == StringType <==> typeName.Some? && Lower(typeName.value) == "text"
  {
    if typeName.None? then DecimalType
    else
      var lowered := Lower(typeName.value);
      if lowered == "int" || lowered == "integer" then IntType
      else if lowered == "decimal" || lowered == "percentage" then DecimalType
      else if lowered == "text" then StringType
      else DecimalType
  }

  /** `GetFormatName`: the tag written for a result type, "decimal" for any other type. */
  function GetFormatName(format: TypeRef): (name: string)
    ensures name == "int" || name == "decimal" || name == "text"
    ensures name == "int" <==> format == IntType
    ensures name == "text" <==> format == StringType
    ensures !IsTemplateFormat(format) ==> name == "decimal"
  {
    if format == IntType then "int"
    else if format == DecimalType then "decimal"
    else if format == StringType then "text"
    else "decimal"
  }

  /** The tags written for the three template formats read back as the same formats. */
  lemma FormatRoundTrip(format: TypeRef)
    ensures GetFormatType(Some(GetFormatName(format))) == format <==> IsTemplateFormat(format)
  {
    LowerUnchanged("int");
    LowerUnchanged("decimal");
    LowerUnchanged("text");
  }

  /** The type tag of a definition, compared without regard to case. */
  function Tag(definition: DataValueDefinition): string {
    Lower(definition.typeName)
  }

  /**
   * The literal branch of `ConvertToDataValue`: the lower-cased tag picks
   * how the text is read, and text that does not read, or a tag that names
   * no number, gives a text value.
   */
  function ReadLiteral(value: string, tag: string): (v: DataValue)
    ensures v.Text? || v.Integer? || v.Decimal? || v.Percentage?
    ensures v.Integer? ==> (tag == "int" || tag == "integer") && ParseInt32(value) == Some(v.integer)
    ensures v.Decimal? ==> tag == "decimal" && ParseDecimal(value) == Some(v.decimal)
    ensures v.Percentage? ==> tag == "percentage" && ParseDecimal(value) == Some(v.percent)
    ensures v.Text? ==>
      v.text == value &&
      ((tag == "int" || tag == "integer") ==> ParseInt32(value).None?) &&
      ((tag == "decimal" || tag == "percentage") ==> ParseDecimal(value).None?)
  {
    if tag == "decimal" then
      match ParseDecimal(value)
      case Some(d) => Decimal(d)
      case None => DataValue.Text(value)
    else if tag == "int" || tag == "integer" then
      match ParseInt32(value)
      case Some(i) => Integer(i)
      case None => DataValue.Text(value)
    else if tag == "percentage" then
      match ParseDecimal(value)
      case Some(p) => Percentage(p)
      case None => DataValue.Text(value)
    else DataValue.Text(value)
  }

  /**
   * `ConvertToDataValue`: a value written with a leading '=' is a function
   * whatever its tag (which then names its result type), and construction
   * may refuse it; any other value is a literal read by its tag.
   */
  function ConvertToDataValue(definition: DataValueDefinition): (r: Result<DataValue>)
    ensures StartsWith(definition.value, "=") ==>
      (r.Ok? <==> Validate(definition.value[1..]) == None) &&
      (r.Ok? ==> r.value == Func(Function(definition.value[1..], GetFormatType(Some(definition.typeName))))) &&
      (r.Err? ==> Some(r.error) == Validate(definition.value[1..]))
    ensures !StartsWith(definition.value, "=") ==> r == Ok(ReadLiteral(definition.value, Tag(definition)))
  {
    var value := definition.value;
    if StartsWith(value, "=") then
      match Functions.New(value[1..], GetFormatType(Some(definition.typeName)))
      case Ok(f) => Ok(Func(f))
      case Err(e) => Err(e)
    else
      Ok(ReadLiteral(value, Tag(definition)))
  }

  /** `ConvertToDataValueDefinition`: the text and tag a cell value is saved as. */
  function ConvertToDataValueDefinition(v: DataValue, render: Renderer): (d: DataValueDefinition)
    ensures d.typeName in {"text", "function", "int", "decimal", "percentage"}
  {
    match v
    case Text(s) => DataValueDefinition(s, if StartsWith(s, "=") then "function" else "text")
    case Integer(i) => DataValueDefinition(IntToString(i as int), "int")
    case Decimal(x) => DataValueDefinition(render.showDecimal(x), "decimal")
    case Percentage(p) => DataValueDefinition(render.showDecimal(p), "percentage")
    case Func(f) => DataValueDefinition("=" + f.value, GetFormatName(f.format))
    case _ => DataValueDefinition(render.showOther(v), "text")
  }

  /** The values that come back unchanged from their own definition. */
  predicate Restorable(v: DataValue, render: Renderer) {
    match v
    case Text(s) => !StartsWith(s, "=")
    case Integer(_) => true
    case Decimal(x) => ParseDecimal(render.showDecimal(x)) == Some(x)
    case Percentage(p) => ParseDecimal(render.showDecimal(p)) == Some(p)
    case Func(f) => WellFormed(f) && IsTemplateFormat(f.format)
    case _ => false
  }

  /** Text that reads as an unsigned decimal starts with a digit. */
  lemma UnsignedDecimalStart(s: string)
    requires UnsignedDecimal(s).Some?
    ensures |s| > 0 && IsDigit(s[0])
  {
    var k := IndexOf(s, '.');
    if k == -1 {
      assert IsDigits(s);
    } else {
      assert IsDigits(s[..k]);
      assert s[..k][0] == s[0];
    }
  }

  /** Text that reads as a decimal starts with a sign or a digit, so never with '='. */
  lemma DecimalTextIsNoFormula(s: string)
    requires ParseDecimal(s).Some?
    ensures !StartsWith(s, "=")
  {
    if !(|s| > 0 && IsSign(s[0])) {
      UnsignedDecimalStart(s);
    }
    assert s[..1][0] == s[0];
  }

  /** The decimal text of an integer starts with '-' or a digit. */
  lemma IntegerTextIsNoFormula(i: int)
    ensures !StartsWith(IntToString(i), "=")
  {
    var s := IntToString(i);
    if i >= 0 {
      assert IsDigit(NatToString(i)[0]);
    }
    assert s[0] != '=';
  }

  /**
   * Saving a value as a definition and converting the definition back gives
   * the value again exactly when it is restorable: text not starting with
   * '=', any integer, a decimal or percentage whose text reads back, and a
   * valid function of one of the three template formats.
   */
  lemma DefinitionRoundTrip(v: DataValue, render: Renderer)
    ensures ConvertToDataValue(ConvertToDataValueDefinition(v, render)) == Ok(v) <==> Restorable(v, render)
  {
    match v
    case Text(s) => TextRoundTrip(s, render);
    case Integer(i) => IntegerRoundTrip(i, render);
    case Decimal(x) => DecimalRoundTrip(x, render);
    case Percentage(p) => PercentageRoundTrip(p, render);
    case Func(f) => FunctionRoundTrip(f, render);
    case Boolean(_) => OtherRoundTrip(v, render);
    case DateTime(_) => OtherRoundTrip(v, render);
  }

  lemma TextRoundTrip(s: string, render: Renderer)
    ensures ConvertToDataValue(ConvertToDataValueDefinition(DataValue.Text(s), render)) == Ok(DataValue.Text(s)) <==> !StartsWith(s, "=")
  {
    LowerUnchanged("text");
  }

  lemma IntegerRoundTrip(i: int32, render: Renderer)
    ensures ConvertToDataValue(ConvertToDataValueDefinition(Integer(i), render)) == Ok(Integer(i))
  {
    LowerUnchanged("int");
    IntegerTextIsNoFormula(i as int);
    IntToStringParses(i);
  }

  lemma DecimalRoundTrip(x: real, render: Renderer)
    ensures ConvertToDataValue(ConvertToDataValueDefinition(Decimal(x), render)) == Ok(Decimal(x)) <==>
      ParseDecimal(render.showDecimal(x)) == Some(x)
  {
    var d := DataValueDefinition(render.showDecimal(x), "decimal");
    assert ConvertToDataValueDefinition(Decimal(x), render) == d;
    assert Tag(d) == "decimal" by {
      LowerUnchanged("decimal");
    }
    match ParseDecimal(d.value)
    case Some(y) =>
      DecimalTextIsNoFormula(d.value);
      assert ReadLiteral(d.value, "decimal") == Decimal(y);
    case None =>
      assert ConvertToDataValue(d) != Ok(Decimal(x));
  }

  /** "percentage" is its own lower case and no other tag. */
  lemma PercentageTag()
    ensures Lower("percentage") == "percentage"
    ensures "percentage" != "decimal" && "percentage" != "int" && "percentage" != "integer"
  {
    LowerUnchanged("percentage");
  }

  lemma PercentageRoundTrip(p: real, render: Renderer)
    ensures ConvertToDataValue(ConvertToDataValueDefinition(Percentage(p), render)) == Ok(Percentage(p)) <==>
      ParseDecimal(render.showDecimal(p)) == Some(p)
  {
    var d := DataValueDefinition(render.showDecimal(p), "percentage");
    assert ConvertToDataValueDefinition(Percentage(p), render) == d;
    match ParseDecimal(d.value)
    case Some(y) => PercentageRead(d.value, y);
    case None => PercentageUnread(d.value, p);
  }

  /** Text read as a decimal under the tag "percentage" gives that percentage. */
  lemma PercentageRead(s: string, y: real)
    requires ParseDecimal(s) == Some(y)
    ensures ConvertToDataValue(DataValueDefinition(s, "percentage")) == Ok(Percentage(y))
  {
    PercentageTag();
    DecimalTextIsNoFormula(s);
    assert ReadLiteral(s, "percentage") == Percentage(y);
  }

  /** Text that does not read as a decimal gives no percentage. */
  lemma PercentageUnread(s: string, p: real)
    requires ParseDecimal(s).None?
    ensures ConvertToDataValue(DataValueDefinition(s, "percentage")) != Ok(Percentage(p))
  {
  }

  lemma FunctionRoundTrip(f: Function, render: Renderer)
    ensures ConvertToDataValue(ConvertToDataValueDefinition(Func(f), render)) == Ok(Func(f)) <==>
      WellFormed(f) && IsTemplateFormat(f.format)
  {
    var d := ConvertToDataValueDefinition(Func(f), render);
    assert StartsWith(d.value, "=") && d.value[1..] == f.value;
    FormatRoundTrip(f.format);
  }

  lemma OtherRoundTrip(v: DataValue, render: Renderer)
    requires v.Boolean? || v.DateTime?
    ensures ConvertToDataValue(ConvertToDataValueDefinition(v, render)) != Ok(v)
  {
  }

  /**
   * `GetCellValueAsString`: the title a header cell is saved with. A text is
   * saved as itself, an integer as digits that parse back to it, and a
   * function as its own text, which construction accepts again.
   */
  function GetCellValueAsString(v: DataValue, render: Renderer): (title: string)
    ensures v.Text? ==> title == v.text
    ensures v.Integer? ==> ParseInt32(title) == Some(v.integer)
    ensures v.Func? ==> title == Functions.ToString(v.call)
    ensures v.Func? && WellFormed(v.call) ==> New(title, v.call.format) == Ok(v.call)
  {
    match v
    case Text(t) => t
    case Integer(i) => IntToStringParses(i); IntToString(i as int)
    case Decimal(x) => render.showDecimal(x)
    case Percentage(p) => render.showDecimal(p)
    case Func(f) => f.value
    case _ => render.showOther(v)
  }

  /** A header is loaded back as text, so a header cell survives a save exactly when it holds text. */
  lemma TitleRoundTrip(v: DataValue, render: Renderer)
    ensures DataValue.Text(GetCellValueAsString(v, render)) == v <==> v.Text?
  {
  }

  /** Which list of the template a saved cell goes to. */
  datatype Placement = ColumnHeader | RowHeader | DataCell

  /**
   * The placement test of `ConvertToSimpleTemplate`: row 1 holds the column
   * headers; the row header test compares the column letter with the
   * character of code 1, so it never holds for a column of the table.
   */
  function PlacementOf(c: Coordinate): Placement {
    if c.row.value == 1 then ColumnHeader
    else if c.column.value as int == 1 then RowHeader
    else DataCell
  }

  /** No valid coordinate is saved as a row header: column A below row 1 goes to the data cells. */
  lemma NoRowHeaders(c: Coordinate)
    requires Coordinates.Valid(c)
    ensures PlacementOf(c) != RowHeader
    ensures PlacementOf(c) == DataCell <==> c.row.value != 1
  {
    assert ColumnIds.Valid(c.column);
  }

  /** The coordinates of `order` placed as `p`, in their order. */
  function Where(order: seq<Coordinate>, p: Placement): seq<Coordinate> {
    if order == [] then []
    else
      var last := order[|order| - 1];
      Where(order[..|order| - 1], p) + (if PlacementOf(last) == p then [last] else [])
  }

  /** A coordinate in the list of placement `p` comes from `order` and is placed as `p`. */
  lemma {:induction false} WhereSound(order: seq<Coordinate>, p: Placement, c: Coordinate)
    requires c in Where(order, p)
    ensures c in order && PlacementOf(c) == p
  {
    var front, last := order[..|order| - 1], order[|order| - 1];
    if c in Where(front, p) {
      WhereSound(front, p, c);
      assert order == front + [last];
    }
  }

  /** A coordinate of `order` is in the list of its own placement. */
  lemma {:induction false} WhereMember(order: seq<Coordinate>, c: Coordinate)
    requires c in order
    ensures c in Where(order, PlacementOf(c))
  {
    var front, last := order[..|order| - 1], order[|order| - 1];
    if c != last {
      assert c in front by {
        assert order == front + [last];
      }
      WhereMember(front, c);
    }
  }

  /** The three lists together are as long as `order`: nothing is dropped and nothing is saved twice. */
  lemma {:induction false} WherePartition(order: seq<Coordinate>)
    ensures |Where(order, ColumnHeader)| + |Where(order, RowHeader)| + |Where(order, DataCell)| == |order|
  {
    if order != [] {
      WherePartition(order[..|order| - 1]);
    }
  }

  /** The header definitions saved for the coordinates `cs`, in their order. */
  function Headers(cells: map<Coordinate, DataValue>, cs: seq<Coordinate>, render: Renderer): (r: seq<HeaderDefinition>)
    ensures |r| == |cs|
  {
    if cs == [] then []
    else
      var last := cs[|cs| - 1];
      Headers(cells, cs[..|cs| - 1], render) + [HeaderDefinition(Coordinates.ToString(last), GetCellValueAsString(CellAt(cells, last), render))]
  }

  /** The cell definitions saved for the coordinates `cs`, in their order. */
  function DataCells(cells: map<Coordinate, DataValue>, cs: seq<Coordinate>, render: Renderer): (r: seq<CellDefinition>)
    ensures |r| == |cs|
  {
    if cs == [] then []
    else
      var last := cs[|cs| - 1];
      DataCells(cells, cs[..|cs| - 1], render) + [CellDefinition(Coordinates.ToString(last), ConvertToDataValueDefinition(CellAt(cells, last), render))]
  }

  /** The template saved from a table's name and cells, the cells visited in `order`. */
  function Saved(name: string, cells: map<Coordinate, DataValue>, order: seq<Coordinate>, render: Renderer): SimpleJsonTemplate {
    SimpleJsonTemplate(
      name,
      "Template created from " + name,
      Headers(cells, Where(order, ColumnHeader), render),
      Headers(cells, Where(order, RowHeader), render),
      DataCells(cells, Where(order, DataCell), render))
  }

  /** Visiting one more coordinate extends only the list it is placed in. */
  lemma WhereSnoc(order: seq<Coordinate>, c: Coordinate, p: Placement)
    ensures PlacementOf(c) == p ==> Where(order + [c], p) == Where(order, p) + [c]
    ensures PlacementOf(c) != p ==> Where(order + [c], p) == Where(order, p)
  {
    assert (order + [c])[..|order|] == order;
  }

  /** Saving one more header appends its definition. */
  lemma HeadersSnoc(cells: map<Coordinate, DataValue>, cs: seq<Coordinate>, c: Coordinate, render: Renderer)
    ensures Headers(cells, cs + [c], render) ==
      Headers(cells, cs, render) + [HeaderDefinition(Coordinates.ToString(c), GetCellValueAsString(CellAt(cells, c), render))]
  {
    assert (cs + [c])[..|cs|] == cs;
  }

  /** Saving one more data cell appends its definition. */
  lemma DataCellsSnoc(cells: map<Coordinate, DataValue>, cs: seq<Coordinate>, c: Coordinate, render: Renderer)
    ensures DataCells(cells, cs + [c], render) ==
      DataCells(cells, cs, render) + [CellDefinition(Coordinates.ToString(c), ConvertToDataValueDefinition(CellAt(cells, c), render))]
  {
    assert (cs + [c])[..|cs|] == cs;
  }

  /** A template saved from valid coordinates has an empty list of row headers. */
  lemma {:induction false} SavedRowsEmpty(name: string, cells: map<Coordinate, DataValue>, order: seq<Coordinate>, render: Renderer)
    requires forall c | c in order :: Coordinates.Valid(c)
    ensures Saved(name, cells, order, render).rows == []
  {
    if order != [] {
      var front, last := order[..|order| - 1], order[|order| - 1];
      SavedRowsEmpty(name, cells, front, render);
      NoRowHeaders(last);
    }
  }

  /** No coordinate occurs twice. */
  predicate Distinct(order: seq<Coordinate>) {
    forall i, j | 0 <= i < j < |order| :: order[i] != order[j]
  }

  /**
   * `ConvertToSimpleTemplate`: visits every cell once, in the dictionary's
   * order (left open here and returned as `order`), and sorts it into the
   * column headers, the row headers or the data cells.
   */
  method ConvertToSimpleTemplate(table: TableEntity, render: Renderer) returns (template: SimpleJsonTemplate, ghost order: seq<Coordinate>)
    ensures Distinct(order) && |order| == |table.cells.Keys|
    ensures forall c :: c in order <==> c in table.cells
    ensures template == Saved(table.name, table.cells, order, render)
  {
    var all := table.cells;
    var columns, rows, cells := [], [], [];
    var remaining := all.Keys;
    order := [];
    while remaining != {}
      invariant remaining <= all.Keys
      invariant forall c :: c in order <==> c in all && c !in remaining
      invariant Distinct(order) && |order| + |remaining| == |all.Keys|
      invariant columns == Headers(all, Where(order, ColumnHeader), render)
      invariant rows == Headers(all, Where(order, RowHeader), render)
      invariant cells == DataCells(all, Where(order, DataCell), render)
      decreases |remaining|
    {
      var coordinate :| coordinate in remaining;
      var dataValue := all[coordinate];
      var coordinateString := Coordinates.ToString(coordinate);
      ghost var next := order + [coordinate];
      WhereSnoc(order, coordinate, ColumnHeader);
      WhereSnoc(order, coordinate, RowHeader);
      WhereSnoc(order, coordinate, DataCell);
      if coordinate.row.value == 1 {
        HeadersSnoc(all, Where(order, ColumnHeader), coordinate, render);
        columns := columns + [HeaderDefinition(coordinateString, GetCellValueAsString(dataValue, render))];
        assert columns == Headers(all, Where(next, ColumnHeader), render);
      } else if coordinate.column.value as int == 1 {
        HeadersSnoc(all, Where(order, RowHeader), coordinate, render);
        rows := rows + [HeaderDefinition(coordinateString, GetCellValueAsString(dataValue, render))];
        assert rows == Headers(all, Where(next, RowHeader), render);
      } else {
        DataCellsSnoc(all, Where(order, DataCell), coordinate, render);
        cells := cells + [CellDefinition(coordinateString, ConvertToDataValueDefinition(dataValue, render))];
        assert cells == DataCells(all, Where(next, DataCell), render);
      }
      assert coordinate !in order;
      order := next;
      remaining := remaining - {coordinate};
    }
    template := SimpleJsonTemplate(table.name, "Template created from " + table.name, columns, rows, cells);
  }

  /** The coordinates of the headers, parsed, each with its title as text; the first bad coordinate is the error. */
  function HeaderEntries(headers: seq<HeaderDefinition>): (r: Result<seq<(Coordinate, DataValue)>>)
    ensures r.Ok? ==> |r.value| == |headers|
  {
    if headers == [] then Ok([])
    else
      var last := headers[|headers| - 1];
      match HeaderEntries(headers[..|headers| - 1])
      case Err(e) => Err(e)
      case Ok(entries) =>
        match Coordinates.Parse(last.coordinate)
        case Err(e) => Err(e)
        case Ok(c) => Ok(entries + [(c, DataValue.Text(last.title))])
  }

  /** The coordinates of the cells, parsed, each with its converted value; the first failure is the error. */
  function CellEntries(cells: seq<CellDefinition>): (r: Result<seq<(Coordinate, DataValue)>>)
    ensures r.Ok? ==> |r.value| == |cells|
  {
    if cells == [] then Ok([])
    else
      var last := cells[|cells| - 1];
      match CellEntries(cells[..|cells| - 1])
      case Err(e) => Err(e)
      case Ok(entries) =>
        match Coordinates.Parse(last.coordinate)
        case Err(e) => Err(e)
        case Ok(c) =>
          match ConvertToDataValue(last.dataValue)
          case Err(e) => Err(e)
          case Ok(v) => Ok(entries + [(c, v)])
  }

  /** The cells after storing each entry in turn with `SetCell`. */
  function Upsert(m: map<Coordinate, DataValue>, entries: seq<(Coordinate, DataValue)>): map<Coordinate, DataValue> {
    if entries == [] then m
    else
      var last := entries[|entries| - 1];
      Upsert(m, entries[..|entries| - 1])[last.0 := last.1]
  }

  /** An entry is overwritten only by a later entry for the same coordinate. */
  lemma {:induction false} LaterEntryWins(
    m: map<Coordinate, DataValue>, before: seq<(Coordinate, DataValue)>, c: Coordinate, v: DataValue,
    after: seq<(Coordinate, DataValue)>)
    requires forall e | e in after :: e.0 != c
    ensures c in Upsert(m, before + [(c, v)] + after) && Upsert(m, before + [(c, v)] + after)[c] == v
    decreases |after|
  {
    var all := before + [(c, v)] + after;
    if after == [] {
      assert all[..|all| - 1] == before;
    } else {
      var front := after[..|after| - 1];
      assert all[..|all| - 1] == before + [(c, v)] + front;
      assert all[|all| - 1] == after[|after| - 1];
      LaterEntryWins(m, before, c, v, front);
    }
  }

  /** A coordinate no entry names keeps what it had. */
  lemma {:induction false} UntouchedCellKept(m: map<Coordinate, DataValue>, entries: seq<(Coordinate, DataValue)>, c: Coordinate)
    requires forall e | e in entries :: e.0 != c
    ensures (c in Upsert(m, entries) <==> c in m) && (c in m ==> Upsert(m, entries)[c] == m[c])
    decreases |entries|
  {
    if entries != [] {
      UntouchedCellKept(m, entries[..|entries| - 1], c);
      assert entries[|entries| - 1] in entries;
    }
  }

  /** Once a prefix of the headers fails, the whole list fails the same way. */
  lemma {:induction false} HeaderEntriesPrefix(headers: seq<HeaderDefinition>, i: nat)
    requires i <= |headers| && HeaderEntries(headers[..i]).Err?
    ensures HeaderEntries(headers) == HeaderEntries(headers[..i])
    decreases |headers|
  {
    if i < |headers| {
      var front := headers[..|headers| - 1];
      assert front[..i] == headers[..i];
      HeaderEntriesPrefix(front, i);
    } else {
      assert headers[..i] == headers;
    }
  }

  /** Once a prefix of the cells fails, the whole list fails the same way. */
  lemma {:induction false} CellEntriesPrefix(cells: seq<CellDefinition>, i: nat)
    requires i <= |cells| && CellEntries(cells[..i]).Err?
    ensures CellEntries(cells) == CellEntries(cells[..i])
    decreases |cells|
  {
    if i < |cells| {
      var front := cells[..|cells| - 1];
      assert front[..i] == cells[..i];
      CellEntriesPrefix(front, i);
    } else {
      assert cells[..i] == cells;
    }
  }

  /** The cells of a table loaded from a template: the column headers, then the row headers, then the data cells. */
  function LoadedCells(template: SimpleJsonTemplate): Result<map<Coordinate, DataValue>> {
    match HeaderEntries(template.columns)
    case Err(e) => Err(e)
    case Ok(columns) =>
      match HeaderEntries(template.rows)
      case Err(e) => Err(e)
      case Ok(rows) =>
        match CellEntries(template.cells)
        case Err(e) => Err(e)
        case Ok(cells) => Ok(Upsert(Upsert(Upsert(map[], columns), rows), cells))
  }

  /** The first two loops of `ConvertToTableEntity`: each header's title set as text, up to the first bad coordinate. */
  method SetHeaders(table: TableEntity, headers: seq<HeaderDefinition>) returns (r: Option<Error>)
    modifies table
    ensures r.Some? <==> HeaderEntries(headers).Err?
    ensures r.Some? ==> HeaderEntries(headers) == Err(r.value)
    ensures r.None? ==> table.cells == Upsert(old(table.cells), HeaderEntries(headers).value)
    ensures table.name == old(table.name)
  {
    for i := 0 to |headers|
      invariant HeaderEntries(headers[..i]).Ok?
      invariant table.cells == Upsert(old(table.cells), HeaderEntries(headers[..i]).value)
      invariant table.name == old(table.name)
    {
      var header := headers[i];
      var coordinate := Coordinates.Parse(header.coordinate);
      assert headers[..i + 1][..i] == headers[..i];
      if coordinate.Err? {
        HeaderEntriesPrefix(headers, i + 1);
        return Some(coordinate.error);
      }
      table.SetCell(coordinate.value, DataValue.Text(header.title));
    }
    assert headers[..|headers|] == headers;
    return None;
  }

  /** The last loop of `ConvertToTableEntity`: each cell's converted value set, up to the first failure. */
  method SetCells(table: TableEntity, cells: seq<CellDefinition>) returns (r: Option<Error>)
    modifies table
    ensures r.Some? <==> CellEntries(cells).Err?
    ensures r.Some? ==> CellEntries(cells) == Err(r.value)
    ensures r.None? ==> table.cells == Upsert(old(table.cells), CellEntries(cells).value)
    ensures table.name == old(table.name)
  {
    for i := 0 to |cells|
      invariant CellEntries(cells[..i]).Ok?
      invariant table.cells == Upsert(old(table.cells), CellEntries(cells[..i]).value)
      invariant table.name == old(table.name)
    {
      var cell := cells[i];
      var coordinate := Coordinates.Parse(cell.coordinate);
      assert cells[..i + 1][..i] == cells[..i];
      if coordinate.Err? {
        CellEntriesPrefix(cells, i + 1);
        return Some(coordinate.error);
      }
      var dataValue := ConvertToDataValue(cell.dataValue);
      if dataValue.Err? {
        CellEntriesPrefix(cells, i + 1);
        return Some(dataValue.error);
      }
      table.SetCell(coordinate.value, dataValue.value);
    }
    assert cells[..|cells|] == cells;
    return None;
  }

  /**
   * `ConvertToTableEntity`: a new table with the template's name and the
   * given identity, then every column header, row header and data cell set
   * in turn. A blank name, a bad coordinate or a function the cell's text
   * does not make is the error.
   */
  method ConvertToTableEntity(template: SimpleJsonTemplate, id: TableId) returns (r: Result<TableEntity>)
    ensures IsBlank(template.name) ==> r == Err(InvalidTableName(template.name))
    ensures !IsBlank(template.name) ==> (r.Ok? <==> LoadedCells(template).Ok?)
    ensures !IsBlank(template.name) && r.Err? ==> LoadedCells(template) == Err(r.error)
    ensures r.Ok? ==> fresh(r.value) && r.value.Valid() && r.value.id == id && r.value.name == Trim(template.name)
    ensures r.Ok? ==> r.value.cells == LoadedCells(template).value
  {
    var created := TableEntity.Create(id, template.name);
    if created.Err? {
      return Err(created.error);
    }
    var table := created.value;
    var failed := SetHeaders(table, template.columns);
    if failed.Some? {
      return Err(failed.value);
    }
    failed := SetHeaders(table, template.rows);
    if failed.Some? {
      return Err(failed.value);
    }
    failed := SetCells(table, template.cells);
    if failed.Some? {
      return Err(failed.value);
    }
    return Ok(table);
  }

  /** The entries a list of coordinates stands for, each with its cell. */
  function Pairs(cells: map<Coordinate, DataValue>, cs: seq<Coordinate>): (r: seq<(Coordinate, DataValue)>)
    ensures |r| == |cs|
  {
    if cs == [] then []
    else
      var last := cs[|cs| - 1];
      Pairs(cells, cs[..|cs| - 1]) + [(last, CellAt(cells, last))]
  }

  /** Saved header cells holding text load back as the same entries. */
  lemma {:induction false} HeadersLoadBack(cells: map<Coordinate, DataValue>, cs: seq<Coordinate>, render: Renderer)
    requires forall c | c in cs :: Coordinates.Valid(c) && CellAt(cells, c).Text?
    ensures HeaderEntries(Headers(cells, cs, render)) == Ok(Pairs(cells, cs))
    decreases |cs|
  {
    if cs != [] {
      var front, last := cs[..|cs| - 1], cs[|cs| - 1];
      var saved := Headers(cells, cs, render);
      assert saved[..|saved| - 1] == Headers(cells, front, render);
      HeadersLoadBack(cells, front, render);
      ParseToString(last);
    }
  }

  /** Saved data cells holding restorable values load back as the same entries. */
  lemma {:induction false} DataCellsLoadBack(cells: map<Coordinate, DataValue>, cs: seq<Coordinate>, render: Renderer)
    requires forall c | c in cs :: Coordinates.Valid(c) && Restorable(CellAt(cells, c), render)
    ensures CellEntries(DataCells(cells, cs, render)) == Ok(Pairs(cells, cs))
    decreases |cs|
  {
    if cs != [] {
      var front, last := cs[..|cs| - 1], cs[|cs| - 1];
      var saved := DataCells(cells, cs, render);
      assert saved[..|saved| - 1] == DataCells(cells, front, render);
      DataCellsLoadBack(cells, front, render);
      ParseToString(last);
      DefinitionRoundTrip(CellAt(cells, last), render);
    }
  }

  /** After storing the entries of `cs`, a coordinate of `cs` holds its cell and any other keeps what it had. */
  lemma {:induction false} UpsertPairs(m: map<Coordinate, DataValue>, cells: map<Coordinate, DataValue>, cs: seq<Coordinate>, c: Coordinate)
    ensures c in Upsert(m, Pairs(cells, cs)) <==> c in m || c in cs
    ensures c in Upsert(m, Pairs(cells, cs)) ==> Upsert(m, Pairs(cells, cs))[c] == if c in cs then CellAt(cells, c) else m[c]
    decreases |cs|
  {
    if cs != [] {
      var front := cs[..|cs| - 1];
      var pairs := Pairs(cells, cs);
      assert pairs[..|pairs| - 1] == Pairs(cells, front);
      UpsertPairs(m, cells, front, c);
      assert c in cs <==> c in front || c == cs[|cs| - 1] by {
        assert cs == front + [cs[|cs| - 1]];
      }
    }
  }

  /** The cells loaded from the three saved lists, stored in the order the loader stores them. */
  function Reloaded(cells: map<Coordinate, DataValue>, order: seq<Coordinate>): map<Coordinate, DataValue> {
    var withColumns := Upsert(map[], Pairs(cells, Where(order, ColumnHeader)));
    var withRows := Upsert(withColumns, Pairs(cells, Where(order, RowHeader)));
    Upsert(withRows, Pairs(cells, Where(order, DataCell)))
  }

  /** Each saved list loads back as the entries of its coordinates. */
  lemma SavedListsLoad(name: string, cells: map<Coordinate, DataValue>, order: seq<Coordinate>, render: Renderer)
    requires forall c | c in order :: Coordinates.Valid(c)
    requires forall c | c in order :: if PlacementOf(c) == DataCell then Restorable(CellAt(cells, c), render) else CellAt(cells, c).Text?
    ensures LoadedCells(Saved(name, cells, order, render)) == Ok(Reloaded(cells, order))
  {
    var columns, rows, data := Where(order, ColumnHeader), Where(order, RowHeader), Where(order, DataCell);
    forall c | c in columns
      ensures Coordinates.Valid(c) && CellAt(cells, c).Text?
    {
      WhereSound(order, ColumnHeader, c);
    }
    HeadersLoadBack(cells, columns, render);
    forall c | c in rows
      ensures Coordinates.Valid(c) && CellAt(cells, c).Text?
    {
      WhereSound(order, RowHeader, c);
    }
    HeadersLoadBack(cells, rows, render);
    forall c | c in data
      ensures Coordinates.Valid(c) && Restorable(CellAt(cells, c), render)
    {
      WhereSound(order, DataCell, c);
    }
    DataCellsLoadBack(cells, data, render);
  }

  /** One coordinate of the reloaded cells: present exactly when it was a cell, and holding that cell. */
  lemma ReloadedAt(cells: map<Coordinate, DataValue>, order: seq<Coordinate>, c: Coordinate)
    requires forall d :: d in order <==> d in cells
    ensures c in Reloaded(cells, order) <==> c in cells
    ensures c in Reloaded(cells, order) ==> Reloaded(cells, order)[c] == cells[c]
  {
    var columns, rows, data := Where(order, ColumnHeader), Where(order, RowHeader), Where(order, DataCell);
    var withColumns := Upsert(map[], Pairs(cells, columns));
    var withRows := Upsert(withColumns, Pairs(cells, rows));
    UpsertPairs(map[], cells, columns, c);
    UpsertPairs(withColumns, cells, rows, c);
    UpsertPairs(withRows, cells, data, c);
    if c in cells {
      WhereMember(order, c);
    } else {
      if c in columns {
        WhereSound(order, ColumnHeader, c);
      }
      if c in rows {
        WhereSound(order, RowHeader, c);
      }
      if c in data {
        WhereSound(order, DataCell, c);
      }
    }
  }

  /** Storing the three lists of every cell's coordinates rebuilds exactly the cells. */
  lemma ReloadedIsCells(cells: map<Coordinate, DataValue>, order: seq<Coordinate>)
    requires forall c :: c in order <==> c in cells
    ensures Reloaded(cells, order) == cells
  {
    forall c
      ensures c in Reloaded(cells, order) <==> c in cells
      ensures c in Reloaded(cells, order) ==> Reloaded(cells, order)[c] == cells[c]
    {
      ReloadedAt(cells, order, c);
    }
  }

  /**
   * Saving a table and loading the template gives back the same cells,
   * when every coordinate is valid, every header cell holds text and every
   * data cell is restorable.
   */
  lemma SaveThenLoad(name: string, cells: map<Coordinate, DataValue>, order: seq<Coordinate>, render: Renderer)
    requires forall c :: c in order <==> c in cells
    requires forall c | c in cells :: Coordinates.Valid(c)
    requires forall c | c in cells :: if PlacementOf(c) == DataCell then Restorable(cells[c], render) else cells[c].Text?
    ensures LoadedCells(Saved(name, cells, order, render)) == Ok(cells)
  {
    SavedListsLoad(name, cells, order, render);
    ReloadedIsCells(cells, order);
  }
}
