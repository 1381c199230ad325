/** The reply layouts of `raw`, `pretty` and `csv`, and a reader that recovers the cells of CSV output. */
module PlainText {
  import opened Prelude
  import opened Utf8
  import opened RespValue
  import EventJson

  const COMMA: Scalar := 0x2C
  const QUOTE: Scalar := 0x22
  const NEWLINE: Scalar := 0x0A
  const RETURN: Scalar := 0x0D

  /** `parts.join(sep)` for a separator of one character. */
  function Joined(parts: seq<Text>, sep: Scalar): Text {
    if parts == [] then [] else if |parts| == 1 then parts[0] else parts[0] + [sep] + Joined(parts[1..], sep)
  }

  // ---------------------------------------------------------------- the layouts

  /** `raw_text`. */
  function RawText(v: Value): Text
    decreases v, 0
  {
    match v
    case Simple(b) => Lossy(b)
    case Bulk(b) => Lossy(b)
    case Error(b) => Lossy(b)
    case BulkError(b) => Lossy(b)
    case Double(lexeme) => Lossy(lexeme)
    case BigNumber(digits) => Lossy(digits)
    case Integer(n) => EventJson.ShowInt(n)
    case Boolean(t) => if t then [0x31] else [0x30]
    case Null(_) => []
    case Array(items) => Joined(RawTexts(items), NEWLINE)
    case Set(items) => Joined(RawTexts(items), NEWLINE)
    case Push(items) => Joined(RawTexts(items), NEWLINE)
    case Map(entries) => Joined(RawPairs(entries), NEWLINE)
    case Verbatim(_, data) => Lossy(data)
    case Attribute(_, value) => RawText(value)
  }

  function RawTexts(items: seq<Value>): seq<Text>
    decreases items, 1
  {
    if items == [] then [] else [RawText(items[0])] + RawTexts(items[1..])
  }

  function RawPair(e: Entry): Text
    decreases e, 1
  {
    RawText(e.key) + [NEWLINE] + RawText(e.val)
  }

  function RawPairs(entries: seq<Entry>): seq<Text>
    decreases entries, 2
  {
    if entries == [] then [] else [RawPair(entries[0])] + RawPairs(entries[1..])
  }

  /** What the cells of `csv_cells` say; nested arrays and sets are flattened, anything else in them is one cell. */
  function Cells(v: Value): seq<Text>
    decreases v, 0
  {
    match v
    case Array(items) => AllCells(items)
    case Set(items) => AllCells(items)
    case Map(entries) => EntryCells(entries)
    case _ => [RawText(v)]
  }

  function AllCells(items: seq<Value>): seq<Text>
    decreases items, 1
  {
    if items == [] then [] else Cells(items[0]) + AllCells(items[1..])
  }

  function EntryCells(entries: seq<Entry>): seq<Text> {
    if entries == [] then [] else [RawText(entries[0].key), RawText(entries[0].val)] + EntryCells(entries[1..])
  }

  /** `replace('"', "\"\"")`. */
  function Doubled(t: Text): Text {
    if t == [] then [] else (if t[0] == QUOTE then [QUOTE, QUOTE] else [t[0]]) + Doubled(t[1..])
  }

  predicate NeedsQuotes(t: Text) {
    COMMA in t || QUOTE in t || NEWLINE in t
  }

  /** `csv_cell`. */
  function Spelled(t: Text): Text {
    if NeedsQuotes(t) then [QUOTE] + Doubled(t) + [QUOTE] else t
  }

  function SpelledAll(cells: seq<Text>): seq<Text> {
    if cells == [] then [] else [Spelled(cells[0])] + SpelledAll(cells[1..])
  }

  function CsvLine(v: Value): Text {
    Joined(SpelledAll(Cells(v)), COMMA)
  }

  lemma {:induction false} AllCellsAppend(a: seq<Value>, c: seq<Value>)
    ensures AllCells(a + c) == AllCells(a) + AllCells(c)
    decreases |a|
  {
    hide Cells;
    if a == [] {
      assert a + c == c;
    } else {
      AllCellsAppend(a[1..], c);
      assert (a + c)[1..] == a[1..] + c;
    }
  }

  lemma {:induction false} CellsOf(items: seq<Value>, entries: seq<Entry>)
    ensures Cells(Array(items)) == Cells(Set(items)) == AllCells(items) && Cells(Map(entries)) == EntryCells(entries)
  {
  }

  lemma {:induction false} CellsOfOne(x: Value)
    ensures AllCells([x]) == Cells(x)
  {
    hide Cells;
    assert [x][1..] == [] && AllCells([]) == [];
  }

  /** A list's cells are those of its items in order, however deep the lists and sets in it. */
  lemma {:induction false} ListCells(x: Value, a: seq<Value>, c: seq<Value>)
    ensures Cells(Array([x])) == Cells(Set([x])) == Cells(x)
    ensures Cells(Array(a + c)) == Cells(Array(a)) + Cells(Array(c)) && Cells(Set(a)) == Cells(Array(a))
  {
    hide Cells, AllCells;
    AllCellsAppend(a, c);
    CellsOfOne(x);
    CellsOf([x], []);
    CellsOf(a, []);
    CellsOf(c, []);
    CellsOf(a + c, []);
  }

  lemma {:induction false} EntryCellsAt(entries: seq<Entry>, k: nat)
    requires k < |entries|
    ensures var cells := EntryCells(entries);
            && |cells| == 2 * |entries|
            && cells[2 * k] == RawText(entries[k].key) && cells[2 * k + 1] == RawText(entries[k].val)
    decreases |entries|
  {
    hide RawText;
    if |entries| > 1 {
      EntryCellsAt(entries[1..], if k == 0 then 0 else k - 1);
    }
  }

  /** A map's cells are its keys and values in turn, each as one text. */
  lemma {:induction false} MapCells(entries: seq<Entry>, k: nat)
    requires k < |entries|
    ensures var cells := Cells(Map(entries));
            && |cells| == 2 * |entries|
            && cells[2 * k] == RawText(entries[k].key) && cells[2 * k + 1] == RawText(entries[k].val)
  {
    hide Cells, EntryCells, RawText;
    CellsOf([], entries);
    EntryCellsAt(entries, k);
  }

  // ---------------------------------------------------------------- a reader of CSV

  /** A record ends at a line feed, with or without a carriage return before it. */
  predicate EndsRecord(t: Text) {
    t != [] && (t[0] == '\n' as int || (|t| > 1 && t[0] == '\r' as int && t[1] == '\n' as int))
  }

  /** An unquoted field and what follows it. */
  function Unquoted(t: Text): (r: (Text, Text))
    ensures |r.1| <= |t|
  {
    if t == [] || t[0] == ',' as int || EndsRecord(t) then ([], t)
    else var rest := Unquoted(t[1..]); ([t[0]] + rest.0, rest.1)
  }

  function Prefixed(c: Scalar, r: Option<(Text, Text)>): Option<(Text, Text)> {
    match r
    case None => None
    case Some((field, rest)) => Some(([c] + field, rest))
  }

  /** The rest of a quoted field, in which a quote is written twice. */
  function Quoted(t: Text): (r: Option<(Text, Text)>)
    ensures r.Some? ==> |r.value.1| < |t|
    decreases |t|
  {
    if t == [] then None
    else if t[0] != '"' as int then Prefixed(t[0], Quoted(t[1..]))
    else if |t| > 1 && t[1] == '"' as int then Prefixed('"' as int, Quoted(t[2..]))
    else Some(([], t[1..]))
  }

  /** Rules 5 to 7 of section 2 of RFC 4180. */
  function Field(t: Text): (r: Option<(Text, Text)>)
    ensures r.Some? ==> |r.value.1| <= |t|
  {
    if t != [] && t[0] == '"' as int then Quoted(t[1..]) else Some(Unquoted(t))
  }

  /** One record with its end (rules 1 and 4), and what follows it. */
  function Record(t: Text): (r: Option<(seq<Text>, Text)>)
    ensures r.Some? ==> |r.value.1| < |t|
    decreases |t|
  {
    match Field(t)
    case None => None
    case Some((field, rest)) =>
      if rest == [] then None
      else if EndsRecord(rest) then Some(([field], if rest[0] == '\n' as int then rest[1..] else rest[2..]))
      else if rest[0] != ',' as int then None
      else
        match Record(rest[1..])
        case None => None
        case Some((fields, more)) => Some(([field] + fields, more))
  }

  function Records(t: Text): Option<seq<seq<Text>>>
    decreases |t|
  {
    if t == [] then Some([])
    else
      match Record(t)
      case None => None
      case Some((fields, rest)) =>
        match Records(rest)
        case None => None
        case Some(more) => Some([fields] + more)
  }

  // ---------------------------------------------------------------- reading back

  predicate EndsField(t: Text) {
    t != [] && (t[0] == ',' as int || t[0] == '\n' as int)
  }

  /** The last cell of a line loses a carriage return to the end of the record, unless it is quoted. */
  predicate LosesReturn(cell: Text) {
    ',' as int !in cell && '"' as int !in cell && '\n' as int !in cell && cell != [] && cell[|cell| - 1] == '\r' as int
  }

  /** What is read of a cell before this separator. */
  function Kept(cell: Text, separator: Scalar): Text {
    if separator == '\n' as int && LosesReturn(cell) then cell[..|cell| - 1] else cell
  }

  /** What is left unread behind a cell: the rest, and a carriage return that counts as part of the end. */
  function Behind(cell: Text, rest: Text): Text
    requires EndsField(rest)
  {
    if rest[0] == '\n' as int && LosesReturn(cell) then ['\r' as int] + rest else rest
  }

  lemma {:induction false} UnquotedReads(t: Text, rest: Text)
    requires !NeedsQuotes(t) && EndsField(rest)
    ensures Unquoted(t + rest) == (Kept(t, rest[0]), Behind(t, rest))
  {
    if t == [] {
      assert t + rest == rest;
    } else {
      var all := t + rest;
      assert all[1..] == t[1..] + rest;
      UnquotedReads(t[1..], rest);
      assert t == [t[0]] + t[1..];
      if |t| == 1 {
        assert all == [t[0]] + rest;
      } else {
        assert t[1..][|t| - 2] == t[|t| - 1];
        assert t[..|t| - 1] == [t[0]] + t[1..][..|t| - 2];
      }
    }
  }

  lemma {:induction false} QuotedReads(t: Text, rest: Text)
    requires EndsField(rest)
    ensures Quoted(Doubled(t) + [QUOTE] + rest) == Some((t, rest))
  {
    var all := Doubled(t) + [QUOTE] + rest;
    if t == [] {
      assert all[1..] == rest;
    } else {
      var tail := Doubled(t[1..]) + [QUOTE] + rest;
      QuotedReads(t[1..], rest);
      assert t == [t[0]] + t[1..];
      if t[0] == QUOTE {
        assert all[2..] == tail;
      } else {
        assert all[1..] == tail;
      }
    }
  }

  lemma {:induction false} FieldReads(cell: Text, rest: Text)
    requires EndsField(rest)
    ensures Field(Spelled(cell) + rest) == Some((Kept(cell, rest[0]), Behind(cell, rest)))
  {
    hide Quoted, Unquoted, Doubled;
    var t := Spelled(cell) + rest;
    if NeedsQuotes(cell) {
      QuotedReads(cell, rest);
      assert t[1..] == Doubled(cell) + [QUOTE] + rest;
    } else {
      UnquotedReads(cell, rest);
      assert t[0] == if cell == [] then rest[0] else cell[0];
    }
  }

  /** The cells of a record as they are read. */
  function KeptAll(cells: seq<Text>): seq<Text>
    requires cells != []
  {
    var n := |cells| - 1;
    cells[..n] + [Kept(cells[n], NEWLINE)]
  }

  lemma {:induction false} RecordReads(cells: seq<Text>, rest: Text)
    requires cells != []
    ensures Record(Joined(SpelledAll(cells), COMMA) + [NEWLINE] + rest) == Some((KeptAll(cells), rest))
  {
    hide Field, Spelled, LosesReturn;
    var all := Joined(SpelledAll(cells), COMMA) + [NEWLINE] + rest;
    if |cells| == 1 {
      assert SpelledAll(cells[1..]) == [];
      assert all == Spelled(cells[0]) + ([NEWLINE] + rest);
      FieldReads(cells[0], [NEWLINE] + rest);
      assert ([NEWLINE] + rest)[1..] == rest;
      assert ([RETURN] + ([NEWLINE] + rest))[2..] == rest;
      assert KeptAll(cells) == [Kept(cells[0], NEWLINE)];
    } else {
      var tail := Joined(SpelledAll(cells[1..]), COMMA) + [NEWLINE] + rest;
      assert SpelledAll(cells)[1..] == SpelledAll(cells[1..]);
      assert all == Spelled(cells[0]) + ([COMMA] + tail);
      FieldReads(cells[0], [COMMA] + tail);
      assert ([COMMA] + tail)[1..] == tail;
      RecordReads(cells[1..], rest);
      assert KeptAll(cells) == [cells[0]] + KeptAll(cells[1..]);
    }
  }

  /** The fields of a reply's record: an empty collection is written like one empty cell. */
  function Row(v: Value): (cells: seq<Text>)
    ensures cells != []
  {
    if Cells(v) == [] then [[]] else Cells(v)
  }

  lemma {:induction false} RowReads(v: Value, rest: Text)
    ensures Record(CsvLine(v) + [NEWLINE] + rest) == Some((KeptAll(Row(v)), rest))
  {
    hide Cells, Record;
    RowIsSpelled(v);
    RecordReads(Row(v), rest);
  }

  function Rows(vs: seq<Value>): (rows: seq<seq<Text>>)
    ensures |rows| == |vs| && forall k :: 0 <= k < |vs| ==> rows[k] == Row(vs[k])
  {
    if vs == [] then [] else [Row(vs[0])] + Rows(vs[1..])
  }

  function RowsKept(vs: seq<Value>): (rows: seq<seq<Text>>)
    ensures |rows| == |vs| && forall k :: 0 <= k < |vs| ==> rows[k] == KeptAll(Row(vs[k]))
  {
    if vs == [] then [] else [KeptAll(Row(vs[0]))] + RowsKept(vs[1..])
  }

  /** One line for each reply. */
  function Sheet(vs: seq<Value>): Text {
    if vs == [] then [] else CsvLine(vs[0]) + [NEWLINE] + Sheet(vs[1..])
  }

  /**
    What a CSV reader makes of the output: one record for each reply and every cell as it was, whatever
    commas, quotes and line feeds it holds, but for the carriage return that ends an unquoted last cell.
   */
  lemma {:induction false} SheetReads(vs: seq<Value>)
    ensures Records(Sheet(vs)) == Some(RowsKept(vs))
  {
    hide Row, CsvLine, Record, KeptAll;
    if vs != [] {
      RowReads(vs[0], Sheet(vs[1..]));
      SheetReads(vs[1..]);
    }
  }

  predicate LosesInRow(v: Value) {
    LosesReturn(Row(v)[|Row(v)| - 1])
  }

  lemma {:induction false} KeptIff(cells: seq<Text>)
    requires cells != []
    ensures KeptAll(cells) == cells <==> !LosesReturn(cells[|cells| - 1])
  {
    var n := |cells| - 1;
    assert cells == cells[..n] + [cells[n]];
    assert KeptAll(cells)[n] == Kept(cells[n], NEWLINE);
  }

  /** The table comes back exactly when no record ends in an unquoted cell that ends in a carriage return. */
  lemma {:induction false} SheetReadsBackIff(vs: seq<Value>)
    ensures Records(Sheet(vs)) == Some(Rows(vs)) <==> forall k :: 0 <= k < |vs| ==> !LosesInRow(vs[k])
  {
    hide Row, KeptAll, LosesReturn, Records, Sheet;
    SheetReads(vs);
    forall k | 0 <= k < |vs| ensures KeptAll(Row(vs[k])) == Row(vs[k]) <==> !LosesInRow(vs[k]) {
      KeptIff(Row(vs[k]));
    }
    if RowsKept(vs) == Rows(vs) {
      forall k | 0 <= k < |vs| ensures !LosesInRow(vs[k]) {
        assert RowsKept(vs)[k] == Rows(vs)[k];
      }
    }
  }

  /** A bulk string of one letter and a carriage return is read as the letter. */
  lemma {:induction false} ReturnIsLost()
    ensures var v := Bulk([0x61, RETURN]);
            Rows([v]) == [[[0x61, RETURN]]] && Records(Sheet([v])) == Some([[[0x61]]])
  {
    hide Records, Sheet;
    var b: Bytes := [0x61, RETURN];
    assert Lossy([]) == [];
    assert b[1..] == [RETURN] && b[1..][1..] == [];
    assert Lossy(b[1..]) == [RETURN];
    assert Lossy(b) == [0x61, RETURN];
    var v := Bulk(b);
    SheetReads([v]);
    assert Row(v) == [b] && Kept(b, NEWLINE) == [0x61];
    assert KeptAll([b]) == [[0x61]];
    assert |RowsKept([v])| == 1 && RowsKept([v])[0] == KeptAll(Row(v));
    assert RowsKept([v]) == [[[0x61]]];
  }

  lemma {:induction false} RowIsSpelled(v: Value)
    ensures CsvLine(v) == Joined(SpelledAll(Row(v)), COMMA)
  {
    hide Cells;
    assert SpelledAll([[]]) == [[]];
  }

  lemma {:induction false} OneCellMore(cells: seq<Text>)
    requires cells != []
    ensures Joined(SpelledAll(cells + [[]]), COMMA) == Joined(SpelledAll(cells), COMMA) + [COMMA]
  {
    hide Spelled;
    if |cells| == 1 {
      var two, none: seq<Text> := cells + [[]], [[]];
      assert two[1..] == none && none[1..] == [] && cells[1..] == [];
      assert Spelled([]) == [] by { NothingSpelled(); }
      assert SpelledAll([[]]) == [Spelled([])];
      assert SpelledAll(two) == [Spelled(cells[0]), []];
      assert SpelledAll(two)[1..] == [[]];
    } else {
      assert (cells + [[]])[1..] == cells[1..] + [[]];
      OneCellMore(cells[1..]);
      assert SpelledAll(cells)[1..] == SpelledAll(cells[1..]);
      assert SpelledAll(cells + [[]])[1..] == SpelledAll(cells[1..] + [[]]);
    }
  }

  lemma {:induction false} NothingSpelled()
    ensures Spelled([]) == []
  {
  }

  lemma {:induction false} LineTellsCells(a: seq<Text>, b: seq<Text>)
    requires a != [] && b != [] && Joined(SpelledAll(a), COMMA) == Joined(SpelledAll(b), COMMA)
    ensures a == b
  {
    hide Record, Joined, SpelledAll;
    OneCellMore(a);
    OneCellMore(b);
    RecordReads(a + [[]], []);
    RecordReads(b + [[]], []);
    assert KeptAll(a + [[]])[..|a|] == a && KeptAll(b + [[]])[..|b|] == b;
  }

  /**
    Two replies are written alike exactly when their cells say the same, an empty collection being one empty
    cell. The lines differ even where a reader loses the difference.
   */
  lemma {:induction false} SameLineIffSameRow(u: Value, v: Value)
    ensures CsvLine(u) == CsvLine(v) <==> Row(u) == Row(v)
  {
    hide Cells, Row, Joined, SpelledAll;
    RowIsSpelled(u);
    RowIsSpelled(v);
    if CsvLine(u) == CsvLine(v) {
      LineTellsCells(Row(u), Row(v));
    }
  }

  lemma {:induction false} SheetMore(vs: seq<Value>, v: Value)
    ensures Sheet(vs + [v]) == Sheet(vs) + (CsvLine(v) + [NEWLINE])
  {
    hide CsvLine;
    if vs == [] {
      assert vs + [v] == [v] && [v][1..] == [];
    } else {
      assert (vs + [v])[1..] == vs[1..] + [v];
      SheetMore(vs[1..], v);
    }
  }
}
