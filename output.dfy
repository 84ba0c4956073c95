/**
 * The summary table and its text form. The table is a header row followed by one
 * row per key in first-seen order; each row is six cells. A line of the output
 * file is the `str()` of each cell joined with `|` and terminated by a newline,
 * with no quoting.
 */
module Output {
  import Strings
  import Lengths
  import Paths
  import opened Aggregation

  /** The server name every data row carries; it is fixed, not read from the data. */
  const Server: string := "SGSIN021MF6001P"

  /**
   * One cell of an output row. The `Data(GB)` cell keeps the byte total it is
   * computed from; its text is supplied by the caller as `gb`.
   */
  datatype Cell = Text(text: string) | Count(n: nat) | Gigabytes(bytes: nat)

  const Header: seq<Cell> := [Text("Server_Name"), Text("Drive"), Text("Top Level Folder"),
                              Text("Data(GB)"), Text("Number of SubFolders"), Text("Number of Files")]

  /** The output row of one key. */
  function DataRow(k: Paths.FolderKey, s: Stats): seq<Cell> {
    [Text(Server), Text(k.drive), Text(k.topLevel), Gigabytes(s.size), Count(|s.subfolders|), Count(s.files)]
  }

  /** The output rows of `keys`, in that order. */
  function DataRows(keys: seq<Paths.FolderKey>, table: map<Paths.FolderKey, Stats>): (out: seq<seq<Cell>>)
    ensures |out| == |keys|
  {
    if |keys| == 0 then []
    else DataRows(keys[..|keys| - 1], table) + [DataRow(keys[|keys| - 1], Lookup(table, keys[|keys| - 1]))]
  }

  /** The whole `output_rows` list for the given contributions. */
  function Summary(cs: seq<Contribution>): seq<seq<Cell>> {
    [Header] + DataRows(KeyOrder(cs), Aggregate(cs))
  }

  lemma {:induction false} DataRowsAt(keys: seq<Paths.FolderKey>, table: map<Paths.FolderKey, Stats>, i: nat)
    requires i < |keys|
    ensures DataRows(keys, table)[i] == DataRow(keys[i], Lookup(table, keys[i]))
  {
    if i < |keys| - 1 {
      DataRowsAt(keys[..|keys| - 1], table, i);
    }
  }

  /** The summary has the header, then one row per distinct key; no contributions give the header alone. */
  lemma SummaryShape(cs: seq<Contribution>)
    ensures |Summary(cs)| == |KeyOrder(cs)| + 1
    ensures Summary(cs)[0] == Header
    ensures cs == [] ==> Summary(cs) == [Header]
  {
  }

  /**
   * Row `i + 1` of the summary belongs to the `i`-th key in first-seen order and
   * carries the fixed server name, the key, the byte total of the key's contributions, the
   * number of distinct directory strings among them, and their number.
   */
  lemma SummaryRowAt(cs: seq<Contribution>, i: nat)
    requires i < |KeyOrder(cs)|
    ensures var k := KeyOrder(cs)[i];
      var rs := Routed(cs, k);
      Summary(cs)[i + 1] == [Text(Server), Text(k.drive), Text(k.topLevel),
                               Gigabytes(TotalSize(rs)), Count(|Directories(rs)|), Count(|rs|)]
  {
    var k := KeyOrder(cs)[i];
    KeyOrderIsFirstSeen(cs);
    assert k in Aggregate(cs);
    DataRowsAt(KeyOrder(cs), Aggregate(cs), i);
    AggregateIsPerKeyTotals(cs, k);
  }

  /** `str()` of a cell; `gb` renders the rounded gigabyte figure of a byte total. */
  function RenderCell(c: Cell, gb: nat -> string): string {
    match c
    case Text(s) => s
    case Count(n) => Lengths.ToDecimal(n)
    case Gigabytes(b) => gb(b)
  }

  function RenderCells(row: seq<Cell>, gb: nat -> string): (r: seq<string>)
    ensures |r| == |row|
    ensures forall i :: 0 <= i < |row| ==> r[i] == RenderCell(row[i], gb)
  {
    seq(|row|, i requires 0 <= i < |row| => RenderCell(row[i], gb))
  }

  /** A line without its terminator: the cells joined with `|`. */
  function LineText(row: seq<Cell>, gb: nat -> string): string {
    Strings.Join(RenderCells(row, gb), '|')
  }

  /** One line of the output file. */
  function RenderLine(row: seq<Cell>, gb: nat -> string): string {
    LineText(row, gb) + "\n"
  }

  /** The whole output file: the lines of `rows`, in order. */
  function RenderAll(rows: seq<seq<Cell>>, gb: nat -> string): string {
    if |rows| == 0 then ""
    else RenderAll(rows[..|rows| - 1], gb) + RenderLine(rows[|rows| - 1], gb)
  }

  /**
   * A line ends with a newline, and as long as no cell's text holds a `|`,
   * splitting the rest of it on `|` gives back exactly the cells' texts: the
   * fields are written bare, unquoted and unescaped.
   */
  lemma LineRoundTrip(row: seq<Cell>, gb: nat -> string)
    requires |row| >= 1
    requires forall i :: 0 <= i < |row| ==> '|' !in RenderCell(row[i], gb)
    ensures var line := RenderLine(row, gb);
      line[|line| - 1] == '\n' && Strings.Split(line[..|line| - 1], '|') == RenderCells(row, gb)
  {
    var line := RenderLine(row, gb);
    assert line[..|line| - 1] == LineText(row, gb);
    Strings.SplitJoin(RenderCells(row, gb), '|');
  }

  /** Counts render as digits, so only the text and gigabyte cells can hold a `|`. */
  lemma CountCellsPlain(n: nat, gb: nat -> string)
    ensures '|' !in RenderCell(Count(n), gb) && '\n' !in RenderCell(Count(n), gb)
  {
    var s := Lengths.ToDecimal(n);
    assert forall i :: 0 <= i < |s| ==> Lengths.IsDigit(s[i]);
  }

  /** The lines of `rows` without their terminators. */
  function Texts(rows: seq<seq<Cell>>, gb: nat -> string): (r: seq<string>)
    ensures |r| == |rows|
    ensures forall i :: 0 <= i < |rows| ==> r[i] == LineText(rows[i], gb)
  {
    if |rows| == 0 then []
    else Texts(rows[..|rows| - 1], gb) + [LineText(rows[|rows| - 1], gb)]
  }

  /**
   * As long as no cell's text holds a newline, splitting the file on newlines
   * gives one piece per row, that row's fields joined with `|`, and then the
   * empty piece after the last terminator.
   */
  lemma FileLines(rows: seq<seq<Cell>>, gb: nat -> string)
    requires forall i, j :: 0 <= i < |rows| && 0 <= j < |rows[i]| ==> '\n' !in RenderCell(rows[i][j], gb)
    ensures Strings.Split(RenderAll(rows, gb), '\n') == Texts(rows, gb) + [""]
  {
    var texts := Texts(rows, gb);
    forall i | 0 <= i < |texts| ensures '\n' !in texts[i] {
      Strings.JoinFree(RenderCells(rows[i], gb), '|', '\n');
    }
    JoinLines(rows, gb);
    Strings.SplitJoin(texts + [""], '\n');
  }

  lemma {:induction false} JoinLines(rows: seq<seq<Cell>>, gb: nat -> string)
    ensures RenderAll(rows, gb) == Strings.Join(Texts(rows, gb) + [""], '\n')
  {
    if |rows| > 0 {
      var init := rows[..|rows| - 1];
      var last := LineText(rows[|rows| - 1], gb);
      var initTexts := Texts(init, gb);
      var texts := Texts(rows, gb);
      assert texts == initTexts + [last];
      assert RenderAll(rows, gb) == RenderAll(init, gb) + (last + "\n");
      assert Strings.Join(texts + [""], '\n') == Strings.Join(texts, '\n') + "\n" by {
        Strings.JoinSnoc(texts, "", '\n');
      }
      if |init| > 0 {
        var front := Strings.Join(initTexts, '\n');
        assert RenderAll(init, gb) == front + "\n" by {
          JoinLines(init, gb);
          Strings.JoinSnoc(initTexts, "", '\n');
        }
        assert Strings.Join(texts, '\n') == front + "\n" + last by {
          Strings.JoinSnoc(initTexts, last, '\n');
        }
      } else {
        assert RenderAll(init, gb) == "";
        assert texts == [last];
      }
    }
  }
}
