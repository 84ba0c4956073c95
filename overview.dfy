/**
 * `process_csv` as the program runs it: an aggregator object whose keyed table is
 * updated in place row by row, a loop that builds the output rows from the table
 * in key insertion order, and a loop that writes one line per output row.
 */
module Overview {
  import Lengths
  import Paths
  import opened Aggregation
  import opened Output

  /** The `folder_data` dictionary together with its key insertion order. */
  class Aggregator {
    var folderData: map<Paths.FolderKey, Stats>
    var keyOrder: seq<Paths.FolderKey>
    /** What the rows ingested so far contributed, in order. */
    ghost var ingested: seq<Contribution>

    ghost predicate Valid()
      reads this
    {
      folderData == Aggregate(ingested) && keyOrder == KeyOrder(ingested)
    }

    constructor ()
      ensures Valid() && ingested == []
      ensures folderData == map[] && keyOrder == []
    {
      folderData := map[];
      keyOrder := [];
      ingested := [];
    }

    /**
     * One iteration of the row loop: the row's bytes are added to the entry of its
     * key, its directory string is put in the entry's set and its file count goes
     * up by one; an unseen key first gets a fresh entry and joins the key order.
     * No other entry changes.
     */
    method Ingest(row: Row)
      requires Valid()
      modifies this
      ensures Valid() && ingested == old(ingested) + [Extract(row)]
      ensures folderData.Keys == old(folderData).Keys + {Extract(row).key}
      ensures forall k :: k in old(folderData) && k != Extract(row).key ==> folderData[k] == old(folderData)[k]
      ensures folderData[Extract(row).key] == Add(Lookup(old(folderData), Extract(row).key), Extract(row))
      ensures keyOrder == if Extract(row).key in old(folderData) then old(keyOrder) else old(keyOrder) + [Extract(row).key]
    {
      var c := Extract(row);
      var key := c.key;
      var entry := Fresh;
      if key in folderData {
        entry := folderData[key];
      } else {
        keyOrder := keyOrder + [key];
      }
      folderData := folderData[key := Add(entry, c)];
      AggregateSnoc(ingested, c);
      ingested := ingested + [c];
    }

    /** The output loop: the header, then one row per key in insertion order. */
    method Finalize() returns (outputRows: seq<seq<Cell>>)
      requires Valid()
      ensures outputRows == Summary(ingested)
    {
      var order, table := keyOrder, folderData;
      assert forall k :: k in order ==> k in table by {
        KeyOrderIsFirstSeen(ingested);
      }
      outputRows := [Header];
      for i := 0 to |order|
        invariant outputRows == [Header] + DataRows(order[..i], table)
      {
        var key := order[i];
        var data := table[key];
        outputRows := outputRows + [DataRow(key, data)];
        assert order[..i + 1][..i] == order[..i];
      }
      assert order[..|order|] == order;
    }
  }

  /** The write loop: one `|`-joined, newline-terminated line per output row. */
  method WriteSummary(outputRows: seq<seq<Cell>>, gb: nat -> string) returns (text: string)
    ensures text == RenderAll(outputRows, gb)
  {
    text := "";
    for i := 0 to |outputRows|
      invariant text == RenderAll(outputRows[..i], gb)
    {
      text := text + RenderLine(outputRows[i], gb);
      assert outputRows[..i + 1][..i] == outputRows[..i];
    }
    assert outputRows[..|outputRows|] == outputRows;
  }

  /**
   * `process_csv` from the parsed rows to the text of the output file; `gb`
   * renders the rounded gigabyte figure of a byte total.
   */
  method ProcessCsv(rows: seq<Row>, gb: nat -> string) returns (text: string)
    ensures text == RenderAll(Summary(Extracts(rows)), gb)
  {
    var aggregator := new Aggregator();
    for i := 0 to |rows|
      invariant aggregator.Valid() && aggregator.ingested == Extracts(rows[..i])
    {
      aggregator.Ingest(rows[i]);
      assert rows[..i + 1][..i] == rows[..i];
    }
    assert rows[..|rows|] == rows;
    var outputRows := aggregator.Finalize();
    text := WriteSummary(outputRows, gb);
  }
}
