/**
 * The per-key accumulation of `process_csv` as a fold over the input rows. Each row
 * is routed to the key of its directory; the keyed table (a `defaultdict` whose
 * fresh entry is zero bytes, no directories, zero files) gets the row's bytes
 * added, its directory string put in the entry's set, and its file count bumped.
 * Keys are remembered in the order they were first seen (dict insertion order).
 */
module Aggregation {
  import Lengths
  import Paths

  /** One inventory row: the two columns the summary reads, as text. */
  datatype Row = Row(directoryName: string, length: string)

  /**
   * What one row brings to the table: the key its directory decomposes to, the
   * directory string itself and its parsed byte count.
   */
  datatype Contribution = Contribution(key: Paths.FolderKey, directory: string, size: nat)

  /** Running totals for one key. */
  datatype Stats = Stats(size: nat, subfolders: set<string>, files: nat)

  /** The entry a `defaultdict` access creates for a key not seen before. */
  const Fresh: Stats := Stats(0, {}, 0)

  /** The first half of an iteration of the row loop: parse the length, decompose the path. */
  function Extract(row: Row): Contribution {
    Contribution(Paths.Decompose(row.directoryName), row.directoryName, Lengths.ParseLength(row.length))
  }

  /** The contributions of `rows`, in order. */
  function Extracts(rows: seq<Row>): (cs: seq<Contribution>)
    ensures |cs| == |rows|
    ensures forall i :: 0 <= i < |rows| ==> cs[i] == Extract(rows[i])
  {
    if |rows| == 0 then [] else Extracts(rows[..|rows| - 1]) + [Extract(rows[|rows| - 1])]
  }

  /** One contribution added to the entry of its key. */
  function Add(s: Stats, c: Contribution): Stats {
    Stats(s.size + c.size, s.subfolders + {c.directory}, s.files + 1)
  }

  /** Reading the table as a `defaultdict`. */
  function Lookup(table: map<Paths.FolderKey, Stats>, k: Paths.FolderKey): Stats {
    if k in table then table[k] else Fresh
  }

  /** Ingesting one contribution touches the entry of its key and no other. */
  function Step(table: map<Paths.FolderKey, Stats>, c: Contribution): (t: map<Paths.FolderKey, Stats>)
    ensures t.Keys == table.Keys + {c.key}
    ensures forall k :: k in table && k != c.key ==> t[k] == table[k]
    ensures c.key !in table ==> t[c.key] == Add(Fresh, c)
    ensures c.key in table ==> t[c.key] == Add(table[c.key], c)
  {
    table[c.key := Add(Lookup(table, c.key), c)]
  }

  /** The table after adding the contributions `cs` in order, starting from an empty one. */
  function Aggregate(cs: seq<Contribution>): map<Paths.FolderKey, Stats> {
    if |cs| == 0 then map[]
    else Step(Aggregate(cs[..|cs| - 1]), cs[|cs| - 1])
  }

  /** The keys of `Aggregate(cs)` in the order they were first created. */
  function KeyOrder(cs: seq<Contribution>): seq<Paths.FolderKey> {
    if |cs| == 0 then []
    else
      var init := cs[..|cs| - 1];
      var k := cs[|cs| - 1].key;
      if k in Aggregate(init) then KeyOrder(init) else KeyOrder(init) + [k]
  }

  /** One more contribution is one more step of the fold. */
  lemma AggregateSnoc(cs: seq<Contribution>, c: Contribution)
    ensures Aggregate(cs + [c]) == Step(Aggregate(cs), c)
    ensures KeyOrder(cs + [c]) ==
      if c.key in Aggregate(cs) then KeyOrder(cs) else KeyOrder(cs) + [c.key]
  {
    assert (cs + [c])[..|cs|] == cs;
  }

  // Reference definitions: what each entry should hold, stated per key.

  /** The contributions routed to key `k`, in input order. */
  function Routed(cs: seq<Contribution>, k: Paths.FolderKey): (rs: seq<Contribution>)
  {
    if |cs| == 0 then []
    else
      var init := Routed(cs[..|cs| - 1], k);
      if cs[|cs| - 1].key == k then init + [cs[|cs| - 1]] else init
  }

  /** The sum of the byte counts of `rs`. */
  function TotalSize(rs: seq<Contribution>): nat {
    if |rs| == 0 then 0
    else TotalSize(rs[..|rs| - 1]) + rs[|rs| - 1].size
  }

  /** The distinct directory strings of `rs`. */
  function Directories(rs: seq<Contribution>): set<string> {
    set i | 0 <= i < |rs| :: rs[i].directory
  }

  lemma DirectoriesSnoc(rs: seq<Contribution>, r: Contribution)
    ensures Directories(rs + [r]) == Directories(rs) + {r.directory}
  {
    var xs := rs + [r];
    assert xs[|rs|] == r;
    forall d | d in Directories(rs) ensures d in Directories(xs) {
      var i :| 0 <= i < |rs| && rs[i].directory == d;
      assert xs[i] == rs[i];
    }
  }

  /** The key of every contribution is in the table. */
  lemma {:induction false} ContributedKeysPresent(cs: seq<Contribution>)
    ensures forall p :: 0 <= p < |cs| ==> cs[p].key in Aggregate(cs)
  {
    if |cs| > 0 {
      var init := cs[..|cs| - 1];
      var r := cs[|cs| - 1];
      ContributedKeysPresent(init);
      assert Aggregate(cs) == Step(Aggregate(init), r);
      forall p | 0 <= p < |cs| ensures cs[p].key in Aggregate(cs) {
        if p < |init| {
          assert cs[p] == init[p];
          assert init[p].key in Aggregate(init);
        } else {
          assert cs[p] == r;
        }
      }
    }
  }

  /** Every key of the table is the key of some contribution. */
  lemma {:induction false} PresentKeysSeen(cs: seq<Contribution>, k: Paths.FolderKey)
    requires k in Aggregate(cs)
    ensures exists p :: 0 <= p < |cs| && cs[p].key == k
  {
    var init := cs[..|cs| - 1];
    var r := cs[|cs| - 1];
    assert Aggregate(cs) == Step(Aggregate(init), r);
    if k in Aggregate(init) {
      PresentKeysSeen(init, k);
      var p :| 0 <= p < |init| && init[p].key == k;
      assert cs[p] == init[p];
    } else {
      assert cs[|cs| - 1].key == k;
    }
  }

  /**
   * Each entry holds exactly what its contributions bring: the sum of their parsed
   * lengths, the set of their directory strings and their number; a key has an
   * entry exactly when some contribution is routed to it.
   */
  lemma {:induction false} AggregateIsPerKeyTotals(cs: seq<Contribution>, k: Paths.FolderKey)
    ensures k in Aggregate(cs) <==> Routed(cs, k) != []
    ensures k in Aggregate(cs) ==>
      Aggregate(cs)[k] == Stats(TotalSize(Routed(cs, k)), Directories(Routed(cs, k)), |Routed(cs, k)|)
  {
    if |cs| > 0 {
      var init := cs[..|cs| - 1];
      var r := cs[|cs| - 1];
      AggregateIsPerKeyTotals(init, k);
      if r.key == k {
        var rs := Routed(init, k);
        assert (rs + [r])[..|rs|] == rs;
        DirectoriesSnoc(rs, r);
        if k !in Aggregate(init) {
          assert rs == [];
          assert Directories(rs) == {};
        }
      }
    }
  }

  lemma {:induction false} DirectoriesBound(rs: seq<Contribution>)
    ensures |Directories(rs)| <= |rs|
    ensures rs != [] ==> rs[0].directory in Directories(rs)
  {
    if |rs| > 0 {
      var init := rs[..|rs| - 1];
      DirectoriesBound(init);
      assert init + [rs[|rs| - 1]] == rs;
      DirectoriesSnoc(init, rs[|rs| - 1]);
    }
  }

  /**
   * An entry's subfolder count (the number of distinct directory strings among
   * its contributions) is at least one and at most its file count.
   */
  lemma SubfolderBounds(cs: seq<Contribution>, k: Paths.FolderKey)
    requires k in Aggregate(cs)
    ensures 1 <= |Aggregate(cs)[k].subfolders| <= Aggregate(cs)[k].files
  {
    AggregateIsPerKeyTotals(cs, k);
    DirectoriesBound(Routed(cs, k));
  }

  /** The first contribution routed to `k` is contribution `p`. */
  ghost predicate FirstSeenAt(cs: seq<Contribution>, k: Paths.FolderKey, p: int) {
    0 <= p < |cs| && cs[p].key == k && forall q :: 0 <= q < p ==> cs[q].key != k
  }

  /**
   * The key order lists each key of the table exactly once, and a key comes
   * before another exactly as its first contribution comes before the other's first contribution.
   */
  lemma {:induction false} KeyOrderIsFirstSeen(cs: seq<Contribution>)
    ensures forall i, j :: 0 <= i < j < |KeyOrder(cs)| ==> KeyOrder(cs)[i] != KeyOrder(cs)[j]
    ensures forall k :: k in KeyOrder(cs) <==> k in Aggregate(cs)
    ensures forall i, j, p, q ::
      0 <= i < j < |KeyOrder(cs)| && FirstSeenAt(cs, KeyOrder(cs)[i], p) && FirstSeenAt(cs, KeyOrder(cs)[j], q)
      ==> p < q
  {
    if |cs| > 0 {
      var init := cs[..|cs| - 1];
      var r := cs[|cs| - 1];
      var order := KeyOrder(init);
      KeyOrderIsFirstSeen(init);
      ContributedKeysPresent(init);
      // A key already in the table was first seen within `init`.
      forall a, p | a in Aggregate(init) && FirstSeenAt(cs, a, p)
        ensures p < |init| && FirstSeenAt(init, a, p)
      {
        PresentKeysSeen(init, a);
        var p0 :| 0 <= p0 < |init| && init[p0].key == a;
        assert cs[p0] == init[p0];
        forall q | 0 <= q < p ensures init[q].key != a {
          assert cs[q] == init[q];
        }
      }
      if r.key !in Aggregate(init) {
        // Only the last contribution carries the new key.
        forall q | 0 <= q < |init| ensures cs[q].key != r.key {
          assert cs[q] == init[q];
        }
      }
    }
  }

  // Totals over all keys.

  datatype Field = Bytes | Files

  function Measure(s: Stats, f: Field): nat {
    match f
    case Bytes => s.size
    case Files => s.files
  }

  /** The sum of one field over the entries of `keys`. */
  function SumOver(keys: seq<Paths.FolderKey>, table: map<Paths.FolderKey, Stats>, f: Field): nat {
    if |keys| == 0 then 0
    else SumOver(keys[..|keys| - 1], table, f) + Measure(Lookup(table, keys[|keys| - 1]), f)
  }

  /** Replacing the entry of a key listed once in `keys` changes the sum by the difference. */
  lemma {:induction false} SumOverUpdate(keys: seq<Paths.FolderKey>, table: map<Paths.FolderKey, Stats>,
                                         k: Paths.FolderKey, v: Stats, f: Field)
    requires forall i, j :: 0 <= i < j < |keys| ==> keys[i] != keys[j]
    ensures k !in keys ==> SumOver(keys, table[k := v], f) == SumOver(keys, table, f)
    ensures k in keys ==>
      SumOver(keys, table[k := v], f) + Measure(Lookup(table, k), f) == SumOver(keys, table, f) + Measure(v, f)
  {
    if |keys| > 0 {
      var init := keys[..|keys| - 1];
      SumOverUpdate(init, table, k, v, f);
      if keys[|keys| - 1] == k {
        assert k !in init;
      } else {
        assert k in keys ==> k in init;
      }
    }
  }

  /**
   * Over all keys, the file counts add up to the number of contributions and the byte
   * totals add up to the parsed lengths of all contributions.
   */
  lemma {:induction false} TotalsAddUp(cs: seq<Contribution>)
    ensures SumOver(KeyOrder(cs), Aggregate(cs), Files) == |cs|
    ensures SumOver(KeyOrder(cs), Aggregate(cs), Bytes) == TotalSize(cs)
  {
    if |cs| > 0 {
      var init := cs[..|cs| - 1];
      var r := cs[|cs| - 1];
      var k := r.key;
      var t := Aggregate(init);
      var v := Add(Lookup(t, k), r);
      TotalsAddUp(init);
      KeyOrderIsFirstSeen(init);
      SumOverUpdate(KeyOrder(init), t, k, v, Files);
      SumOverUpdate(KeyOrder(init), t, k, v, Bytes);
      if k !in t {
        var order := KeyOrder(init) + [k];
        assert order[..|order| - 1] == KeyOrder(init);
      }
    }
  }
}
