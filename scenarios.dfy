/**
 * The model's results on small inputs, proved: the value of a few `Length` strings,
 * the keys of a few paths, and the entry a small extract produces.
 */
module Scenarios {
  import Lengths
  import Paths
  import opened Aggregation

  /** `"100"` and `"200"` are byte counts; `"abc"`, `""` and `"-5"` contribute nothing. */
  lemma LengthExamples()
    ensures Lengths.ParseLength("100") == 100 && Lengths.ParseLength("200") == 200
    ensures Lengths.ParseLength("abc") == 0 && Lengths.ParseLength("") == 0 && Lengths.ParseLength("-5") == 0
  {
    assert Lengths.IsDecimal("100") && Lengths.IsDecimal("200");
    assert "100"[..2] == "10" && "10"[..1] == "1" && "1"[..0] == "";
    assert "200"[..2] == "20" && "20"[..1] == "2" && "2"[..0] == "";
    assert !Lengths.IsDigit("abc"[0]) && !Lengths.IsDigit("-5"[0]);
  }

  /**
   * The same directory twice: one entry, the two byte counts added, one distinct
   * directory string, two files.
   */
  lemma SameDirectoryTwice(directory: string, first: string, second: string)
    ensures var cs := Extracts([Row(directory, first), Row(directory, second)]);
      Aggregate(cs) == map[Paths.Decompose(directory) :=
        Stats(Lengths.ParseLength(first) + Lengths.ParseLength(second), {directory}, 2)]
      && KeyOrder(cs) == [Paths.Decompose(directory)]
  {
    var rows := [Row(directory, first), Row(directory, second)];
    var cs := Extracts(rows);
    var k := Paths.Decompose(directory);
    assert cs[0] == Contribution(k, directory, Lengths.ParseLength(first));
    assert cs[1] == Contribution(k, directory, Lengths.ParseLength(second));
    AggregateSnoc([], cs[0]);
    assert [] + [cs[0]] == cs[..1];
    assert Aggregate([]) == map[];
    assert Step(map[], cs[0]) == map[k := Add(Fresh, cs[0])];
    assert {} + {directory} == {directory};
    assert Aggregate(cs[..1]) == map[k := Stats(Lengths.ParseLength(first), {directory}, 1)];
    AggregateSnoc(cs[..1], cs[1]);
    assert cs[..1] + [cs[1]] == cs;
    assert {directory} + {directory} == {directory};
  }

  /** The extract of one row `"100"` and one row `"abc"` of the same directory holds 100 bytes and 2 files. */
  lemma DegradedLengthStillCounts(directory: string)
    ensures var cs := Extracts([Row(directory, "100"), Row(directory, "abc")]);
      Aggregate(cs)[Paths.Decompose(directory)] == Stats(100, {directory}, 2)
  {
    LengthExamples();
    SameDirectoryTwice(directory, "100", "abc");
  }
}
