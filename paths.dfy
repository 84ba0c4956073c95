/**
 * Decomposition of a `DirectoryName` into the (drive, top-level folder) key of the
 * summary: the path is split on the backslash with nothing stripped; the first two
 * pieces rejoined form the drive and the third is the top-level folder.
 */
module Paths {
  import Strings

  const Sep: char := '\\'
  const NotApplicable: string := "Not Applicable"

  /** The key under which a row is accumulated. */
  datatype FolderKey = FolderKey(drive: string, topLevel: string)

  function Decompose(directory: string): (k: FolderKey)
    ensures k.drive <= directory
    ensures k.topLevel != NotApplicable ==> k.drive + [Sep] + k.topLevel <= directory
    ensures Sep !in directory ==> k == FolderKey(directory, NotApplicable)
  {
    var parts := Strings.Split(directory, Sep);
    assert Sep !in directory ==> parts == [directory] by {
      if Sep !in directory {
        Strings.SplitSegment(directory, Sep);
      }
    }
    if |parts| >= 2 then
      assert parts[0] + [Sep] + parts[1] <= directory by {
        Strings.JoinSplit(directory, Sep);
        Strings.JoinPrefix(parts[1..], Sep);
      }
      assert |parts| > 2 ==> parts[0] + [Sep] + parts[1] + [Sep] + parts[2] <= directory by {
        if |parts| > 2 {
          Strings.JoinSplit(directory, Sep);
          assert parts[1..][1..] == parts[2..];
          Strings.JoinPrefix(parts[2..], Sep);
        }
      }
      FolderKey(parts[0] + [Sep] + parts[1], if |parts| > 2 then parts[2] else NotApplicable)
    else
      FolderKey(directory, NotApplicable)
  }

  /** Two pieces: the drive is the whole path and there is no top-level folder. */
  lemma DecomposeTwoPieces(a: string, b: string)
    requires Sep !in a && Sep !in b
    ensures Decompose(a + [Sep] + b) == FolderKey(a + [Sep] + b, NotApplicable)
  {
    Strings.SplitCons(a, b, Sep);
    Strings.SplitSegment(b, Sep);
  }

  /** The pieces of `a\b\c` followed by nothing or by a separator and more. */
  lemma SplitDeep(a: string, b: string, c: string, tail: string)
    requires Sep !in a && Sep !in b && Sep !in c
    requires tail == [] || tail[0] == Sep
    ensures var parts := Strings.Split(a + [Sep] + b + [Sep] + c + tail, Sep);
      |parts| >= 3 && parts[0] == a && parts[1] == b && parts[2] == c
  {
    var s := a + [Sep] + b + [Sep] + c + tail;
    assert s == a + [Sep] + (b + [Sep] + (c + tail));
    Strings.SplitCons(a, b + [Sep] + (c + tail), Sep);
    Strings.SplitCons(b, c + tail, Sep);
    if tail == [] {
      assert c + tail == c;
      Strings.SplitSegment(c, Sep);
    } else {
      assert c + tail == c + [Sep] + tail[1..];
      Strings.SplitCons(c, tail[1..], Sep);
    }
  }

  /**
   * Three or more pieces: the drive is the first two pieces rejoined and the
   * top-level folder is the third, whatever follows it.
   */
  lemma DecomposeDeep(a: string, b: string, c: string, tail: string)
    requires Sep !in a && Sep !in b && Sep !in c
    requires tail == [] || tail[0] == Sep
    ensures Decompose(a + [Sep] + b + [Sep] + c + tail) == FolderKey(a + [Sep] + b, c)
  {
    SplitDeep(a, b, c, tail);
  }

  /**
   * A path written with a leading `\\` has two empty leading pieces, so its drive
   * is a single backslash and its top-level folder is the UNC host name.
   */
  lemma DecomposeLeadingDoubleBackslash(host: string, tail: string)
    requires Sep !in host
    requires tail == [] || tail[0] == Sep
    ensures Decompose([Sep, Sep] + host + tail) == FolderKey([Sep], host)
  {
    DecomposeDeep("", "", host, tail);
    assert "" + [Sep] + "" + [Sep] + host + tail == [Sep, Sep] + host + tail;
  }
}
