/**
 * `findLargestDirectories(topDir, topN)` of findLargestDirs.js: aggregate the
 * tree under `topDir` into a fresh size map, then rank the map's entries.
 * The report text, its file and the timing are not part of this model.
 */
module FindLargestDirs {
  import opened Aggregator
  import opened Ranker

  /**
   * The ranked list the report is made from: the largest written
   * directories, at most `topN`, each reaching the threshold.
   */
  method FindLargestDirectories(topDir: Path, root: Listing, topN: nat)
    returns (sortedDirs: seq<Item<Path>>)
    ensures IsTopN(sortedDirs, Recorded(topDir, root), topN)
    ensures forall i :: 0 <= i < |sortedDirs| ==> sortedDirs[i].1 >= MinSizeThreshold
  {
    var dirSizes := new DirSizes();
    var _ := GetDirectorySize(topDir, root, dirSizes);
    assert dirSizes.sizes == Recorded(topDir, root);
    var items := dirSizes.Entries();
    sortedDirs := Rank(items, topN);
    RankIsTopN(items, dirSizes.sizes, topN);
    RecordedAtLeastThreshold(topDir, root);
  }

  /**
   * Three written directories of sizes x > y > z and `topN` 2: whatever
   * order the map was filled in, the report lists the x and the y
   * directories, in that order, and leaves out the z one.
   */
  lemma TopTwoOfThree(items: seq<Item<Path>>, a: Path, b: Path, c: Path, x: nat, y: nat, z: nat)
    requires a != b && b != c && a != c
    requires x > y > z
    requires ListsMap(items, map[a := x, b := y, c := z])
    ensures Rank(items, 2) == [(a, x), (b, y)]
  {
    RankIsTopN(items, map[a := x, b := y, c := z], 2);
    OnlyTopTwo(Rank(items, 2), a, b, c, x, y, z);
  }

  /** The one list that meets the report's promises for those three directories. */
  lemma OnlyTopTwo(r: seq<Item<Path>>, a: Path, b: Path, c: Path, x: nat, y: nat, z: nat)
    requires a != b && b != c && a != c
    requires x > y > z
    requires IsTopN(r, map[a := x, b := y, c := z], 2)
    ensures r == [(a, x), (b, y)]
  {
    var m := map[a := x, b := y, c := z];
    assert m.Keys == {a, b, c};
    assert |m| == 3;
    assert KeysOf(r) == {r[0].0, r[1].0};
    assert r[0].0 in m && r[1].0 in m;
    assert r[0].1 == m[r[0].0] && r[1].1 == m[r[1].0];
    assert r[0].1 >= r[1].1;
    KeptIfLarger(r, m, 2, a);
    KeptIfLarger(r, m, 2, b);
    assert r[0] == (a, x) && r[1] == (b, y);
    assert r == [(a, x), (b, y)];
  }

  /** A directory larger than the last kept one is kept. */
  lemma KeptIfLarger(r: seq<Item<Path>>, m: map<Path, nat>, topN: nat, k: Path)
    requires IsTopN(r, m, topN) && k in m && |r| > 0
    ensures m[k] > r[|r| - 1].1 ==> k in KeysOf(r)
  {
  }

  /** The case of the 700, 600 and 550 MiB directories. */
  lemma TopTwoOfThreeMiB(items: seq<Item<Path>>, a: Path, b: Path, c: Path)
    requires a != b && b != c && a != c
    requires ListsMap(items, map[a := 700 * 1024 * 1024, b := 600 * 1024 * 1024, c := 550 * 1024 * 1024])
    ensures Rank(items, 2) == [(a, 700 * 1024 * 1024), (b, 600 * 1024 * 1024)]
  {
    TopTwoOfThree(items, a, b, c, 700 * 1024 * 1024, 600 * 1024 * 1024, 550 * 1024 * 1024);
  }
}
