/**
 * The recursive directory-size aggregator of findLargestDirs.js
 * (`getFileSize`, `getDirectorySize`) over an abstract, finite directory tree.
 *
 * The filesystem is replaced by values: a file entry carries the outcome of
 * its stat call, a directory entry the outcome of listing it. Children of a
 * directory are processed one after another in listing order; the source
 * runs them concurrently, but each only adds its size to the running total.
 */
module Aggregator {
  import opened IgnoreFilter
  import Ranker

  /** `MIN_SIZE_THRESHOLD`: 512 MiB. */
  const MinSizeThreshold: nat := 1 * 1024 * 1024 * 512

  /** A directory path, as the list of names from the root given by the caller. */
  type Path = seq<string>

  /** The outcome of `fs.stat` on a file. */
  datatype Stat = Size(bytes: nat) | StatFailed

  /** The outcome of `fs.readdir` on a directory. */
  datatype Listing = Listed(entries: seq<Entry>) | ListFailed

  /** A directory entry: a file, a directory, or anything else (device, socket, symbolic link). */
  datatype Entry =
    | File(name: string, stat: Stat)
    | Dir(name: string, listing: Listing)
    | Other(name: string)

  /** `getFileSize`: the stat size, or 0 when stat fails. */
  function GetFileSize(stat: Stat): (size: nat)
    ensures stat.StatFailed? ==> size == 0
    ensures stat.Size? ==> size == stat.bytes
  {
    match stat
    case Size(bytes) => bytes
    case StatFailed => 0
  }

  /** The ignore checks: an ignored file name on a file, an ignored directory name on a directory. */
  predicate IsSkipped(e: Entry)
  {
    (e.File? && IsIgnoredFileName(e.name)) || (e.Dir? && IsIgnoredDirName(e.name))
  }

  // ---------------------------------------------------------------------------
  // What is counted

  /** What one entry adds to its directory's total. */
  function Contribution(e: Entry): nat
  {
    if IsSkipped(e) then 0
    else match e
      case File(_, stat) => GetFileSize(stat)
      case Dir(_, listing) => DirTotal(listing)
      case Other(_) => 0
  }

  /** The total `getDirectorySize` returns for a directory with this listing outcome. */
  function DirTotal(listing: Listing): nat
  {
    match listing
    case ListFailed => 0
    case Listed(entries) => SumEntries(entries)
  }

  /** The sum of the contributions of a sequence of entries. */
  function SumEntries(es: seq<Entry>): nat
  {
    if es == [] then 0 else SumEntries(es[..|es| - 1]) + Contribution(es[|es| - 1])
  }

  // ---------------------------------------------------------------------------
  // What is recorded

  /**
   * The entries `getDirectorySize(path, ...)` writes into `dirSizes`: those
   * of its subdirectories first, then its own when it reaches the threshold.
   * A later write of the same path wins, as with `Map.set`.
   */
  function Recorded(path: Path, listing: Listing): map<Path, nat>
    decreases listing
  {
    match listing
    case ListFailed => map[]
    case Listed(entries) =>
      var below := RecordedEntries(path, entries);
      var total := SumEntries(entries);
      if total >= MinSizeThreshold then below[path := total] else below
  }

  /** The writes made while processing the entries of the directory at `path`. */
  function RecordedEntries(path: Path, es: seq<Entry>): map<Path, nat>
    decreases es
  {
    if es == [] then map[]
    else RecordedEntries(path, es[..|es| - 1]) + RecordedEntry(path, es[|es| - 1])
  }

  /** The writes made for one entry: only a directory that is not skipped is visited. */
  function RecordedEntry(path: Path, e: Entry): map<Path, nat>
    decreases e
  {
    if e.Dir? && !IsSkipped(e) then Recorded(path + [e.name], e.listing) else map[]
  }

  // ---------------------------------------------------------------------------
  // The shared size map

  /**
   * The `dirSizes` Map: sizes by path, and the keys in insertion order, which
   * is the order `Array.from(dirSizes.entries())` lists them in.
   */
  class DirSizes {
    var keys: seq<Path>
    var sizes: map<Path, nat>

    ghost predicate Valid()
      reads this
    {
      && (forall i, j :: 0 <= i < j < |keys| ==> keys[i] != keys[j])
      && (forall k :: k in sizes <==> k in keys)
    }

    /** `new Map()`. */
    constructor ()
      ensures Valid() && keys == [] && sizes == map[]
    {
      keys := [];
      sizes := map[];
    }

    /** `dirSizes.set(path, size)`: a new key goes last, an existing one keeps its place. */
    method Set(path: Path, size: nat)
      requires Valid()
      modifies this
      ensures Valid()
      ensures sizes == old(sizes)[path := size]
      ensures keys == if path in old(sizes) then old(keys) else old(keys) + [path]
    {
      if path !in sizes {
        keys := keys + [path];
      }
      sizes := sizes[path := size];
    }

    /** `Array.from(dirSizes.entries())`. */
    function Entries(): (items: seq<Ranker.Item<Path>>)
      reads this
      requires Valid()
      ensures Ranker.ListsMap(items, sizes)
    {
      var ks, sz := keys, sizes;
      var items := seq(|ks|, i requires 0 <= i < |ks| && ks[i] in sz => (ks[i], sz[ks[i]]));
      assert forall k :: k in sizes ==> k in Ranker.KeysOf(items) by {
        forall k | k in sizes ensures k in Ranker.KeysOf(items) {
          var i :| 0 <= i < |keys| && keys[i] == k;
          assert items[i].0 == k;
        }
      }
      items
    }
  }

  /**
   * `getDirectorySize(dirPath, dirSizes)`: returns the directory's total and
   * records the totals that reach the threshold, its own included. The order
   * in which new keys enter the map is not stated, since in the source it is
   * the order in which concurrent calls finish.
   */
  method GetDirectorySize(dirPath: Path, listing: Listing, dirSizes: DirSizes) returns (totalSize: nat)
    requires dirSizes.Valid()
    modifies dirSizes
    ensures dirSizes.Valid()
    ensures totalSize == DirTotal(listing)
    ensures dirSizes.sizes == old(dirSizes.sizes) + Recorded(dirPath, listing)
    ensures old(dirSizes.keys) <= dirSizes.keys
    decreases listing
  {
    match listing
    case ListFailed =>
      totalSize := 0;
      MapUnionEmpty(dirSizes.sizes);
    case Listed(entries) =>
      totalSize := 0;
      var i := 0;
      MapUnionEmpty(dirSizes.sizes);
      while i < |entries|
        invariant 0 <= i <= |entries|
        invariant dirSizes.Valid()
        invariant totalSize == SumEntries(entries[..i])
        invariant dirSizes.sizes == old(dirSizes.sizes) + RecordedEntries(dirPath, entries[..i])
        invariant old(dirSizes.keys) <= dirSizes.keys
      {
        var entry := entries[i];
        EntriesStep(dirPath, entries, i);
        ghost var base := old(dirSizes.sizes);
        ghost var rec := RecordedEntries(dirPath, entries[..i]);
        ghost var recEntry := RecordedEntry(dirPath, entry);
        if entry.File? && IsIgnoredFileName(entry.name) {
          // skipped ignored file
          assert recEntry == map[];
          MapUnionEmpty(rec);
        } else if entry.Dir? && IsIgnoredDirName(entry.name) {
          // skipped ignored directory: neither traversed nor counted
          assert recEntry == map[];
          MapUnionEmpty(rec);
        } else if entry.Dir? {
          var size := GetDirectorySize(dirPath + [entry.name], entry.listing, dirSizes);
          totalSize := totalSize + size;
          assert recEntry == Recorded(dirPath + [entry.name], entry.listing);
          MapUnionAssoc(base, rec, recEntry);
        } else if entry.File? {
          var size := GetFileSize(entry.stat);
          totalSize := totalSize + size;
          assert recEntry == map[];
          MapUnionEmpty(rec);
        } else {
          // neither a file nor a directory: contributes nothing
          assert recEntry == map[];
          MapUnionEmpty(rec);
        }
        assert dirSizes.sizes == base + (rec + recEntry);
        i := i + 1;
      }
      assert entries[..i] == entries;
      if totalSize >= MinSizeThreshold {
        MapUnionUpdate(old(dirSizes.sizes), RecordedEntries(dirPath, entries), dirPath, totalSize);
        dirSizes.Set(dirPath, totalSize);
      }
  }

  /** One more entry processed: its contribution is added and its writes applied last. */
  lemma EntriesStep(path: Path, es: seq<Entry>, i: nat)
    requires i < |es|
    ensures SumEntries(es[..i + 1]) == SumEntries(es[..i]) + Contribution(es[i])
    ensures RecordedEntries(path, es[..i + 1]) == RecordedEntries(path, es[..i]) + RecordedEntry(path, es[i])
  {
    assert es[..i + 1][..i] == es[..i];
  }

  /** Merging in an empty map changes nothing. */
  lemma MapUnionEmpty<K, V>(m: map<K, V>)
    ensures m + map[] == m
  {
  }

  /** Map merges regroup freely: later writes win either way. */
  lemma MapUnionAssoc<K, V>(a: map<K, V>, b: map<K, V>, c: map<K, V>)
    ensures a + (b + c) == (a + b) + c
  {
  }

  /** Updating a merged map is updating its later part. */
  lemma MapUnionUpdate<K, V>(a: map<K, V>, b: map<K, V>, k: K, v: V)
    ensures (a + b)[k := v] == a + b[k := v]
  {
  }

  // ---------------------------------------------------------------------------
  // Recording: the threshold decides what is written, never what is counted

  /** Every value written into `dirSizes` reaches the threshold. */
  lemma {:induction false} RecordedAtLeastThreshold(path: Path, listing: Listing)
    ensures forall p :: p in Recorded(path, listing) ==> Recorded(path, listing)[p] >= MinSizeThreshold
    decreases listing, 1
  {
    match listing
    case ListFailed =>
    case Listed(entries) =>
      RecordedEntriesAtLeastThreshold(path, entries);
  }

  lemma {:induction false} RecordedEntriesAtLeastThreshold(path: Path, es: seq<Entry>)
    ensures forall p :: p in RecordedEntries(path, es) ==> RecordedEntries(path, es)[p] >= MinSizeThreshold
    decreases es, 0
  {
    if es != [] {
      var init, e := es[..|es| - 1], es[|es| - 1];
      RecordedEntriesAtLeastThreshold(path, init);
      if e.Dir? && !IsSkipped(e) {
        RecordedAtLeastThreshold(path + [e.name], e.listing);
      }
      var before, last := RecordedEntries(path, init), RecordedEntry(path, e);
      assert RecordedEntries(path, es) == before + last;
      forall p | p in before + last ensures (before + last)[p] >= MinSizeThreshold {
        if p in last {
          assert e.Dir? && !IsSkipped(e);
          assert last == Recorded(path + [e.name], e.listing);
          assert (before + last)[p] == last[p];
        } else {
          assert (before + last)[p] == before[p];
        }
      }
    }
  }

  /** True when `path` is a prefix of `p`. */
  predicate Extends(p: Path, path: Path)
  {
    |p| >= |path| && p[..|path|] == path
  }

  /** Everything written for a directory lies at or below its own path. */
  lemma {:induction false} RecordedKeysExtend(path: Path, listing: Listing)
    ensures forall p :: p in Recorded(path, listing) ==> Extends(p, path)
    decreases listing, 1
  {
    match listing
    case ListFailed =>
    case Listed(entries) =>
      RecordedEntriesKeysBelow(path, entries);
  }

  /** Everything written while processing a directory's entries lies strictly below it. */
  lemma {:induction false} RecordedEntriesKeysBelow(path: Path, es: seq<Entry>)
    ensures forall p :: p in RecordedEntries(path, es) ==> Extends(p, path) && |p| > |path|
    decreases es, 0
  {
    if es != [] {
      var e := es[|es| - 1];
      RecordedEntriesKeysBelow(path, es[..|es| - 1]);
      if e.Dir? && !IsSkipped(e) {
        var child := path + [e.name];
        RecordedKeysExtend(child, e.listing);
        forall p | p in Recorded(child, e.listing) ensures Extends(p, path) && |p| > |path| {
          assert p[..|path|] == p[..|child|][..|path|];
        }
      }
    }
  }

  /**
   * A directory is written under its own path exactly when it could be
   * listed and its total reaches the threshold, and then with that total.
   */
  lemma OwnRecordIffThreshold(path: Path, listing: Listing)
    ensures path in Recorded(path, listing) <==> listing.Listed? && DirTotal(listing) >= MinSizeThreshold
    ensures path in Recorded(path, listing) ==> Recorded(path, listing)[path] == DirTotal(listing)
  {
    match listing
    case ListFailed =>
    case Listed(entries) =>
      RecordedEntriesKeysBelow(path, entries);
  }

  /** Sibling entries carry distinct names, as entries of one directory do. */
  predicate UniqueNames(es: seq<Entry>)
  {
    forall i, j :: 0 <= i < j < |es| ==> es[i].name != es[j].name
  }

  /** True when `p` lies below the entry called `name` of the directory at `path`. */
  predicate UnderChild(p: Path, path: Path, name: string)
  {
    |p| > |path| && p[|path|] == name
  }

  /**
   * Under the path of one entry, what the directory's entries write is
   * exactly what that entry writes: siblings write elsewhere.
   */
  lemma {:induction false} RecordedUnderChild(path: Path, es: seq<Entry>, i: nat)
    requires UniqueNames(es) && i < |es|
    ensures forall p :: UnderChild(p, path, es[i].name) ==>
              (p in RecordedEntries(path, es) <==> p in RecordedEntry(path, es[i]))
    ensures forall p :: UnderChild(p, path, es[i].name) && p in RecordedEntry(path, es[i]) ==>
              RecordedEntries(path, es)[p] == RecordedEntry(path, es[i])[p]
    decreases es
  {
    var n := |es| - 1;
    var init, e := es[..n], es[n];
    assert UniqueNames(init);
    assert RecordedEntries(path, es) == RecordedEntries(path, init) + RecordedEntry(path, e);
    if i < n {
      RecordedUnderChild(path, init, i);
      assert init[i] == es[i];
      SiblingWritesElsewhere(path, e, es[i].name);
    } else {
      NothingUnderLaterSibling(path, init, e.name);
    }
  }

  /** A directory entry writes nothing under the path of a sibling with another name. */
  lemma SiblingWritesElsewhere(path: Path, e: Entry, name: string)
    requires e.name != name
    ensures forall p :: UnderChild(p, path, name) ==> p !in RecordedEntry(path, e)
  {
    if e.Dir? && !IsSkipped(e) {
      RecordedKeysExtend(path + [e.name], e.listing);
      forall p | UnderChild(p, path, name) ensures p !in Recorded(path + [e.name], e.listing) {
        if p in Recorded(path + [e.name], e.listing) {
          ChildComponent(p, path, e.name);
        }
      }
    }
  }

  /** Entries whose names all differ from `name` write nothing under `path + [name]`. */
  lemma NothingUnderLaterSibling(path: Path, es: seq<Entry>, name: string)
    requires forall k :: 0 <= k < |es| ==> es[k].name != name
    ensures forall p :: UnderChild(p, path, name) ==> p !in RecordedEntries(path, es)
  {
    forall p | UnderChild(p, path, name) ensures p !in RecordedEntries(path, es) {
      if p in RecordedEntries(path, es) {
        RecordedEntriesOwner(path, es, p);
      }
    }
  }

  /** A key written by a directory's entries lies under the entry of one of them. */
  lemma {:induction false} RecordedEntriesOwner(path: Path, es: seq<Entry>, p: Path)
    requires p in RecordedEntries(path, es)
    ensures exists k :: 0 <= k < |es| && UnderChild(p, path, es[k].name)
    decreases es
  {
    var n := |es| - 1;
    var e := es[n];
    if e.Dir? && !IsSkipped(e) && p in Recorded(path + [e.name], e.listing) {
      RecordedKeysExtend(path + [e.name], e.listing);
      ChildComponent(p, path, e.name);
    } else {
      RecordedEntriesOwner(path, es[..n], p);
      var k :| 0 <= k < n && UnderChild(p, path, es[..n][k].name);
      assert UnderChild(p, path, es[k].name);
    }
  }

  /** A path at or below `path + [name]` has `name` right after `path`. */
  lemma ChildComponent(p: Path, path: Path, name: string)
    requires Extends(p, path + [name])
    ensures UnderChild(p, path, name)
  {
  }

  /**
   * A subdirectory is written under its own path exactly when it is not
   * ignored, could be listed and reaches the threshold; an ignored one has
   * nothing written anywhere below it, since it is never visited.
   */
  lemma ChildRecordIffThreshold(path: Path, es: seq<Entry>, i: nat)
    requires UniqueNames(es) && i < |es| && es[i].Dir?
    ensures var child := path + [es[i].name];
            child in RecordedEntries(path, es) <==>
              !IsSkipped(es[i]) && es[i].listing.Listed? && DirTotal(es[i].listing) >= MinSizeThreshold
    ensures IsSkipped(es[i]) ==> forall p :: UnderChild(p, path, es[i].name) ==> p !in RecordedEntries(path, es)
  {
    var child := path + [es[i].name];
    RecordedUnderChild(path, es, i);
    assert UnderChild(child, path, es[i].name);
    OwnRecordIffThreshold(child, es[i].listing);
  }

  /**
   * The threshold gates recording only: a subdirectory that is not ignored
   * adds its whole total to its parent, whether or not it was written.
   */
  lemma BelowThresholdChildStillCounted(path: Path, es: seq<Entry>, i: nat)
    requires UniqueNames(es) && i < |es| && es[i].Dir? && !IsSkipped(es[i])
    requires DirTotal(es[i].listing) < MinSizeThreshold
    ensures path + [es[i].name] !in RecordedEntries(path, es)
    ensures SumEntries(es) >= DirTotal(es[i].listing)
    ensures SumEntries(es) == SumEntries(es[..i]) + DirTotal(es[i].listing) + SumEntries(es[i + 1..])
  {
    ChildRecordIffThreshold(path, es, i);
    SplitAt(es, i);
  }

  // ---------------------------------------------------------------------------
  // Counting: conservation, order independence, failure isolation

  /** Summing two runs of entries one after the other adds their sums. */
  lemma {:induction false} SumEntriesAppend(a: seq<Entry>, b: seq<Entry>)
    ensures SumEntries(a + b) == SumEntries(a) + SumEntries(b)
    decreases |b|
  {
    if b != [] {
      var n := |b| - 1;
      assert (a + b)[..|a + b| - 1] == a + b[..n];
      assert (a + b)[|a + b| - 1] == b[n];
      SumEntriesAppend(a, b[..n]);
      assert SumEntries(a + b) == SumEntries(a + b[..n]) + Contribution(b[n]);
    } else {
      assert a + b == a;
    }
  }

  /** A directory's total splits around any one of its entries. */
  lemma SplitAt(es: seq<Entry>, i: nat)
    requires i < |es|
    ensures SumEntries(es) == SumEntries(es[..i]) + Contribution(es[i]) + SumEntries(es[i + 1..])
  {
    assert es == es[..i + 1] + es[i + 1..];
    SumEntriesAppend(es[..i + 1], es[i + 1..]);
    EntriesStep([], es, i);
  }

  /**
   * The total does not depend on the order the entries are summed in, so
   * the order in which concurrent children finish cannot change it.
   */
  lemma {:induction false} SumEntriesPermutation(a: seq<Entry>, b: seq<Entry>)
    requires multiset(a) == multiset(b)
    ensures SumEntries(a) == SumEntries(b)
    decreases |a|
  {
    if a != [] {
      var n := |a| - 1;
      var init, x := a[..n], a[n];
      assert a == init + [x];
      assert x in multiset(b);
      var j :| 0 <= j < |b| && b[j] == x;
      var left, right := b[..j], b[j + 1..];
      assert b == left + [x] + right;
      calc {
        multiset(init) + multiset{x};
        multiset(a);
        multiset(b);
        multiset(left) + multiset{x} + multiset(right);
        multiset(left + right) + multiset{x};
      }
      assert multiset(init) == (multiset(init) + multiset{x}) - multiset{x};
      assert multiset(left + right) == (multiset(left + right) + multiset{x}) - multiset{x};
      SumEntriesPermutation(init, left + right);
      SplitAt(b, j);
      SumEntriesAppend(left, right);
      assert SumEntries(a) == SumEntries(init) + Contribution(x);
    } else {
      assert b == [];
    }
  }

  /** An entry whose stat or listing failed: a failed file or directory contributes 0. */
  function Failed(e: Entry): (f: Entry)
    ensures f.name == e.name
    ensures Contribution(f) == 0
  {
    match e
    case File(name, _) => File(name, StatFailed)
    case Dir(name, _) => Dir(name, ListFailed)
    case Other(name) => Other(name)
  }

  /**
   * Failure isolation: when one entry's stat or listing fails, the
   * directory's total loses exactly what that entry contributed, and every
   * sibling still counts in full.
   */
  lemma FailureIsolation(es: seq<Entry>, i: nat)
    requires i < |es|
    ensures SumEntries(es[i := Failed(es[i])]) + Contribution(es[i]) == SumEntries(es)
  {
    var fs := es[i := Failed(es[i])];
    SplitAt(es, i);
    SplitAt(fs, i);
    assert fs[..i] == es[..i] && fs[i + 1..] == es[i + 1..];
  }

  /** The sum of a sequence of sizes. */
  function Sum(s: seq<nat>): nat
  {
    if s == [] then 0 else Sum(s[..|s| - 1]) + s[|s| - 1]
  }

  /**
   * The sizes of the files a traversal counts, in listing order: files that
   * are not ignored, reached through directories that are not ignored and
   * could be listed; a file whose stat failed counts as 0.
   */
  function CountedFileSizes(listing: Listing): seq<nat>
  {
    match listing
    case ListFailed => []
    case Listed(entries) => CountedFileSizesOf(entries)
  }

  function CountedFileSizesOf(es: seq<Entry>): seq<nat>
  {
    if es == [] then [] else CountedFileSizesOf(es[..|es| - 1]) + CountedFileSizesIn(es[|es| - 1])
  }

  function CountedFileSizesIn(e: Entry): seq<nat>
  {
    if IsSkipped(e) then []
    else match e
      case File(_, stat) => [GetFileSize(stat)]
      case Dir(_, listing) => CountedFileSizes(listing)
      case Other(_) => []
  }

  lemma {:induction false} SumAppend(a: seq<nat>, b: seq<nat>)
    ensures Sum(a + b) == Sum(a) + Sum(b)
    decreases |b|
  {
    if b != [] {
      var n := |b| - 1;
      assert (a + b)[..|a + b| - 1] == a + b[..n];
      assert (a + b)[|a + b| - 1] == b[n];
      SumAppend(a, b[..n]);
      assert Sum(a + b) == Sum(a + b[..n]) + b[n];
    } else {
      assert a + b == a;
    }
  }

  /** Conservation: a directory's total is the sum of the sizes of all the files it counts. */
  lemma {:induction false} Conservation(listing: Listing)
    ensures DirTotal(listing) == Sum(CountedFileSizes(listing))
    decreases listing, 1
  {
    match listing
    case ListFailed =>
    case Listed(entries) =>
      ConservationOf(entries);
  }

  lemma {:induction false} ConservationOf(es: seq<Entry>)
    ensures SumEntries(es) == Sum(CountedFileSizesOf(es))
    decreases es, 0
  {
    if es != [] {
      var init, e := es[..|es| - 1], es[|es| - 1];
      ConservationOf(init);
      SumAppend(CountedFileSizesOf(init), CountedFileSizesIn(e));
      if !IsSkipped(e) {
        match e
        case File(_, _) =>
          assert Sum([GetFileSize(e.stat)]) == Sum([]) + GetFileSize(e.stat);
        case Dir(_, listing) =>
          Conservation(listing);
        case Other(_) =>
      }
    }
  }

  // ---------------------------------------------------------------------------
  // Concrete cases

  /**
   * An ignored directory contributes nothing and is never visited, whatever
   * its contents and however its name is capitalised; a file with that same
   * name is counted in full, since the directory set applies only to directories.
   */
  lemma IgnoredByKind(path: Path, listing: Listing, bytes: nat)
    ensures Contribution(Dir("Program Files", listing)) == 0
    ensures RecordedEntry(path, Dir("Program Files", listing)) == map[]
    ensures Contribution(File("Program Files", Size(bytes))) == bytes
    ensures Contribution(File("PageFile.sys", Size(bytes))) == 0
  {
    ProgramFilesSpellingsIgnored();
    SetsApplyToTheirOwnKind();
  }

  /**
   * Each ignore set applies only to its own kind: a file whose name is an
   * ignored directory name is counted in full, and a directory whose name is
   * an ignored file name is traversed and counted in full.
   */
  lemma KindDecidesSkipping(name: string, stat: Stat, listing: Listing)
    ensures IsIgnoredDirName(name) ==> Contribution(File(name, stat)) == GetFileSize(stat)
    ensures IsIgnoredFileName(name) ==> Contribution(Dir(name, listing)) == DirTotal(listing)
  {
    SetsApplyToTheirOwnKind();
  }

  /** A directory one byte short of the threshold is not written; one exactly at it is. */
  lemma ThresholdBoundary(path: Path)
    ensures Recorded(path, Listed([File("a", Size(MinSizeThreshold - 1))])) == map[]
    ensures Recorded(path, Listed([File("a", Size(MinSizeThreshold))])) == map[path := MinSizeThreshold]
  {
    LowersTo("a", "a");
    SingleFileDir(path, "a", MinSizeThreshold - 1);
    SingleFileDir(path, "a", MinSizeThreshold);
  }

  /** A directory holding one counted file: its total is that file's size. */
  lemma SingleFileDir(path: Path, name: string, bytes: nat)
    requires !IsIgnoredFileName(name)
    ensures DirTotal(Listed([File(name, Size(bytes))])) == bytes
    ensures Recorded(path, Listed([File(name, Size(bytes))])) ==
              if bytes >= MinSizeThreshold then map[path := bytes] else map[]
  {
    var es := [File(name, Size(bytes))];
    assert es[..0] == [];
    assert SumEntries(es) == bytes;
    assert RecordedEntries(path, es) == map[];
  }

  /**
   * `root/dirA/fileA1` and `root/dirA/dirA2/fileA2` of 300 MiB each:
   * `dirA2` (300 MiB) is not written but still counts, so `dirA` and the
   * root reach 600 MiB and are written.
   */
  lemma ScenarioTwoFiles()
    ensures var mib := 1024 * 1024;
            var dirA2 := Dir("dirA2", Listed([File("fileA2", Size(300 * mib))]));
            var dirA := Dir("dirA", Listed([File("fileA1", Size(300 * mib)), dirA2]));
            Recorded(["root"], Listed([dirA])) == map[["root", "dirA"] := 600 * mib, ["root"] := 600 * mib]
  {
    var mib := 1024 * 1024;
    LowersTo("dirA", "dira");
    LowersTo("fileA2", "filea2");
    var dirA2 := Dir("dirA2", Listed([File("fileA2", Size(300 * mib))]));
    var dirA := Dir("dirA", Listed([File("fileA1", Size(300 * mib)), dirA2]));
    // dirA2 holds 300 MiB, below the threshold: nothing written
    SingleFileDir(["root", "dirA", "dirA2"], "fileA2", 300 * mib);
    // dirA holds 600 MiB: written
    ScenarioDirA(dirA2);
    assert ["root"] + ["dirA"] == ["root", "dirA"];
    var es := [dirA];
    assert es[..0] == [];
    assert !IsSkipped(dirA) && Contribution(dirA) == 600 * mib;
    assert SumEntries(es) == 600 * mib;
    assert RecordedEntries(["root"], es) == map[["root", "dirA"] := 600 * mib];
  }

  /** The `dirA` level of the two-file scenario. */
  lemma ScenarioDirA(dirA2: Entry)
    requires dirA2 == Dir("dirA2", Listed([File("fileA2", Size(300 * 1024 * 1024))]))
    requires DirTotal(dirA2.listing) == 300 * 1024 * 1024
    requires Recorded(["root", "dirA", "dirA2"], dirA2.listing) == map[]
    ensures var es := [File("fileA1", Size(300 * 1024 * 1024)), dirA2];
            DirTotal(Listed(es)) == 600 * 1024 * 1024 &&
            Recorded(["root", "dirA"], Listed(es)) == map[["root", "dirA"] := 600 * 1024 * 1024]
  {
    var mib := 1024 * 1024;
    LowersTo("dirA2", "dira2");
    LowersTo("fileA1", "filea1");
    var fileA1 := File("fileA1", Size(300 * mib));
    var es := [fileA1, dirA2];
    assert es[..1] == [fileA1] && [fileA1][..0] == [];
    assert !IsSkipped(fileA1) && !IsSkipped(dirA2);
    assert SumEntries([fileA1]) == 300 * mib;
    assert SumEntries(es) == 600 * mib;
    assert ["root", "dirA"] + ["dirA2"] == ["root", "dirA", "dirA2"];
    assert RecordedEntries(["root", "dirA"], [fileA1]) == map[];
    assert RecordedEntry(["root", "dirA"], dirA2) == map[];
    assert RecordedEntries(["root", "dirA"], es) == map[];
  }
}
