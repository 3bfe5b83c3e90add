// The deduplication database of src/tape_ops/deduplication.rs: file records
// indexed by path and, when they carry one, by their SHA1 digest; the
// duplicate statistics; the removal of stale records; compaction; and the
// manager that switches it all on or off. Digests themselves are computed by
// hashing libraries and are inputs here.

module Deduplication {
  import opened Wrappers
  import opened Bytes

  // ---------------------------------------------------------------------------
  // Hash algorithms

  datatype HashType = Sha1 | Sha256 | Blake3 | XxHash3 | XxHash128
  {
    /** `ltfs_key`: the extended-attribute name the digest is stored under. */
    function LtfsKey(): string
    {
      match this
      case Sha1 => "ltfs.hash.sha1sum"
      case Sha256 => "ltfs.hash.sha256sum"
      case Blake3 => "ltfs.hash.blake3sum"
      case XxHash3 => "ltfs.hash.xxhash3sum"
      case XxHash128 => "ltfs.hash.xxhash128sum"
    }

    function DisplayName(): string
    {
      match this
      case Sha1 => "SHA1"
      case Sha256 => "SHA256"
      case Blake3 => "BLAKE3"
      case XxHash3 => "XXHash3"
      case XxHash128 => "XXHash128"
    }
  }

  /** `from_ltfs_key`: only the five attribute names are recognised. */
  function FromLtfsKey(key: string): (r: Option<HashType>)
    ensures r.Some? ==> r.value.LtfsKey() == key
  {
    if key == "ltfs.hash.sha1sum" then Some(Sha1)
    else if key == "ltfs.hash.sha256sum" then Some(Sha256)
    else if key == "ltfs.hash.blake3sum" then Some(Blake3)
    else if key == "ltfs.hash.xxhash3sum" then Some(XxHash3)
    else if key == "ltfs.hash.xxhash128sum" then Some(XxHash128)
    else None
  }

  /** Every hash type is recognised from its own key, so the key mapping is a bijection onto the five names. */
  lemma LtfsKeyRoundTrip(h: HashType)
    ensures FromLtfsKey(h.LtfsKey()) == Some(h)
  {
    match h
    case Sha1 =>
    case Sha256 =>
      assert h.LtfsKey()[10] != "ltfs.hash.sha1sum"[10] || |h.LtfsKey()| != 17;
    case Blake3 =>
      assert h.LtfsKey()[10] != "ltfs.hash.sha256sum"[10];
    case XxHash3 =>
    case XxHash128 =>
  }

  /** The hashing switches of the write options. */
  datatype HashOptions = HashOptions(
    sha1: bool, sha256: bool, blake3: bool, extendedHashing: bool, xxhash3: bool, xxhash128: bool)

  /**
   * `HashManager::from_write_options`: the enabled algorithms in this order,
   * the extended ones only with extended hashing on, and SHA1 alone when
   * nothing is enabled.
   */
  function EnabledAlgorithms(o: HashOptions): (r: seq<HashType>)
    ensures |r| >= 1
    ensures forall i, j :: 0 <= i < j < |r| ==> r[i] != r[j]
    ensures forall t :: t in r <==> Switch(o, t) || (t == Sha1 && NothingOn(o))
    ensures Sha1 in r ==> r[0] == Sha1
  {
    AlgorithmOrderComplete();
    var all := Selected(AlgorithmOrder, t => Switch(o, t));
    if all == [] then [Sha1] else all
  }

  /** The order in which `from_write_options` pushes the algorithms. */
  const AlgorithmOrder: seq<HashType> := [Sha1, Sha256, Blake3, XxHash3, XxHash128]

  lemma AlgorithmOrderComplete()
    ensures forall t :: t in AlgorithmOrder
    ensures forall i, j :: 0 <= i < j < |AlgorithmOrder| ==> AlgorithmOrder[i] != AlgorithmOrder[j]
  {
    forall t ensures t in AlgorithmOrder {
      match t
      case Sha1 => assert AlgorithmOrder[0] == t;
      case Sha256 => assert AlgorithmOrder[1] == t;
      case Blake3 => assert AlgorithmOrder[2] == t;
      case XxHash3 => assert AlgorithmOrder[3] == t;
      case XxHash128 => assert AlgorithmOrder[4] == t;
    }
  }

  /** No algorithm is switched on. */
  predicate NothingOn(o: HashOptions)
  {
    !(o.sha1 || o.sha256 || o.blake3 || (o.extendedHashing && (o.xxhash3 || o.xxhash128)))
  }

  /** The option that turns one algorithm on; the extended ones also need extended hashing. */
  predicate Switch(o: HashOptions, t: HashType)
  {
    match t
    case Sha1 => o.sha1
    case Sha256 => o.sha256
    case Blake3 => o.blake3
    case XxHash3 => o.extendedHashing && o.xxhash3
    case XxHash128 => o.extendedHashing && o.xxhash128
  }

  /** The entries of `order` that are switched on, in that order. */
  function Selected(order: seq<HashType>, on: HashType -> bool): (r: seq<HashType>)
    ensures forall t :: t in r <==> t in order && on(t)
    ensures (forall i, j :: 0 <= i < j < |order| ==> order[i] != order[j]) ==> forall i, j :: 0 <= i < j < |r| ==> r[i] != r[j]
    ensures order != [] && on(order[0]) ==> r != [] && r[0] == order[0]
  {
    if order == [] then []
    else if on(order[0]) then [order[0]] + Selected(order[1..], on)
    else Selected(order[1..], on)
  }

  // ---------------------------------------------------------------------------
  // Records

  datatype TapeLocation = TapeLocation(partition: u8, startBlock: u64, fileUid: u64)

  datatype FileHashRecord = FileHashRecord(
    filePath: string,
    fileSize: u64,
    lastModified: u64,
    hashes: map<HashType, string>,
    firstSeen: string,
    tapeLocation: Option<TapeLocation>)

  /** The SHA1 digest a record is indexed under, if it has one. */
  function Sha1Of(r: FileHashRecord): Option<string>
  {
    if Sha1 in r.hashes then Some(r.hashes[Sha1]) else None
  }

  type HashIndex = map<string, seq<FileHashRecord>>
  type PathIndex = map<string, FileHashRecord>

  /** Every hash list is non-empty and holds only records whose SHA1 is its key. */
  predicate Keyed(index: HashIndex)
  {
    forall h :: h in index ==> index[h] != [] && forall x :: x in index[h] ==> Sha1Of(x) == Some(h)
  }

  /** The hash index after `add_file_record`: the record is appended to its SHA1's list, created if needed. */
  function AddedHashes(index: HashIndex, record: FileHashRecord): HashIndex
  {
    match Sha1Of(record)
    case None => index
    case Some(h) => index[h := (if h in index then index[h] else []) + [record]]
  }

  /**
   * After adding a record, check_duplicate on its SHA1 finds the list with
   * the record last and the earlier records before it; without a SHA1 the
   * hash index is untouched; and the index stays keyed.
   */
  lemma AddThenCheck(index: HashIndex, record: FileHashRecord)
    requires Keyed(index)
    ensures Keyed(AddedHashes(index, record))
    ensures Sha1Of(record).None? ==> AddedHashes(index, record) == index
    ensures Sha1Of(record).Some? ==>
      var h := Sha1Of(record).value;
      var after := AddedHashes(index, record);
      h in after && after[h] == (if h in index then index[h] else []) + [record]
    ensures forall k :: k in index && Some(k) != Sha1Of(record) ==> k in AddedHashes(index, record) && AddedHashes(index, record)[k] == index[k]
  {
    if Sha1Of(record).Some? {
      var h := Sha1Of(record).value;
      var after := AddedHashes(index, record);
      forall k | k in after
        ensures after[k] != [] && forall x :: x in after[k] ==> Sha1Of(x) == Some(k)
      {
        if k == h {
          var old_ := if h in index then index[h] else [];
          forall x | x in after[k] ensures Sha1Of(x) == Some(k) {
            if x != record {
              assert x in old_;
            }
          }
        }
      }
    }
  }

  // ---------------------------------------------------------------------------
  // Statistics

  datatype DuplicateStats = DuplicateStats(
    totalFiles: nat, duplicateGroups: nat, totalDuplicates: nat, spaceSaved: u64, uniqueFiles: nat)

  function GroupCount(g: seq<FileHashRecord>): nat { if |g| > 1 then 1 else 0 }
  function ExtraCopies(g: seq<FileHashRecord>): nat { if |g| > 1 then |g| - 1 else 0 }
  function SavedBytes(g: seq<FileHashRecord>): nat { if |g| > 1 then g[0].fileSize * (|g| - 1) else 0 }
  function ListLength(g: seq<FileHashRecord>): nat { |g| }

  /** The sum of f over the lists of the given keys; the order the keys are visited in does not matter (SumOverRemove). */
  ghost function SumOver(index: HashIndex, keys: set<string>, f: seq<FileHashRecord> -> nat): nat
    requires keys <= index.Keys
    decreases keys
  {
    if keys == {} then 0 else var k :| k in keys; f(index[k]) + SumOver(index, keys - {k}, f)
  }

  /** Any key can be taken out first. */
  lemma {:induction false} SumOverRemove(index: HashIndex, keys: set<string>, f: seq<FileHashRecord> -> nat, k: string)
    requires keys <= index.Keys && k in keys
    ensures SumOver(index, keys, f) == f(index[k]) + SumOver(index, keys - {k}, f)
    decreases keys
  {
    var j :| j in keys && SumOver(index, keys, f) == f(index[j]) + SumOver(index, keys - {j}, f);
    if j != k {
      SumOverRemove(index, keys - {j}, f, k);
      SumOverRemove(index, keys - {k}, f, j);
      assert keys - {j} - {k} == keys - {k} - {j};
    }
  }

  /**
   * What `get_duplicate_stats` reports: the groups with more than one record,
   * the records beyond the first in each, the first record's size times
   * that many (in wrapping u64 arithmetic), the number of paths and the
   * number of distinct digests.
   */
  ghost function StatsOf(hashes: HashIndex, paths: PathIndex): DuplicateStats
  {
    DuplicateStats(
      |paths|,
      SumOver(hashes, hashes.Keys, GroupCount),
      SumOver(hashes, hashes.Keys, ExtraCopies),
      SumOver(hashes, hashes.Keys, SavedBytes) % U64_LIMIT,
      |hashes|)
  }

  /** Wrapping each addition and multiplication gives the wrapped exact sum. */
  lemma WrapAdd(a: nat, b: nat, rest: nat, total: nat)
    requires (a + b + rest) % U64_LIMIT == total % U64_LIMIT
    ensures ((a + b % U64_LIMIT) % U64_LIMIT + rest) % U64_LIMIT == total % U64_LIMIT
  {
    var x := (a + b % 0x1_0000_0000_0000_0000) % 0x1_0000_0000_0000_0000;
    var k1 := (a + b % 0x1_0000_0000_0000_0000) / 0x1_0000_0000_0000_0000;
    var kb := b / 0x1_0000_0000_0000_0000;
    var y := (x + rest) % 0x1_0000_0000_0000_0000;
    var k2 := (x + rest) / 0x1_0000_0000_0000_0000;
    assert a + b + rest == (k1 + kb + k2) * 0x1_0000_0000_0000_0000 + y;
    ModUnique(a + b + rest, 0x1_0000_0000_0000_0000, k1 + kb + k2, y);
  }

  /** The statistics loop's invariant: a counter plus the sum over the lists still to visit gives the total. */
  ghost predicate CountSoFar(index: HashIndex, todo: set<string>, f: seq<FileHashRecord> -> nat, count: nat)
    requires todo <= index.Keys
  {
    count + SumOver(index, todo, f) == SumOver(index, index.Keys, f)
  }

  /** The same for the byte count, which wraps around at 2^64. */
  ghost predicate SavedSoFar(index: HashIndex, todo: set<string>, saved: u64)
    requires todo <= index.Keys
  {
    (saved + SumOver(index, todo, SavedBytes)) % U64_LIMIT == SumOver(index, index.Keys, SavedBytes) % U64_LIMIT
  }

  lemma CountStep(index: HashIndex, todo: set<string>, h: string, f: seq<FileHashRecord> -> nat, count: nat)
    requires todo <= index.Keys && h in todo
    requires CountSoFar(index, todo, f, count)
    ensures CountSoFar(index, todo - {h}, f, count + f(index[h]))
  {
    SumOverRemove(index, todo, f, h);
  }

  lemma SavedStep(index: HashIndex, todo: set<string>, h: string, saved: u64)
    requires todo <= index.Keys && h in todo
    requires SavedSoFar(index, todo, saved)
    ensures SavedSoFar(index, todo - {h}, (saved + SavedBytes(index[h]) % U64_LIMIT) % U64_LIMIT)
  {
    SumOverRemove(index, todo, SavedBytes, h);
    WrapAdd(saved, SavedBytes(index[h]), SumOver(index, todo - {h}, SavedBytes), SumOver(index, index.Keys, SavedBytes));
  }

  /** The three running totals after visiting every digest outside `todo`. */
  ghost predicate TalliedSoFar(index: HashIndex, todo: set<string>, groups: nat, duplicates: nat, saved: u64)
    requires todo <= index.Keys
  {
    CountSoFar(index, todo, GroupCount, groups)
    && CountSoFar(index, todo, ExtraCopies, duplicates)
    && SavedSoFar(index, todo, saved)
  }

  lemma TallyStep(index: HashIndex, todo: set<string>, h: string, groups: nat, duplicates: nat, saved: u64)
    requires todo <= index.Keys && h in todo
    requires TalliedSoFar(index, todo, groups, duplicates, saved)
    ensures TalliedSoFar(index, todo - {h}, groups + GroupCount(index[h]), duplicates + ExtraCopies(index[h]),
      (saved + SavedBytes(index[h]) % U64_LIMIT) % U64_LIMIT)
  {
    CountStep(index, todo, h, GroupCount, groups);
    CountStep(index, todo, h, ExtraCopies, duplicates);
    SavedStep(index, todo, h, saved);
  }

  /** With nothing left to visit, the running totals are the sums over every digest. */
  lemma TallyDone(index: HashIndex, groups: nat, duplicates: nat, saved: u64)
    requires TalliedSoFar(index, {}, groups, duplicates, saved)
    ensures groups == SumOver(index, index.Keys, GroupCount)
    ensures duplicates == SumOver(index, index.Keys, ExtraCopies)
    ensures saved == SumOver(index, index.Keys, SavedBytes) % U64_LIMIT
  {
    assert SumOver(index, {}, SavedBytes) == 0;
    assert saved % U64_LIMIT == saved;
  }

  /** When every list is non-empty, the duplicates are the records beyond one per digest. */
  lemma {:induction false} ExtraCopiesCount(index: HashIndex, keys: set<string>)
    requires keys <= index.Keys
    requires forall h :: h in keys ==> index[h] != []
    ensures SumOver(index, keys, ExtraCopies) + |keys| == SumOver(index, keys, ListLength)
    decreases keys
  {
    if keys != {} {
      var k :| k in keys;
      SumOverRemove(index, keys, ExtraCopies, k);
      SumOverRemove(index, keys, ListLength, k);
      ExtraCopiesCount(index, keys - {k});
    }
  }

  /** One digest with n records: one group and n-1 duplicates when n > 1, none otherwise. */
  lemma SingleGroupStats(h: string, g: seq<FileHashRecord>, paths: PathIndex)
    ensures StatsOf(map[h := g], paths) ==
      DuplicateStats(|paths|, GroupCount(g), ExtraCopies(g), SavedBytes(g) % U64_LIMIT, 1)
  {
    var index := map[h := g];
    assert index.Keys == {h};
    SumOverRemove(index, {h}, GroupCount, h);
    SumOverRemove(index, {h}, ExtraCopies, h);
    SumOverRemove(index, {h}, SavedBytes, h);
    assert {h} - {h} == {};
  }

  // ---------------------------------------------------------------------------
  // Stale-record cleanup

  /** Rust's `<` on strings: lexicographic by code point (which is also byte order in UTF-8). */
  predicate StrLess(a: string, b: string)
  {
    if a == [] then b != []
    else if b == [] then false
    else if a[0] != b[0] then a[0] < b[0]
    else StrLess(a[1..], b[1..])
  }

  lemma {:induction false} StrLessIrreflexive(a: string)
    ensures !StrLess(a, a)
  {
    if a != [] {
      StrLessIrreflexive(a[1..]);
    }
  }

  /** The paths whose record was first seen before the cutoff. */
  function StalePaths(paths: PathIndex, cutoff: string): set<string>
  {
    set p | p in paths && StrLess(paths[p].firstSeen, cutoff)
  }

  /** `records.retain(|r| r.file_path != path)`. */
  function Without(g: seq<FileHashRecord>, path: string): (r: seq<FileHashRecord>)
    ensures |r| <= |g|
    ensures forall x :: x in r <==> x in g && x.filePath != path
  {
    if g == [] then []
    else if g[0].filePath == path then Without(g[1..], path)
    else [g[0]] + Without(g[1..], path)
  }

  /** A record leaves list h when its path was removed and the removed path's record had SHA1 h. */
  predicate Purges(paths: PathIndex, removed: set<string>, h: string, x: FileHashRecord)
  {
    x.filePath in removed && x.filePath in paths && Sha1Of(paths[x.filePath]) == Some(h)
  }

  function KeepList(g: seq<FileHashRecord>, paths: PathIndex, removed: set<string>, h: string): (r: seq<FileHashRecord>)
    ensures |r| <= |g|
    ensures forall x :: x in r <==> x in g && !Purges(paths, removed, h, x)
  {
    if g == [] then []
    else if Purges(paths, removed, h, g[0]) then KeepList(g[1..], paths, removed, h)
    else [g[0]] + KeepList(g[1..], paths, removed, h)
  }

  /** Some removed path's record had SHA1 h, so list h was filtered. */
  predicate Touched(paths: PathIndex, removed: set<string>, h: string)
  {
    exists p :: p in removed && p in paths && Sha1Of(paths[p]) == Some(h)
  }

  /** The hash index once the records of the removed paths are gone; a filtered list that ends up empty is dropped. */
  function Purged(hashes: HashIndex, paths: PathIndex, removed: set<string>): HashIndex
  {
    map h | h in hashes && !(KeepList(hashes[h], paths, removed, h) == [] && Touched(paths, removed, h)) ::
      KeepList(hashes[h], paths, removed, h)
  }

  /** Removing one more path filters once more. */
  lemma {:induction false} KeepListStep(g: seq<FileHashRecord>, paths: PathIndex, removed: set<string>, h: string, p: string)
    requires p in paths
    ensures KeepList(g, paths, removed + {p}, h) ==
      if Sha1Of(paths[p]) == Some(h) then Without(KeepList(g, paths, removed, h), p) else KeepList(g, paths, removed, h)
  {
    if g != [] {
      KeepListStep(g[1..], paths, removed, h, p);
    }
  }

  /** One iteration of the removal loop, on the hash index. */
  function CleanupStep(hashes: HashIndex, record: FileHashRecord, path: string): HashIndex
  {
    match Sha1Of(record)
    case None => hashes
    case Some(h) =>
      if h !in hashes then hashes
      else if Without(hashes[h], path) == [] then hashes - {h}
      else hashes[h := Without(hashes[h], path)]
  }

  lemma TouchedStep(paths: PathIndex, removed: set<string>, p: string, h: string)
    requires p in paths
    ensures Touched(paths, removed + {p}, h) <==> Touched(paths, removed, h) || Sha1Of(paths[p]) == Some(h)
  {
    if Sha1Of(paths[p]) == Some(h) {
      assert p in removed + {p};
    }
    if Touched(paths, removed + {p}, h) && Sha1Of(paths[p]) != Some(h) {
      var q :| q in removed + {p} && q in paths && Sha1Of(paths[q]) == Some(h);
      assert q in removed;
    }
  }

  /** The loop step and the closed form agree on one digest. */
  lemma PurgedStepAt(hashes: HashIndex, paths: PathIndex, removed: set<string>, p: string, h: string)
    requires p in paths && p !in removed
    ensures var step := CleanupStep(Purged(hashes, paths, removed), paths[p], p);
      var after := Purged(hashes, paths, removed + {p});
      (h in step <==> h in after) && (h in step ==> step[h] == after[h])
  {
    TouchedStep(paths, removed, p, h);
    if h in hashes {
      KeepListStep(hashes[h], paths, removed, h, p);
    }
  }

  lemma PurgedStep(hashes: HashIndex, paths: PathIndex, removed: set<string>, p: string)
    requires p in paths && p !in removed
    ensures CleanupStep(Purged(hashes, paths, removed), paths[p], p) == Purged(hashes, paths, removed + {p})
  {
    var step := CleanupStep(Purged(hashes, paths, removed), paths[p], p);
    var after := Purged(hashes, paths, removed + {p});
    forall h | h in step.Keys + after.Keys
      ensures (h in step <==> h in after) && (h in step ==> step[h] == after[h])
    {
      PurgedStepAt(hashes, paths, removed, p, h);
    }
    assert step.Keys == after.Keys;
  }

  /** Cleanup leaves a keyed index keyed. */
  lemma PurgedKeyed(hashes: HashIndex, paths: PathIndex, removed: set<string>)
    requires Keyed(hashes)
    ensures Keyed(Purged(hashes, paths, removed))
    ensures forall h, x :: h in Purged(hashes, paths, removed) && x in Purged(hashes, paths, removed)[h] ==> x.filePath !in removed || x.filePath !in paths || Sha1Of(paths[x.filePath]) != Some(h)
  {
  }

  // ---------------------------------------------------------------------------
  // Compaction

  /** `records.retain(|record| path_to_record.contains_key(&record.file_path))`. */
  function KeepIndexed(g: seq<FileHashRecord>, paths: PathIndex): (r: seq<FileHashRecord>)
    ensures |r| <= |g|
    ensures forall x :: x in r <==> x in g && x.filePath in paths
  {
    if g == [] then []
    else if g[0].filePath in paths then [g[0]] + KeepIndexed(g[1..], paths)
    else KeepIndexed(g[1..], paths)
  }

  lemma {:induction false} KeepIndexedAll(g: seq<FileHashRecord>, paths: PathIndex)
    requires forall x :: x in g ==> x.filePath in paths
    ensures KeepIndexed(g, paths) == g
  {
    if g != [] {
      KeepIndexedAll(g[1..], paths);
    }
  }

  function CompactedHashes(hashes: HashIndex, paths: PathIndex): HashIndex
  {
    map h | h in hashes && KeepIndexed(hashes[h], paths) != [] :: KeepIndexed(hashes[h], paths)
  }

  /** The paths some hash list still refers to. */
  function ListedPaths(hashes: HashIndex): set<string>
  {
    set h, x | h in hashes && x in hashes[h] :: x.filePath
  }

  function CompactedPaths(hashes: HashIndex, paths: PathIndex): PathIndex
  {
    var listed := ListedPaths(CompactedHashes(hashes, paths));
    map p | p in paths && p in listed :: paths[p]
  }

  /** The records compaction drops from one list. */
  function DroppedFrom(paths: PathIndex): seq<FileHashRecord> -> nat
  {
    g => |g| - |KeepIndexed(g, paths)|
  }

  /** Each list record is indexed by path, and each indexed path is in some list. */
  predicate Consistent(hashes: HashIndex, paths: PathIndex)
  {
    ListsIndexed(hashes, paths) && (forall p :: p in paths ==> p in ListedPaths(hashes))
  }

  predicate ListsIndexed(hashes: HashIndex, paths: PathIndex)
  {
    forall h, x :: h in hashes && x in hashes[h] ==> x.filePath in paths
  }

  /** After compaction the two indexes agree, and every list is non-empty. */
  lemma CompactedConsistent(hashes: HashIndex, paths: PathIndex)
    ensures Consistent(CompactedHashes(hashes, paths), CompactedPaths(hashes, paths))
    ensures forall h :: h in CompactedHashes(hashes, paths) ==> CompactedHashes(hashes, paths)[h] != []
    ensures CompactedPaths(hashes, paths).Keys <= paths.Keys
  {
    var ch := CompactedHashes(hashes, paths);
    var cp := CompactedPaths(hashes, paths);
    forall h, x: FileHashRecord | h in ch && x in ch[h] ensures x.filePath in cp {
      assert x.filePath in ListedPaths(ch);
    }
  }

  lemma {:induction false} SumOverZero(index: HashIndex, keys: set<string>, f: seq<FileHashRecord> -> nat)
    requires keys <= index.Keys
    requires forall h :: h in keys ==> f(index[h]) == 0
    ensures SumOver(index, keys, f) == 0
    decreases keys
  {
    if keys != {} {
      var k :| k in keys;
      SumOverRemove(index, keys, f, k);
      SumOverZero(index, keys - {k}, f);
    }
  }

  lemma CompactedHashesIdentity(hashes: HashIndex, paths: PathIndex)
    requires ListsIndexed(hashes, paths)
    requires forall h :: h in hashes ==> hashes[h] != []
    ensures CompactedHashes(hashes, paths) == hashes
  {
    forall h | h in hashes ensures KeepIndexed(hashes[h], paths) == hashes[h] {
      KeepIndexedAll(hashes[h], paths);
    }
    var ch := CompactedHashes(hashes, paths);
    assert ch.Keys == hashes.Keys;
  }

  /** A consistent database with no empty lists is left as it is by compaction, which reports nothing removed. */
  lemma CompactConsistentIsIdentity(hashes: HashIndex, paths: PathIndex)
    requires Consistent(hashes, paths)
    requires forall h :: h in hashes ==> hashes[h] != []
    ensures CompactedHashes(hashes, paths) == hashes
    ensures CompactedPaths(hashes, paths) == paths
    ensures SumOver(hashes, hashes.Keys, DroppedFrom(paths)) == 0
  {
    CompactedHashesIdentity(hashes, paths);
    CompactedPathsIdentity(hashes, paths);
    NothingDropped(hashes, paths);
  }

  lemma CompactedPathsIdentity(hashes: HashIndex, paths: PathIndex)
    requires CompactedHashes(hashes, paths) == hashes
    requires forall p :: p in paths ==> p in ListedPaths(hashes)
    ensures CompactedPaths(hashes, paths) == paths
  {
    assert CompactedPaths(hashes, paths).Keys == paths.Keys;
  }

  lemma NothingDropped(hashes: HashIndex, paths: PathIndex)
    requires ListsIndexed(hashes, paths)
    ensures SumOver(hashes, hashes.Keys, DroppedFrom(paths)) == 0
  {
    forall h | h in hashes ensures DroppedFrom(paths)(hashes[h]) == 0 {
      KeepIndexedAll(hashes[h], paths);
    }
    SumOverZero(hashes, hashes.Keys, DroppedFrom(paths));
  }

  lemma {:induction false} SubsetCard(a: set<string>, b: set<string>)
    requires a <= b
    ensures |a| <= |b|
    decreases b
  {
    if a != {} {
      var x :| x in a;
      SubsetCard(a - {x}, b - {x});
    }
  }

  /** The path index once the removed paths are gone. */
  function Remaining(paths: PathIndex, removed: set<string>): PathIndex
  {
    map p | p in paths && p !in removed :: paths[p]
  }

  lemma RemainingStep(paths: PathIndex, removed: set<string>, p: string)
    requires p in paths && p !in removed
    ensures p in Remaining(paths, removed) && Remaining(paths, removed)[p] == paths[p]
    ensures Remaining(paths, removed) - {p} == Remaining(paths, removed + {p})
  {
  }

  /** The compacted lists of the digests already visited. */
  function CompactedExcept(hashes: HashIndex, paths: PathIndex, todo: set<string>): HashIndex
  {
    map h | h in hashes && h !in todo && KeepIndexed(hashes[h], paths) != [] :: KeepIndexed(hashes[h], paths)
  }

  lemma CompactedExceptStep(hashes: HashIndex, paths: PathIndex, todo: set<string>, h: string)
    requires h in todo && h in hashes
    ensures var kept := KeepIndexed(hashes[h], paths);
      var before := CompactedExcept(hashes, paths, todo);
      CompactedExcept(hashes, paths, todo - {h}) == if kept != [] then before[h := kept] else before
  {
  }

  // ---------------------------------------------------------------------------
  // The database

  /** `DeduplicationDatabase`: the two indexes and their bookkeeping. */
  class DeduplicationDatabase {
    var hashToRecords: HashIndex
    var pathToRecord: PathIndex
    var version: u32
    var createdAt: string
    var updatedAt: string

    /** `Default`, with the formatted current time as a parameter. */
    constructor (now: string)
      ensures hashToRecords == map[] && pathToRecord == map[]
      ensures version == 1 && createdAt == now && updatedAt == now
    {
      hashToRecords := map[];
      pathToRecord := map[];
      version := 1;
      createdAt := now;
      updatedAt := now;
    }

    /** `add_file_record`: always indexed by path (replacing any record for that path); by SHA1 iff it has one. */
    method AddFileRecord(record: FileHashRecord)
      modifies this`hashToRecords, this`pathToRecord
      ensures hashToRecords == AddedHashes(old(hashToRecords), record)
      ensures pathToRecord == old(pathToRecord)[record.filePath := record]
      ensures Keyed(old(hashToRecords)) ==> Keyed(hashToRecords)
    {
      if Sha1 in record.hashes {
        var h := record.hashes[Sha1];
        var list := if h in hashToRecords then hashToRecords[h] else [];
        hashToRecords := hashToRecords[h := list + [record]];
      }
      pathToRecord := pathToRecord[record.filePath := record];
      if Keyed(old(hashToRecords)) {
        AddThenCheck(old(hashToRecords), record);
      }
    }

    /** `check_duplicate`: the records stored under a SHA1 digest. */
    function CheckDuplicate(sha1: string): (r: Option<seq<FileHashRecord>>)
      reads this
      ensures r.Some? <==> sha1 in hashToRecords
      ensures r.Some? ==> r.value == hashToRecords[sha1]
    {
      if sha1 in hashToRecords then Some(hashToRecords[sha1]) else None
    }

    /** The body of `get_duplicate_stats`' loop, for one hash list. */
    static method CountGroup(records: seq<FileHashRecord>, groups: nat, duplicates: nat, saved: u64)
      returns (groups': nat, duplicates': nat, saved': u64)
      ensures groups' == groups + GroupCount(records)
      ensures duplicates' == duplicates + ExtraCopies(records)
      ensures saved' == (saved + SavedBytes(records) % U64_LIMIT) % U64_LIMIT
    {
      groups', duplicates', saved' := groups, duplicates, saved;
      if |records| > 1 {
        groups' := groups + 1;
        duplicates' := duplicates + |records| - 1;
        saved' := (saved + (records[0].fileSize * (|records| - 1)) % U64_LIMIT) % U64_LIMIT;
      }
    }

    /** `get_duplicate_stats`: one pass over the hash lists, in whatever order the map yields them. */
    method GetDuplicateStats() returns (s: DuplicateStats)
      ensures s == StatsOf(hashToRecords, pathToRecord)
    {
      var groups, duplicates, saved := Tally(hashToRecords);
      s := DuplicateStats(|pathToRecord|, groups, duplicates, saved, |hashToRecords|);
    }

    /** `get_duplicate_stats`' loop: one pass over the hash lists, in whatever order the map yields them. */
    static method Tally(index: HashIndex) returns (groups: nat, duplicates: nat, saved: u64)
      ensures groups == SumOver(index, index.Keys, GroupCount)
      ensures duplicates == SumOver(index, index.Keys, ExtraCopies)
      ensures saved == SumOver(index, index.Keys, SavedBytes) % U64_LIMIT
    {
      groups, duplicates, saved := 0, 0, 0;
      var todo := index.Keys;
      while todo != {}
        invariant todo <= index.Keys
        invariant TalliedSoFar(index, todo, groups, duplicates, saved)
        decreases todo
      {
        var h :| h in todo;
        TallyStep(index, todo, h, groups, duplicates, saved);
        groups, duplicates, saved := CountGroup(index[h], groups, duplicates, saved);
        todo := todo - {h};
      }
      TallyDone(index, groups, duplicates, saved);
    }

    /**
     * `cleanup_stale_records`, with the cutoff time already formatted: the
     * stale paths are dropped from the path index, each one's record is
     * filtered out of its SHA1 list, and emptied lists are removed.
     */
    method CleanupStaleRecords(cutoff: string) returns (removedCount: nat)
      modifies this`hashToRecords, this`pathToRecord
      ensures pathToRecord == Remaining(old(pathToRecord), StalePaths(old(pathToRecord), cutoff))
      ensures hashToRecords == Purged(old(hashToRecords), old(pathToRecord), StalePaths(old(pathToRecord), cutoff))
      ensures removedCount == |StalePaths(old(pathToRecord), cutoff)|
    {
      var stale := StalePaths(pathToRecord, cutoff);
      pathToRecord, hashToRecords, removedCount := RemovePaths(pathToRecord, hashToRecords, stale);
    }

    /** `cleanup_stale_records`' loop: each given path leaves the path index and its record leaves its SHA1 list. */
    static method RemovePaths(paths0: PathIndex, hashes0: HashIndex, stale: set<string>)
      returns (paths: PathIndex, hashes: HashIndex, removedCount: nat)
      requires stale <= paths0.Keys
      ensures paths == Remaining(paths0, stale)
      ensures hashes == Purged(hashes0, paths0, stale)
      ensures removedCount == |stale|
    {
      paths, hashes := paths0, hashes0;
      ghost var done: set<string> := {};
      PurgedNone(hashes0, paths0);
      assert Remaining(paths0, {}) == paths0;
      var todo := stale;
      removedCount := 0;
      while todo != {}
        invariant todo + done == stale && todo !! done
        invariant paths == Remaining(paths0, done)
        invariant hashes == Purged(hashes0, paths0, done)
        invariant removedCount + |todo| == |stale|
        decreases todo
      {
        var path :| path in todo;
        RemainingStep(paths0, done, path);
        PurgedStep(hashes0, paths0, done, path);
        var record := paths[path];
        paths := paths - {path};
        hashes := RemoveRecord(hashes, record, path);
        removedCount := removedCount + 1;
        todo := todo - {path};
        done := done + {path};
      }
    }

    /** One iteration of `cleanup_stale_records`' loop, on the hash index. */
    static method RemoveRecord(hashes: HashIndex, record: FileHashRecord, path: string) returns (r: HashIndex)
      ensures r == CleanupStep(hashes, record, path)
    {
      r := hashes;
      if Sha1 in record.hashes {
        var h := record.hashes[Sha1];
        if h in hashes {
          var kept := Without(hashes[h], path);
          if kept == [] {
            r := hashes - {h};
          } else {
            r := hashes[h := kept];
          }
        }
      }
    }

    /**
     * `compact`: drop list records whose path is not indexed (and emptied
     * lists), then drop indexed paths no list refers to; the count is the
     * number of both kinds removed.
     */
    method Compact() returns (removedEntries: nat)
      modifies this`hashToRecords, this`pathToRecord
      ensures hashToRecords == CompactedHashes(old(hashToRecords), old(pathToRecord))
      ensures pathToRecord == CompactedPaths(old(hashToRecords), old(pathToRecord))
      ensures removedEntries == SumOver(old(hashToRecords), old(hashToRecords).Keys, DroppedFrom(old(pathToRecord)))
        + (|old(pathToRecord)| - |pathToRecord|)
      ensures Consistent(hashToRecords, pathToRecord)
    {
      ghost var hashes0, paths0 := hashToRecords, pathToRecord;
      var dropped;
      hashToRecords, dropped := RetainIndexed(hashToRecords, pathToRecord);
      var valid := ListedPaths(hashToRecords);
      var kept := map p | p in pathToRecord && p in valid :: pathToRecord[p];
      assert kept == CompactedPaths(hashes0, paths0);
      CompactedConsistent(hashes0, paths0);
      SubsetCard(kept.Keys, pathToRecord.Keys);
      removedEntries := dropped + (|pathToRecord| - |kept|);
      pathToRecord := kept;
    }

    /** `compact`'s first loop: every hash list keeps only its indexed records, and emptied lists go. */
    static method RetainIndexed(hashes0: HashIndex, paths0: PathIndex) returns (updated: HashIndex, dropped: nat)
      ensures updated == CompactedHashes(hashes0, paths0)
      ensures dropped == SumOver(hashes0, hashes0.Keys, DroppedFrom(paths0))
    {
      updated, dropped := map[], 0;
      var todo := hashes0.Keys;
      while todo != {}
        invariant todo <= hashes0.Keys
        invariant updated == CompactedExcept(hashes0, paths0, todo)
        invariant dropped + SumOver(hashes0, todo, DroppedFrom(paths0))
          == SumOver(hashes0, hashes0.Keys, DroppedFrom(paths0))
        decreases todo
      {
        var h :| h in todo;
        var records := KeepIndexed(hashes0[h], paths0);
        SumOverRemove(hashes0, todo, DroppedFrom(paths0), h);
        CompactedExceptStep(hashes0, paths0, todo, h);
        dropped := dropped + (|hashes0[h]| - |records|);
        if records != [] {
          updated := updated[h := records];
        }
        todo := todo - {h};
      }
      assert updated == CompactedHashes(hashes0, paths0);
    }
  }

  lemma PurgedNone(hashes: HashIndex, paths: PathIndex)
    ensures Purged(hashes, paths, {}) == hashes
  {
    forall h | h in hashes ensures KeepList(hashes[h], paths, {}, h) == hashes[h] {
      KeepListNone(hashes[h], paths, h);
    }
  }

  lemma {:induction false} KeepListNone(g: seq<FileHashRecord>, paths: PathIndex, h: string)
    ensures KeepList(g, paths, {}, h) == g
  {
    if g != [] {
      KeepListNone(g[1..], paths, h);
    }
  }

  // ---------------------------------------------------------------------------
  // The manager

  /** `register_file`'s conversion: the digests under a recognised attribute name, keyed by their hash type. */
  function TypedHashes(fileHashes: map<string, string>): (r: map<HashType, string>)
    ensures forall t :: t in r <==> t.LtfsKey() in fileHashes
    ensures forall t :: t in r ==> r[t] == fileHashes[t.LtfsKey()]
  {
    map t | t in {Sha1, Sha256, Blake3, XxHash3, XxHash128} && t.LtfsKey() in fileHashes :: fileHashes[t.LtfsKey()]
  }

  /** Every recognised attribute in the input ends up in the record, under the type its name denotes. */
  lemma TypedHashesComplete(fileHashes: map<string, string>, key: string)
    requires key in fileHashes && FromLtfsKey(key).Some?
    ensures FromLtfsKey(key).value in TypedHashes(fileHashes)
    ensures TypedHashes(fileHashes)[FromLtfsKey(key).value] == fileHashes[key]
  {
  }

  /** `DeduplicationManager`: the database plus an on/off switch; lookups use SHA1. */
  class DeduplicationManager {
    const database: DeduplicationDatabase
    var enabled: bool
    const primaryHashType: HashType

    /** `new`, with the database already loaded from its file. */
    constructor (database: DeduplicationDatabase, enabled: bool)
      ensures this.database == database && this.enabled == enabled && primaryHashType == Sha1
    {
      this.database := database;
      this.enabled := enabled;
      primaryHashType := Sha1;
    }

    /** `check_file_exists`: nothing when disabled; otherwise the records under the file's primary digest, if any. */
    function CheckFileExists(fileHashes: map<string, string>): (r: Option<seq<FileHashRecord>>)
      reads this, database
      ensures !enabled ==> r.None?
      ensures r.Some? <==>
        (enabled && primaryHashType.LtfsKey() in fileHashes && fileHashes[primaryHashType.LtfsKey()] in database.hashToRecords)
      ensures r.Some? ==> r.value == database.hashToRecords[fileHashes[primaryHashType.LtfsKey()]]
    {
      if !enabled then None
      else
        var key := primaryHashType.LtfsKey();
        if key in fileHashes then database.CheckDuplicate(fileHashes[key]) else None
    }

    /**
     * `register_file`: does nothing when disabled; otherwise adds a record
     * built from the arguments. The file's modification time and the
     * formatted clock are parameters.
     */
    method RegisterFile(filePath: string, fileSize: u64, fileHashes: map<string, string>,
                        tapeLocation: Option<TapeLocation>, lastModified: u64, now: string)
      modifies database`hashToRecords, database`pathToRecord
      ensures !enabled ==> database.hashToRecords == old(database.hashToRecords) && database.pathToRecord == old(database.pathToRecord)
      ensures enabled ==>
        var record := FileHashRecord(filePath, fileSize, lastModified, TypedHashes(fileHashes), now, tapeLocation);
        database.hashToRecords == AddedHashes(old(database.hashToRecords), record)
        && database.pathToRecord == old(database.pathToRecord)[filePath := record]
    {
      if !enabled {
        return;
      }
      var record := FileHashRecord(filePath, fileSize, lastModified, TypedHashes(fileHashes), now, tapeLocation);
      database.AddFileRecord(record);
    }

    method SetEnabled(enabled: bool)
      modifies this`enabled
      ensures this.enabled == enabled
    {
      this.enabled := enabled;
    }

    function IsEnabled(): (r: bool)
      reads this
      ensures r == enabled
    {
      enabled
    }
  }

  /**
   * A file registered with a SHA1 attribute is found by the next check with
   * the same attributes, as the last record of its list.
   */
  lemma RegisterThenCheck(hashes: HashIndex, fileHashes: map<string, string>, record: FileHashRecord)
    requires record.hashes == TypedHashes(fileHashes)
    requires Sha1.LtfsKey() in fileHashes
    ensures var h := fileHashes[Sha1.LtfsKey()];
      h in AddedHashes(hashes, record) && AddedHashes(hashes, record)[h][|AddedHashes(hashes, record)[h]| - 1] == record
  {
  }
}
