// Adding a written file to the LTFS index (tape_ops/index/write.rs).
//
// The target path is stripped of its leading and trailing '/', split at '/',
// and followed from the root; every missing component becomes a new
// directory whose UID is the index's highest UID plus one. Only when the
// whole chain exists does the file get its UID, the next one after that, and
// it is appended to the target directory. The directory being visited (the
// source's `current_dir` reference) is a cursor: the positions of the
// children followed from the root.

module IndexWrite {
  import opened Wrappers
  import opened Bytes
  import opened Strings
  import opened IndexTypes
  import opened IndexPaths

  /** `highestfileuid.unwrap_or(0)`. */
  function UidBase(h: Option<u64>): nat
  {
    match h
    case None => 0
    case Some(v) => v
  }

  /** `highestfileuid.unwrap_or(0) + 1` on u64, wrapping at 2^64 as a release build does. */
  function NextUid(h: Option<u64>): u64
  {
    AsU64(UidBase(h) + 1)
  }

  /** Below 2^64 - 1 the allocation does not wrap. */
  lemma NextUidNoWrap(h: Option<u64>)
    requires UidBase(h) + 1 < U64_LIMIT
    ensures NextUid(h) as int == UidBase(h) + 1
  {
  }

  /** A directory created on the way to a target: named, with the given UID, all times `now`, empty. */
  function NewDirectory(name: string, uid: u64, now: string): Directory
  {
    Directory(name, uid, Times(now, now, now, now, now), false, [], [])
  }

  /** `create_new_ltfs_index`: generation 1, data partition "b", root UID 1, highest UID 1. */
  function CreateNewIndex(uuid: string, now: string): (r: Index)
    ensures r.generation == 1 && r.volumeuuid == uuid && r.location == Location("b", 0)
    ensures r.highestFileUid == Some(1) && r.root.uid == 1 && r.root.files == [] && r.root.directories == []
    ensures UidInvariant(r)
  {
    NewDirectoryUids("", 1, now);
    Index("2.4.0", "RustLTFS", uuid, 1, now, Location("b", 0), None, Some(true), None, Some(1), NewDirectory("", 1, now))
  }

  // ---------------------------------------------------------------------------
  // ensure_directory_path_exists

  /** The state of the walk down the target path: the tree, the cursor of `current_dir`, and `highestfileuid`. */
  datatype Walk = Walk(root: Directory, cursor: seq<nat>, highest: Option<u64>)

  predicate WalkOk(w: Walk)
  {
    DirAt(w.root, w.cursor).Some?
  }

  /** One component: move into the first subdirectory of that name, or create it with the next UID and move into it. */
  function Step(w: Walk, part: string, now: string): (r: Walk)
    requires WalkOk(w)
    ensures WalkOk(r) && |r.cursor| == |w.cursor| + 1
  {
    var cur := DirAt(w.root, w.cursor).value;
    match ChildIndex(cur.directories, part)
    case Some(i) =>
      DirAtSnoc(w.root, w.cursor, i);
      Walk(w.root, w.cursor + [i], w.highest)
    case None =>
      var nd := NewDirectory(part, NextUid(w.highest), now);
      var root := AppendDirAt(w.root, w.cursor, nd);
      AppendDirAtSpec(w.root, w.cursor, nd);
      DirAtSnoc(root, w.cursor, |cur.directories|);
      Walk(root, w.cursor + [|cur.directories|], Some(NextUid(w.highest)))
  }

  /** The walk over all components, in order. */
  function WalkPath(w: Walk, parts: seq<string>, now: string): (r: Walk)
    requires WalkOk(w)
    ensures WalkOk(r) && |r.cursor| == |w.cursor| + |parts|
    decreases |parts|
  {
    if parts == [] then w else Step(WalkPath(w, parts[..|parts| - 1], now), parts[|parts| - 1], now)
  }

  function StartWalk(index: Index): Walk
  {
    Walk(index.root, [], index.highestFileUid)
  }

  /**
   * `ensure_directory_path_exists`: walks the components, creating the missing
   * directories, and returns the updated index with the cursor of the target.
   */
  method EnsureDirectoryPathExists(index: Index, parts: seq<string>, now: string) returns (r: Index, cursor: seq<nat>)
    ensures r == index.(root := WalkPath(StartWalk(index), parts, now).root,
                        highestFileUid := WalkPath(StartWalk(index), parts, now).highest)
    ensures cursor == WalkPath(StartWalk(index), parts, now).cursor
  {
    var root := index.root;
    var highest := index.highestFileUid;
    cursor := [];
    var i := 0;
    while i < |parts|
      invariant 0 <= i <= |parts|
      invariant Walk(root, cursor, highest) == WalkPath(StartWalk(index), parts[..i], now)
    {
      assert parts[..i + 1][..i] == parts[..i];
      var current := DirAt(root, cursor).value;
      var found := ChildIndex(current.directories, parts[i]);
      match found {
        case Some(idx) =>
          cursor := cursor + [idx];
        case None =>
          var uid := NextUid(highest);
          root := AppendDirAt(root, cursor, NewDirectory(parts[i], uid, now));
          highest := Some(uid);
          cursor := cursor + [|current.directories|];
      }
      i := i + 1;
    }
    assert parts[..|parts|] == parts;
    r := index.(root := root, highestFileUid := highest);
  }

  // ---------------------------------------------------------------------------
  // get_directory_by_path_mut

  function NotFoundInPath(part: string): Error
  {
    Error(LtfsIndex, "Directory '" + part + "' not found in path")
  }

  /** The lookup of `get_directory_by_path_mut`, component by component: the first missing one is the error. */
  function LookupPath(d: Directory, parts: seq<string>): (r: Result<seq<nat>>)
    ensures r.Ok? ==> DirAt(d, r.value).Some?
    decreases |parts|
  {
    if parts == [] then Ok([])
    else
      match LookupPath(d, parts[..|parts| - 1])
      case Err(e) => Err(e)
      case Ok(c) =>
        match ChildIndex(DirAt(d, c).value.directories, parts[|parts| - 1])
        case None => Err(NotFoundInPath(parts[|parts| - 1]))
        case Some(i) =>
          DirAtSnoc(d, c, i);
          Ok(c + [i])
  }

  /** `get_directory_by_path_mut`: the cursor of the directory named by the components. */
  method GetDirectoryByPath(index: Index, parts: seq<string>) returns (r: Result<seq<nat>>)
    ensures r == LookupPath(index.root, parts)
  {
    var cursor: seq<nat> := [];
    var i := 0;
    while i < |parts|
      invariant 0 <= i <= |parts|
      invariant LookupPath(index.root, parts[..i]) == Ok(cursor)
    {
      assert parts[..i + 1][..i] == parts[..i];
      var current := DirAt(index.root, cursor).value;
      var found := ChildIndex(current.directories, parts[i]);
      match found {
        case None =>
          r := Err(NotFoundInPath(parts[i]));
          LookupErrorSticks(index.root, parts, i + 1);
          return;
        case Some(idx) =>
          cursor := cursor + [idx];
      }
      i := i + 1;
    }
    assert parts[..|parts|] == parts;
    r := Ok(cursor);
  }

  /** Once a prefix fails, the whole lookup fails with the same error. */
  lemma {:induction false} LookupErrorSticks(d: Directory, parts: seq<string>, k: nat)
    requires k <= |parts| && LookupPath(d, parts[..k]).Err?
    ensures LookupPath(d, parts) == LookupPath(d, parts[..k])
    decreases |parts| - k
  {
    if k < |parts| {
      assert parts[..k + 1][..k] == parts[..k];
      LookupErrorSticks(d, parts, k + 1);
    } else {
      assert parts[..k] == parts;
    }
  }

  /** The lookup agrees with the first-match resolution of the whole path. */
  lemma {:induction false} LookupResolve(d: Directory, parts: seq<string>)
    ensures LookupPath(d, parts).Ok? <==> Resolve(d, parts).Some?
    ensures LookupPath(d, parts).Ok? ==> LookupPath(d, parts).value == Resolve(d, parts).value
    decreases |parts|
  {
    if parts != [] {
      var init, last := parts[..|parts| - 1], parts[|parts| - 1];
      assert parts == init + [last];
      LookupResolve(d, init);
      ResolveSnoc(d, init, last);
    }
  }

  /** A failed lookup names the first component that does not resolve. */
  lemma {:induction false} LookupError(d: Directory, parts: seq<string>)
    requires LookupPath(d, parts).Err?
    ensures exists k :: (0 <= k < |parts| && Resolve(d, parts[..k]).Some? && Resolve(d, parts[..k + 1]).None?
      && LookupPath(d, parts).error == NotFoundInPath(parts[k]))
    decreases |parts|
  {
    var init, last := parts[..|parts| - 1], parts[|parts| - 1];
    assert parts[..|parts|] == parts;
    LookupResolve(d, init);
    LookupResolve(d, parts);
    if LookupPath(d, init).Err? {
      LookupError(d, init);
      var k :| 0 <= k < |init| && Resolve(d, init[..k]).Some? && Resolve(d, init[..k + 1]).None?
        && LookupPath(d, init).error == NotFoundInPath(init[k]);
      assert init[..k] == parts[..k] && init[..k + 1] == parts[..k + 1];
      assert LookupPath(d, parts) == LookupPath(d, init);
      assert Resolve(d, parts[..k]).Some? && Resolve(d, parts[..k + 1]).None?
        && LookupPath(d, parts).error == NotFoundInPath(parts[k]);
    } else {
      var k := |parts| - 1;
      assert parts[..k] == init && parts[..k + 1] == parts;
      assert Resolve(d, parts[..k]).Some? && Resolve(d, parts[..k + 1]).None?;
      assert LookupPath(d, parts).error == NotFoundInPath(parts[k]);
    }
  }

  // ---------------------------------------------------------------------------
  // add_file_to_target_directory

  /** `trim_start_matches('/').trim_end_matches('/')`. */
  function TrimSlashes(p: string): string
  {
    TrimEndChar(TrimStartChar(p, '/'), '/')
  }

  /** The stripped path has no '/' at either end, and only '/' characters were removed. */
  lemma TrimSlashesSpec(p: string)
    ensures var t := TrimSlashes(p); t == [] || (t[0] != '/' && t[|t| - 1] != '/')
    ensures exists a, b :: (0 <= a <= b <= |p| && TrimSlashes(p) == p[a..b]
      && (forall i :: 0 <= i < a ==> p[i] == '/') && (forall i :: b <= i < |p| ==> p[i] == '/'))
  {
    var s := TrimStartChar(p, '/');
    var t := TrimEndChar(s, '/');
    var a := |p| - |s|;
    var b := a + |t|;
    assert s == p[a..];
    assert t == s[..|t|];
    assert t == p[a..b];
    assert forall i :: 0 <= i < a ==> p[i] == '/';
    assert forall i :: b <= i < |p| ==> p[i] == '/' by {
      forall i | b <= i < |p| ensures p[i] == '/' {
        assert p[i] == s[i - a];
      }
    }
    if t != [] {
      assert t[0] == s[0];
    }
  }

  /** The components of a target path. */
  function PathParts(target: string): seq<string>
  {
    Split(TrimSlashes(target), '/')
  }

  /** What `add_file_to_target_directory` does to the index. */
  function AddFileSpec(index: Index, file: File, target: string, now: string): Result<Index>
  {
    if TrimSlashes(target) == [] then
      var uid := NextUid(index.highestFileUid);
      Ok(index.(highestFileUid := Some(uid), root := index.root.(files := index.root.files + [file.(uid := uid)])))
    else
      var w := WalkPath(StartWalk(index), PathParts(target), now);
      var uid := NextUid(w.highest);
      match LookupPath(w.root, PathParts(target))
      case Err(e) => Err(e)
      case Ok(c) => Ok(index.(root := AppendFileAt(w.root, c, file.(uid := uid)), highestFileUid := Some(uid)))
  }

  /** `add_file_to_target_directory`. */
  method AddFileToTargetDirectory(index: Index, file: File, target: string, now: string) returns (r: Result<Index>)
    ensures r == AddFileSpec(index, file, target, now)
  {
    var path := TrimSlashes(target);
    if path == [] {
      var uid := NextUid(index.highestFileUid);
      var root := index.root.(files := index.root.files + [file.(uid := uid)]);
      return Ok(index.(highestFileUid := Some(uid), root := root));
    }
    var parts := Split(path, '/');
    var walked, _ := EnsureDirectoryPathExists(index, parts, now);
    var uid := NextUid(walked.highestFileUid);
    var target_dir := GetDirectoryByPath(walked, parts);
    match target_dir {
      case Err(e) =>
        r := Err(e);
      case Ok(c) =>
        r := Ok(walked.(root := AppendFileAt(walked.root, c, file.(uid := uid)), highestFileUid := Some(uid)));
    }
  }

  // ---------------------------------------------------------------------------
  // Properties of the walk

  /** After the walk, the path resolves to the walk's cursor. */
  lemma {:induction false} WalkResolves(index: Index, parts: seq<string>, now: string)
    ensures Resolve(WalkPath(StartWalk(index), parts, now).root, parts) == Some(WalkPath(StartWalk(index), parts, now).cursor)
    decreases |parts|
  {
    if parts != [] {
      var init, last := parts[..|parts| - 1], parts[|parts| - 1];
      assert parts == init + [last];
      WalkResolves(index, init, now);
      var w := WalkPath(StartWalk(index), init, now);
      var cur := DirAt(w.root, w.cursor).value;
      match ChildIndex(cur.directories, last)
      case Some(i) =>
        ResolveSnoc(w.root, init, last);
      case None =>
        var nd := NewDirectory(last, NextUid(w.highest), now);
        var root := AppendDirAt(w.root, w.cursor, nd);
        ResolveAfterAppendDir(w.root, init, w.cursor, nd);
        AppendDirAtSpec(w.root, w.cursor, nd);
        ChildIndexSnoc(cur.directories, nd, last);
        ResolveSnoc(root, init, last);
    }
  }

  /** Components that already exist are followed, never recreated, and consume no UID. */
  lemma {:induction false} WalkExisting(index: Index, parts: seq<string>, now: string)
    requires Resolve(index.root, parts).Some?
    ensures WalkPath(StartWalk(index), parts, now) == Walk(index.root, Resolve(index.root, parts).value, index.highestFileUid)
    decreases |parts|
  {
    if parts != [] {
      var init, last := parts[..|parts| - 1], parts[|parts| - 1];
      assert parts == init + [last];
      ResolvePrefix(index.root, parts, |parts| - 1);
      WalkExisting(index, init, now);
      ResolveSnoc(index.root, init, last);
    }
  }

  /** Stepping into a missing component: the new directory, with the next UID, is where the cursor now points. */
  lemma StepCreates(w: Walk, part: string, now: string)
    requires WalkOk(w) && ChildIndex(DirAt(w.root, w.cursor).value.directories, part).None?
    ensures var r := Step(w, part, now);
      && r.highest == Some(NextUid(w.highest)) && r.cursor[..|w.cursor|] == w.cursor
      && DirAt(r.root, r.cursor) == Some(NewDirectory(part, NextUid(w.highest), now))
  {
    var cur := DirAt(w.root, w.cursor).value;
    var nd := NewDirectory(part, NextUid(w.highest), now);
    AppendDirAtSpec(w.root, w.cursor, nd);
    DirAtSnoc(AppendDirAt(w.root, w.cursor, nd), w.cursor, |cur.directories|);
  }

  /** A step keeps every directory of the tree where it was, with its UID. */
  lemma StepKeeps(w: Walk, part: string, now: string, c2: seq<nat>)
    requires WalkOk(w) && DirAt(w.root, c2).Some?
    ensures DirAt(Step(w, part, now).root, c2).Some?
    ensures DirAt(Step(w, part, now).root, c2).value.uid == DirAt(w.root, c2).value.uid
  {
    var cur := DirAt(w.root, w.cursor).value;
    if ChildIndex(cur.directories, part).None? {
      AppendDirAtKeeps(w.root, w.cursor, NewDirectory(part, NextUid(w.highest), now), c2);
    }
  }

  /** The directories at cursor[..m+1], ..., cursor[..n] have UIDs base+1, ..., base+n-m. */
  predicate ChainUids(root: Directory, cursor: seq<nat>, m: nat, n: nat, base: int)
    requires n <= |cursor|
  {
    forall k :: m < k <= n ==> DirAt(root, cursor[..k]).Some? && DirAt(root, cursor[..k]).value.uid as int == base + k - m
  }

  /**
   * When the first m components exist and component m does not, the walk
   * creates components m..|parts|-1 with UIDs base+1, base+2, ... in path
   * order, and highestfileuid ends at the last of them.
   */
  lemma {:induction false} WalkCreates(index: Index, parts: seq<string>, now: string, m: nat)
    requires m < |parts|
    requires Resolve(index.root, parts[..m]).Some? && Resolve(index.root, parts[..m + 1]).None?
    requires UidBase(index.highestFileUid) + |parts| < U64_LIMIT
    ensures var w := WalkPath(StartWalk(index), parts, now);
      && w.highest == Some(UidBase(index.highestFileUid) + |parts| - m)
      && DirAt(w.root, w.cursor).value.directories == []
      && ChainUids(w.root, w.cursor, m, |parts|, UidBase(index.highestFileUid))
    decreases |parts|
  {
    var base := UidBase(index.highestFileUid);
    var init, part := parts[..|parts| - 1], parts[|parts| - 1];
    assert parts == init + [part];
    var w := WalkPath(StartWalk(index), init, now);
    assert |w.cursor| == |init| && m <= |init|;
    if |parts| == m + 1 {
      assert init == parts[..m] && parts[..m + 1] == init + [part];
      WalkToMissing(index, init, part, now);
    } else {
      assert init[..m] == parts[..m] && init[..m + 1] == parts[..m + 1];
      WalkCreates(index, init, now, m);
      WalkCreatesNextMissing(index, init, part, now, m);
    }
    assert WalkPath(StartWalk(index), parts, now) == Step(w, part, now);
    CreateNext(w, part, now, m, base);
  }

  /** Below a directory the walk has just created, the next component is missing too. */
  lemma WalkCreatesNextMissing(index: Index, init: seq<string>, part: string, now: string, m: nat)
    requires DirAt(WalkPath(StartWalk(index), init, now).root, WalkPath(StartWalk(index), init, now).cursor).Some?
    requires DirAt(WalkPath(StartWalk(index), init, now).root, WalkPath(StartWalk(index), init, now).cursor).value.directories == []
    ensures var w := WalkPath(StartWalk(index), init, now);
      ChildIndex(DirAt(w.root, w.cursor).value.directories, part).None?
  {
  }

  /** Walking an existing path whose next component is missing creates nothing and stops where that component would go. */
  lemma WalkToMissing(index: Index, init: seq<string>, part: string, now: string)
    requires Resolve(index.root, init).Some? && Resolve(index.root, init + [part]).None?
    ensures var w := WalkPath(StartWalk(index), init, now);
      && w.highest == index.highestFileUid
      && ChildIndex(DirAt(w.root, w.cursor).value.directories, part).None?
  {
    WalkExisting(index, init, now);
    ResolveSnoc(index.root, init, part);
  }

  /** One more missing component: it gets the next UID, and the chain of created UIDs grows by one. */
  lemma CreateNext(w: Walk, part: string, now: string, m: nat, base: nat)
    requires WalkOk(w) && m <= |w.cursor|
    requires ChildIndex(DirAt(w.root, w.cursor).value.directories, part).None?
    requires UidBase(w.highest) == base + |w.cursor| - m && base + |w.cursor| + 1 - m < U64_LIMIT
    requires ChainUids(w.root, w.cursor, m, |w.cursor|, base)
    ensures var r := Step(w, part, now);
      && UidBase(r.highest) == base + |w.cursor| + 1 - m && r.highest.Some?
      && DirAt(r.root, r.cursor).value.directories == []
      && ChainUids(r.root, r.cursor, m, |w.cursor| + 1, base)
  {
    NextUidNoWrap(w.highest);
    StepCreates(w, part, now);
    ChainStep(w, part, now, m, base);
  }

  /** Creating the next component extends the chain of created UIDs by one. */
  lemma ChainStep(w: Walk, part: string, now: string, m: nat, base: int)
    requires WalkOk(w) && m <= |w.cursor| && ChainUids(w.root, w.cursor, m, |w.cursor|, base)
    requires ChildIndex(DirAt(w.root, w.cursor).value.directories, part).None?
    requires NextUid(w.highest) as int == base + |w.cursor| + 1 - m
    ensures ChainUids(Step(w, part, now).root, Step(w, part, now).cursor, m, |w.cursor| + 1, base)
  {
    StepCreates(w, part, now);
    var r := Step(w, part, now);
    var n := |w.cursor| + 1;
    forall k | m < k <= n
      ensures DirAt(r.root, r.cursor[..k]).Some? && DirAt(r.root, r.cursor[..k]).value.uid as int == base + k - m
    {
      if k < n {
        assert r.cursor[..k] == w.cursor[..k];
        StepKeeps(w, part, now, w.cursor[..k]);
      } else {
        assert r.cursor[..k] == r.cursor;
      }
    }
  }

  lemma NewDirectoryUids(name: string, uid: u64, now: string)
    ensures AllUids(NewDirectory(name, uid, now)) == [uid as int]
  {
    assert ChildUids(NewDirectory(name, uid, now), 0) == [];
  }

  /**
   * With the index's UIDs distinct and bounded by highestfileuid, and no
   * wrap-around, the walk keeps them distinct and bounded by the new value.
   */
  lemma {:induction false} WalkKeepsUids(index: Index, parts: seq<string>, now: string)
    requires Distinct(AllUids(index.root)) && BoundedBy(AllUids(index.root), UidBase(index.highestFileUid))
    requires UidBase(index.highestFileUid) + |parts| < U64_LIMIT
    ensures var w := WalkPath(StartWalk(index), parts, now);
      && Distinct(AllUids(w.root)) && BoundedBy(AllUids(w.root), UidBase(w.highest))
      && UidBase(index.highestFileUid) <= UidBase(w.highest) <= UidBase(index.highestFileUid) + |parts|
    decreases |parts|
  {
    if parts != [] {
      var init, last := parts[..|parts| - 1], parts[|parts| - 1];
      assert parts == init + [last];
      WalkKeepsUids(index, init, now);
      var w := WalkPath(StartWalk(index), init, now);
      var cur := DirAt(w.root, w.cursor).value;
      if ChildIndex(cur.directories, last).None? {
        var uid := NextUid(w.highest);
        assert uid as int == UidBase(w.highest) + 1;
        var nd := NewDirectory(last, uid, now);
        AppendDirAtUids(w.root, w.cursor, nd);
        NewDirectoryUids(last, uid, now);
        AddFresh(AllUids(w.root), AllUids(AppendDirAt(w.root, w.cursor, nd)), UidBase(w.highest), uid as int);
      }
    }
  }

  // ---------------------------------------------------------------------------
  // Properties of add_file_to_target_directory

  /** An empty (or all-'/') target puts the file into the root with UID highestfileuid+1. */
  lemma AddFileToRoot(index: Index, file: File, target: string, now: string)
    requires TrimSlashes(target) == []
    requires UidBase(index.highestFileUid) + 1 < U64_LIMIT
    ensures var r := AddFileSpec(index, file, target, now);
      && r.Ok?
      && r.value.root.files == index.root.files + [file.(uid := UidBase(index.highestFileUid) + 1)]
      && r.value.root.directories == index.root.directories
      && r.value.highestFileUid == Some(UidBase(index.highestFileUid) + 1)
  {
    NextUidNoWrap(index.highestFileUid);
  }

  /** The walk always reaches the target, so the second lookup never fails. */
  lemma AddFileSucceeds(index: Index, file: File, target: string, now: string)
    ensures AddFileSpec(index, file, target, now).Ok?
  {
    if TrimSlashes(target) != [] {
      var parts := PathParts(target);
      WalkResolves(index, parts, now);
      LookupResolve(WalkPath(StartWalk(index), parts, now).root, parts);
    }
  }

  /**
   * The file, with the UID after the walk's highestfileuid, is appended to
   * the files of the directory the target path resolves to afterwards.
   */
  lemma AddFilePlacement(index: Index, file: File, target: string, now: string)
    requires TrimSlashes(target) != []
    ensures var parts := PathParts(target);
      var w := WalkPath(StartWalk(index), parts, now);
      var r := AddFileSpec(index, file, target, now);
      && r.Ok?
      && Resolve(r.value.root, parts) == Some(w.cursor)
      && DirAt(r.value.root, w.cursor).value.files == DirAt(w.root, w.cursor).value.files + [file.(uid := NextUid(w.highest))]
      && r.value.highestFileUid == Some(NextUid(w.highest))
      && r.value.root == AppendFileAt(w.root, w.cursor, file.(uid := NextUid(w.highest)))
  {
    var parts := PathParts(target);
    var w := WalkPath(StartWalk(index), parts, now);
    var f := file.(uid := NextUid(w.highest));
    WalkResolves(index, parts, now);
    LookupResolve(w.root, parts);
    ResolveAfterAppendFile(w.root, parts, w.cursor, f);
    AppendFileAtSpec(w.root, w.cursor, f);
  }

  /** Existing directories are reused: only the file consumes a UID. */
  lemma AddFileExistingPath(index: Index, file: File, target: string, now: string)
    requires TrimSlashes(target) != [] && Resolve(index.root, PathParts(target)).Some?
    ensures var r := AddFileSpec(index, file, target, now);
      && r.Ok? && r.value.highestFileUid == Some(NextUid(index.highestFileUid))
      && r.value.root == AppendFileAt(index.root, Resolve(index.root, PathParts(target)).value, file.(uid := NextUid(index.highestFileUid)))
  {
    var parts := PathParts(target);
    WalkExisting(index, parts, now);
    LookupResolve(index.root, parts);
  }

  /**
   * With no wrap-around: the file's UID is allocated after every directory of
   * the chain. When components m.. are new, the directories they create have
   * UIDs base+1, ..., base+|parts|-m in path order and the file gets the next.
   */
  lemma AddFileUidOrder(index: Index, file: File, target: string, now: string, m: nat)
    requires TrimSlashes(target) != []
    requires m < |PathParts(target)|
    requires Resolve(index.root, PathParts(target)[..m]).Some? && Resolve(index.root, PathParts(target)[..m + 1]).None?
    requires UidBase(index.highestFileUid) + |PathParts(target)| + 1 < U64_LIMIT
    ensures AddFileSpec(index, file, target, now).Ok?
    ensures UidBase(AddFileSpec(index, file, target, now).value.highestFileUid)
      == UidBase(index.highestFileUid) + |PathParts(target)| - m + 1
    ensures ChainUids(AddFileSpec(index, file, target, now).value.root, WalkPath(StartWalk(index), PathParts(target), now).cursor,
      m, |PathParts(target)|, UidBase(index.highestFileUid))
  {
    var parts := PathParts(target);
    WalkCreates(index, parts, now, m);
    AddFilePlacement(index, file, target, now);
    var w := WalkPath(StartWalk(index), parts, now);
    NextUidNoWrap(w.highest);
    ChainAfterFile(w.root, w.cursor, file.(uid := NextUid(w.highest)), m, |parts|, UidBase(index.highestFileUid));
  }

  /** Appending a file leaves a chain of UIDs as it was. */
  lemma ChainAfterFile(root: Directory, cursor: seq<nat>, f: File, m: nat, n: nat, base: int)
    requires n <= |cursor| && ChainUids(root, cursor, m, n, base)
    ensures ChainUids(AppendFileAt(root, cursor, f), cursor, m, n, base)
  {
    forall k | m < k <= n
      ensures DirAt(AppendFileAt(root, cursor, f), cursor[..k]).Some?
      ensures DirAt(AppendFileAt(root, cursor, f), cursor[..k]).value.uid as int == base + k - m
    {
      AppendFileAtKeeps(root, cursor, f, cursor[..k]);
    }
  }

  /** Appending a file keeps every cursor valid, with the same UID. */
  lemma {:induction false} AppendFileAtKeeps(d: Directory, c: seq<nat>, f: File, c2: seq<nat>)
    requires DirAt(d, c2).Some?
    ensures DirAt(AppendFileAt(d, c, f), c2).Some?
    ensures DirAt(AppendFileAt(d, c, f), c2).value.uid == DirAt(d, c2).value.uid
    decreases |c2|
  {
    if c2 != [] && c != [] && c[0] == c2[0] {
      AppendFileAtKeeps(d.directories[c[0]], c[1..], f, c2[1..]);
    }
  }

  lemma AddFileToRootKeepsUids(index: Index, file: File)
    requires Distinct(AllUids(index.root)) && BoundedBy(AllUids(index.root), UidBase(index.highestFileUid))
    requires UidBase(index.highestFileUid) + 1 < U64_LIMIT
    ensures var uid := NextUid(index.highestFileUid);
      var root := AppendFileAt(index.root, [], file.(uid := uid));
      Distinct(AllUids(root)) && BoundedBy(AllUids(root), uid as int) && uid as int == UidBase(index.highestFileUid) + 1
  {
    var uid := NextUid(index.highestFileUid);
    AppendFileAtUids(index.root, [], file.(uid := uid));
    AddFresh(AllUids(index.root), AllUids(AppendFileAt(index.root, [], file.(uid := uid))), UidBase(index.highestFileUid), uid as int);
  }

  lemma AddFileToPathKeepsUids(index: Index, file: File, target: string, now: string)
    requires TrimSlashes(target) != []
    requires Distinct(AllUids(index.root)) && BoundedBy(AllUids(index.root), UidBase(index.highestFileUid))
    requires UidBase(index.highestFileUid) + |PathParts(target)| + 1 < U64_LIMIT
    ensures var w := WalkPath(StartWalk(index), PathParts(target), now);
      var uid := NextUid(w.highest);
      var root := AppendFileAt(w.root, w.cursor, file.(uid := uid));
      Distinct(AllUids(root)) && BoundedBy(AllUids(root), uid as int) && uid as int > UidBase(index.highestFileUid)
  {
    var parts := PathParts(target);
    WalkKeepsUids(index, parts, now);
    var w := WalkPath(StartWalk(index), parts, now);
    NextUidNoWrap(w.highest);
    var uid := NextUid(w.highest);
    var f := file.(uid := uid);
    var root := AppendFileAt(w.root, w.cursor, f);
    AppendFileAtUids(w.root, w.cursor, f);
    AddFresh(AllUids(w.root), AllUids(root), UidBase(w.highest), uid as int);
  }

  /**
   * No duplicates: if the index's UIDs are distinct and bounded by
   * highestfileuid, then after the add they are still distinct, the new
   * highestfileuid is the file's UID, and every UID in the tree is at most it.
   */
  lemma AddFileKeepsUids(index: Index, file: File, target: string, now: string)
    requires Distinct(AllUids(index.root)) && BoundedBy(AllUids(index.root), UidBase(index.highestFileUid))
    requires UidBase(index.highestFileUid) + |PathParts(target)| + 1 < U64_LIMIT
    ensures var r := AddFileSpec(index, file, target, now);
      && r.Ok? && r.value.highestFileUid.Some?
      && Distinct(AllUids(r.value.root)) && BoundedBy(AllUids(r.value.root), UidBase(r.value.highestFileUid))
      && UidBase(r.value.highestFileUid) > UidBase(index.highestFileUid)
  {
    var r := AddFileSpec(index, file, target, now);
    if TrimSlashes(target) == [] {
      AddFileToRootKeepsUids(index, file);
      assert r.value.root == AppendFileAt(index.root, [], file.(uid := NextUid(index.highestFileUid)));
    } else {
      AddFileToPathKeepsUids(index, file, target, now);
      AddFilePlacement(index, file, target, now);
      var w := WalkPath(StartWalk(index), PathParts(target), now);
      assert r.value.root == AppendFileAt(w.root, w.cursor, file.(uid := NextUid(w.highest)));
    }
  }

  /** The UIDs of the tree are distinct and none exceeds highestfileuid. */
  predicate UidInvariant(ix: Index)
  {
    Distinct(AllUids(ix.root)) && BoundedBy(AllUids(ix.root), UidBase(ix.highestFileUid))
  }

  /** The directory a target path names after the add (the root for an empty path). */
  function TargetDirectory(root: Directory, target: string): Option<Directory>
  {
    if TrimSlashes(target) == [] then Some(root)
    else match Resolve(root, PathParts(target))
      case None => None
      case Some(c) => DirAt(root, c)
  }

  /** f is the last file of the directory target names in root. */
  predicate FileLanded(root: Directory, target: string, f: File)
  {
    TargetDirectory(root, target).Some?
    && var fs := TargetDirectory(root, target).value.files;
       fs != [] && fs[|fs| - 1] == f
  }

  /** The added file is the last file of the directory its target path names, carrying the new highestfileuid. */
  lemma AddFileLands(index: Index, file: File, target: string, now: string)
    ensures var r := AddFileSpec(index, file, target, now);
      && r.Ok? && r.value.highestFileUid.Some?
      && FileLanded(r.value.root, target, file.(uid := r.value.highestFileUid.value))
  {
    if TrimSlashes(target) != [] {
      AddFilePlacement(index, file, target, now);
    }
  }

  lemma ExamplePath(p: string)
    requires p == "/a/b"
    ensures PathParts(p) == ["a", "b"]
  {
    var q := p[1..];
    assert q == "a/b";
    assert TrimStartChar(q, '/') == q;
    assert TrimStartChar(p, '/') == q;
    assert TrimEndChar(q, '/') == q;
    var b := q[2..];
    assert b == "b";
    assert FindFrom(b, "/", 0) == None by {
      assert FindFrom(b, "/", 1) == None;
    }
    assert Split(b, '/') == [b];
    assert FindFrom(q, "/", 0) == Some(1) by {
      assert q[1..2] == "/";
      assert FindFrom(q, "/", 1) == Some(1);
    }
    assert q[..1] == "a";
    assert Split(q, '/') == [q[..1]] + Split(b, '/');
  }

  lemma ExampleWalk(uuid: string, now: string)
    ensures WalkPath(StartWalk(CreateNewIndex(uuid, now)), ["a", "b"], now)
      == Walk(CreateNewIndex(uuid, now).root.(directories := [NewDirectory("a", 2, now).(directories := [NewDirectory("b", 3, now)])]),
              [0, 0], Some(3))
  {
    var ix := CreateNewIndex(uuid, now);
    var w0 := StartWalk(ix);
    assert ["a", "b"][..1] == ["a"];
    assert ["a"][..0] == [];
    var a := NewDirectory("a", 2, now);
    var w1 := Walk(ix.root.(directories := [a]), [0], Some(2));
    assert WalkPath(w0, ["a"], now) == Step(w0, "a", now) == w1;
    assert DirAt(w1.root, [0]) == Some(a);
    assert NextUid(Some(2)) == 3;
    var b := NewDirectory("b", 3, now);
    assert [0][1..] == [] && [a][0 := a.(directories := [b])] == [a.(directories := [b])];
    assert AppendDirAt(a, [], b) == a.(directories := [b]);
    assert AppendDirAt(w1.root, [0], b) == ix.root.(directories := [a.(directories := [b])]);
    assert Step(w1, "b", now) == Walk(AppendDirAt(w1.root, [0], b), [0] + [0], Some(3));
    assert WalkPath(w0, ["a", "b"], now) == Step(w1, "b", now);
  }

  lemma ExampleAppend(root: Directory, a: Directory, b: Directory, f: File)
    requires root.directories == [a.(directories := [b])]
    ensures AppendFileAt(root, [0, 0], f).directories == [a.(directories := [b.(files := b.files + [f])])]
    ensures AppendFileAt(root, [0, 0], f).files == root.files
  {
    var a1 := a.(directories := [b]);
    assert [0, 0][1..] == [0] && [0][1..] == [];
    assert AppendFileAt(b, [], f) == b.(files := b.files + [f]);
    assert AppendFileAt(a1, [0], f) == a1.(directories := [b.(files := b.files + [f])]);
  }

  /** Adding a file at "/a/b" to a fresh index creates a (UID 2) and b (UID 3), then gives the file UID 4. */
  lemma AddFileExample(uuid: string, now: string, file: File)
    ensures var r := AddFileSpec(CreateNewIndex(uuid, now), file, "/a/b", now);
      && r.Ok? && r.value.highestFileUid == Some(4)
      && r.value.root.files == []
      && r.value.root.directories == [NewDirectory("a", 2, now).(directories := [NewDirectory("b", 3, now).(files := [file.(uid := 4)])])]
  {
    var ix := CreateNewIndex(uuid, now);
    var w2 := WalkPath(StartWalk(ix), ["a", "b"], now);
    var a := NewDirectory("a", 2, now);
    var b := NewDirectory("b", 3, now);
    var f := file.(uid := 4);
    assert w2 == Walk(ix.root.(directories := [a.(directories := [b])]), [0, 0], Some(3)) by {
      ExampleWalk(uuid, now);
    }
    assert LookupPath(w2.root, ["a", "b"]) == Ok([0, 0]) by {
      WalkResolves(ix, ["a", "b"], now);
      LookupResolve(w2.root, ["a", "b"]);
    }
    var root := AppendFileAt(w2.root, [0, 0], f);
    assert root.files == [] && root.directories == [a.(directories := [b.(files := [f])])] by {
      ExampleAppend(w2.root, a, b, f);
      assert b.files + [f] == [f];
    }
    assert AddFileSpec(ix, file, "/a/b", now) == Ok(ix.(root := root, highestFileUid := Some(4))) by {
      ExamplePath("/a/b");
      NextUidNoWrap(Some(3));
    }
  }

  // ---------------------------------------------------------------------------
  // update_index_for_file_write and update_index_for_file_write_enhanced

  /** The one extent of a freshly written file: on partition "a" exactly when the write was on partition 0. */
  function WriteExtent(partition: u8, block: u64, size: u64): (e: Extent)
    ensures e.partition == "a" <==> partition == 0
    ensures e.partition == "b" <==> partition != 0
    ensures e.startBlock == block && e.byteCount == size && e.fileOffset == 0 && e.byteOffset == 0
  {
    Extent(if partition == 0 then "a" else "b", block, size, 0, 0)
  }

  /** The timestamps the file system reports for the source file; None where the platform has none. */
  datatype SourceTimes = SourceTimes(created: Option<string>, modified: Option<string>, accessed: Option<string>)

  function OrNow(t: Option<string>, now: string): string
  {
    match t
    case None => now
    case Some(v) => v
  }

  /** The hash extended attributes in the order given, then the capacity placeholder. */
  function HashXattrs(hashes: seq<(string, string)>): (r: seq<Xattr>)
    ensures |r| == |hashes| + 1
    ensures r[|hashes|] == Xattr("ltfscopygui.capacityremain", "12")
    ensures forall i :: 0 <= i < |hashes| ==> r[i] == Xattr(hashes[i].0, hashes[i].1)
  {
    if hashes == [] then [Xattr("ltfscopygui.capacityremain", "12")]
    else [Xattr(hashes[0].0, hashes[0].1)] + HashXattrs(hashes[1..])
  }

  /** The file record built for a write, with the placeholder UID 0 that the add replaces. */
  function WrittenFile(name: Option<string>, size: u64, partition: u8, block: u64, times: SourceTimes,
                       xattrs: Option<seq<Xattr>>, now: string): File
  {
    File(match name case None => "unknown" case Some(n) => n, 0, size,
      Times(OrNow(times.created, now), now, OrNow(times.modified, now), OrNow(times.accessed, now), now),
      false, false, None, [WriteExtent(partition, block, size)], xattrs)
  }

  /** The current index, or a new one when there is none. */
  function CurrentOrNew(current: Option<Index>, uuid: string, now: string): Index
  {
    match current
    case None => CreateNewIndex(uuid, now)
    case Some(ix) => ix
  }

  /** Adds the file, then bumps the generation (wrapping on u64) and sets the update time. */
  function CommitWrite(base: Index, file: File, target: string, now: string): Result<Index>
  {
    match AddFileSpec(base, file, target, now)
    case Err(e) => Err(e)
    case Ok(ix) => Ok(ix.(generation := AsU64(ix.generation as int + 1), updatetime := now))
  }

  /** `update_index_for_file_write`: every timestamp is the current time and there are no extended attributes. */
  function UpdateIndexForFileWrite(current: Option<Index>, name: Option<string>, target: string, size: u64,
                                   partition: u8, block: u64, uuid: string, now: string): (r: Result<Index>)
    ensures r.Ok? && r.value.updatetime == now && r.value.highestFileUid.Some?
    ensures r.value.generation as int == (CurrentOrNew(current, uuid, now).generation as int + 1) % U64_LIMIT
    ensures current.None? ==> r.value.generation == 2
  {
    var file := WrittenFile(name, size, partition, block, SourceTimes(None, None, None), None, now);
    UpdateCommits(current, file, target, uuid, now);
    CommitWrite(CurrentOrNew(current, uuid, now), file, target, now)
  }

  /**
   * `update_index_for_file_write_enhanced`: the source's timestamps where the
   * file system has them, and the hashes as extended attributes. A failure to
   * read the source's metadata is a FileOperation error, before any change.
   */
  function UpdateIndexForFileWriteEnhanced(current: Option<Index>, name: Option<string>, target: string, size: u64,
                                           partition: u8, block: u64, metadata: Result<SourceTimes>,
                                           hashes: Option<seq<(string, string)>>, uuid: string, now: string): (r: Result<Index>)
    ensures r.Err? <==> metadata.Err?
    ensures r.Err? ==> r.error.kind == FileOperation && StartsWith(r.error.message, "Cannot get file metadata: ")
    ensures r.Ok? ==> r.value.updatetime == now && r.value.highestFileUid.Some?
                      && r.value.generation as int == (CurrentOrNew(current, uuid, now).generation as int + 1) % U64_LIMIT
  {
    match metadata
    case Err(e) =>
      var msg := "Cannot get file metadata: " + e.message;
      assert msg[..|"Cannot get file metadata: "|] == "Cannot get file metadata: ";
      Err(Error(FileOperation, msg))
    case Ok(times) =>
      var xattrs := match hashes case None => None case Some(h) => Some(HashXattrs(h));
      var file := WrittenFile(name, size, partition, block, times, xattrs, now);
      var base := CurrentOrNew(current, uuid, now);
      CommitWriteOk(base, file, target, now);
      CommitWrite(base, file, target, now)
  }

  /**
   * A committed write: the generation goes up by one (mod 2^64), the written
   * file is the last file of its target directory with the new UID and one
   * extent covering its whole length, and the UID invariant is kept.
   */
  lemma CommitWriteSpec(base: Index, file: File, target: string, now: string)
    requires UidInvariant(base)
    requires UidBase(base.highestFileUid) + |PathParts(target)| + 1 < U64_LIMIT
    ensures var r := CommitWrite(base, file, target, now);
      && r.Ok?
      && r.value.generation as int == (base.generation as int + 1) % U64_LIMIT
      && r.value.updatetime == now
      && r.value.highestFileUid.Some?
      && UidInvariant(r.value)
      && FileLanded(r.value.root, target, file.(uid := r.value.highestFileUid.value))
  {
    AddFileSucceeds(base, file, target, now);
    var a := AddFileSpec(base, file, target, now).value;
    assert UidInvariant(a) && a.highestFileUid.Some? by {
      AddFileKeepsUids(base, file, target, now);
    }
    assert FileLanded(a.root, target, file.(uid := a.highestFileUid.value)) by {
      AddFileLands(base, file, target, now);
    }
    CommitWriteShape(base, file, target, now);
  }

  /** Whatever the index, a commit succeeds, stamps the update time, holds a highestfileuid and bumps the generation mod 2^64. */
  lemma CommitWriteOk(base: Index, file: File, target: string, now: string)
    ensures var r := CommitWrite(base, file, target, now);
      && r.Ok?
      && r.value.updatetime == now
      && r.value.highestFileUid.Some?
      && r.value.generation as int == (base.generation as int + 1) % U64_LIMIT
  {
    AddFileSucceeds(base, file, target, now);
    CommitWriteShape(base, file, target, now);
  }

  /** A write into the current index or a fresh one commits; into a fresh one it lands at generation 2. */
  lemma UpdateCommits(current: Option<Index>, file: File, target: string, uuid: string, now: string)
    ensures var r := CommitWrite(CurrentOrNew(current, uuid, now), file, target, now);
      && r.Ok? && r.value.updatetime == now && r.value.highestFileUid.Some?
      && r.value.generation as int == (CurrentOrNew(current, uuid, now).generation as int + 1) % U64_LIMIT
      && (current.None? ==> r.value.generation == 2)
  {
    var base := CurrentOrNew(current, uuid, now);
    CommitWriteOk(base, file, target, now);
    if current.None? {
      assert base.generation == 1;
    }
  }

  /** The commit is the add followed by the generation bump; the add does not touch the generation. */
  lemma CommitWriteShape(base: Index, file: File, target: string, now: string)
    requires AddFileSpec(base, file, target, now).Ok?
    ensures var a := AddFileSpec(base, file, target, now).value;
      && a.generation == base.generation
      && CommitWrite(base, file, target, now) == Ok(a.(generation := AsU64(base.generation as int + 1), updatetime := now))
  {
  }

  /** A basic write into a fresh index succeeds, at generation 2, and records the file with its one extent. */
  lemma UpdateOnFreshIndex(name: Option<string>, target: string, size: u64, partition: u8, block: u64, uuid: string, now: string)
    requires |PathParts(target)| + 2 < U64_LIMIT
    ensures var r := UpdateIndexForFileWrite(None, name, target, size, partition, block, uuid, now);
      && r.Ok? && r.value.generation == 2 && r.value.highestFileUid.Some?
      && UidInvariant(r.value)
      && FileLanded(r.value.root, target,
           WrittenFile(name, size, partition, block, SourceTimes(None, None, None), None, now).(uid := r.value.highestFileUid.value))
  {
    var ix := CreateNewIndex(uuid, now);
    assert ix.root == NewDirectory("", 1, now);
    NewDirectoryUids("", 1, now);
    CommitWriteSpec(ix, WrittenFile(name, size, partition, block, SourceTimes(None, None, None), None, now), target, now);
  }
}
