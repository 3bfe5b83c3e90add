// Queries and small updates on an LTFS index (ltfs_index.rs): path
// normalisation, path lookup, directory listing, file information, the next
// free UID, sorted extents, and the two in-place updates insert_file and
// increment_generation.

module IndexTree {
  import opened Wrappers
  import opened Bytes
  import opened Strings
  import opened Sorting
  import opened IndexTypes

  // ---------------------------------------------------------------------------
  // normalize_path

  /** No two adjacent '/' characters. */
  predicate NoDoubleSlash(s: string)
  {
    forall i :: 0 <= i < |s| - 1 ==> !(s[i] == '/' && s[i + 1] == '/')
  }

  /**
   * Every run of '/' squeezed to one; `prevSlash` says whether the character
   * before s was a '/' that has been kept.
   */
  function SqueezeFrom(prevSlash: bool, s: string): string
    decreases |s|
  {
    if s == [] then []
    else if s[0] == '/' && prevSlash then SqueezeFrom(true, s[1..])
    else [s[0]] + SqueezeFrom(s[0] == '/', s[1..])
  }

  function Squeeze(s: string): string
  {
    SqueezeFrom(false, s)
  }

  /** Drops one trailing '/' unless the string is a single character (only "/" can then end with '/'). */
  function PopTrailingSlash(s: string): string
  {
    if |s| > 1 && s[|s| - 1] == '/' then s[..|s| - 1] else s
  }

  /** What `normalize_path` computes: backslashes to '/', runs of '/' squeezed, one trailing '/' dropped. */
  function NormalizedPath(path: string): string
  {
    PopTrailingSlash(Squeeze(ReplaceAll(path, "\\", "/")))
  }

  /** One pass of `replace("//", "/")` does not change the squeezed form. */
  lemma {:induction false} SqueezeReplace(p: bool, t: string)
    ensures SqueezeFrom(p, ReplaceAll(t, "//", "/")) == SqueezeFrom(p, t)
    decreases |t|
  {
    if |t| >= 2 {
      if t[..2] == "//" {
        var rest := t[2..];
        var r := ReplaceAll(rest, "//", "/");
        SqueezeReplace(true, rest);
        assert ReplaceAll(t, "//", "/") == "/" + r;
        assert ("/" + r)[1..] == r;
        assert t[1..][1..] == rest;
      } else {
        var r := ReplaceAll(t[1..], "//", "/");
        SqueezeReplace(t[0] == '/', t[1..]);
        assert ReplaceAll(t, "//", "/") == [t[0]] + r;
        assert ([t[0]] + r)[1..] == r;
      }
    }
  }

  /** The squeezed form has no "//", and after a kept '/' it does not start with '/'. */
  lemma {:induction false} SqueezeShape(p: bool, s: string)
    ensures NoDoubleSlash(SqueezeFrom(p, s))
    ensures p && SqueezeFrom(p, s) != [] ==> SqueezeFrom(p, s)[0] != '/'
    decreases |s|
  {
    if s != [] {
      SqueezeShape(true, s[1..]);
      SqueezeShape(s[0] == '/', s[1..]);
      if !(s[0] == '/' && p) {
        var q := SqueezeFrom(s[0] == '/', s[1..]);
        var r := [s[0]] + q;
        forall i | 0 <= i < |r| - 1
          ensures !(r[i] == '/' && r[i + 1] == '/')
        {
          if i > 0 {
            assert r[i] == q[i - 1] && r[i + 1] == q[i];
          }
        }
      }
    }
  }

  /** Squeezing a string without "//" (and not starting with '/' after a kept '/') changes nothing. */
  lemma {:induction false} SqueezeIdentity(p: bool, s: string)
    requires NoDoubleSlash(s) && (p && s != [] ==> s[0] != '/')
    ensures SqueezeFrom(p, s) == s
    decreases |s|
  {
    if s != [] {
      assert NoDoubleSlash(s[1..]) by {
        forall i | 0 <= i < |s[1..]| - 1
          ensures !(s[1..][i] == '/' && s[1..][i + 1] == '/')
        {
          assert s[1..][i] == s[i + 1] && s[1..][i + 1] == s[i + 2];
        }
      }
      SqueezeIdentity(s[0] == '/', s[1..]);
      assert [s[0]] + s[1..] == s;
    }
  }

  /** Squeezing only removes characters. */
  lemma {:induction false} SqueezeChars(p: bool, s: string)
    ensures forall c :: c in SqueezeFrom(p, s) ==> c in s
    decreases |s|
  {
    if s != [] {
      SqueezeChars(true, s[1..]);
      SqueezeChars(s[0] == '/', s[1..]);
    }
  }

  /** After replacing every backslash by '/', none is left. */
  lemma {:induction false} NoBackslashAfterReplace(s: string)
    ensures forall c :: c in ReplaceAll(s, "\\", "/") ==> c != '\\'
    decreases |s|
  {
    if |s| >= 1 {
      NoBackslashAfterReplace(s[1..]);
      if s[..1] == "\\" {
        assert ReplaceAll(s, "\\", "/") == "/" + ReplaceAll(s[1..], "\\", "/");
      } else {
        assert s[0] != '\\' by { assert s[..1] == [s[0]]; }
        assert ReplaceAll(s, "\\", "/") == [s[0]] + ReplaceAll(s[1..], "\\", "/");
      }
    }
  }

  /** `contains("//")` is exactly the presence of two adjacent '/'. */
  lemma DoubleSlashIff(s: string)
    ensures Contains(s, "//") <==> !NoDoubleSlash(s)
  {
    ContainsIff(s, "//");
    if !NoDoubleSlash(s) {
      var i :| 0 <= i < |s| - 1 && s[i] == '/' && s[i + 1] == '/';
      assert s[i..i + 2] == "//";
      assert MatchAt(s, "//", i);
    }
    forall i: nat | MatchAt(s, "//", i)
      ensures !NoDoubleSlash(s)
    {
      assert s[i] == s[i..i + 2][0] && s[i + 1] == s[i..i + 2][1];
    }
  }

  /** `normalize_path`: the loop replaces "//" by "/" until none is left. */
  method NormalizePath(path: string) returns (r: string)
    ensures r == NormalizedPath(path)
  {
    var normalized := ReplaceAll(path, "\\", "/");
    ghost var start := normalized;
    while Contains(normalized, "//")
      invariant Squeeze(normalized) == Squeeze(start)
      decreases |normalized|
    {
      ReplaceAllShorter(normalized, "//", "/");
      SqueezeReplace(false, normalized);
      normalized := ReplaceAll(normalized, "//", "/");
    }
    DoubleSlashIff(normalized);
    SqueezeIdentity(false, normalized);
    if |normalized| > 1 && normalized[|normalized| - 1] == '/' {
      normalized := normalized[..|normalized| - 1];
    }
    r := normalized;
  }

  /** A normalised path has no backslash, no "//", and no trailing '/' unless it is "/". */
  lemma NormalizedShape(path: string)
    ensures var r := NormalizedPath(path);
      && (forall c :: c in r ==> c != '\\')
      && NoDoubleSlash(r)
      && (r == "/" || r == [] || r[|r| - 1] != '/')
  {
    var b := ReplaceAll(path, "\\", "/");
    var q := Squeeze(b);
    NoBackslashAfterReplace(path);
    SqueezeChars(false, b);
    SqueezeShape(false, b);
    var r := PopTrailingSlash(q);
    if |q| > 1 && q[|q| - 1] == '/' {
      assert q[|q| - 2] != '/';
      assert forall i :: 0 <= i < |r| ==> r[i] == q[i];
      assert forall c :: c in r ==> c in q;
    }
  }

  /** Normalising twice is normalising once. */
  lemma NormalizeIdempotent(path: string)
    ensures NormalizedPath(NormalizedPath(path)) == NormalizedPath(path)
  {
    var r := NormalizedPath(path);
    NormalizedShape(path);
    NoCharNoMatch(r, '\\');
    ReplaceAllAbsent(r, "\\", "/");
    SqueezeIdentity(false, r);
  }

  /** A string without the character c does not contain the one-character pattern [c]. */
  lemma NoCharNoMatch(s: string, c: char)
    requires forall x :: x in s ==> x != c
    ensures !Contains(s, [c])
  {
    ContainsIff(s, [c]);
    forall i: nat | i + 1 <= |s|
      ensures !MatchAt(s, [c], i)
    {
      assert s[i..i + 1] == [s[i]] && s[i] in s;
    }
  }

  /** A path already in normal form is left as it is. */
  lemma NormalFormFixed(s: string)
    requires (forall x :: x in s ==> x != '\\') && NoDoubleSlash(s)
    ensures NormalizedPath(s) == PopTrailingSlash(s)
  {
    NoCharNoMatch(s, '\\');
    ReplaceAllAbsent(s, "\\", "/");
    SqueezeIdentity(false, s);
  }

  lemma NormalizeRoot()
    ensures NormalizedPath("/") == "/"
  {
    NormalFormFixed("/");
  }

  lemma NormalizeTrailing()
    ensures NormalizedPath("/test/path/") == "/test/path"
  {
    NormalFormFixed("/test/path/");
  }

  /** Backslash separators between backslash-free names become '/'. */
  lemma BackslashSeparators(x: string, y: string)
    requires (forall c :: c in x ==> c != '\\') && (forall c :: c in y ==> c != '\\')
    ensures ReplaceAll("\\" + (x + ("\\" + y)), "\\", "/") == "/" + (x + ("/" + y))
  {
    ReplaceAllConcat("\\", x + ("\\" + y), '\\', "/");
    ReplaceAllConcat(x, "\\" + y, '\\', "/");
    ReplaceAllConcat("\\", y, '\\', "/");
    NoCharNoMatch(x, '\\');
    ReplaceAllAbsent(x, "\\", "/");
    NoCharNoMatch(y, '\\');
    ReplaceAllAbsent(y, "\\", "/");
  }

  lemma NormalizeBackslashes(s: string)
    requires s == "\\test\\path"
    ensures NormalizedPath(s) == "/test/path"
  {
    assert ReplaceAll(s, "\\", "/") == "/test/path" by {
      assert s == "\\" + ("test" + ("\\" + "path"));
      BackslashSeparators("test", "path");
    }
    SqueezeIdentity(false, "/test/path");
  }

  /** Whether a kept '/' precedes what follows a (p when a is empty). */
  function SlashAfter(p: bool, a: string): bool
  {
    if a == [] then p else a[|a| - 1] == '/'
  }

  /** Squeezing works piece by piece. */
  lemma {:induction false} SqueezeConcat(p: bool, a: string, b: string)
    ensures SqueezeFrom(p, a + b) == SqueezeFrom(p, a) + SqueezeFrom(SlashAfter(p, a), b)
    decreases |a|
  {
    if a == [] {
      assert a + b == b;
    } else {
      var q := a[0] == '/';
      var tail := SqueezeFrom(SlashAfter(p, a), b);
      assert (a + b)[0] == a[0] && (a + b)[1..] == a[1..] + b;
      SqueezeConcat(q, a[1..], b);
      assert SlashAfter(q, a[1..]) == SlashAfter(p, a) by {
        if |a| > 1 {
          assert a[1..][|a[1..]| - 1] == a[|a| - 1];
        }
      }
      assert SqueezeFrom(q, a[1..] + b) == SqueezeFrom(q, a[1..]) + tail;
      if q && p {
        assert SqueezeFrom(p, a + b) == SqueezeFrom(true, a[1..] + b);
        assert SqueezeFrom(p, a) == SqueezeFrom(true, a[1..]);
      } else {
        var t := SqueezeFrom(q, a[1..]);
        assert SqueezeFrom(p, a + b) == [a[0]] + (t + tail);
        assert SqueezeFrom(p, a) == [a[0]] + t;
        assert [a[0]] + (t + tail) == ([a[0]] + t) + tail;
      }
    }
  }

  lemma SqueezeDoubled()
    ensures Squeeze("//" + ("test" + ("//" + ("path" + "//")))) == "/" + ("test" + ("/" + ("path" + "/")))
  {
    assert SqueezeFrom(false, "//") == "/";
    assert SqueezeFrom(true, "//") == [];
    SqueezeIdentity(true, "test");
    SqueezeIdentity(true, "path");
    SqueezeConcat(false, "//", "test" + ("//" + ("path" + "//")));
    SqueezeConcat(true, "test", "//" + ("path" + "//"));
    SqueezeConcat(false, "//", "path" + "//");
    SqueezeConcat(true, "path", "//");
  }

  lemma NormalizeDoubled(s: string)
    requires s == "//test//path//"
    ensures NormalizedPath(s) == "/test/path"
  {
    assert ReplaceAll(s, "\\", "/") == s by {
      NoCharNoMatch(s, '\\');
      ReplaceAllAbsent(s, "\\", "/");
    }
    assert Squeeze(s) == "/test/path/" by {
      assert s == "//" + ("test" + ("//" + ("path" + "//")));
      SqueezeDoubled();
    }
  }

  // ---------------------------------------------------------------------------
  // find_path and find_path_recursive

  /** `filter(|s| !s.is_empty())`. */
  function NonEmpty(parts: seq<string>): (r: seq<string>)
    ensures forall x :: x in r ==> x != []
    ensures forall x :: x in parts && x != [] ==> x in r
    ensures forall x :: x in r ==> x in parts
  {
    if parts == [] then []
    else if parts[0] == [] then NonEmpty(parts[1..])
    else [parts[0]] + NonEmpty(parts[1..])
  }

  /** The components `find_path` looks up: the non-empty pieces of the normalised path. */
  function Components(path: string): seq<string>
  {
    NonEmpty(Split(NormalizedPath(path), '/'))
  }

  /** Rust `iter().find(|f| f.name == name)` on a file list: the first file with that name. */
  function FileIndex(fs: seq<File>, name: string): (r: Option<nat>)
    ensures r.Some? ==> r.value < |fs| && fs[r.value].name == name
    ensures r.Some? ==> forall k :: 0 <= k < r.value ==> fs[k].name != name
    ensures r.None? ==> forall k :: 0 <= k < |fs| ==> fs[k].name != name
  {
    if fs == [] then None
    else if fs[0].name == name then Some(0)
    else match FileIndex(fs[1..], name)
      case None => None
      case Some(i) => Some(i + 1)
  }

  /** `find_path_recursive` from component `index` on, in `cur`. */
  function FindPathFrom(cur: Directory, parts: seq<string>, index: nat): PathType
    decreases |parts| - index
  {
    if index >= |parts| then DirectoryAt(cur)
    else match ChildIndex(cur.directories, parts[index])
      case Some(i) =>
        if index == |parts| - 1 then DirectoryAt(cur.directories[i])
        else FindPathFrom(cur.directories[i], parts, index + 1)
      case None =>
        if index == |parts| - 1 then
          match FileIndex(cur.files, parts[index])
          case Some(j) => FileAt(cur.files[j])
          case None => NotFound
        else NotFound
  }

  /**
   * `find_path`: the root for a path without components. It agrees with the
   * first-match meaning `LookupRef` of the path's components.
   */
  function FindPath(root: Directory, path: string): (r: PathType)
    ensures r == LookupRef(root, Components(path))
  {
    var parts := Components(path);
    FindPathFromRef(root, parts, 0);
    assert parts[0..] == parts;
    if parts == [] then DirectoryAt(root) else FindPathFrom(root, parts, 0)
  }

  /**
   * The meaning of a lookup: the directory the whole path resolves to, else
   * the first file named by the last component in the directory its parent
   * path resolves to, else nothing.
   */
  function LookupRef(cur: Directory, names: seq<string>): PathType
  {
    match Resolve(cur, names)
    case Some(c) => DirectoryAt(DirAt(cur, c).value)
    case None =>
      if names == [] then NotFound
      else match Resolve(cur, names[..|names| - 1])
        case None => NotFound
        case Some(c) =>
          var fs := DirAt(cur, c).value.files;
          match FileIndex(fs, names[|names| - 1])
          case None => NotFound
          case Some(j) => FileAt(fs[j])
  }

  /** Following a matching subdirectory first: the meaning in cur is the meaning of the rest in that child. */
  lemma LookupRefStep(cur: Directory, names: seq<string>, i: nat)
    requires |names| >= 2 && ChildIndex(cur.directories, names[0]) == Some(i)
    ensures LookupRef(cur, names) == LookupRef(cur.directories[i], names[1..])
  {
    var child := cur.directories[i];
    var init := names[..|names| - 1];
    assert init[0] == names[0];
    assert init[1..] == names[1..][..|names[1..]| - 1];
    assert names[|names| - 1] == names[1..][|names[1..]| - 1];
    forall c: seq<nat>
      ensures DirAt(cur, [i] + c) == DirAt(child, c)
    {
      assert ([i] + c)[0] == i && ([i] + c)[1..] == c;
    }
  }

  /** find_path_recursive computes the meaning of the remaining components. */
  lemma {:induction false} FindPathFromRef(cur: Directory, parts: seq<string>, k: nat)
    requires k <= |parts|
    ensures FindPathFrom(cur, parts, k) == LookupRef(cur, parts[k..])
    decreases |parts| - k
  {
    var names := parts[k..];
    if k < |parts| {
      assert names[0] == parts[k];
      match ChildIndex(cur.directories, parts[k])
      case Some(i) =>
        if k == |parts| - 1 {
          assert names[1..] == [];
          assert Resolve(cur.directories[i], names[1..]) == Some([]);
          assert Resolve(cur, names) == Some([i] + []);
          assert [i] + [] == [i] && [i][1..] == [];
          assert DirAt(cur, [i]) == DirAt(cur.directories[i], []);
        } else {
          FindPathFromRef(cur.directories[i], parts, k + 1);
          assert names[1..] == parts[k + 1..];
          LookupRefStep(cur, names, i);
        }
      case None =>
        if k == |parts| - 1 {
          assert names[..|names| - 1] == [];
          assert names[|names| - 1] == parts[k];
        } else {
          assert names[..|names| - 1][0] == parts[k];
        }
    }
  }

  // ---------------------------------------------------------------------------
  // list_directory and get_file_info

  /** The key `sort_by(|a, b| a.name().cmp(b.name()))` compares. */
  function EntryKey(e: DirectoryEntry): seq<int>
  {
    Codes(EntryName(e))
  }

  /** The entries of a directory before sorting: its subdirectories, then its files. */
  function ChildEntries(d: Directory): seq<DirectoryEntry>
  {
    seq(|d.directories|, i requires 0 <= i < |d.directories| => DirectoryEntryOf(d.directories[i]))
    + seq(|d.files|, i requires 0 <= i < |d.files| => FileEntry(d.files[i]))
  }

  /** `list_directory`. */
  method ListDirectory(root: Directory, path: string) returns (r: Result<seq<DirectoryEntry>>)
    ensures FindPath(root, path).DirectoryAt? ==> r == Ok(SortBy(ChildEntries(FindPath(root, path).dir), EntryKey))
    ensures FindPath(root, path).FileAt? ==> r == Err(Error(FileOperation, "Path " + path + " is a file, not a directory"))
    ensures FindPath(root, path).NotFound? ==> r == Err(Error(FileOperation, "Directory " + path + " not found"))
  {
    match FindPath(root, path) {
      case DirectoryAt(dir) =>
        var entries: seq<DirectoryEntry> := [];
        for i := 0 to |dir.directories|
          invariant |entries| == i
          invariant forall k :: 0 <= k < i ==> entries[k] == DirectoryEntryOf(dir.directories[k])
        {
          entries := entries + [DirectoryEntryOf(dir.directories[i])];
        }
        var n := |entries|;
        for i := 0 to |dir.files|
          invariant |entries| == n + i
          invariant forall k :: 0 <= k < n ==> entries[k] == DirectoryEntryOf(dir.directories[k])
          invariant forall k :: 0 <= k < i ==> entries[n + k] == FileEntry(dir.files[k])
        {
          entries := entries + [FileEntry(dir.files[i])];
        }
        assert entries == ChildEntries(dir);
        r := Ok(SortBy(entries, EntryKey));
      case FileAt(_) =>
        r := Err(Error(FileOperation, "Path " + path + " is a file, not a directory"));
      case NotFound =>
        r := Err(Error(FileOperation, "Directory " + path + " not found"));
    }
  }

  /** A listing holds every subdirectory and file exactly once, ordered by name. */
  lemma ListingSorted(d: Directory)
    ensures var l := SortBy(ChildEntries(d), EntryKey);
      && |l| == |d.directories| + |d.files|
      && multiset(l) == multiset(ChildEntries(d))
      && forall i, j :: 0 <= i < j < |l| ==> LexLe(Codes(EntryName(l[i])), Codes(EntryName(l[j])))
  {
    SortBySorted(ChildEntries(d), EntryKey);
  }

  /**
   * `get_file_info`: a file is found only at the last component. The parent
   * path resolves, no subdirectory there carries that name, and the file is
   * the first of that name in the parent.
   */
  function GetFileInfo(root: Directory, path: string): (r: Result<File>)
    ensures r.Err? ==> r.error.kind == FileOperation
    ensures r.Ok? <==> LookupRef(root, Components(path)).FileAt?
    ensures var parts := Components(path);
      r.Ok? ==>
        && parts != []
        && Resolve(root, parts).None?
        && Resolve(root, parts[..|parts| - 1]).Some?
        && var parent := DirAt(root, Resolve(root, parts[..|parts| - 1]).value).value;
           && FileIndex(parent.files, parts[|parts| - 1]).Some?
           && r.value == parent.files[FileIndex(parent.files, parts[|parts| - 1]).value]
           && r.value.name == parts[|parts| - 1]
  {
    match FindPath(root, path)
    case FileAt(f) => Ok(f)
    case DirectoryAt(_) => Err(Error(FileOperation, "Path " + path + " is a directory, not a file"))
    case NotFound => Err(Error(FileOperation, "File " + path + " not found"))
  }

  /** A path without non-empty components lists the root; get_file_info on it is an error. */
  lemma RootPath(root: Directory, path: string)
    requires Components(path) == []
    ensures FindPath(root, path) == DirectoryAt(root)
    ensures GetFileInfo(root, path).Err?
  {
  }

  // ---------------------------------------------------------------------------
  // get_next_file_uid and collect_all_uids_from_dir

  /** The largest element of a non-empty sequence. */
  function MaxOf(s: seq<int>): (m: int)
    requires |s| > 0
    ensures m in s && forall x :: x in s ==> x <= m
  {
    if |s| == 1 then s[0]
    else
      var rest := MaxOf(s[1..]);
      assert forall x :: x in s ==> x == s[0] || x in s[1..];
      if s[0] > rest then s[0] else rest
  }

  /** An element bounding every element is the maximum. */
  lemma MaxOfUnique(s: seq<int>, m: int)
    requires m in s && forall x :: x in s ==> x <= m
    ensures MaxOf(s) == m
  {
  }

  /** The UIDs of the subtrees from child i on are those of each such child's whole subtree. */
  lemma {:induction false} ChildUidsMembers(d: Directory, i: nat)
    requires i <= |d.directories|
    ensures forall x :: x in ChildUids(d, i) <==> exists j :: i <= j < |d.directories| && x in AllUids(d.directories[j])
    decreases |d.directories| - i
  {
    if i < |d.directories| {
      ChildUidsMembers(d, i + 1);
      assert ChildUids(d, i) == AllUids(d.directories[i]) + ChildUids(d, i + 1);
    }
  }

  lemma {:induction false} FileUidsMembers(fs: seq<File>)
    ensures forall x :: x in FileUids(fs) <==> exists j :: 0 <= j < |fs| && x == fs[j].uid as int
  {
    if fs != [] {
      FileUidsMembers(fs[1..]);
      assert forall j :: 1 <= j < |fs| ==> fs[j] == fs[1..][j - 1];
    }
  }

  /** Membership in the UIDs of a tree: its own UID, a subtree's UID, or one of its files' UIDs. */
  lemma AllUidsMembers(d: Directory)
    ensures forall x :: x in AllUids(d) <==>
      (x == d.uid as int
       || (exists j :: 0 <= j < |d.directories| && x in AllUids(d.directories[j]))
       || (exists j :: 0 <= j < |d.files| && x == d.files[j].uid as int))
  {
    ChildUidsMembers(d, 0);
    FileUidsMembers(d.files);
    assert AllUids(d) == [d.uid as int] + ChildUids(d, 0) + FileUids(d.files);
  }

  /**
   * `collect_all_uids_from_dir`: raises m to every UID in the tree. The
   * result bounds every UID of the tree, and is m or one of them.
   */
  method CollectAllUids(d: Directory, m: u64) returns (r: u64)
    ensures m <= r
    ensures forall x :: x in AllUids(d) ==> x <= r as int
    ensures r == m || r as int in AllUids(d)
    decreases d
  {
    AllUidsMembers(d);
    r := m;
    if d.uid > r {
      r := d.uid;
    }
    for i := 0 to |d.directories|
      invariant m <= r && d.uid <= r
      invariant forall j, x :: 0 <= j < i && x in AllUids(d.directories[j]) ==> x <= r as int
      invariant r == m || r == d.uid || exists j :: 0 <= j < i && r as int in AllUids(d.directories[j])
    {
      var sub := d.directories[i];
      r := CollectAllUids(sub, r);
    }
    for i := 0 to |d.files|
      invariant m <= r && d.uid <= r
      invariant forall j, x :: 0 <= j < |d.directories| && x in AllUids(d.directories[j]) ==> x <= r as int
      invariant forall j :: 0 <= j < i ==> d.files[j].uid <= r
      invariant r == m || r == d.uid
        || (exists j :: 0 <= j < |d.directories| && r as int in AllUids(d.directories[j]))
        || (exists j :: 0 <= j < i && r == d.files[j].uid)
    {
      if d.files[i].uid > r {
        r := d.files[i].uid;
      }
    }
  }

  /** `get_next_file_uid`: one more than the largest UID in the tree, wrapping at 2^64. */
  method GetNextFileUid(index: Index) returns (r: u64)
    ensures r as int == (MaxOf(AllUids(index.root)) + 1) % U64_LIMIT
  {
    var m := CollectAllUids(index.root, index.root.uid);
    assert AllUids(index.root)[0] == index.root.uid as int;
    MaxOfUnique(AllUids(index.root), m as int);
    r := AsU64(m as int + 1);
  }

  /** Unless some UID is 2^64 - 1, the next UID is larger than every UID in the tree. */
  lemma NextUidAboveAll(index: Index)
    requires MaxOf(AllUids(index.root)) < U64_LIMIT - 1
    ensures forall x :: x in AllUids(index.root) ==> x < (MaxOf(AllUids(index.root)) + 1) % U64_LIMIT
  {
    var m := MaxOf(AllUids(index.root));
    assert 0 <= m + 1 < U64_LIMIT;
    assert (m + 1) % U64_LIMIT == m + 1;
  }

  // ---------------------------------------------------------------------------
  // get_sorted_extents

  function OffsetKey(e: Extent): seq<int>
  {
    [e.fileOffset as int]
  }

  /** `get_sorted_extents`: a permutation of the file's extents in non-decreasing file offset (stable). */
  function SortedExtents(f: File): (s: seq<Extent>)
    ensures multiset(s) == multiset(f.extents)
    ensures forall i, j :: 0 <= i < j < |s| ==> s[i].fileOffset <= s[j].fileOffset
  {
    var s := SortBy(f.extents, OffsetKey);
    SortBySorted(f.extents, OffsetKey);
    assert forall i, j :: 0 <= i < j < |s| ==> s[i].fileOffset <= s[j].fileOffset by {
      forall i, j | 0 <= i < j < |s|
        ensures s[i].fileOffset <= s[j].fileOffset
      {
        assert LexLe(OffsetKey(s[i]), OffsetKey(s[j]));
      }
    }
    s
  }

  // ---------------------------------------------------------------------------
  // insert_file and increment_generation update the index in place

  class LtfsIndex {
    var index: Index

    constructor (ix: Index)
      ensures index == ix
    {
      index := ix;
    }

    /** `insert_file`: the root-or-not test on the normalised path has the same outcome either way, so the file always goes to the root. */
    method InsertFile(parentPath: string, file: File) returns (r: Result<()>)
      modifies this
      ensures r == Ok(())
      ensures index == old(index).(root := old(index).root.(files := old(index).root.files + [file]))
    {
      var normalized := NormalizePath(parentPath);
      if normalized == "/" || normalized == [] {
        index := index.(root := index.root.(files := index.root.files + [file]));
        return Ok(());
      }
      index := index.(root := index.root.(files := index.root.files + [file]));
      r := Ok(());
    }

    /** `increment_generation`: generation plus one (wrapping at 2^64), update time set to now. */
    method IncrementGeneration(now: string)
      modifies this
      ensures index == old(index).(generation := AsU64(old(index).generation as int + 1), updatetime := now)
    {
      index := index.(generation := AsU64(index.generation as int + 1), updatetime := now);
    }
  }
}
