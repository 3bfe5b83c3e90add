// The LTFS index (LTFS Format Specification 2.4, section 7): the volume
// header, the directory tree with its files and their extents, and the
// result types of path lookup and directory listing. Also the tree
// navigation shared by the modules that read and update the index: child
// cursors (a path of child positions), the first-match lookup of a child
// by name, and the UIDs of a subtree in validation order.

module IndexTypes {
  import opened Wrappers
  import opened Bytes

  /** The five timestamps every directory and file carries. */
  datatype Times = Times(creationTime: string, changeTime: string, modifyTime: string, accessTime: string, backupTime: string)

  datatype Location = Location(partition: string, startblock: u64)

  datatype Extent = Extent(partition: string, startBlock: u64, byteCount: u64, fileOffset: u64, byteOffset: u64)

  datatype Xattr = Xattr(key: string, value: string)

  datatype File = File(
    name: string,
    uid: u64,
    length: u64,
    times: Times,
    readOnly: bool,
    openForWrite: bool,
    symlink: Option<string>,
    extents: seq<Extent>,
    xattrs: Option<seq<Xattr>>)

  datatype Directory = Directory(
    name: string,
    uid: u64,
    times: Times,
    readOnly: bool,
    directories: seq<Directory>,
    files: seq<File>)

  datatype Index = Index(
    version: string,
    creator: string,
    volumeuuid: string,
    generation: u64,
    updatetime: string,
    location: Location,
    previousLocation: Option<Location>,
    allowPolicyUpdate: Option<bool>,
    volumeLockState: Option<string>,
    highestFileUid: Option<u64>,
    root: Directory)

  /** The outcome of a path lookup. */
  datatype PathType = FileAt(file: File) | DirectoryAt(dir: Directory) | NotFound

  /** One entry of a directory listing. */
  datatype DirectoryEntry = FileEntry(file: File) | DirectoryEntryOf(dir: Directory)

  function EntryName(e: DirectoryEntry): string
  {
    match e
    case FileEntry(f) => f.name
    case DirectoryEntryOf(d) => d.name
  }

  /** Listing size: a file's length, 0 for a directory. */
  function EntrySize(e: DirectoryEntry): u64
  {
    match e
    case FileEntry(f) => f.length
    case DirectoryEntryOf(_) => 0
  }

  predicate IsDirectoryEntry(e: DirectoryEntry) { e.DirectoryEntryOf? }

  // ---------------------------------------------------------------------------
  // Child lookup and cursors

  /** Rust `iter().position(|d| d.name == name)`: the first subdirectory with that name. */
  function ChildIndex(ds: seq<Directory>, name: string): (r: Option<nat>)
    ensures r.Some? ==> r.value < |ds| && ds[r.value].name == name
    ensures r.Some? ==> forall k :: 0 <= k < r.value ==> ds[k].name != name
    ensures r.None? ==> forall k :: 0 <= k < |ds| ==> ds[k].name != name
  {
    if ds == [] then None
    else if ds[0].name == name then Some(0)
    else match ChildIndex(ds[1..], name)
      case None => None
      case Some(i) => Some(i + 1)
  }

  /** The directory reached from d by following child positions c. */
  function DirAt(d: Directory, c: seq<nat>): Option<Directory>
    decreases |c|
  {
    if c == [] then Some(d)
    else if c[0] < |d.directories| then DirAt(d.directories[c[0]], c[1..])
    else None
  }

  /** Appends a subdirectory to the directory at cursor c (unchanged if c is not valid). */
  function AppendDirAt(d: Directory, c: seq<nat>, nd: Directory): Directory
    decreases |c|
  {
    if c == [] then d.(directories := d.directories + [nd])
    else if c[0] < |d.directories| then
      d.(directories := d.directories[c[0] := AppendDirAt(d.directories[c[0]], c[1..], nd)])
    else d
  }

  /** Appends a file to the directory at cursor c (unchanged if c is not valid). */
  function AppendFileAt(d: Directory, c: seq<nat>, f: File): Directory
    decreases |c|
  {
    if c == [] then d.(files := d.files + [f])
    else if c[0] < |d.directories| then
      d.(directories := d.directories[c[0] := AppendFileAt(d.directories[c[0]], c[1..], f)])
    else d
  }

  /**
   * Follows names from d by first match, as `get_directory_by_path_mut` and
   * the directory part of `find_path_recursive` do: the cursor of the
   * directory named by the whole path, or None at the first missing name.
   */
  function Resolve(d: Directory, names: seq<string>): (r: Option<seq<nat>>)
    ensures r.Some? ==> |r.value| == |names| && DirAt(d, r.value).Some?
    decreases |names|
  {
    if names == [] then Some([])
    else match ChildIndex(d.directories, names[0])
      case None => None
      case Some(i) =>
        match Resolve(d.directories[i], names[1..])
        case None => None
        case Some(c) => Some([i] + c)
  }

  // ---------------------------------------------------------------------------
  // UIDs of a tree, in the order the UID validator visits them

  /** The UIDs below d: each subdirectory's own UID then its subtree, in order, then d's files. */
  function SubUids(d: Directory): seq<int>
    decreases d, 1
  {
    ChildUids(d, 0) + FileUids(d.files)
  }

  function ChildUids(d: Directory, i: nat): seq<int>
    requires i <= |d.directories|
    decreases d, 0, |d.directories| - i
  {
    if i == |d.directories| then []
    else [d.directories[i].uid as int] + SubUids(d.directories[i]) + ChildUids(d, i + 1)
  }

  function FileUids(fs: seq<File>): (r: seq<int>)
    ensures |r| == |fs|
  {
    if fs == [] then [] else [fs[0].uid as int] + FileUids(fs[1..])
  }

  /** Every UID in the tree rooted at d, the root's own first. */
  function AllUids(d: Directory): seq<int>
  {
    [d.uid as int] + SubUids(d)
  }

  /** No value occurs twice in s. */
  predicate Distinct(s: seq<int>)
  {
    forall i, j :: 0 <= i < j < |s| ==> s[i] != s[j]
  }

  /** h is an upper bound of every value in s. */
  predicate BoundedBy(s: seq<int>, h: int)
  {
    forall i :: 0 <= i < |s| ==> s[i] <= h
  }
}
