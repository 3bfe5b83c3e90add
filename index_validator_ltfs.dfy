// Consistency checks on an LTFS index (ltfs_index/validator.rs): the
// pre-parse balance check on the XML text, and the checks on a parsed index
// (required header fields, directory names, file extents, UID uniqueness,
// timestamp shape). Every check reports the first problem it meets, in the
// order the source visits the tree.

module LtfsIndexValidator {
  import opened Wrappers
  import opened Bytes
  import opened Strings
  import opened Utf8
  import opened IndexTypes

  // ---------------------------------------------------------------------------
  // validate_xml_structure

  /** How the balance check treats one tag. */
  datatype TagKind = Skipped | SelfClosing | Opening

  /** The tag that starts at position i: from there through the first '>' at or after i. */
  function TagAt(s: string, i: nat): (r: Option<string>)
    requires i < |s|
    ensures r.Some? ==> StartsWith(s[i..], r.value) && |r.value| >= 1 && r.value[|r.value| - 1] == '>'
  {
    match FindFrom(s, ">", i)
    case None => None
    case Some(j) =>
      assert s[j..j + 1] == ">";
      Some(s[i..j + 1])
  }

  /** Declarations and comments are skipped, and so are closing tags; the rest is split on a trailing "/>". */
  function Classify(tag: string): TagKind
  {
    if StartsWith(tag, "<?xml") || StartsWith(tag, "<!--") then Skipped
    else if StartsWith(tag, "</") then Skipped
    else if EndsWith(tag, "/>") then SelfClosing
    else Opening
  }

  /** The kind of the tag at position i, if a '<' there starts one. */
  function KindAt(s: string, i: nat): Option<TagKind>
    requires i < |s|
  {
    if s[i] != '<' then None
    else match TagAt(s, i)
      case None => None
      case Some(tag) => Some(Classify(tag))
  }

  /** The number of positions before n whose tag has kind k. */
  function TagsBefore(s: string, n: nat, k: TagKind): (r: nat)
    requires n <= |s|
    ensures r <= n
  {
    if n == 0 then 0
    else TagsBefore(s, n - 1, k) + (if KindAt(s, n - 1) == Some(k) then 1 else 0)
  }

  function OpenTags(s: string): nat { TagsBefore(s, |s|, Opening) }

  function SelfClosingTags(s: string): nat { TagsBefore(s, |s|, SelfClosing) }

  /** Rust `matches("</").count()`. */
  function CloseTags(s: string): nat { CountMatches(s, "</") }

  /** What `validate_xml_structure` decides for the text s. */
  function XmlStructureCheck(s: string): (r: Result<()>)
    ensures r.Err? ==> r.error.kind == Parse
  {
    if Utf8Len(s) < 50 then Fail(Parse, "XML content too short")
    else if !Contains(s, "<ltfsindex") then Fail(Parse, "Missing LTFS index root element")
    else if !Contains(s, "</ltfsindex>") then Fail(Parse, "XML appears incomplete - missing closing tag")
    else if OpenTags(s) != CloseTags(s) then
      Fail(Parse, "XML structure imbalanced: " + NatToDecimal(OpenTags(s)) + " opening tags vs "
        + NatToDecimal(CloseTags(s)) + " closing tags (with " + NatToDecimal(SelfClosingTags(s)) + " self-closing tags)")
    else Ok(())
  }

  /** The text passes exactly when it is long enough, has both root tags, and its opening tags balance its "</". */
  lemma XmlStructureOk(s: string)
    ensures XmlStructureCheck(s).Ok? <==>
      Utf8Len(s) >= 50 && Contains(s, "<ltfsindex") && Contains(s, "</ltfsindex>") && OpenTags(s) == CloseTags(s)
    ensures XmlStructureCheck(s).Err? ==> XmlStructureCheck(s).error.kind == Parse
  {
  }

  /** The number of '<' before position n. */
  function AnglesBefore(s: string, n: nat): (r: nat)
    requires n <= |s|
    ensures r <= n
  {
    if n == 0 then 0 else AnglesBefore(s, n - 1) + (if s[n - 1] == '<' then 1 else 0)
  }

  /** Every counted tag starts at a '<', and no '<' counts twice: together they are at most the number of '<'. */
  lemma {:induction false} TagsAtAngles(s: string, n: nat)
    requires n <= |s|
    ensures TagsBefore(s, n, Opening) + TagsBefore(s, n, SelfClosing) <= AnglesBefore(s, n)
  {
    if n > 0 {
      TagsAtAngles(s, n - 1);
    }
  }

  /**
   * `validate_xml_structure`: the byte-length and root-tag checks, then one
   * pass over every '<' counting opening and self-closing tags.
   */
  method ValidateXmlStructure(s: string) returns (r: Result<()>)
    ensures r == XmlStructureCheck(s)
  {
    if Utf8Len(s) < 50 {
      return Fail(Parse, "XML content too short");
    }
    if !Contains(s, "<ltfsindex") {
      return Fail(Parse, "Missing LTFS index root element");
    }
    if !Contains(s, "</ltfsindex>") {
      return Fail(Parse, "XML appears incomplete - missing closing tag");
    }
    var openCount, selfClosingCount := CountTags(s);
    var closeCount := CountMatches(s, "</");
    if openCount != closeCount {
      return Fail(Parse, "XML structure imbalanced: " + NatToDecimal(openCount) + " opening tags vs "
        + NatToDecimal(closeCount) + " closing tags (with " + NatToDecimal(selfClosingCount) + " self-closing tags)");
    }
    return Ok(());
  }

  /** The pass over every '<' of `validate_xml_structure`: the opening and the self-closing tags of s. */
  method CountTags(s: string) returns (openCount: nat, selfClosingCount: nat)
    ensures openCount == OpenTags(s) && selfClosingCount == SelfClosingTags(s)
  {
    openCount, selfClosingCount := 0, 0;
    for i := 0 to |s|
      invariant openCount == TagsBefore(s, i, Opening)
      invariant selfClosingCount == TagsBefore(s, i, SelfClosing)
    {
      // KindAt is None unless a '<' at i starts a tag that ends in '>'.
      var kind := KindAt(s, i);
      if kind == Some(SelfClosing) {
        selfClosingCount := selfClosingCount + 1;
      } else if kind == Some(Opening) {
        openCount := openCount + 1;
      }
    }
  }

  // ---------------------------------------------------------------------------
  // validate_directory_structure

  /** Checks the file names of d from position i on; `seen` holds the names before i. */
  function FileNamesCheck(d: Directory, i: nat, seen: set<string>): (r: Result<set<string>>)
    ensures r.Err? ==> r.error.kind == Parse
    requires i <= |d.files|
    decreases |d.files| - i
  {
    if i == |d.files| then Ok(seen)
    else
      var f := d.files[i];
      if f.name == [] then Fail(Parse, "File with empty name found")
      else if f.name in seen then Fail(Parse, "Duplicate file name '" + f.name + "' in directory '" + d.name + "'")
      else FileNamesCheck(d, i + 1, seen + {f.name})
  }

  /** Checks the subdirectories of d from position i on, each one's own tree before the next one's name. */
  function SubdirsCheck(d: Directory, i: nat, dirNames: set<string>, fileNames: set<string>): (r: Result<()>)
    ensures r.Err? ==> r.error.kind == Parse
    requires i <= |d.directories|
    decreases d, 0, |d.directories| - i
  {
    if i == |d.directories| then Ok(())
    else
      var s := d.directories[i];
      if s.name == [] then Fail(Parse, "Directory with empty name found")
      else if s.name in dirNames then Fail(Parse, "Duplicate directory name '" + s.name + "' in directory '" + d.name + "'")
      else if s.name in fileNames then Fail(Parse, "Name conflict: '" + s.name + "' exists as both file and directory")
      else match DirectoryStructureCheck(s)
        case Err(e) => Err(e)
        case Ok(_) => SubdirsCheck(d, i + 1, dirNames + {s.name}, fileNames)
  }

  /** `validate_directory_structure`. */
  function DirectoryStructureCheck(d: Directory): (r: Result<()>)
    ensures r.Err? ==> r.error.kind == Parse
    decreases d, 1
  {
    if d.uid == 0 then Fail(Parse, "Directory '" + d.name + "' has invalid UID 0")
    else match FileNamesCheck(d, 0, {})
      case Err(e) => Err(e)
      case Ok(names) => SubdirsCheck(d, 0, {}, names)
  }

  function FileNames(d: Directory, n: nat): set<string>
    requires n <= |d.files|
  {
    set k | 0 <= k < n :: d.files[k].name
  }

  function DirNames(d: Directory, n: nat): set<string>
    requires n <= |d.directories|
  {
    set k | 0 <= k < n :: d.directories[k].name
  }

  /** A well-formed tree: non-zero directory UIDs, non-empty names, no name used twice in one directory. */
  predicate WellStructured(d: Directory)
    decreases d
  {
    && d.uid != 0
    && (forall k :: 0 <= k < |d.files| ==> d.files[k].name != [])
    && (forall k, l :: 0 <= k < l < |d.files| ==> d.files[k].name != d.files[l].name)
    && (forall k :: 0 <= k < |d.directories| ==> d.directories[k].name != [])
    && (forall k, l :: 0 <= k < l < |d.directories| ==> d.directories[k].name != d.directories[l].name)
    && (forall k, l :: 0 <= k < |d.directories| && 0 <= l < |d.files| ==> d.directories[k].name != d.files[l].name)
    && (forall k :: 0 <= k < |d.directories| ==> WellStructured(d.directories[k]))
  }

  lemma {:induction false} FileNamesCheckOk(d: Directory, i: nat)
    requires i <= |d.files|
    requires forall k :: 0 <= k < i ==> d.files[k].name != []
    requires forall k, l :: 0 <= k < l < i ==> d.files[k].name != d.files[l].name
    ensures FileNamesCheck(d, i, FileNames(d, i)).Ok? <==>
      (forall k :: 0 <= k < |d.files| ==> d.files[k].name != [])
      && (forall k, l :: 0 <= k < l < |d.files| ==> d.files[k].name != d.files[l].name)
    ensures FileNamesCheck(d, i, FileNames(d, i)).Ok? ==> FileNamesCheck(d, i, FileNames(d, i)).value == FileNames(d, |d.files|)
    decreases |d.files| - i
  {
    if i < |d.files| {
      var f := d.files[i];
      if f.name != [] && f.name !in FileNames(d, i) {
        assert FileNames(d, i) + {f.name} == FileNames(d, i + 1);
        assert forall k :: 0 <= k < i ==> d.files[k].name != f.name by {
          forall k | 0 <= k < i
            ensures d.files[k].name != f.name
          {
            assert d.files[k].name in FileNames(d, i);
          }
        }
        FileNamesCheckOk(d, i + 1);
      } else if f.name in FileNames(d, i) {
        var k :| 0 <= k < i && d.files[k].name == f.name;
      }
    }
  }

  /** The subdirectory rules for positions i and later (a name clash is charged to the later position). */
  predicate SubdirsFrom(d: Directory, i: nat)
    requires i <= |d.directories|
  {
    && (forall k :: i <= k < |d.directories| ==> d.directories[k].name != [])
    && (forall k, l :: 0 <= k < l < |d.directories| && i <= l ==> d.directories[k].name != d.directories[l].name)
    && (forall k, l :: i <= k < |d.directories| && 0 <= l < |d.files| ==> d.directories[k].name != d.files[l].name)
    && (forall k :: i <= k < |d.directories| ==> WellStructured(d.directories[k]))
  }

  lemma SubdirsFromStep(d: Directory, i: nat)
    requires i < |d.directories|
    ensures var s := d.directories[i];
      SubdirsFrom(d, i) <==>
        && s.name != []
        && (forall k :: 0 <= k < i ==> d.directories[k].name != s.name)
        && (forall l :: 0 <= l < |d.files| ==> s.name != d.files[l].name)
        && WellStructured(s)
        && SubdirsFrom(d, i + 1)
  {
  }

  lemma {:induction false} SubdirsCheckOk(d: Directory, i: nat)
    requires i <= |d.directories|
    ensures SubdirsCheck(d, i, DirNames(d, i), FileNames(d, |d.files|)).Ok? <==> SubdirsFrom(d, i)
    decreases d, 0, |d.directories| - i
  {
    var fileNames := FileNames(d, |d.files|);
    if i < |d.directories| {
      var s := d.directories[i];
      SubdirsFromStep(d, i);
      var unseen := forall k :: 0 <= k < i ==> d.directories[k].name != s.name;
      assert unseen <==> s.name !in DirNames(d, i) by {
        if s.name in DirNames(d, i) {
          var k :| 0 <= k < i && d.directories[k].name == s.name;
        }
      }
      var apart := forall l :: 0 <= l < |d.files| ==> s.name != d.files[l].name;
      assert apart <==> s.name !in fileNames by {
        if s.name in fileNames {
          var l :| 0 <= l < |d.files| && d.files[l].name == s.name;
        }
      }
      if s.name != [] && unseen && apart {
        DirectoryStructureOk(s);
        if WellStructured(s) {
          assert DirNames(d, i) + {s.name} == DirNames(d, i + 1);
          SubdirsCheckOk(d, i + 1);
        }
      }
    }
  }

  /** `validate_directory_structure` accepts exactly the well-structured trees. */
  lemma {:induction false} DirectoryStructureOk(d: Directory)
    ensures DirectoryStructureCheck(d).Ok? <==> WellStructured(d)
    decreases d, 1
  {
    if d.uid != 0 {
      FileNamesCheckOk(d, 0);
      assert FileNames(d, 0) == {};
      assert DirNames(d, 0) == {};
      if FileNamesCheck(d, 0, {}).Ok? {
        SubdirsCheckOk(d, 0);
      }
    }
  }

  // ---------------------------------------------------------------------------
  // validate_file_extents

  predicate ValidPartition(p: string)
  {
    p == "a" || p == "b" || p == "A" || p == "B"
  }

  /** The sum of the byte counts of es. */
  function SumCounts(es: seq<Extent>): nat
  {
    if es == [] then 0 else SumCounts(es[..|es| - 1]) + es[|es| - 1].byteCount
  }

  /** Where extent k may start at the earliest: the (wrapping u64) end of the previous extent, 0 for the first. */
  function PrevEnd(es: seq<Extent>, k: nat): u64
    requires k <= |es|
  {
    if k == 0 then 0 else AsU64(es[k - 1].fileOffset + es[k - 1].byteCount)
  }

  /** The extent rules from position k on: known partition, non-empty, not before the previous one's end. */
  predicate ExtentsFrom(es: seq<Extent>, k: nat)
    requires k <= |es|
  {
    forall j :: k <= j < |es| ==> ValidPartition(es[j].partition) && es[j].byteCount > 0 && es[j].fileOffset >= PrevEnd(es, j)
  }

  /** The loop over the extents of f from position k, with the running total and end of extent k - 1. */
  function ExtentsCheck(f: File, k: nat, total: u64, last: u64): (r: Result<()>)
    ensures r.Err? ==> r.error.kind == Parse
    requires k <= |f.extents|
    decreases |f.extents| - k
  {
    if k == |f.extents| then
      if total != f.length then
        Fail(Parse, "File '" + f.name + "': declared size " + NatToDecimal(f.length) + " doesn't match extent total " + NatToDecimal(total))
      else Ok(())
    else
      var e := f.extents[k];
      if !ValidPartition(e.partition) then Fail(Parse, "Invalid partition '" + e.partition + "' in file '" + f.name + "'")
      else if e.byteCount == 0 then Fail(Parse, "Zero-size extent in file '" + f.name + "'")
      else if e.fileOffset < last then Fail(Parse, "Extents not ordered by file offset in file '" + f.name + "'")
      else ExtentsCheck(f, k + 1, AsU64(total + e.byteCount), AsU64(e.fileOffset + e.byteCount))
  }

  /** The checks on one file: symlinks are skipped, a non-empty file needs extents, then the extent loop. */
  function FileExtentsCheck(f: File): (r: Result<()>)
    ensures r.Err? ==> r.error.kind == Parse
  {
    if f.symlink.Some? then Ok(())
    else if f.length > 0 && f.extents == [] then
      Fail(Parse, "File '" + f.name + "' has size " + NatToDecimal(f.length) + " but no extents")
    else ExtentsCheck(f, 0, 0, 0)
  }

  /** A file the extent checks accept: a symlink, or extents that follow the rules and add up to its length (mod 2^64). */
  predicate ExtentsConsistent(f: File)
  {
    f.symlink.Some? || (ExtentsFrom(f.extents, 0) && SumCounts(f.extents) % U64_LIMIT == f.length)
  }

  /** The running total of the loop after extent k is the wrapped sum of the first k + 1 counts. */
  lemma SumStep(es: seq<Extent>, k: nat)
    requires k < |es|
    ensures AsU64(AsU64(SumCounts(es[..k])) + es[k].byteCount) == AsU64(SumCounts(es[..k + 1]))
  {
    assert es[..k + 1][..k] == es[..k];
    assert SumCounts(es[..k + 1]) == SumCounts(es[..k]) + es[k].byteCount;
  }

  lemma ExtentsFromStep(es: seq<Extent>, k: nat)
    requires k < |es|
    ensures ExtentsFrom(es, k) <==>
      ValidPartition(es[k].partition) && es[k].byteCount > 0 && es[k].fileOffset >= PrevEnd(es, k) && ExtentsFrom(es, k + 1)
  {
  }

  lemma {:induction false} ExtentsCheckOk(f: File, k: nat)
    requires k <= |f.extents|
    ensures ExtentsCheck(f, k, AsU64(SumCounts(f.extents[..k])), PrevEnd(f.extents, k)).Ok? <==>
      ExtentsFrom(f.extents, k) && SumCounts(f.extents) % U64_LIMIT == f.length
    decreases |f.extents| - k
  {
    var es := f.extents;
    if k == |es| {
      assert es[..k] == es;
    } else {
      var e := es[k];
      var total := AsU64(SumCounts(es[..k]));
      var here := ExtentsCheck(f, k, total, PrevEnd(es, k));
      ExtentsFromStep(es, k);
      if ValidPartition(e.partition) && e.byteCount > 0 && e.fileOffset >= PrevEnd(es, k) {
        var next := ExtentsCheck(f, k + 1, AsU64(SumCounts(es[..k + 1])), PrevEnd(es, k + 1));
        assert here.Ok? <==> next.Ok? by {
          SumStep(es, k);
          assert PrevEnd(es, k + 1) == AsU64(e.fileOffset + e.byteCount);
          ExtentsCheckGoesOn(f, k, total, PrevEnd(es, k));
        }
        ExtentsCheckOk(f, k + 1);
      } else {
        assert here.Err? by {
          ExtentsCheckStops(f, k, total, PrevEnd(es, k));
        }
      }
    }
  }

  /** An extent that passes the three checks moves the loop on to the next one. */
  lemma ExtentsCheckGoesOn(f: File, k: nat, total: u64, last: u64)
    requires k < |f.extents|
    requires ValidPartition(f.extents[k].partition) && f.extents[k].byteCount > 0 && f.extents[k].fileOffset >= last
    ensures ExtentsCheck(f, k, total, last) ==
      ExtentsCheck(f, k + 1, AsU64(total + f.extents[k].byteCount), AsU64(f.extents[k].fileOffset + f.extents[k].byteCount))
  {
  }

  /** An extent that fails one of the three checks ends the loop with an error. */
  lemma ExtentsCheckStops(f: File, k: nat, total: u64, last: u64)
    requires k < |f.extents|
    requires !(ValidPartition(f.extents[k].partition) && f.extents[k].byteCount > 0 && f.extents[k].fileOffset >= last)
    ensures ExtentsCheck(f, k, total, last).Err?
  {
  }

  /** The checks on one file accept it exactly when its extents are consistent. */
  lemma FileExtentsOk(f: File)
    ensures FileExtentsCheck(f).Ok? <==> ExtentsConsistent(f)
  {
    assert f.extents[..0] == [];
    ExtentsCheckOk(f, 0);
  }

  /**
   * The extent loop of `validate_file_extents` for one file: the running
   * total and the end of the previous extent wrap at 2^64.
   */
  method ValidateExtents(f: File) returns (r: Result<()>)
    ensures r == FileExtentsCheck(f)
  {
    if f.symlink.Some? {
      return Ok(());
    }
    if f.length > 0 && f.extents == [] {
      return Fail(Parse, "File '" + f.name + "' has size " + NatToDecimal(f.length) + " but no extents");
    }
    var total: u64 := 0;
    var last: u64 := 0;
    for k := 0 to |f.extents|
      invariant ExtentsCheck(f, k, total, last) == ExtentsCheck(f, 0, 0, 0)
    {
      var e := f.extents[k];
      if !ValidPartition(e.partition) {
        return Fail(Parse, "Invalid partition '" + e.partition + "' in file '" + f.name + "'");
      }
      if e.byteCount == 0 {
        return Fail(Parse, "Zero-size extent in file '" + f.name + "'");
      }
      if e.fileOffset < last {
        return Fail(Parse, "Extents not ordered by file offset in file '" + f.name + "'");
      }
      last := AsU64(e.fileOffset + e.byteCount);
      total := AsU64(total + e.byteCount);
    }
    if total != f.length {
      return Fail(Parse, "File '" + f.name + "': declared size " + NatToDecimal(f.length) + " doesn't match extent total " + NatToDecimal(total));
    }
    return Ok(());
  }

  function FilesExtentsCheck(d: Directory, i: nat): (r: Result<()>)
    ensures r.Err? ==> r.error.kind == Parse
    requires i <= |d.files|
    decreases |d.files| - i
  {
    if i == |d.files| then Ok(())
    else match FileExtentsCheck(d.files[i])
      case Err(e) => Err(e)
      case Ok(_) => FilesExtentsCheck(d, i + 1)
  }

  function SubdirsExtentsCheck(d: Directory, i: nat): (r: Result<()>)
    ensures r.Err? ==> r.error.kind == Parse
    requires i <= |d.directories|
    decreases d, 0, |d.directories| - i
  {
    if i == |d.directories| then Ok(())
    else match TreeExtentsCheck(d.directories[i])
      case Err(e) => Err(e)
      case Ok(_) => SubdirsExtentsCheck(d, i + 1)
  }

  /** `validate_file_extents`: the files of d, then each subdirectory's tree. */
  function TreeExtentsCheck(d: Directory): (r: Result<()>)
    ensures r.Err? ==> r.error.kind == Parse
    decreases d, 1
  {
    match FilesExtentsCheck(d, 0)
    case Err(e) => Err(e)
    case Ok(_) => SubdirsExtentsCheck(d, 0)
  }

  /** Every file in the tree has consistent extents. */
  predicate TreeExtentsConsistent(d: Directory)
    decreases d
  {
    && (forall k :: 0 <= k < |d.files| ==> ExtentsConsistent(d.files[k]))
    && (forall k :: 0 <= k < |d.directories| ==> TreeExtentsConsistent(d.directories[k]))
  }

  lemma {:induction false} FilesExtentsOk(d: Directory, i: nat)
    requires i <= |d.files|
    ensures FilesExtentsCheck(d, i).Ok? <==> forall k :: i <= k < |d.files| ==> ExtentsConsistent(d.files[k])
    decreases |d.files| - i
  {
    if i < |d.files| {
      FileExtentsOk(d.files[i]);
      FilesExtentsOk(d, i + 1);
    }
  }

  lemma {:induction false} SubdirsExtentsOk(d: Directory, i: nat)
    requires i <= |d.directories|
    ensures SubdirsExtentsCheck(d, i).Ok? <==> forall k :: i <= k < |d.directories| ==> TreeExtentsConsistent(d.directories[k])
    decreases d, 0, |d.directories| - i
  {
    if i < |d.directories| {
      TreeExtentsOk(d.directories[i]);
      SubdirsExtentsOk(d, i + 1);
    }
  }

  /** `validate_file_extents` accepts exactly the trees whose files all have consistent extents. */
  lemma {:induction false} TreeExtentsOk(d: Directory)
    ensures TreeExtentsCheck(d).Ok? <==> TreeExtentsConsistent(d)
    decreases d, 1
  {
    FilesExtentsOk(d, 0);
    SubdirsExtentsOk(d, 0);
  }

  // ---------------------------------------------------------------------------
  // validate_uid_uniqueness and collect_and_validate_uids

  function UidFilesCheck(d: Directory, j: nat, used: set<int>): (r: Result<set<int>>)
    ensures r.Err? ==> r.error.kind == Parse
    requires j <= |d.files|
    decreases |d.files| - j
  {
    if j == |d.files| then Ok(used)
    else
      var f := d.files[j];
      if f.uid as int in used then Fail(Parse, "Duplicate UID " + NatToDecimal(f.uid) + " found in file '" + f.name + "'")
      else UidFilesCheck(d, j + 1, used + {f.uid as int})
  }

  function UidSubdirsCheck(d: Directory, i: nat, used: set<int>): (r: Result<set<int>>)
    ensures r.Err? ==> r.error.kind == Parse
    requires i <= |d.directories|
    decreases d, 0, |d.directories| - i
  {
    if i == |d.directories| then UidFilesCheck(d, 0, used)
    else
      var s := d.directories[i];
      if s.uid as int in used then Fail(Parse, "Duplicate UID " + NatToDecimal(s.uid) + " found in directory '" + s.name + "'")
      else match UidTreeCheck(s, used + {s.uid as int})
        case Err(e) => Err(e)
        case Ok(u) => UidSubdirsCheck(d, i + 1, u)
  }

  /** What `collect_and_validate_uids` does to the set of UIDs seen so far: each subdirectory, its tree, then the files. */
  function UidTreeCheck(d: Directory, used: set<int>): (r: Result<set<int>>)
    ensures r.Err? ==> r.error.kind == Parse
    decreases d, 1
  {
    UidSubdirsCheck(d, 0, used)
  }

  /** `validate_uid_uniqueness`: the root's UID goes into an empty set, then the tree is walked. */
  function UidUniquenessCheck(index: Index): (r: Result<()>)
    ensures r.Err? ==> r.error.kind == Parse
  {
    match UidTreeCheck(index.root, {index.root.uid as int})
    case Err(e) => Err(e)
    case Ok(_) => Ok(())
  }

  function Elems(s: seq<int>): set<int>
  {
    set x | x in s
  }

  /** No value twice in s, and none of them in used. */
  predicate Fresh(s: seq<int>, used: set<int>)
  {
    Distinct(s) && forall k :: 0 <= k < |s| ==> s[k] !in used
  }

  lemma FreshCons(x: int, s: seq<int>, used: set<int>)
    ensures Fresh([x] + s, used) <==> x !in used && Fresh(s, used + {x})
  {
    if x !in used && Fresh(s, used + {x}) {
      FreshConsIntro(x, s, used);
    }
    if Fresh([x] + s, used) {
      FreshConsElim(x, s, used);
    }
  }

  lemma FreshConsIntro(x: int, s: seq<int>, used: set<int>)
    requires x !in used && Fresh(s, used + {x})
    ensures Fresh([x] + s, used)
  {
    var t := [x] + s;
    forall i, j | 0 <= i < j < |t|
      ensures t[i] != t[j]
    {
      if i > 0 {
        assert t[i] == s[i - 1] && t[j] == s[j - 1];
      } else {
        assert t[j] == s[j - 1];
      }
    }
    forall k | 0 <= k < |t|
      ensures t[k] !in used
    {
      if k > 0 {
        assert t[k] == s[k - 1];
      }
    }
  }

  lemma FreshConsElim(x: int, s: seq<int>, used: set<int>)
    requires Fresh([x] + s, used)
    ensures x !in used && Fresh(s, used + {x})
  {
    var t := [x] + s;
    assert t[0] == x;
    forall i, j | 0 <= i < j < |s|
      ensures s[i] != s[j]
    {
      assert t[i + 1] == s[i] && t[j + 1] == s[j];
    }
    forall k | 0 <= k < |s|
      ensures s[k] !in used + {x}
    {
      assert t[k + 1] == s[k];
    }
  }

  lemma {:induction false} FreshConcat(a: seq<int>, b: seq<int>, used: set<int>)
    ensures Fresh(a + b, used) <==> Fresh(a, used) && Fresh(b, used + Elems(a))
    decreases |a|
  {
    if a == [] {
      assert a + b == b;
      assert Elems(a) == {};
    } else {
      assert a + b == [a[0]] + (a[1..] + b);
      assert a == [a[0]] + a[1..];
      assert Elems(a) == {a[0]} + Elems(a[1..]);
      FreshCons(a[0], a[1..] + b, used);
      FreshCons(a[0], a[1..], used);
      FreshConcat(a[1..], b, used + {a[0]});
      assert used + {a[0]} + Elems(a[1..]) == used + Elems(a);
    }
  }

  lemma {:induction false} UidFilesOk(d: Directory, j: nat, used: set<int>)
    requires j <= |d.files|
    ensures UidFilesCheck(d, j, used).Ok? <==> Fresh(FileUids(d.files[j..]), used)
    ensures UidFilesCheck(d, j, used).Ok? ==> UidFilesCheck(d, j, used).value == used + Elems(FileUids(d.files[j..]))
    decreases |d.files| - j
  {
    if j == |d.files| {
      assert Elems([]) == {};
    } else {
      var x := d.files[j].uid as int;
      var rest := FileUids(d.files[j + 1..]);
      assert d.files[j..][1..] == d.files[j + 1..];
      assert FileUids(d.files[j..]) == [x] + rest;
      assert Elems([x] + rest) == {x} + Elems(rest);
      FreshCons(x, rest, used);
      UidFilesOk(d, j + 1, used + {x});
    }
  }

  lemma {:induction false} UidSubdirsOk(d: Directory, i: nat, used: set<int>)
    requires i <= |d.directories|
    ensures UidSubdirsCheck(d, i, used).Ok? <==> Fresh(ChildUids(d, i) + FileUids(d.files), used)
    ensures UidSubdirsCheck(d, i, used).Ok? ==>
      UidSubdirsCheck(d, i, used).value == used + Elems(ChildUids(d, i) + FileUids(d.files))
    decreases d, 0, |d.directories| - i
  {
    var fs := FileUids(d.files);
    if i == |d.directories| {
      assert d.files[0..] == d.files;
      assert ChildUids(d, i) + fs == fs;
      UidFilesOk(d, 0, used);
    } else {
      var s := d.directories[i];
      var x := s.uid as int;
      var sub := SubUids(s);
      var rest := ChildUids(d, i + 1) + fs;
      assert ChildUids(d, i) + fs == [x] + (sub + rest);
      FreshCons(x, sub + rest, used);
      FreshConcat(sub, rest, used + {x});
      UidTreeOk(s, used + {x});
      if UidTreeCheck(s, used + {x}).Ok? {
        UidSubdirsOk(d, i + 1, used + {x} + Elems(sub));
        assert Elems([x] + (sub + rest)) == {x} + Elems(sub) + Elems(rest);
      }
    }
  }

  /** Walking a tree with the set `used` succeeds exactly when its UIDs are distinct and new, and adds them all. */
  lemma {:induction false} UidTreeOk(d: Directory, used: set<int>)
    ensures UidTreeCheck(d, used).Ok? <==> Fresh(SubUids(d), used)
    ensures UidTreeCheck(d, used).Ok? ==> UidTreeCheck(d, used).value == used + Elems(SubUids(d))
    decreases d, 1
  {
    UidSubdirsOk(d, 0, used);
  }

  /** `validate_uid_uniqueness` accepts an index exactly when no UID occurs twice in its tree. */
  lemma UidUniquenessOk(index: Index)
    ensures UidUniquenessCheck(index).Ok? <==> Distinct(AllUids(index.root))
  {
    var x := index.root.uid as int;
    UidTreeOk(index.root, {x});
    FreshCons(x, SubUids(index.root), {});
    assert {} + {x} == {x};
  }

  /** `collect_and_validate_uids`: inserts each UID into the set, failing at the first one already there. */
  method CollectAndValidateUids(d: Directory, used: set<int>) returns (r: Result<set<int>>)
    ensures r == UidTreeCheck(d, used)
    decreases d
  {
    var u := used;
    for i := 0 to |d.directories|
      invariant UidSubdirsCheck(d, i, u) == UidTreeCheck(d, used)
    {
      var s := d.directories[i];
      if s.uid as int in u {
        return Fail(Parse, "Duplicate UID " + NatToDecimal(s.uid) + " found in directory '" + s.name + "'");
      }
      var sub := CollectAndValidateUids(s, u + {s.uid as int});
      if sub.Err? {
        return Err(sub.error);
      }
      u := sub.value;
    }
    for j := 0 to |d.files|
      invariant UidFilesCheck(d, j, u) == UidTreeCheck(d, used)
    {
      var f := d.files[j];
      if f.uid as int in u {
        return Fail(Parse, "Duplicate UID " + NatToDecimal(f.uid) + " found in file '" + f.name + "'");
      }
      u := u + {f.uid as int};
    }
    return Ok(u);
  }

  /** `validate_uid_uniqueness`. */
  method ValidateUidUniqueness(index: Index) returns (r: Result<()>)
    ensures r == UidUniquenessCheck(index)
    ensures r.Ok? <==> Distinct(AllUids(index.root))
  {
    UidUniquenessOk(index);
    var used: set<int> := {};
    used := used + {index.root.uid as int};
    assert used == {index.root.uid as int};
    var walk := CollectAndValidateUids(index.root, used);
    if walk.Err? {
      return Err(walk.error);
    }
    return Ok(());
  }

  // ---------------------------------------------------------------------------
  // validate_timestamps and validate_timestamp_format

  /** The first error of a, else b. */
  function Then(a: Result<()>, b: Result<()>): (r: Result<()>)
    ensures r.Ok? <==> a.Ok? && b.Ok?
    ensures r.Err? ==> r == a || r == b
  {
    if a.Err? then a else b
  }

  /** The shape `validate_timestamp_format` requires: at least 20 bytes, a final 'Z', and a 'T'. */
  predicate TimestampShape(t: string)
  {
    Utf8Len(t) >= 20 && EndsWith(t, "Z") && Contains(t, "T")
  }

  function TimestampCheck(t: string, field: string): (r: Result<()>)
    ensures r.Err? ==> r.error.kind == Parse
    ensures r.Ok? <==> TimestampShape(t)
  {
    if Utf8Len(t) < 20 then Fail(Parse, "Invalid timestamp format in " + field + ": '" + t + "' (too short)")
    else if !EndsWith(t, "Z") then Fail(Parse, "Invalid timestamp format in " + field + ": '" + t + "' (must end with Z)")
    else if !Contains(t, "T") then Fail(Parse, "Invalid timestamp format in " + field + ": '" + t + "' (missing T separator)")
    else Ok(())
  }

  /** The five timestamps in the order the source checks them, each field name after `prefix`. */
  function TimesCheck(t: Times, prefix: string): (r: Result<()>)
    ensures r.Err? ==> r.error.kind == Parse
    ensures r.Ok? <==> TimesShape(t)
  {
    Then(TimestampCheck(t.creationTime, prefix + "creation_time"),
    Then(TimestampCheck(t.changeTime, prefix + "change_time"),
    Then(TimestampCheck(t.modifyTime, prefix + "modify_time"),
    Then(TimestampCheck(t.accessTime, prefix + "access_time"),
    TimestampCheck(t.backupTime, prefix + "backup_time")))))
  }

  predicate TimesShape(t: Times)
  {
    TimestampShape(t.creationTime) && TimestampShape(t.changeTime) && TimestampShape(t.modifyTime)
    && TimestampShape(t.accessTime) && TimestampShape(t.backupTime)
  }

  function FilesTimesCheck(d: Directory, i: nat): (r: Result<()>)
    ensures r.Err? ==> r.error.kind == Parse
    requires i <= |d.files|
    ensures r.Ok? <==> forall k :: i <= k < |d.files| ==> TimesShape(d.files[k].times)
    decreases |d.files| - i
  {
    if i == |d.files| then Ok(())
    else Then(TimesCheck(d.files[i].times, "file '" + d.files[i].name + "' "), FilesTimesCheck(d, i + 1))
  }

  function SubdirsTimesCheck(d: Directory, i: nat): (r: Result<()>)
    ensures r.Err? ==> r.error.kind == Parse
    requires i <= |d.directories|
    ensures r.Ok? <==> forall k :: i <= k < |d.directories| ==> TimesShaped(d.directories[k])
    decreases d, 0, |d.directories| - i
  {
    if i == |d.directories| then Ok(())
    else
      var sub := d.directories[i];
      assert (forall k :: i <= k < |d.directories| ==> TimesShaped(d.directories[k]))
        <==> TimesShaped(sub) && forall k :: i + 1 <= k < |d.directories| ==> TimesShaped(d.directories[k]);
      Then(TimestampsCheck(sub), SubdirsTimesCheck(d, i + 1))
  }

  /** `validate_timestamps`: the directory's own five, then its files', then each subdirectory's tree. */
  function TimestampsCheck(d: Directory): (r: Result<()>)
    ensures r.Err? ==> r.error.kind == Parse
    ensures r.Ok? <==> TimesShaped(d)
    decreases d, 1
  {
    Then(TimesCheck(d.times, ""), Then(FilesTimesCheck(d, 0), SubdirsTimesCheck(d, 0)))
  }

  /** Every timestamp in the tree has the required shape. */
  predicate TimesShaped(d: Directory)
    decreases d
  {
    && TimesShape(d.times)
    && (forall k :: 0 <= k < |d.files| ==> TimesShape(d.files[k].times))
    && (forall k :: 0 <= k < |d.directories| ==> TimesShaped(d.directories[k]))
  }

  // ---------------------------------------------------------------------------
  // validate_parsed_index

  /** `validate_parsed_index`: the header fields, then the four tree checks in order. */
  function ParsedIndexCheck(index: Index): (r: Result<()>)
    ensures r.Err? ==> r.error.kind == Parse
  {
    if index.volumeuuid == [] then Fail(Parse, "Missing volume UUID")
    else if index.generation == 0 then Fail(Parse, "Invalid generation number")
    else if index.root.name != [] then Fail(Parse, "Root directory must have empty name")
    else Then(DirectoryStructureCheck(index.root),
         Then(TreeExtentsCheck(index.root),
         Then(UidUniquenessCheck(index),
         TimestampsCheck(index.root))))
  }

  /** What a valid index is, as one statement over the whole tree. */
  predicate ValidIndex(index: Index)
  {
    && index.volumeuuid != []
    && index.generation != 0
    && index.root.name == []
    && WellStructured(index.root)
    && TreeExtentsConsistent(index.root)
    && Distinct(AllUids(index.root))
    && TimesShaped(index.root)
  }

  /** `validate_parsed_index` accepts exactly the valid indexes, and every rejection is a parse error. */
  lemma ParsedIndexOk(index: Index)
    ensures ParsedIndexCheck(index).Ok? <==> ValidIndex(index)
    ensures ParsedIndexCheck(index).Err? ==> ParsedIndexCheck(index).error.kind == Parse
  {
    DirectoryStructureOk(index.root);
    TreeExtentsOk(index.root);
    UidUniquenessOk(index);
  }
}
