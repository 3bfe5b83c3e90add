// Facts about cursors into the directory tree: following a cursor one step
// further, appending a directory or a file at a cursor, name lookup after an
// append, and how an append changes the UIDs of the tree.

module IndexPaths {
  import opened Wrappers
  import opened IndexTypes

  lemma {:induction false} DirAtSnoc(d: Directory, c: seq<nat>, i: nat)
    requires DirAt(d, c).Some?
    ensures DirAt(d, c + [i]) ==
      (if i < |DirAt(d, c).value.directories| then Some(DirAt(d, c).value.directories[i]) else None)
    decreases |c|
  {
    if c != [] {
      assert (c + [i])[1..] == c[1..] + [i];
      DirAtSnoc(d.directories[c[0]], c[1..], i);
    }
  }

  lemma {:induction false} DirAtPrefix(d: Directory, c: seq<nat>, k: nat)
    requires DirAt(d, c).Some? && k <= |c|
    ensures DirAt(d, c[..k]).Some?
    decreases |c|
  {
    if k > 0 {
      assert c[..k][1..] == c[1..][..k - 1];
      DirAtPrefix(d.directories[c[0]], c[1..], k - 1);
    }
  }

  lemma {:induction false} AppendDirAtSpec(d: Directory, c: seq<nat>, nd: Directory)
    requires DirAt(d, c).Some?
    ensures DirAt(AppendDirAt(d, c, nd), c) ==
      Some(DirAt(d, c).value.(directories := DirAt(d, c).value.directories + [nd]))
    decreases |c|
  {
    if c != [] {
      AppendDirAtSpec(d.directories[c[0]], c[1..], nd);
    }
  }

  lemma {:induction false} AppendFileAtSpec(d: Directory, c: seq<nat>, f: File)
    requires DirAt(d, c).Some?
    ensures DirAt(AppendFileAt(d, c, f), c) == Some(DirAt(d, c).value.(files := DirAt(d, c).value.files + [f]))
    decreases |c|
  {
    if c != [] {
      AppendFileAtSpec(d.directories[c[0]], c[1..], f);
    }
  }

  /** Appending a directory anywhere keeps every existing cursor valid, with the same name and UID. */
  lemma {:induction false} AppendDirAtKeeps(d: Directory, c: seq<nat>, nd: Directory, c2: seq<nat>)
    requires DirAt(d, c).Some? && DirAt(d, c2).Some?
    ensures DirAt(AppendDirAt(d, c, nd), c2).Some?
    ensures DirAt(AppendDirAt(d, c, nd), c2).value.uid == DirAt(d, c2).value.uid
    ensures DirAt(AppendDirAt(d, c, nd), c2).value.name == DirAt(d, c2).value.name
    decreases |c2|
  {
    if c2 != [] && c != [] && c[0] == c2[0] {
      AppendDirAtKeeps(d.directories[c[0]], c[1..], nd, c2[1..]);
    }
  }

  lemma {:induction false} ChildIndexSameNames(ds: seq<Directory>, es: seq<Directory>, n: string)
    requires |ds| == |es| && forall k :: 0 <= k < |ds| ==> ds[k].name == es[k].name
    ensures ChildIndex(ds, n) == ChildIndex(es, n)
  {
    if ds != [] && ds[0].name != n {
      ChildIndexSameNames(ds[1..], es[1..], n);
    }
  }

  lemma {:induction false} ChildIndexExtend(ds: seq<Directory>, ext: seq<Directory>, n: string)
    requires ChildIndex(ds, n).Some?
    ensures ChildIndex(ds + ext, n) == ChildIndex(ds, n)
  {
    if ds[0].name != n {
      assert (ds + ext)[1..] == ds[1..] + ext;
      ChildIndexExtend(ds[1..], ext, n);
    }
  }

  lemma {:induction false} ChildIndexSnoc(ds: seq<Directory>, nd: Directory, n: string)
    requires ChildIndex(ds, n).None? && nd.name == n
    ensures ChildIndex(ds + [nd], n) == Some(|ds|)
  {
    if ds != [] {
      assert (ds + [nd])[1..] == ds[1..] + [nd];
      ChildIndexSnoc(ds[1..], nd, n);
    }
  }

  /** Resolve unfolded at its last name, the way a loop over the path follows it. */
  lemma {:induction false} ResolveSnoc(d: Directory, ns: seq<string>, n: string)
    ensures Resolve(d, ns + [n]) ==
      match Resolve(d, ns)
      case None => None
      case Some(c) =>
        match ChildIndex(DirAt(d, c).value.directories, n)
        case None => None
        case Some(i) => Some(c + [i])
    decreases |ns|
  {
    if ns == [] {
      assert [n][0] == n && [n][1..] == [];
      match ChildIndex(d.directories, n)
      case None =>
      case Some(i) =>
        assert Resolve(d.directories[i], [n][1..]) == Some([]);
        assert [i] + [] == [] + [i];
    } else {
      assert (ns + [n])[0] == ns[0] && (ns + [n])[1..] == ns[1..] + [n];
      match ChildIndex(d.directories, ns[0])
      case None =>
      case Some(i) =>
        ResolveSnoc(d.directories[i], ns[1..], n);
        match Resolve(d.directories[i], ns[1..])
        case None =>
        case Some(c) =>
          assert ([i] + c)[1..] == c;
          match ChildIndex(DirAt(d.directories[i], c).value.directories, n)
          case None =>
          case Some(j) =>
            assert [i] + (c + [j]) == ([i] + c) + [j];
    }
  }

  lemma {:induction false} ResolvePrefix(d: Directory, ns: seq<string>, k: nat)
    requires Resolve(d, ns).Some? && k <= |ns|
    ensures Resolve(d, ns[..k]).Some? && Resolve(d, ns[..k]).value == Resolve(d, ns).value[..k]
    decreases |ns|
  {
    if k > 0 {
      var i := ChildIndex(d.directories, ns[0]).value;
      assert ns[..k][0] == ns[0] && ns[..k][1..] == ns[1..][..k - 1];
      ResolvePrefix(d.directories[i], ns[1..], k - 1);
    }
  }

  /** An existing path resolves to the same cursor after a directory is appended anywhere. */
  lemma {:induction false} ResolveAfterAppendDir(d: Directory, ns: seq<string>, c2: seq<nat>, nd: Directory)
    requires Resolve(d, ns).Some? && DirAt(d, c2).Some?
    ensures Resolve(AppendDirAt(d, c2, nd), ns) == Resolve(d, ns)
    decreases |ns|
  {
    if ns != [] {
      var d2 := AppendDirAt(d, c2, nd);
      var i := ChildIndex(d.directories, ns[0]).value;
      if c2 == [] {
        ChildIndexExtend(d.directories, [nd], ns[0]);
        assert d2.directories[i] == d.directories[i];
      } else {
        var j := c2[0];
        var a := AppendDirAt(d.directories[j], c2[1..], nd);
        AppendDirAtKeeps(d.directories[j], c2[1..], nd, []);
        ChildIndexSameNames(d.directories, d2.directories, ns[0]);
        if i == j {
          ResolveAfterAppendDir(d.directories[j], ns[1..], c2[1..], nd);
        }
      }
    }
  }

  /** Appending a file never changes which directory a path resolves to. */
  lemma {:induction false} ResolveAfterAppendFile(d: Directory, ns: seq<string>, c2: seq<nat>, f: File)
    ensures Resolve(AppendFileAt(d, c2, f), ns) == Resolve(d, ns)
    decreases |ns|
  {
    if ns != [] {
      var d2 := AppendFileAt(d, c2, f);
      if c2 != [] && c2[0] < |d.directories| {
        var j := c2[0];
        assert d2.directories == d.directories[j := AppendFileAt(d.directories[j], c2[1..], f)];
        AppendFileAtTop(d.directories[j], c2[1..], f);
        ChildIndexSameNames(d.directories, d2.directories, ns[0]);
        match ChildIndex(d.directories, ns[0])
        case None =>
        case Some(i) =>
          if i == j {
            ResolveAfterAppendFile(d.directories[j], ns[1..], c2[1..], f);
          }
      }
    }
  }

  // ---------------------------------------------------------------------------
  // UIDs under appends

  lemma {:induction false} ChildUidsSameDirs(d: Directory, e: Directory, i: nat)
    requires d.directories == e.directories && i <= |d.directories|
    ensures ChildUids(d, i) == ChildUids(e, i)
    decreases |d.directories| - i
  {
    if i < |d.directories| {
      ChildUidsSameDirs(d, e, i + 1);
    }
  }

  lemma {:induction false} ChildUidsSnoc(d: Directory, e: Directory, nd: Directory, i: nat)
    requires e.directories == d.directories + [nd] && i <= |d.directories|
    ensures ChildUids(e, i) == ChildUids(d, i) + AllUids(nd)
    decreases |d.directories| - i
  {
    if i < |d.directories| {
      ChildUidsSnoc(d, e, nd, i + 1);
    } else {
      assert ChildUids(e, i + 1) == [];
    }
  }

  lemma ChildUidsUnfold(d: Directory, i: nat)
    requires i < |d.directories|
    ensures ChildUids(d, i) == AllUids(d.directories[i]) + ChildUids(d, i + 1)
  {
  }

  lemma {:induction false} ChildUidsSameFrom(d: Directory, e: Directory, i: nat)
    requires |d.directories| == |e.directories| && i <= |d.directories|
    requires forall k :: i <= k < |d.directories| ==> d.directories[k] == e.directories[k]
    ensures ChildUids(d, i) == ChildUids(e, i)
    decreases |d.directories| - i
  {
    if i < |d.directories| {
      ChildUidsSameFrom(d, e, i + 1);
    }
  }

  lemma {:induction false} ChildUidsUpdate(d: Directory, e: Directory, j: nat, x: Directory, m: multiset<int>, i: nat)
    requires j < |d.directories| && e.directories == d.directories[j := x] && i <= j
    requires multiset(AllUids(x)) == multiset(AllUids(d.directories[j])) + m
    ensures multiset(ChildUids(e, i)) == multiset(ChildUids(d, i)) + m
    decreases j - i
  {
    var pd, pe := AllUids(d.directories[i]), AllUids(e.directories[i]);
    var dd, de := ChildUids(d, i + 1), ChildUids(e, i + 1);
    assert ChildUids(d, i) == pd + dd by { ChildUidsUnfold(d, i); }
    assert ChildUids(e, i) == pe + de by { ChildUidsUnfold(e, i); }
    if i < j {
      assert multiset(de) == multiset(dd) + m by { ChildUidsUpdate(d, e, j, x, m, i + 1); }
      assert pe == pd by { assert e.directories[i] == d.directories[i]; }
      MultisetSameHead(pd, dd, de, m);
    } else {
      assert de == dd by { ChildUidsSameFrom(d, e, i + 1); }
      MultisetSameTail(pd, pe, dd, m);
    }
  }

  lemma MultisetSameHead(a: seq<int>, b: seq<int>, b2: seq<int>, m: multiset<int>)
    requires multiset(b2) == multiset(b) + m
    ensures multiset(a + b2) == multiset(a + b) + m
  {
  }

  lemma MultisetSameTail(a: seq<int>, a2: seq<int>, b: seq<int>, m: multiset<int>)
    requires multiset(a2) == multiset(a) + m
    ensures multiset(a2 + b) == multiset(a + b) + m
  {
  }

  /** An append keeps the name and the UID of the directory it starts from. */
  lemma AppendFileAtTop(d: Directory, c: seq<nat>, f: File)
    ensures AppendFileAt(d, c, f).name == d.name && AppendFileAt(d, c, f).uid == d.uid
    ensures |AppendFileAt(d, c, f).directories| == |d.directories|
  {
  }

  lemma AppendDirAtTop(d: Directory, c: seq<nat>, nd: Directory)
    ensures AppendDirAt(d, c, nd).name == d.name && AppendDirAt(d, c, nd).uid == d.uid
  {
  }

  lemma AllUidsSplit(d: Directory)
    ensures multiset(AllUids(d)) == multiset{d.uid as int} + multiset(ChildUids(d, 0)) + multiset(FileUids(d.files))
  {
  }

  /** Appending a new directory adds exactly its UIDs to the tree's. */
  lemma {:induction false} AppendDirAtUids(d: Directory, c: seq<nat>, nd: Directory)
    requires DirAt(d, c).Some?
    ensures multiset(AllUids(AppendDirAt(d, c, nd))) == multiset(AllUids(d)) + multiset(AllUids(nd))
    decreases |c|
  {
    var e := AppendDirAt(d, c, nd);
    AllUidsSplit(d);
    AllUidsSplit(e);
    if c == [] {
      ChildUidsSnoc(d, e, nd, 0);
    } else {
      var j := c[0];
      AppendDirAtUids(d.directories[j], c[1..], nd);
      ChildUidsUpdate(d, e, j, e.directories[j], multiset(AllUids(nd)), 0);
    }
  }

  lemma {:induction false} FileUidsSnoc(fs: seq<File>, f: File)
    ensures FileUids(fs + [f]) == FileUids(fs) + [f.uid as int]
  {
    if fs != [] {
      assert (fs + [f])[1..] == fs[1..] + [f];
      FileUidsSnoc(fs[1..], f);
    }
  }

  /** At the top, the appended file's UID comes last in the tree's UIDs. */
  lemma AppendFileTopSeq(d: Directory, f: File)
    ensures AllUids(d.(files := d.files + [f])) == AllUids(d) + [f.uid as int]
  {
    ChildUidsSameDirs(d, d.(files := d.files + [f]), 0);
    FileUidsSnoc(d.files, f);
  }

  lemma AppendFileTopUids(d: Directory, f: File)
    ensures multiset(AllUids(d.(files := d.files + [f]))) == multiset(AllUids(d)) + multiset{f.uid as int}
  {
    AppendFileTopSeq(d, f);
  }

  /** Appending a file adds exactly its UID to the tree's. */
  lemma {:induction false} AppendFileAtUids(d: Directory, c: seq<nat>, f: File)
    requires DirAt(d, c).Some?
    ensures multiset(AllUids(AppendFileAt(d, c, f))) == multiset(AllUids(d)) + multiset{f.uid as int}
    decreases |c|
  {
    if c == [] {
      AppendFileTopUids(d, f);
    } else {
      var j := c[0];
      var x := AppendFileAt(d.directories[j], c[1..], f);
      var e := d.(directories := d.directories[j := x]);
      assert AppendFileAt(d, c, f) == e;
      AppendFileAtUids(d.directories[j], c[1..], f);
      ChildUidsUpdate(d, e, j, x, multiset{f.uid as int}, 0);
      AllUidsSplit(d);
      AllUidsSplit(e);
    }
  }

  /** Distinctness is the statement that every multiplicity is at most one. */
  lemma {:induction false} DistinctIff(s: seq<int>)
    ensures Distinct(s) <==> forall x :: multiset(s)[x] <= 1
    decreases |s|
  {
    if s != [] {
      var t := s[1..];
      assert s == [s[0]] + t;
      DistinctIff(t);
      if Distinct(s) {
        assert s[0] !in t by {
          forall k | 0 <= k < |t| ensures t[k] != s[0] {
            assert t[k] == s[k + 1];
          }
        }
        assert Distinct(t) by {
          forall i, j | 0 <= i < j < |t| ensures t[i] != t[j] {
            assert s[i + 1] == t[i] && s[j + 1] == t[j];
          }
        }
      }
      if forall x :: multiset(s)[x] <= 1 {
        assert forall x :: multiset(t)[x] <= 1 by {
          forall x ensures multiset(t)[x] <= 1 {
            assert multiset(s)[x] == multiset{s[0]}[x] + multiset(t)[x];
          }
        }
        assert multiset(s)[s[0]] == 1 + multiset(t)[s[0]];
        assert s[0] !in t;
        forall i, j | 0 <= i < j < |s| ensures s[i] != s[j] {
          if i == 0 {
            assert s[j] == t[j - 1];
          } else {
            assert s[i] == t[i - 1] && s[j] == t[j - 1];
          }
        }
      }
    }
  }

  /** Adding a value above the bound of a distinct, bounded sequence keeps it distinct, with the new bound. */
  lemma AddFresh(s: seq<int>, t: seq<int>, h: int, x: int)
    requires Distinct(s) && BoundedBy(s, h) && h < x
    requires multiset(t) == multiset(s) + multiset{x}
    ensures Distinct(t) && BoundedBy(t, x)
  {
    DistinctIff(s);
    DistinctIff(t);
    assert x !in s by {
      forall k | 0 <= k < |s| ensures s[k] != x {
        assert s[k] <= h;
      }
    }
    forall y ensures multiset(t)[y] <= 1 {
      assert multiset(t)[y] == multiset(s)[y] + multiset{x}[y];
    }
    forall i | 0 <= i < |t| ensures t[i] <= x {
      assert t[i] in multiset(t);
      if t[i] != x {
        assert t[i] in multiset(s);
        var k :| 0 <= k < |s| && s[k] == t[i];
      }
    }
  }
}
