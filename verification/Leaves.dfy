/** What the two deployers do to a directory tree, seen through the files it
    shows: `remove_path`, `std::fs::create_dir_all` and the creation of a link. */
module Leaves {
  import opened Images
  import opened Results

  /** What a tree shows at a path, empty directories left out. */
  function FileAt<T>(t: Image<T>, p: Path): Option<T> {
    if Lookup(t, p).File? then Some(Lookup(t, p).content) else None
  }

  /** No prefix of `p` is a file: its directories can be made. */
  predicate Open<T>(t: Image<T>, p: Path)
    decreases |p|
  {
    !t.File? && (p == [] || Open(Child(t, p[0]), p[1..]))
  }

  /** `create_dir_all`, where it succeeds. */
  function WithDirs<T>(t: Image<T>, p: Path): Image<T>
    decreases |p|
  {
    var d := if t.Missing? then Directory(map[]) else t;
    if p == [] || d.File? then d else WithChild(d, p[0], WithDirs(Child(d, p[0]), p[1..]))
  }

  lemma {:induction false} OpenMeans<T>(t: Image<T>, p: Path)
    ensures Open(t, p) <==> forall n :: 0 <= n <= |p| ==> FileAt(t, p[..n]) == None
    decreases |p|
  {
    assert p[..0] == [];
    if p != [] {
      var c, q := Child(t, p[0]), p[1..];
      OpenMeans(c, q);
      forall n | 0 <= n <= |q| ensures FileAt(t, p[..n + 1]) == FileAt(c, q[..n]) {
        assert p[..n + 1][1..] == q[..n];
      }
      if forall n :: 0 <= n <= |p| ==> FileAt(t, p[..n]) == None {
        assert FileAt(t, p[..0]) == None;
        forall n | 0 <= n <= |q| ensures FileAt(c, q[..n]) == None {
          assert FileAt(t, p[..n + 1]) == None;
        }
      }
      if Open(t, p) {
        forall n | 0 <= n <= |p| ensures FileAt(t, p[..n]) == None {
          if n > 0 {
            assert FileAt(t, p[..n - 1 + 1]) == FileAt(c, q[..n - 1]);
          }
        }
      }
    }
  }

  lemma {:induction false} WithDirsMade<T>(t: Image<T>, p: Path)
    requires Open(t, p)
    ensures Lookup(WithDirs(t, p), p).Directory?
    decreases |p|
  {
    if p != [] {
      var d := if t.Missing? then Directory(map[]) else t;
      LookupMissing<T>(p);
      WithDirsMade(Child(d, p[0]), p[1..]);
    }
  }

  /** Making directories shows no other file. */
  lemma {:induction false} WithDirsLeaf<T>(t: Image<T>, p: Path, q: Path)
    requires Open(t, p)
    ensures FileAt(WithDirs(t, p), q) == FileAt(t, q)
    ensures !(q <= p) ==> Lookup(WithDirs(t, p), q) == Lookup(t, q)
    decreases |p|
  {
    LookupMissing<T>(q);
    if q != [] {
      var d := if t.Missing? then Directory(map[]) else t;
      LookupEmpty<T>(q);
      assert Lookup(d, q) == Lookup(t, q);
      if p != [] && p[0] == q[0] {
        WithDirsLeaf(Child(d, p[0]), p[1..], q[1..]);
      }
    }
  }

  lemma {:induction false} WithDirsSound<T>(t: Image<T>, p: Path)
    requires WellFormed(t)
    ensures WellFormed(WithDirs(t, p))
    decreases |p|
  {
    if p != [] && !t.File? {
      WithDirsSound(Child(t, p[0]), p[1..]);
    }
  }

  /** The place of a link, cleared and with its parent made. */
  function Cleared<T>(t: Image<T>, p: Path): Image<T> {
    if Lookup(t, p).Missing? then t else Replace(t, p, Missing)
  }

  lemma {:induction false} ClearedLeaf<T>(t: Image<T>, p: Path, q: Path)
    requires p != []
    ensures FileAt(Cleared(t, p), q) == if p <= q then None else FileAt(t, q)
    ensures Lookup(Cleared(t, p), p) == Missing
  {
    if Lookup(t, p).Missing? {
      if p <= q {
        MissingBelow(t, p, q);
      }
    } else {
      PresentHasParent(t, p);
      ReplacedLeaf(t, p, Missing, q);
      LookupReplaceSame<T>(t, p, Missing);
    }
  }

  lemma {:induction false} MissingBelow<T>(t: Image<T>, p: Path, q: Path)
    requires Lookup(t, p).Missing? && p <= q
    ensures Lookup(t, q).Missing?
  {
    var r := q[|p|..];
    assert p + r == q;
    LookupConcat(t, p, r);
    LookupMissing<T>(r);
  }

  /** Replacing one path by nothing or by one file. */
  lemma {:induction false} ReplacedLeaf<T>(t: Image<T>, p: Path, i: Image<T>, q: Path)
    requires p != [] && HasParent(t, p) && !i.Directory?
    ensures FileAt(Replace(t, p, i), q)
         == if p <= q then (if p == q && i.File? then Some(i.content) else None) else FileAt(t, q)
  {
    if p <= q {
      var r := q[|p|..];
      assert p + r == q;
      LookupReplaceInside(t, p, i, r);
      if r != [] {
        LookupMissing<T>(r);
        if i.File? {
          LookupFile(i.content, r);
        }
      }
    } else if q <= p {
      LookupReplaceAbove(t, p, i, q);
    } else {
      LookupReplaceOther(t, p, i, q);
    }
  }

  /** A link made where nothing is, its parent directories first. */
  function Linked<T>(t: Image<T>, p: Path, content: T): Image<T>
    requires p != []
  {
    Replace(WithDirs(t, p[..|p| - 1]), p, File(content))
  }

  lemma {:induction false} LinkedLeaf<T>(t: Image<T>, p: Path, content: T, q: Path)
    requires p != [] && Open(t, p[..|p| - 1]) && Lookup(t, p).Missing?
    ensures HasParent(WithDirs(t, p[..|p| - 1]), p) && Lookup(WithDirs(t, p[..|p| - 1]), p).Missing?
    ensures FileAt(Linked(t, p, content), q) == if p == q then Some(content) else FileAt(t, q)
  {
    var parent := p[..|p| - 1];
    var made := WithDirs(t, parent);
    WithDirsMade(t, parent);
    ParentDirectory(made, p);
    WithDirsLeaf(t, parent, p);
    WithDirsLeaf(t, parent, q);
    ReplacedLeaf(made, p, File(content), q);
    if p <= q {
      MissingBelow(t, p, q);
    }
  }

  lemma {:induction false} WithDirsEmpty<T>(t: Image<T>, p: Path)
    requires Open(t, p) && Lookup(t, p).Missing?
    ensures Lookup(WithDirs(t, p), p) == Directory(map[]) && HasParent(WithDirs(t, p), p)
    decreases |p|
  {
    if p != [] {
      var d := if t.Missing? then Directory(map[]) else t;
      LookupMissing<T>(p[1..]);
      WithDirsEmpty(Child(d, p[0]), p[1..]);
    }
  }

  lemma {:induction false} NotOpenBelowFile<T>(t: Image<T>, p: Path, q: Path)
    requires Lookup(t, p).File? && p <= q
    ensures !Open(t, q)
  {
    OpenMeans(t, q);
    assert q[..|p|] == p;
  }
}
