/** Reviewed payloads: a directory image built file by file from a listing, and
    the inventory that flattens one again
    (crates/modde-manager/src/transaction.rs, `insert_blob`, the loop of
    `reviewed_checkout`, and `manifest`). */
module Payloads {
  import opened Images
  import opened Ordering

  datatype Listed<T> = Listed(path: Path, content: T)

  /** `insert_blob`: the image afterwards, and whether it was accepted. A refused
      file may already have replaced what stood at its name. */
  function Insert<T>(image: Image<T>, p: Path, c: T): (r: (Image<T>, bool))
    decreases |p|
  {
    if p == [] || !image.Directory? then (image, false)
    else if |p| == 1 then (Directory(image.entries[p[0] := File(c)]), p[0] !in image.entries)
    else
      var child := if p[0] in image.entries then image.entries[p[0]] else Directory(map[]);
      var r := Insert(child, p[1..], c);
      (Directory(image.entries[p[0] := r.0]), r.1)
  }

  /** What a path shows after a file was accepted at `p`. */
  function WithFile<T>(before: Kind<T>, p: Path, c: T, q: Path): Kind<T> {
    if q == p then Leaf(c) else if q < p then Node else before
  }

  /** A file is accepted exactly where nothing is, below directories or nothing. */
  predicate Free<T>(image: Image<T>, p: Path) {
    p != [] && Lookup(image, p) == Missing && !Blocked(image, p)
  }

  lemma {:induction false} InsertAccepts<T>(image: Image<T>, p: Path, c: T)
    requires WellFormed(image)
    ensures Insert(image, p, c).1 ==> Free(image, p) && WellFormed(Insert(image, p, c).0)
    ensures Free(image, p) && image.Directory? ==> Insert(image, p, c).1
    decreases |p|
  {
    if p != [] && image.Directory? {
      if |p| == 1 {
        assert p[1..] == [];
        assert Lookup(image, p) == Lookup(Child(image, p[0]), []);
        assert !Blocked(Child(image, p[0]), []);
      } else if p[0] in image.entries {
        InsertAccepts(image.entries[p[0]], p[1..], c);
        if image.entries[p[0]].File? {
          assert Blocked(image.entries[p[0]], p[1..]);
        }
      } else {
        InsertAccepts(Directory(map[]), p[1..], c);
        LookupEmpty<T>(p[1..]);
        LookupMissing<T>(p[1..]);
        MissingNotBlocked<T>(p[1..]);
        MissingNotBlocked<T>(p[1..][1..]);
      }
    }
  }

  lemma {:induction false} MissingNotBlocked<T>(p: Path)
    ensures !Blocked<T>(Missing, p)
    decreases |p|
  {
    if p != [] {
      MissingNotBlocked<T>(p[1..]);
    }
  }

  /** An accepted file shows at its path, its directories show above it, and
      nothing else changes. */
  lemma {:induction false} InsertShows<T>(image: Image<T>, p: Path, c: T, q: Path)
    requires WellFormed(image) && Insert(image, p, c).1
    ensures KindOf(Lookup(Insert(image, p, c).0, q)) == WithFile(KindOf(Lookup(image, q)), p, c, q)
    decreases |p|
  {
    var after := Insert(image, p, c).0;
    if q != [] {
      if q[0] != p[0] {
        assert Child(after, q[0]) == Child(image, q[0]);
      } else if |p| == 1 {
        assert Child(after, q[0]) == File(c) && Child(image, q[0]) == Missing;
        if |q| > 1 {
          LookupMissing<T>(q[1..][1..]);
          LookupMissing<T>(q[1..]);
        } else {
          assert q[1..] == [] && q == p;
        }
      } else {
        var child := if p[0] in image.entries then image.entries[p[0]] else Directory(map[]);
        InsertShows(child, p[1..], c, q[1..]);
        assert Child(after, q[0]) == Insert(child, p[1..], c).0;
        assert q == [q[0]] + q[1..] && p == [p[0]] + p[1..];
        if p[0] !in image.entries {
          LookupMissing<T>(q[1..]);
          if q[1..] != [] {
            LookupEmpty<T>(q[1..]);
          }
        }
      }
    }
  }

  // ---------- whole listings ----------

  /** Building stops at the first file that is refused. */
  function Built<T>(image: Image<T>, listing: seq<Listed<T>>): (Image<T>, bool)
    decreases |listing|
  {
    if listing == [] then (image, true)
    else
      var r := Insert(image, listing[0].path, listing[0].content);
      if r.1 then Built(r.0, listing[1..]) else r
  }

  /** The tree under construction, changed in place. */
  class Checkout<T> {
    var expected: Image<T>

    constructor ()
      ensures expected == Directory(map[])
    {
      expected := Directory(map[]);
    }

    method InsertAll(listing: seq<Listed<T>>) returns (ok: bool)
      modifies this
      ensures (expected, ok) == Built(old(expected), listing)
    {
      for i := 0 to |listing|
        invariant Built(expected, listing[i..]) == Built(old(expected), listing)
      {
        assert listing[i..][0] == listing[i] && listing[i..][1..] == listing[i + 1..];
        var r := Insert(expected, listing[i].path, listing[i].content);
        expected := r.0;
        if !r.1 {
          return false;
        }
      }
      assert listing[|listing|..] == [];
      ok := true;
    }
  }

  ghost predicate PrefixFree<T>(listing: seq<Listed<T>>) {
    && (forall i :: 0 <= i < |listing| ==> listing[i].path != [])
    && (forall i, j :: 0 <= i < j < |listing| ==> !Overlap(listing[i].path, listing[j].path))
  }

  /** The image shows exactly the listed files and the directories above them. */
  ghost predicate Represents<T>(image: Image<T>, listing: seq<Listed<T>>) {
    && image.Directory? && WellFormed(image)
    && (forall i :: 0 <= i < |listing| ==> Lookup(image, listing[i].path) == File(listing[i].content))
    && (forall q: Path :: Lookup(image, q).File? ==> exists i :: 0 <= i < |listing| && listing[i].path == q)
    && (forall q: Path :: Lookup(image, q).Directory? <==> q == [] || exists i :: 0 <= i < |listing| && q < listing[i].path)
  }

  lemma {:induction false} OverlapNotFree<T>(image: Image<T>, listing: seq<Listed<T>>, p: Path, i: nat)
    requires Represents(image, listing) && i < |listing| && Overlap(listing[i].path, p)
    ensures !Free(image, p)
  {
    var q := listing[i].path;
    BlockedMeans(image, p);
    assert Lookup(image, q).File?;
    if q < p {
      assert p[..|q|] == q && Lookup(image, p[..|q|]).File?;
    } else if p < q {
      assert Lookup(image, p).Directory?;
    } else {
      assert p == q;
    }
  }

  lemma {:induction false} ApartFree<T>(image: Image<T>, listing: seq<Listed<T>>, p: Path)
    requires Represents(image, listing) && p != []
    requires forall i :: 0 <= i < |listing| ==> !Overlap(listing[i].path, p)
    ensures Free(image, p)
  {
    BlockedMeans(image, p);
    forall k | 0 <= k <= |p| ensures !Lookup(image, p[..k]).File? {
      assert forall i :: 0 <= i < |listing| ==> listing[i].path != p[..k];
    }
    assert p[..|p|] == p;
    assert forall i :: 0 <= i < |listing| ==> !(p < listing[i].path);
  }

  /** Over a listing already built, a path is free exactly when it overlaps none. */
  lemma {:induction false} RepresentsFree<T>(image: Image<T>, listing: seq<Listed<T>>, p: Path)
    requires Represents(image, listing)
    ensures Free(image, p) <==> p != [] && forall i :: 0 <= i < |listing| ==> !Overlap(listing[i].path, p)
  {
    if p != [] {
      if i :| 0 <= i < |listing| && Overlap(listing[i].path, p) {
        OverlapNotFree(image, listing, p, i);
      } else {
        ApartFree(image, listing, p);
      }
    }
  }

  lemma {:induction false} RepresentsOneMore<T>(image: Image<T>, listing: seq<Listed<T>>, p: Path, c: T)
    requires Represents(image, listing) && Insert(image, p, c).1
    ensures Represents(Insert(image, p, c).0, listing + [Listed(p, c)])
  {
    var after, more := Insert(image, p, c).0, listing + [Listed(p, c)];
    InsertAccepts(image, p, c);
    RepresentsFree(image, listing, p);
    assert more[|listing|] == Listed(p, c);
    forall i | 0 <= i < |more| ensures Lookup(after, more[i].path) == File(more[i].content) {
      InsertShows(image, p, c, more[i].path);
    }
    forall q: Path
      ensures Lookup(after, q).File? ==> exists i :: 0 <= i < |more| && more[i].path == q
      ensures Lookup(after, q).Directory? <==> q == [] || exists i :: 0 <= i < |more| && q < more[i].path
    {
      InsertShows(image, p, c, q);
      if i :| 0 <= i < |listing| && listing[i].path == q {
        assert more[i].path == q;
      }
      if i :| 0 <= i < |listing| && q < listing[i].path {
        assert q < more[i].path;
      }
    }
  }

  lemma {:induction false} BuiltRepresents<T>(image: Image<T>, done: seq<Listed<T>>, rest: seq<Listed<T>>)
    requires Represents(image, done) && PrefixFree(done)
    ensures Built(image, rest).1 <==> PrefixFree(done + rest)
    ensures Built(image, rest).1 ==> Represents(Built(image, rest).0, done + rest)
    decreases |rest|
  {
    if rest == [] {
      assert done + rest == done;
    } else {
      var p, c := rest[0].path, rest[0].content;
      InsertAccepts(image, p, c);
      RepresentsFree(image, done, p);
      assert done + rest == done + [rest[0]] + rest[1..];
      if Insert(image, p, c).1 {
        RepresentsOneMore(image, done, p, c);
        assert rest[0] == Listed(p, c);
        BuiltRepresents(Insert(image, p, c).0, done + [rest[0]], rest[1..]);
      } else {
        NotFree(done, rest);
      }
    }
  }

  lemma {:induction false} NotFree<T>(done: seq<Listed<T>>, rest: seq<Listed<T>>)
    requires rest != []
    requires rest[0].path == [] || exists i :: 0 <= i < |done| && Overlap(done[i].path, rest[0].path)
    ensures !PrefixFree(done + rest)
  {
    var all := done + rest;
    assert all[|done|] == rest[0];
    if i :| 0 <= i < |done| && Overlap(done[i].path, rest[0].path) {
      assert all[i] == done[i];
    }
  }

  /** Building from a listing succeeds exactly when no path is empty and none
      equals or is a prefix of another; the image then shows exactly the files
      listed and the directories above them. */
  lemma {:induction false} BuildExact<T>(listing: seq<Listed<T>>)
    ensures var b := Built(Directory(map[]), listing);
            && (b.1 <==> PrefixFree(listing))
            && (b.1 ==> Represents(b.0, listing))
  {
    var empty: Image<T> := Directory(map[]);
    forall q: Path ensures q != [] ==> Lookup(empty, q) == Missing {
      if q != [] {
        LookupEmpty<T>(q);
      }
    }
    assert Lookup(empty, []) == empty;
    BuiltRepresents(empty, [], listing);
    assert [] + listing == listing;
  }

  /** The image does not depend on the order of the listing. */
  lemma {:induction false} BuildOrderIrrelevant<T>(a: seq<Listed<T>>, b: seq<Listed<T>>)
    requires Built(Directory(map[]), a).1 && Built(Directory(map[]), b).1
    requires forall x :: x in a <==> x in b
    ensures Built(Directory(map[]), a).0 == Built(Directory(map[]), b).0
  {
    BuildExact(a);
    BuildExact(b);
    var s, t := Built(Directory(map[]), a).0, Built(Directory(map[]), b).0;
    forall q: Path ensures KindOf(Lookup(s, q)) == KindOf(Lookup(t, q)) {
      SameShown(s, t, a, b, q);
      SameShown(t, s, b, a, q);
    }
    Extensional(s, t);
  }

  lemma {:induction false} SameShown<T>(s: Image<T>, t: Image<T>, a: seq<Listed<T>>, b: seq<Listed<T>>, q: Path)
    requires Represents(s, a) && Represents(t, b) && forall x :: x in a ==> x in b
    ensures Lookup(s, q).File? ==> Lookup(t, q) == Lookup(s, q)
    ensures Lookup(s, q).Directory? ==> Lookup(t, q).Directory?
  {
    if Lookup(s, q).File? {
      var i :| 0 <= i < |a| && a[i].path == q;
      assert a[i] in a;
      var j :| 0 <= j < |b| && b[j] == a[i];
    } else if Lookup(s, q).Directory? && q != [] {
      var i :| 0 <= i < |a| && q < a[i].path;
      assert a[i] in a;
      var j :| 0 <= j < |b| && b[j] == a[i];
      assert q < b[j].path;
    }
  }

  // ---------- the inventory ----------

  /** `manifest`: one entry for each file at or below `at`, in name order.
      `digest` stands for the recorded length and hash. */
  function Manifest<T, D>(image: Image<T>, at: Path, digest: T -> D): map<Path, D>
    decreases image, 1, 0
  {
    match image
    case Missing => map[]
    case File(c) => map[at := digest(c)]
    case Directory(entries) => ManifestOf(image, at, digest, SortedKeys(entries.Keys))
  }

  function ManifestOf<T, D>(image: Image<T>, at: Path, digest: T -> D, names: seq<Name>): map<Path, D>
    requires image.Directory? && forall n :: n in names ==> n in image.entries
    decreases image, 0, |names|
  {
    if names == [] then map[]
    else Manifest(image.entries[names[0]], at + [names[0]], digest) + ManifestOf(image, at, digest, names[1..])
  }

  /** The inventory has exactly the files, each under its full path. */
  lemma {:induction false} ManifestShows<T, D>(image: Image<T>, at: Path, digest: T -> D, q: Path)
    ensures q in Manifest(image, at, digest) <==> at <= q && Lookup(image, q[|at|..]).File?
    ensures q in Manifest(image, at, digest) ==> Manifest(image, at, digest)[q] == digest(Lookup(image, q[|at|..]).content)
    decreases image, 1, 0
  {
    match image
    case Missing =>
      if at <= q {
        LookupMissing<T>(q[|at|..]);
      }
    case File(c) =>
      if at <= q && q != at {
        LookupFile(c, q[|at|..]);
      }
      if at == q {
        assert q[|at|..] == [];
      }
    case Directory(entries) =>
      ManifestOfShows(image, at, digest, SortedKeys(entries.Keys), q);
      if at <= q && q != at {
        var rest := q[|at|..];
        if rest[0] !in entries {
          LookupMissing<T>(rest[1..]);
        } else {
          assert rest[0] in SortedKeys(entries.Keys);
        }
      }
      if at == q {
        assert q[|at|..] == [];
      }
  }

  lemma {:induction false} ManifestOfShows<T, D>(image: Image<T>, at: Path, digest: T -> D, names: seq<Name>, q: Path)
    requires image.Directory? && forall n :: n in names ==> n in image.entries
    ensures q in ManifestOf(image, at, digest, names) <==> at < q && q[|at|] in names && Lookup(image, q[|at|..]).File?
    ensures q in ManifestOf(image, at, digest, names) ==> ManifestOf(image, at, digest, names)[q] == digest(Lookup(image, q[|at|..]).content)
    decreases image, 0, |names|
  {
    if names != [] {
      var n := names[0];
      ManifestShows(image.entries[n], at + [n], digest, q);
      ManifestOfShows(image, at, digest, names[1..], q);
      if at < q {
        if q[|at|] == n {
          assert at + [n] <= q;
          assert q[|at|..][1..] == q[|at + [n]|..];
          assert q[|at|..][0] == n;
        } else {
          assert !(at + [n] <= q) by {
            assert (at + [n])[|at|] == n;
          }
        }
      } else {
        assert !(at + [n] <= q);
      }
    }
  }

  /** Flattening what was built gives back the listing: exactly its paths, each
      with the digest of its content. */
  lemma {:induction false} BuildFlatten<T, D>(listing: seq<Listed<T>>, digest: T -> D)
    requires Built(Directory(map[]), listing).1
    ensures var m := Manifest(Built(Directory(map[]), listing).0, [], digest);
            && (forall i :: 0 <= i < |listing| ==> listing[i].path in m && m[listing[i].path] == digest(listing[i].content))
            && (forall q :: q in m ==> exists i :: 0 <= i < |listing| && listing[i].path == q)
  {
    BuildExact(listing);
    var image := Built(Directory(map[]), listing).0;
    forall q: Path
      ensures q in Manifest(image, [], digest) <==> Lookup(image, q).File?
      ensures q in Manifest(image, [], digest) ==> Manifest(image, [], digest)[q] == digest(Lookup(image, q).content)
    {
      ManifestShows(image, [], digest, q);
      assert q[0..] == q;
    }
  }
}
