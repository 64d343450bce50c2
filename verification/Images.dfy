/** Directory images: what the manager reads from, and writes to, a directory
    tree (crates/modde-manager/src/files.rs, `Image`).

    `Lookup` is the anchored read of one path and `Replace` is the effect of
    every primitive that changes one path: a rename out of it (replace by
    `Missing`), a rename or hard link into it, the creation of a directory.
    The lemmas are the laws of this pair that every other module builds on. */
module Images {
  type Name = string

  type Path = seq<Name>

  datatype Image<+T> =
    | Missing
    | File(content: T)
    | Directory(entries: map<Name, Image<T>>)

  /** The test `overlap` makes: one path is a component-wise prefix of the other. */
  predicate Overlap(a: Path, b: Path) {
    a <= b || b <= a
  }

  /** No directory has a `Missing` entry: a read never produces one. */
  predicate WellFormed<T>(t: Image<T>) {
    t.Directory? ==>
      forall n :: n in t.entries ==> !t.entries[n].Missing? && WellFormed(t.entries[n])
  }

  function Child<T>(t: Image<T>, n: Name): Image<T> {
    if t.Directory? && n in t.entries then t.entries[n] else Missing
  }

  function WithChild<T>(t: Image<T>, n: Name, c: Image<T>): Image<T>
    requires t.Directory?
  {
    Directory(if c.Missing? then t.entries - {n} else t.entries[n := c])
  }

  function Lookup<T>(t: Image<T>, p: Path): Image<T>
    decreases |p|
  {
    if p == [] then t else Lookup(Child(t, p[0]), p[1..])
  }

  /** Every proper prefix of `p` is a directory, so an entry can be made at `p`. */
  predicate HasParent<T>(t: Image<T>, p: Path)
    decreases |p|
  {
    p == [] || (t.Directory? && HasParent(Child(t, p[0]), p[1..]))
  }

  function Replace<T>(t: Image<T>, p: Path, i: Image<T>): Image<T>
    decreases |p|
  {
    if p == [] then i
    else if t.Directory? then WithChild(t, p[0], Replace(Child(t, p[0]), p[1..], i))
    else t
  }

  lemma {:induction false} LookupMissing<T>(p: Path)
    ensures Lookup<T>(Missing, p) == Missing
    decreases |p|
  {
    if p != [] {
      LookupMissing<T>(p[1..]);
    }
  }

  lemma {:induction false} LookupFile<T>(c: T, p: Path)
    requires p != []
    ensures Lookup(File(c), p) == Missing
  {
    LookupMissing<T>(p[1..]);
  }

  lemma {:induction false} LookupEmpty<T>(p: Path)
    requires p != []
    ensures Lookup<T>(Directory(map[]), p) == Missing
  {
    LookupMissing<T>(p[1..]);
  }

  lemma {:induction false} LookupConcat<T>(t: Image<T>, p: Path, q: Path)
    ensures Lookup(t, p + q) == Lookup(Lookup(t, p), q)
    decreases |p|
  {
    if p == [] {
      assert p + q == q;
    } else {
      assert (p + q)[1..] == p[1..] + q;
      LookupConcat(Child(t, p[0]), p[1..], q);
    }
  }

  /** What exists has only directories above it. */
  lemma {:induction false} PresentHasParent<T>(t: Image<T>, p: Path)
    requires Lookup(t, p) != Missing
    ensures HasParent(t, p)
    decreases |p|
  {
    if p != [] {
      if !t.Directory? {
        LookupMissing<T>(p[1..]);
      }
      PresentHasParent(Child(t, p[0]), p[1..]);
    }
  }

  lemma {:induction false} HasParentPrefix<T>(t: Image<T>, p: Path, q: Path)
    requires HasParent(t, q) && p <= q
    ensures HasParent(t, p)
    ensures p != q ==> Lookup(t, p).Directory?
    decreases |p|
  {
    if p != [] {
      HasParentPrefix(Child(t, p[0]), p[1..], q[1..]);
    }
  }

  /** An entry can be made exactly where the parent directory exists. */
  lemma {:induction false} ParentDirectory<T>(t: Image<T>, p: Path)
    requires p != []
    ensures HasParent(t, p) <==> Lookup(t, p[..|p| - 1]).Directory?
    decreases |p|
  {
    if |p| > 1 {
      ParentDirectory(Child(t, p[0]), p[1..]);
      assert p[..|p| - 1][1..] == p[1..][..|p[1..]| - 1];
      if !t.Directory? {
        LookupMissing<T>(p[..|p| - 1][1..]);
      }
    }
  }

  lemma {:induction false} ReplaceHasParent<T>(t: Image<T>, p: Path, i: Image<T>)
    requires HasParent(t, p)
    ensures HasParent(Replace(t, p, i), p)
    ensures p != [] ==> Replace(t, p, i).Directory?
    decreases |p|
  {
    if p != [] {
      var c := Child(t, p[0]);
      ReplaceHasParent(c, p[1..], i);
      if Replace(c, p[1..], i).Missing? {
        assert p[1..] == [];
      }
    }
  }

  /** The child that `Replace` descends into is the one it leaves. */
  lemma {:induction false} ReplaceChild<T>(t: Image<T>, p: Path, i: Image<T>, n: Name)
    requires p != [] && t.Directory?
    ensures Child(Replace(t, p, i), n) ==
            if n == p[0] then Replace(Child(t, p[0]), p[1..], i) else Child(t, n)
  {
  }

  /** Lookup of a replaced path and of everything under it. */
  lemma {:induction false} LookupReplaceInside<T>(t: Image<T>, p: Path, i: Image<T>, q: Path)
    requires HasParent(t, p)
    ensures Lookup(Replace(t, p, i), p + q) == Lookup(i, q)
    decreases |p|
  {
    if p == [] {
      assert p + q == q;
    } else {
      ReplaceChild(t, p, i, p[0]);
      LookupReplaceInside(Child(t, p[0]), p[1..], i, q);
      assert (p + q)[1..] == p[1..] + q;
    }
  }

  lemma {:induction false} LookupReplaceSame<T>(t: Image<T>, p: Path, i: Image<T>)
    requires HasParent(t, p)
    ensures Lookup(Replace(t, p, i), p) == i
  {
    LookupReplaceInside(t, p, i, []);
    assert p + [] == p;
  }

  /** Replacing a path leaves every path that does not overlap it as it was. */
  lemma {:induction false} LookupReplaceOther<T>(t: Image<T>, p: Path, i: Image<T>, q: Path)
    requires !Overlap(p, q)
    ensures Lookup(Replace(t, p, i), q) == Lookup(t, q)
    decreases |p|
  {
    if t.Directory? {
      ReplaceChild(t, p, i, q[0]);
      if p[0] == q[0] {
        LookupReplaceOther(Child(t, p[0]), p[1..], i, q[1..]);
      }
    }
  }

  lemma {:induction false} HasParentReplaceOther<T>(t: Image<T>, p: Path, i: Image<T>, q: Path)
    requires !Overlap(p, q)
    ensures HasParent(Replace(t, p, i), q) == HasParent(t, q)
    decreases |p|
  {
    if t.Directory? {
      ReplaceChild(t, p, i, q[0]);
      if p[0] == q[0] {
        HasParentReplaceOther(Child(t, p[0]), p[1..], i, q[1..]);
      }
    }
  }

  /** A prefix of a replaced path stays a directory. */
  lemma {:induction false} LookupReplaceAbove<T>(t: Image<T>, p: Path, i: Image<T>, q: Path)
    requires HasParent(t, p) && q < p
    ensures Lookup(t, q).Directory? && Lookup(Replace(t, p, i), q).Directory?
  {
    HasParentPrefix(t, q, p);
    ReplaceHasParent(t, p, i);
    HasParentPrefix(Replace(t, p, i), q, p);
  }

  lemma {:induction false} WithChildTwice<T>(t: Image<T>, n: Name, c: Image<T>, d: Image<T>)
    requires t.Directory?
    ensures WithChild(WithChild(t, n, c), n, d) == WithChild(t, n, d)
  {
    assert WithChild(WithChild(t, n, c), n, d).entries == WithChild(t, n, d).entries;
  }

  lemma {:induction false} WithChildCommute<T>(t: Image<T>, n: Name, c: Image<T>, m: Name, d: Image<T>)
    requires t.Directory? && n != m
    ensures WithChild(WithChild(t, n, c), m, d) == WithChild(WithChild(t, m, d), n, c)
  {
    if c.Missing? && d.Missing? {
      assert t.entries - {n} - {m} == t.entries - {m} - {n};
    } else if c.Missing? {
      assert (t.entries - {n})[m := d] == t.entries[m := d] - {n};
    } else if d.Missing? {
      assert t.entries[n := c] - {m} == (t.entries - {m})[n := c];
    } else {
      assert t.entries[n := c][m := d] == t.entries[m := d][n := c];
    }
  }

  lemma {:induction false} ReplaceTwice<T>(t: Image<T>, p: Path, i: Image<T>, j: Image<T>)
    requires HasParent(t, p)
    ensures Replace(Replace(t, p, i), p, j) == Replace(t, p, j)
    decreases |p|
  {
    if p != [] {
      var n, c := p[0], Child(t, p[0]);
      ReplaceChild(t, p, i, n);
      ReplaceTwice(c, p[1..], i, j);
      WithChildTwice(t, n, Replace(c, p[1..], i), Replace(c, p[1..], j));
    }
  }

  /** Putting back what was there restores the whole tree. */
  lemma {:induction false} ReplaceSelf<T>(t: Image<T>, p: Path)
    requires HasParent(t, p) && WellFormed(t)
    ensures Replace(t, p, Lookup(t, p)) == t
    decreases |p|
  {
    if p != [] {
      ReplaceSelf(Child(t, p[0]), p[1..]);
    }
  }

  lemma {:induction false} ReplaceCommute<T>(t: Image<T>, p: Path, i: Image<T>, q: Path, j: Image<T>)
    requires !Overlap(p, q)
    ensures Replace(Replace(t, p, i), q, j) == Replace(Replace(t, q, j), p, i)
    decreases |p|
  {
    if t.Directory? {
      var n, m := p[0], q[0];
      var c, d := Replace(Child(t, n), p[1..], i), Replace(Child(t, m), q[1..], j);
      ReplaceChild(t, p, i, m);
      ReplaceChild(t, q, j, n);
      if n == m {
        ReplaceCommute(Child(t, n), p[1..], i, q[1..], j);
        WithChildTwice(t, n, c, Replace(c, q[1..], j));
        WithChildTwice(t, n, d, Replace(d, p[1..], i));
      } else {
        WithChildCommute(t, n, c, m, d);
      }
    }
  }

  lemma {:induction false} ReplaceWellFormed<T>(t: Image<T>, p: Path, i: Image<T>)
    requires WellFormed(t) && WellFormed(i)
    ensures WellFormed(Replace(t, p, i))
    decreases |p|
  {
    if p != [] && t.Directory? {
      ReplaceWellFormed(Child(t, p[0]), p[1..], i);
    }
  }

  lemma {:induction false} LookupWellFormed<T>(t: Image<T>, p: Path)
    requires WellFormed(t)
    ensures WellFormed(Lookup(t, p))
    decreases |p|
  {
    if p != [] {
      LookupWellFormed(Child(t, p[0]), p[1..]);
    }
  }

  /** Some proper prefix of `p` is a file, so that reading `p` is an error rather
      than finding nothing. */
  predicate Blocked<T>(t: Image<T>, p: Path)
    decreases |p|
  {
    p != [] && (t.File? || Blocked(Child(t, p[0]), p[1..]))
  }

  lemma {:induction false} BlockedMeans<T>(t: Image<T>, p: Path)
    ensures Blocked(t, p) <==> exists k :: 0 <= k < |p| && Lookup(t, p[..k]).File?
    decreases |p|
  {
    if p != [] {
      var c, q := Child(t, p[0]), p[1..];
      BlockedMeans(c, q);
      assert Lookup(t, p[..0]) == t;
      forall k | 0 <= k < |q| ensures Lookup(t, p[..k + 1]) == Lookup(c, q[..k]) {
        assert p[..k + 1][1..] == q[..k];
      }
      if k :| 0 <= k < |p| && Lookup(t, p[..k]).File? {
        if k > 0 {
          assert Lookup(c, q[..k - 1]).File?;
        }
      }
      if k :| 0 <= k < |q| && Lookup(c, q[..k]).File? {
        assert Lookup(t, p[..k + 1]).File?;
      }
    }
  }

  lemma {:induction false} HasParentNotBlocked<T>(t: Image<T>, p: Path)
    requires HasParent(t, p)
    ensures !Blocked(t, p)
    decreases |p|
  {
    if p != [] {
      HasParentNotBlocked(Child(t, p[0]), p[1..]);
    }
  }

  /** What can be seen of one path without looking below it. */
  datatype Kind<+T> = Absent | Leaf(content: T) | Node

  function KindOf<T>(t: Image<T>): Kind<T> {
    match t
    case Missing => Absent
    case File(c) => Leaf(c)
    case Directory(_) => Node
  }

  /** Two trees that show the same at every path are the same tree. */
  lemma {:induction false} Extensional<T>(s: Image<T>, t: Image<T>)
    requires WellFormed(s) && WellFormed(t)
    requires forall p: Path :: KindOf(Lookup(s, p)) == KindOf(Lookup(t, p))
    ensures s == t
    decreases s
  {
    assert Lookup(s, []) == s && Lookup(t, []) == t;
    if s.Directory? {
      forall n | n in s.entries || n in t.entries
        ensures n in s.entries && n in t.entries && s.entries[n] == t.entries[n]
      {
        assert Lookup(s, [n]) == Child(s, n) && Lookup(t, [n]) == Child(t, n);
        forall p: Path
          ensures KindOf(Lookup(Child(s, n), p)) == KindOf(Lookup(Child(t, n), p))
        {
          assert ([n] + p)[1..] == p;
          assert Lookup(s, [n] + p) == Lookup(Child(s, n), p);
          assert Lookup(t, [n] + p) == Lookup(Child(t, n), p);
        }
        Extensional(s.entries[n], t.entries[n]);
      }
      assert s.entries == t.entries;
    }
  }
}
