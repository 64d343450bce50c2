/** Deploying a staged tree into a target whose names are matched without
    regard to ASCII case (crates/modde-core/src/fs.rs, `case_match_child`,
    `case_match_path` and `deploy_symlinks`). A directory is listed in an order
    that nobody controls; there are no links to directories. */
module Deployment {
  import opened Images
  import opened Leaves
  import opened Results

  /** A file of the target: one that was there, or a link to a staged path. */
  datatype Item = Original(content: string) | Link(source: Path)

  type Staged = Image<string>

  type Target = Image<Item>

  // ---------- names without case ----------

  function Lower(c: char): char {
    if 'A' <= c <= 'Z' then c + 32 as char else c
  }

  function Fold(n: Name): Name {
    seq(|n|, i requires 0 <= i < |n| => Lower(n[i]))
  }

  /** The same character, or the two cases of an ASCII letter. */
  predicate SameLetter(a: char, b: char) {
    a == b
    || ('A' <= a <= 'Z' && b as int == a as int + 32)
    || ('A' <= b <= 'Z' && a as int == b as int + 32)
  }

  /** `eq_ignore_ascii_case`. */
  predicate SameName(m: Name, n: Name) {
    |m| == |n| && forall i :: 0 <= i < |m| ==> SameLetter(m[i], n[i])
  }

  /** Folding identifies just the names that differ at most in ASCII case. */
  lemma {:induction false} FoldMeans(m: Name, n: Name)
    ensures Fold(m) == Fold(n) <==> SameName(m, n)
  {
    var a, b := Fold(m), Fold(n);
    assert |a| == |m| && |b| == |n|;
    if a == b {
      forall i | 0 <= i < |m| ensures SameLetter(m[i], n[i]) {
        assert a[i] == b[i];
      }
    }
  }

  /** Two spellings of one path that differ at most in case. */
  predicate SameSpelling(p: Path, q: Path) {
    |p| == |q| && forall i :: 0 <= i < |p| ==> SameName(p[i], q[i])
  }

  lemma {:induction false} SpellingMeans(p: Path, q: Path)
    ensures SameFold(p, q) <==> SameSpelling(p, q)
  {
    if |p| == |q| {
      forall i | 0 <= i < |p| ensures Fold(p[i]) == Fold(q[i]) <==> SameName(p[i], q[i]) {
        FoldMeans(p[i], q[i]);
      }
    }
  }

  /** Nowhere do two names of one directory differ only in case. */
  ghost predicate CaseFree<T>(t: Image<T>) {
    forall p: Path, m: Name, n: Name ::
      !Lookup(t, p + [m]).Missing? && !Lookup(t, p + [n]).Missing? && SameName(m, n) ==> m == n
  }

  lemma {:induction false} NoSiblingsMeans<T>(t: Image<T>)
    ensures NoSiblings(t) ==> CaseFree(t)
    ensures WellFormed(t) && CaseFree(t) ==> NoSiblings(t)
    decreases t
  {
    if NoSiblings(t) {
      forall p: Path, m: Name, n: Name | !Lookup(t, p + [m]).Missing? && !Lookup(t, p + [n]).Missing? && SameName(m, n)
        ensures m == n
      {
        LookupNoSiblings(t, p);
        ReadBelow(t, p, m);
        ReadBelow(t, p, n);
        FoldMeans(m, n);
      }
    }
    if WellFormed(t) && CaseFree(t) {
      forall m, n | m in Entries(t) && n in Entries(t) && Fold(m) == Fold(n) ensures m == n {
        FoldMeans(m, n);
        assert [] + [m] == [m] && [] + [n] == [n];
        assert [m][1..] == [] && [n][1..] == [];
        assert !Lookup(t, [] + [m]).Missing? && !Lookup(t, [] + [n]).Missing?;
      }
      if t.Directory? {
        forall k | k in t.entries ensures NoSiblings(t.entries[k]) {
          forall p: Path, m: Name, n: Name
            | !Lookup(t.entries[k], p + [m]).Missing? && !Lookup(t.entries[k], p + [n]).Missing? && SameName(m, n)
            ensures m == n
          {
            assert ([k] + p + [m])[1..] == p + [m] && ([k] + p + [n])[1..] == p + [n];
            assert !Lookup(t, [k] + p + [m]).Missing? && !Lookup(t, [k] + p + [n]).Missing?;
          }
          NoSiblingsMeans(t.entries[k]);
        }
      }
    }
  }

  /** Under this path, in one spelling only, is this image. */
  ghost predicate OnlyAt<T>(t: Image<T>, p: Path, image: Image<T>) {
    exists r :: SameSpelling(r, p) && Lookup(t, r) == image &&
      forall q :: SameSpelling(q, p) && !Lookup(t, q).Missing? ==> q == r
  }

  /** What reading without regard to case finds. */
  lemma {:induction false} CaseLookupMeans<T>(t: Image<T>, p: Path)
    requires NoSiblings(t) && !CaseLookup(t, p).Missing?
    ensures OnlyAt(t, p, CaseLookup(t, p))
  {
    var r := CasePath(t, p);
    CasePathRead(t, p);
    CasePathSpelt(t, p);
    SpellingMeans(r, p);
    forall q | SameSpelling(q, p) && !Lookup(t, q).Missing? ensures q == r {
      SpellingMeans(q, p);
      CaseLookupOwn(t, q);
      SpelledSame(t, q, p);
    }
  }

  lemma {:induction false} CasePathSpelt<T>(t: Image<T>, p: Path)
    ensures SameFold(CasePath(t, p), p)
    decreases |p|
  {
    if p != [] {
      CasePathSpelt(Child(t, CaseName(t, p[0])), p[1..]);
    }
  }

  /** Two spellings of what is there lead along one path. */
  lemma {:induction false} SpelledSame<T>(t: Image<T>, p: Path, q: Path)
    requires NoSiblings(t) && SameFold(p, q) && !CaseLookup(t, p).Missing?
    ensures CasePath(t, p) == CasePath(t, q)
    decreases |p|
  {
    if p != [] {
      if !Matched(t, p[0]) {
        if |p| > 1 {
          CaseLookupMissing<T>(Missing, p[1..]);
        }
      }
      assert CaseName(t, p[0]) == CaseName(t, q[0]);
      SpelledSame(Child(t, CaseName(t, p[0])), p[1..], q[1..]);
    }
  }

  function Entries<T>(t: Image<T>): map<Name, Image<T>> {
    if t.Directory? then t.entries else map[]
  }

  predicate Matched<T>(t: Image<T>, n: Name) {
    exists m :: m in Entries(t) && Fold(m) == Fold(n)
  }

  /** The entry's own name, if one matches. */
  ghost function CaseName<T>(t: Image<T>, n: Name): (r: Name)
    ensures Fold(r) == Fold(n)
    ensures Matched(t, n) ==> r in Entries(t)
    ensures !Matched(t, n) ==> r == n
  {
    if Matched(t, n) then
      var m :| m in Entries(t) && Fold(m) == Fold(n);
      m
    else n
  }

  /** No two entries of one directory differ only in case. */
  predicate Distinct<T>(t: Image<T>) {
    forall m, n :: m in Entries(t) && n in Entries(t) && Fold(m) == Fold(n) ==> m == n
  }

  predicate NoSiblings<T>(t: Image<T>) {
    Distinct(t) && (t.Directory? ==> forall n :: n in t.entries ==> NoSiblings(t.entries[n]))
  }

  /** Reading a path without regard to case. */
  ghost function CaseLookup<T>(t: Image<T>, p: Path): Image<T>
    decreases |p|
  {
    if p == [] then t else CaseLookup(Child(t, CaseName(t, p[0])), p[1..])
  }

  /** The path that is read. */
  ghost function CasePath<T>(t: Image<T>, p: Path): (r: Path)
    ensures |r| == |p|
    decreases |p|
  {
    if p == [] then [] else [CaseName(t, p[0])] + CasePath(Child(t, CaseName(t, p[0])), p[1..])
  }

  lemma {:induction false} CasePathRead<T>(t: Image<T>, p: Path)
    ensures Lookup(t, CasePath(t, p)) == CaseLookup(t, p)
    decreases |p|
  {
    if p != [] {
      CasePathRead(Child(t, CaseName(t, p[0])), p[1..]);
    }
  }

  /** With no such siblings, what is there under its own name is what is read. */
  lemma {:induction false} CaseLookupOwn<T>(t: Image<T>, p: Path)
    requires NoSiblings(t) && !Lookup(t, p).Missing?
    ensures CaseLookup(t, p) == Lookup(t, p) && CasePath(t, p) == p
    decreases |p|
  {
    if p != [] {
      if Child(t, p[0]).Missing? {
        LookupMissing<T>(p[1..]);
      }
      assert p[0] in Entries(t);
      CaseLookupOwn(Child(t, p[0]), p[1..]);
    }
  }

  // ---------- the merged tree ----------

  function AsDirectory<T>(t: Image<T>): Image<T> {
    if t.Directory? then t else Directory(map[])
  }

  lemma {:induction false} AsDirectorySame<T>(t: Image<T>, n: Name)
    ensures CaseName(AsDirectory(t), n) == CaseName(t, n) && Child(AsDirectory(t), n) == Child(t, n)
    ensures Matched(AsDirectory(t), n) == Matched(t, n)
  {
  }

  ghost function Names(t: Target, s: Staged): set<Name> {
    Entries(t).Keys + set m | m in Entries(s) && !Matched(t, m)
  }

  /** The target with the staged tree merged in: a staged name goes to the entry
      it matches, or becomes a new one. */
  ghost function Merged(t: Target, s: Staged, at: Path): Target
    decreases s
  {
    match s
    case Missing => t
    case File(_) => File(Link(at))
    case Directory(_) =>
      if t.File? then t
      else
        var d := AsDirectory(t);
        Directory(map n | n in Names(d, s) ::
          if Matched(s, n) then Merged(Child(d, n), s.entries[CaseName(s, n)], at + [CaseName(s, n)]) else Child(d, n))
  }

  /** Nothing staged meets a thing of the other kind. A target that is a file is
      no obstacle only when nothing is staged. */
  ghost predicate Deployable(t: Target, s: Staged)
    decreases s
  {
    s.Directory? ==>
      && (t.File? ==> s.entries == map[])
      && var d := AsDirectory(t);
         forall m :: m in s.entries ==>
           Fits(Child(d, CaseName(d, m)), s.entries[m]) && Deployable(Child(d, CaseName(d, m)), s.entries[m])
  }

  predicate Fits(t: Target, s: Staged) {
    && (s.File? ==> !t.Directory?)
    && (s.Directory? ==> !t.File?)
  }

  /** Some of the staged entries. */
  function Only(s: Staged, names: set<Name>): Staged {
    Directory(map n | n in Entries(s) && n in names :: Entries(s)[n])
  }

  /** The same name matches after a part of the merge, at the same entry. */
  lemma {:induction false} SameMatch(t: Target, s: Staged, at: Path, done: set<Name>, m: Name)
    requires !t.File? && Distinct(t) && Distinct(s) && s.Directory? && m in s.entries && m !in done
    ensures var so := Merged(t, Only(s, done), at);
            && CaseName(so, m) == CaseName(t, m)
            && (forall k :: k in Entries(so) && Fold(k) == Fold(m) ==> k == CaseName(t, m))
            && Child(so, CaseName(t, m)) == Child(t, CaseName(t, m))
  {
    var part := Only(s, done);
    var so, r := Merged(t, part, at), CaseName(t, m);
    assert !Matched(part, m) && !Matched(part, r);
    forall k | k in Entries(so) && Fold(k) == Fold(m) ensures k == r {
      if k in Entries(t) {
        assert Matched(t, m);
      }
    }
    if Matched(t, m) {
      assert r in Entries(so);
    }
  }

  /** The other entries, when one more is staged. */
  lemma {:induction false} OtherEntry(t: Target, s: Staged, at: Path, done: set<Name>, m: Name, n: Name)
    requires !t.File? && Distinct(t) && Distinct(s) && s.Directory? && m in s.entries && m !in done
    requires n in Names(t, Only(s, done)) && n != CaseName(t, m)
    ensures Merged(t, Only(s, done + {m}), at).entries[n] == Merged(t, Only(s, done), at).entries[n]
  {
    var part, more := Only(s, done), Only(s, done + {m});
    if n in Entries(t) && Fold(n) == Fold(m) {
      assert false;
    }
    assert forall k :: k in more.entries && Fold(k) == Fold(n) ==> k in part.entries;
    assert Matched(more, n) <==> Matched(part, n);
  }

  lemma {:induction false} MoreNames(t: Target, s: Staged, done: set<Name>, m: Name)
    requires s.Directory? && m in s.entries
    ensures Names(t, Only(s, done + {m})) == Names(t, Only(s, done)) + {CaseName(t, m)}
  {
  }

  lemma {:induction false} NewEntry(t: Target, s: Staged, at: Path, done: set<Name>, m: Name)
    requires !t.File? && Distinct(t) && Distinct(s) && s.Directory? && m in s.entries && m in done
    ensures var now, r := Merged(t, Only(s, done), at), CaseName(t, m);
            r in now.entries && now.entries[r] == Merged(Child(t, r), s.entries[m], at + [m])
  {
    var more, r := Only(s, done), CaseName(t, m);
    assert m in more.entries && Matched(more, r) && CaseName(more, r) == m;
  }

  lemma {:induction false} MergedNames(t: Target, s: Staged, at: Path)
    requires !t.File? && s.Directory?
    ensures Merged(t, s, at).Directory? && Merged(t, s, at).entries.Keys == Names(t, s)
  {
  }

  /** One more staged entry. */
  lemma {:induction false} OneMore(t: Target, s: Staged, at: Path, done: set<Name>, m: Name)
    requires !t.File? && Distinct(t) && Distinct(s) && s.Directory? && m in s.entries && m !in done
    ensures var so, r := Merged(t, Only(s, done), at), CaseName(t, m);
            Merged(t, Only(s, done + {m}), at).entries == so.entries[r := Merged(Child(t, r), s.entries[m], at + [m])]
  {
    hide Matched, CaseName, Names, Distinct, Merged;
    var r := CaseName(t, m);
    MergedNames(t, Only(s, done), at);
    MergedNames(t, Only(s, done + {m}), at);
    MoreNames(t, s, done, m);
    NewEntry(t, s, at, done + {m}, m);
    forall n | n in Names(t, Only(s, done)) && n != r
      ensures Merged(t, Only(s, done + {m}), at).entries[n] == Merged(t, Only(s, done), at).entries[n]
    {
      OtherEntry(t, s, at, done, m, n);
    }
  }

  lemma {:induction false} MergedNone(t: Target, s: Staged, at: Path)
    ensures !t.Missing? ==> Merged(t, Only(s, {}), at) == t
  {
    if t.Directory? {
      assert Names(t, Only(s, {})) == t.entries.Keys;
      assert Merged(t, Only(s, {}), at).entries == t.entries;
    }
  }

  /** A missing target is as good as an empty one. */
  lemma {:induction false} MergedEmpty(s: Staged, at: Path)
    requires s.Directory?
    ensures Merged(Missing, s, at) == Merged(Directory(map[]), s, at)
    ensures Deployable(Missing, s) == Deployable(Directory(map[]), s)
  {
    var none: Target, empty: Target := Missing, Directory(map[]);
    assert AsDirectory(none) == AsDirectory(empty);
  }

  // ---------- what the merge shows ----------

  lemma {:induction false} MergedEntry(t: Target, s: Staged, at: Path, m: Name)
    requires !t.File? && Distinct(t) && Distinct(s) && s.Directory? && m in s.entries
    ensures var so, r := Merged(t, s, at), CaseName(t, m);
            && CaseName(so, m) == r
            && Child(so, r) == Merged(Child(t, r), s.entries[m], at + [m])
  {
    var so, r := Merged(t, s, at), CaseName(t, m);
    assert Matched(s, r) && CaseName(s, r) == m;
    forall k | k in Entries(so) && Fold(k) == Fold(m) ensures k == r {
    }
    assert r in so.entries;
    assert Matched(so, m);
  }

  /** Every directory of the result stays free of names that differ in case. */
  lemma {:induction false} MergedNoSiblings(t: Target, s: Staged, at: Path)
    requires NoSiblings(t) && NoSiblings(s)
    ensures NoSiblings(Merged(t, s, at))
    ensures CaseFree(Merged(t, s, at))
    decreases s
  {
    if s.Directory? && !t.File? {
      var so := Merged(t, s, at);
      MergedDistinct(t, s, at);
      forall n | n in so.entries ensures NoSiblings(so.entries[n]) {
        if Matched(s, n) {
          MergedNoSiblings(Child(t, n), s.entries[CaseName(s, n)], at + [CaseName(s, n)]);
        }
      }
    }
    NoSiblingsMeans(Merged(t, s, at));
  }

  lemma {:induction false} MergedDistinct(t: Target, s: Staged, at: Path)
    requires Distinct(t) && Distinct(s) && s.Directory? && !t.File?
    ensures Distinct(Merged(t, s, at))
  {
  }

  lemma {:induction false} MergedWellFormed(t: Target, s: Staged, at: Path)
    requires WellFormed(t) && WellFormed(s)
    ensures WellFormed(Merged(t, s, at))
    ensures !s.Missing? ==> !Merged(t, s, at).Missing?
    decreases s
  {
    if s.Directory? && !t.File? {
      var so := Merged(t, s, at);
      forall n | n in so.entries ensures !so.entries[n].Missing? && WellFormed(so.entries[n]) {
        if Matched(s, n) {
          MergedWellFormed(Child(t, n), s.entries[CaseName(s, n)], at + [CaseName(s, n)]);
        }
      }
    }
  }

  lemma {:induction false} StagedEntry(t: Target, s: Staged, m: Name)
    requires NoSiblings(t) && NoSiblings(s) && Deployable(t, s) && s.Directory? && m in s.entries
    ensures !t.File? && Distinct(t) && Distinct(s)
    ensures var c := Child(t, CaseName(t, m));
            NoSiblings(c) && NoSiblings(s.entries[m]) && Deployable(c, s.entries[m]) && Fits(c, s.entries[m])
  {
  }

  lemma {:induction false} FoundHere(t: Target, s: Staged, at: Path)
    requires s.File?
    ensures CaseLookup(Merged(t, s, at), []) == File(Link(at))
  {
  }

  lemma {:induction false} FoundBelow<T>(t: Image<T>, p: Path)
    requires p != []
    ensures CaseLookup(t, p) == CaseLookup(Child(t, CaseName(t, p[0])), p[1..])
  {
  }

  /** The same, by folding. */
  predicate SameFold(p: Path, q: Path) {
    |p| == |q| && forall i :: 0 <= i < |p| ==> Fold(p[i]) == Fold(q[i])
  }

  /** Such spellings read the same. */
  lemma {:induction false} SpellingsRead<T>(t: Image<T>, p: Path, q: Path)
    requires NoSiblings(t) && SameSpelling(p, q)
    ensures CaseLookup(t, p) == CaseLookup(t, q)
  {
    SpellingMeans(p, q);
    FoldsRead(t, p, q);
  }

  lemma {:induction false} FoldsRead<T>(t: Image<T>, p: Path, q: Path)
    requires NoSiblings(t) && SameFold(p, q)
    ensures CaseLookup(t, p) == CaseLookup(t, q)
    decreases |p|
  {
    if p != [] {
      if Matched(t, p[0]) {
        FoldsRead(Child(t, CaseName(t, p[0])), p[1..], q[1..]);
      } else if |p| > 1 {
        CaseLookupMissing<T>(Missing, p[1..]);
        CaseLookupMissing<T>(Missing, q[1..]);
      }
    }
  }

  /** Each staged file is found, in any spelling of its path's case, as a link
      to its own place in the staged tree. */
  lemma {:induction false} StagedFound(t: Target, s: Staged, at: Path, p: Path, spelt: Path)
    requires NoSiblings(t) && NoSiblings(s) && Deployable(t, s) && Lookup(s, p).File?
    requires SameSpelling(p, spelt)
    ensures CaseLookup(Merged(t, s, at), spelt) == File(Link(at + p))
    ensures OnlyAt(Merged(t, s, at), spelt, File(Link(at + p)))
  {
    StagedFoundOwn(t, s, at, p);
    MergedNoSiblings(t, s, at);
    SpellingsRead(Merged(t, s, at), p, spelt);
    CaseLookupMeans(Merged(t, s, at), spelt);
  }

  lemma {:induction false} StagedFoundOwn(t: Target, s: Staged, at: Path, p: Path)
    requires NoSiblings(t) && NoSiblings(s) && Deployable(t, s) && Lookup(s, p).File?
    ensures CaseLookup(Merged(t, s, at), p) == File(Link(at + p))
    decreases |p|
  {
    hide Merged, Deployable, NoSiblings, CaseName, Matched, Distinct;
    if p == [] {
      assert at + p == at;
      FoundHere(t, s, at);
    } else {
      var m, rest := p[0], p[1..];
      LookupMissing<string>(rest);
      StagedEntry(t, s, m);
      MergedEntry(t, s, at, m);
      StagedFoundOwn(Child(t, CaseName(t, m)), s.entries[m], at + [m], rest);
      FoundBelow(Merged(t, s, at), p);
      assert at + [m] + rest == at + p;
    }
  }

  lemma {:induction false} CaseLookupMissing<T>(t: Image<T>, p: Path)
    requires !t.Directory? && p != []
    ensures CaseLookup(t, p) == Missing
    decreases |p|
  {
    if |p| > 1 {
      CaseLookupMissing<T>(Child(t, CaseName(t, p[0])), p[1..]);
    }
  }

  /** One entry of the result. */
  lemma {:induction false} EntryShows(t: Target, s: Staged, at: Path, n: Name)
    requires Distinct(t) && Distinct(s) && Deployable(t, s) && s.Directory? && !t.File?
    ensures var so, m := Merged(t, s, at), CaseName(s, n);
            if !Matched(s, n) then Child(so, n) == Child(t, n)
            else if CaseName(t, m) == n then
              && Child(so, n) == Merged(Child(t, n), s.entries[m], at + [m])
              && Deployable(Child(t, n), s.entries[m]) && Fits(Child(t, n), s.entries[m])
            else Child(so, n) == Missing && Child(t, n) == Missing
  {
    var so, m := Merged(t, s, at), CaseName(s, n);
    if Matched(s, n) {
      MergedEntry(t, s, at, m);
      if n in Entries(t) {
        assert CaseName(t, m) == n by {
          assert Matched(t, m);
        }
      }
    } else if n in Entries(s) {
      assert false;
    }
  }

  /** All that the result shows: a link where a file is staged, else what the
      target had; nothing of the target is lost. */
  lemma {:induction false} MergedShows(t: Target, s: Staged, at: Path, p: Path)
    requires NoSiblings(t) && NoSiblings(s) && Deployable(t, s) && Fits(t, s)
    ensures var so := Merged(t, s, at);
            && (Lookup(so, p).File? ==>
                  Lookup(so, p) == if CaseLookup(s, p).File? then File(Link(at + CasePath(s, p))) else Lookup(t, p))
            && (Lookup(t, p).File? ==> Lookup(so, p).File?)
            && (Lookup(t, p).Directory? ==> Lookup(so, p).Directory?)
    decreases |p|
  {
    if p == [] {
      assert at + [] == at;
    } else if s.Directory? {
      var n, rest := p[0], p[1..];
      var m := CaseName(s, n);
      EntryShows(t, s, at, n);
      LookupMissing<Item>(rest);
      if Matched(s, n) {
        assert at + CasePath(s, p) == at + [m] + CasePath(s.entries[m], rest);
        StagedEntry(t, s, m);
        if CaseName(t, m) == n {
          MergedShows(Child(t, n), s.entries[m], at + [m], rest);
        }
      } else {
        assert Child(s, m) == Missing;
        if rest != [] {
          CaseLookupMissing<string>(Missing, rest);
        }
      }
    } else {
      CaseLookupMissing(s, p);
      LookupMissing<Item>(p[1..]);
    }
  }

  /** Deploying the same tree again works out and changes nothing. */
  lemma {:induction false} MergedTwice(t: Target, s: Staged, at: Path)
    requires NoSiblings(t) && NoSiblings(s) && Deployable(t, s) && Fits(t, s)
    ensures Merged(Merged(t, s, at), s, at) == Merged(t, s, at)
    ensures Deployable(Merged(t, s, at), s) && Fits(Merged(t, s, at), s)
    decreases s
  {
    if s.Directory? {
      var so := Merged(t, s, at);
      MergedNoSiblings(t, s, at);
      MergedNames(t, s, at);
      forall m | m in s.entries ensures EntryFits(so, s, m) && EntryStays(so, s, at, m) {
        StagedEntry(t, s, m);
        MergedEntry(t, s, at, m);
        MergedTwice(Child(t, CaseName(t, m)), s.entries[m], at + [m]);
      }
      DeployableEntries(so, s);
      NothingNew(t, s, at);
      StaysMerged(so, s, at);
    }
  }

  lemma {:induction false} NothingNew(t: Target, s: Staged, at: Path)
    requires s.Directory? && !t.File?
    ensures Names(Merged(t, s, at), s) == Merged(t, s, at).entries.Keys
  {
  }

  /** This staged entry is already there. */
  ghost predicate EntryStays(t: Target, s: Staged, at: Path, m: Name)
    requires s.Directory? && m in s.entries
  {
    var c := Child(t, CaseName(t, m));
    Merged(c, s.entries[m], at + [m]) == c
  }

  lemma {:induction false} StaysMerged(t: Target, s: Staged, at: Path)
    requires t.Directory? && s.Directory? && Distinct(t) && Names(t, s) == t.entries.Keys
    requires forall m :: m in s.entries ==> EntryStays(t, s, at, m)
    ensures Merged(t, s, at) == t
  {
    forall n | n in t.entries && Matched(s, n)
      ensures Merged(Child(t, n), s.entries[CaseName(s, n)], at + [CaseName(s, n)]) == t.entries[n]
    {
      var m := CaseName(s, n);
      assert EntryStays(t, s, at, m);
      assert CaseName(t, m) == n by {
        assert Matched(t, m);
      }
    }
    assert Merged(t, s, at).entries == t.entries;
  }

  /** This staged entry meets nothing of the other kind. */
  ghost predicate EntryFits(t: Target, s: Staged, m: Name)
    requires s.Directory? && m in s.entries
  {
    var c := Child(t, CaseName(t, m));
    !t.File? && Fits(c, s.entries[m]) && Deployable(c, s.entries[m])
  }

  lemma {:induction false} DeployableEntries(t: Target, s: Staged)
    requires s.Directory?
    ensures Deployable(t, s) <==> forall m :: m in s.entries ==> EntryFits(t, s, m)
  {
    forall m | m in s.entries ensures CaseName(AsDirectory(t), m) == CaseName(t, m) && Child(AsDirectory(t), CaseName(t, m)) == Child(t, CaseName(t, m)) {
      AsDirectorySame(t, m);
      AsDirectorySame(t, CaseName(t, m));
    }
  }

  /** What deployable means: wherever a staged file would go there is no
      directory, and wherever a staged directory would go there is no file. */
  lemma {:induction false} DeployableMeans(t: Target, s: Staged, p: Path)
    requires Deployable(t, s) && Fits(t, s)
    ensures Fits(CaseLookup(t, p), Lookup(s, p))
    decreases |p|
  {
    if p != [] {
      LookupMissing<string>(p[1..]);
      if s.Directory? && p[0] in s.entries {
        DeployableMeans(Child(t, CaseName(t, p[0])), s.entries[p[0]], p[1..]);
      }
    }
  }

  lemma {:induction false} DeployableIf(t: Target, s: Staged)
    requires forall p: Path :: Fits(CaseLookup(t, p), Lookup(s, p))
    ensures Deployable(t, s) && Fits(t, s)
    decreases s
  {
    assert Fits(CaseLookup(t, []), Lookup(s, []));
    if s.Directory? {
      forall m | m in s.entries
        ensures Fits(Child(t, CaseName(t, m)), s.entries[m]) && Deployable(Child(t, CaseName(t, m)), s.entries[m])
      {
        forall p: Path ensures Fits(CaseLookup(Child(t, CaseName(t, m)), p), Lookup(s.entries[m], p)) {
          assert Fits(CaseLookup(t, [m] + p), Lookup(s, [m] + p));
          assert ([m] + p)[1..] == p;
        }
        DeployableIf(Child(t, CaseName(t, m)), s.entries[m]);
      }
    }
  }

  // ---------- deploying ----------

  /** A directory's names, in whatever order the file system lists them. */
  method ReadDir<T>(t: Image<T>) returns (names: seq<Name>)
    ensures forall n :: n in names <==> n in Entries(t)
    ensures forall i, j :: 0 <= i < j < |names| ==> names[i] != names[j]
  {
    names := [];
    var rest := Entries(t).Keys;
    while rest != {}
      invariant forall n :: n in Entries(t) <==> n in names || n in rest
      invariant forall i :: 0 <= i < |names| ==> names[i] !in rest
      invariant forall i, j :: 0 <= i < j < |names| ==> names[i] != names[j]
    {
      var n :| n in rest;
      names := names + [n];
      rest := rest - {n};
    }
  }

  /** A place below `p` in a tree that has a directory at `p`. */
  lemma {:induction false} ReplaceBelow<T>(t: Image<T>, p: Path, i: Image<T>, n: Name, x: Image<T>)
    requires HasParent(t, p) && i.Directory?
    ensures Replace(Replace(t, p, i), p + [n], x) == Replace(t, p, WithChild(i, n, x))
    ensures HasParent(Replace(t, p, i), p + [n])
    decreases |p|
  {
    if p == [] {
      assert p + [n] == [n];
      assert [n][1..] == [];
    } else {
      assert (p + [n])[1..] == p[1..] + [n] && (p + [n])[0] == p[0];
      var c := Child(t, p[0]);
      ReplaceBelow(c, p[1..], i, n, x);
      ReplaceChild(t, p, i, p[0]);
      WithChildTwice(t, p[0], Replace(c, p[1..], i), Replace(Replace(c, p[1..], i), p[1..] + [n], x));
    }
  }

  lemma {:induction false} ReadBelow<T>(t: Image<T>, p: Path, n: Name)
    ensures Lookup(t, p + [n]) == Child(Lookup(t, p), n)
    ensures HasParent(t, p + [n]) <==> Lookup(t, p).Directory?
  {
    LookupConcat(t, p, [n]);
    ParentDirectory(t, p + [n]);
    assert (p + [n])[..|p|] == p;
  }

  /** `create_dir_all` with the parent there. */
  lemma {:induction false} WithDirsHere<T>(t: Image<T>, p: Path)
    requires HasParent(t, p)
    ensures Open(t, p) <==> !Lookup(t, p).File?
    ensures Lookup(t, p).Missing? ==> WithDirs(t, p) == Replace(t, p, Directory(map[]))
    ensures Lookup(t, p).Directory? ==> WithDirs(t, p) == t
    decreases |p|
  {
    if p != [] {
      WithDirsHere(Child(t, p[0]), p[1..]);
      if Child(t, p[0]).Missing? {
        LookupMissing<T>(p[1..]);
      }
    }
  }

  datatype Component = Normal(name: Name) | CurDir

  function Normals(relative: seq<Component>): Path {
    if relative == [] then []
    else Normals(relative[..|relative| - 1]) +
         if relative[|relative| - 1].Normal? then [relative[|relative| - 1].name] else []
  }

  /** The names of the normal components in their order, and nothing else. */
  lemma {:induction false} NormalsMean(a: seq<Component>, c: Component, b: seq<Component>)
    ensures Normals(a + [c] + b) == Normals(a) + (if c.Normal? then [c.name] else []) + Normals(b)
    ensures Normals([]) == []
    decreases |b|
  {
    if b == [] {
      assert (a + [c] + b)[..|a|] == a && (a + [c] + b)[|a|] == c && |a + [c] + b| == |a| + 1;
    } else {
      var n := |b| - 1;
      var whole := a + [c] + b;
      assert whole[..|whole| - 1] == a + [c] + b[..n] && whole[|whole| - 1] == b[n];
      NormalsMean(a, c, b[..n]);
    }
  }

  lemma {:induction false} CasePathMore<T>(t: Image<T>, p: Path, n: Name)
    ensures CasePath(t, p + [n]) == CasePath(t, p) + [CaseName(Lookup(t, CasePath(t, p)), n)]
    decreases |p|
  {
    if p == [] {
      assert p + [n] == [n];
    } else {
      var r := CaseName(t, p[0]);
      CasePathMore(Child(t, r), p[1..], n);
      assert (p + [n])[1..] == p[1..] + [n];
    }
  }

  /** `r` is a path that matching the names `p` one by one can come to: each the
      name of an entry that matches, if there is any, or the name as it is. */
  ghost predicate Follows<T>(t: Image<T>, p: Path, r: Path)
    decreases |p|
  {
    |r| == |p| &&
    (p == [] ||
      (Matches(t, p[0], r[0]) && Follows(Child(t, r[0]), p[1..], r[1..])))
  }

  predicate Matches<T>(t: Image<T>, n: Name, r: Name) {
    Fold(r) == Fold(n) && if Matched(t, n) then r in Entries(t) else r == n
  }

  lemma {:induction false} FollowsMore<T>(t: Image<T>, p: Path, r: Path, n: Name, m: Name)
    requires Follows(t, p, r) && Matches(Lookup(t, r), n, m)
    ensures Follows(t, p + [n], r + [m])
    decreases |p|
  {
    if p == [] {
      assert p + [n] == [n] && r + [m] == [m];
    } else {
      FollowsMore(Child(t, r[0]), p[1..], r[1..], n, m);
      assert (p + [n])[1..] == p[1..] + [n] && (r + [m])[1..] == r[1..] + [m];
    }
  }

  /** With no siblings that differ in case there is only one. */
  lemma {:induction false} FollowsOne<T>(t: Image<T>, p: Path, r: Path)
    requires NoSiblings(t) && Follows(t, p, r)
    ensures r == CasePath(t, p)
    decreases |p|
  {
    if p != [] {
      assert r[0] == CaseName(t, p[0]);
      FollowsOne(Child(t, r[0]), p[1..], r[1..]);
      assert r == [r[0]] + r[1..];
    }
  }

  class Deployer {
    var tree: Target

    constructor (tree: Target)
      ensures this.tree == tree
    {
      this.tree := tree;
    }

    /** `case_match_child`: the first entry listed that matches, or the name as
        it is. */
    method CaseMatchChild(parent: Path, name: Name) returns (n: Name)
      ensures Matches(Lookup(tree, parent), name, n)
      ensures if exists m :: m in Entries(Lookup(tree, parent)) && SameName(m, name)
              then n in Entries(Lookup(tree, parent)) && SameName(n, name) else n == name
    {
      forall m ensures SameName(m, name) <==> Fold(m) == Fold(name) {
        FoldMeans(m, name);
      }
      var d := Lookup(tree, parent);
      if d.Directory? {
        var listing := ReadDir(d);
        var i := 0;
        while i < |listing|
          invariant 0 <= i <= |listing|
          invariant forall j :: 0 <= j < i ==> Fold(listing[j]) != Fold(name)
        {
          if Fold(listing[i]) == Fold(name) {
            return listing[i];
          }
          i := i + 1;
        }
      }
      n := name;
    }

    /** `case_match_path`: each name matched in turn; with no siblings that differ
        in case, the path that is read without regard to case. */
    method CaseMatchPath(root: Path, relative: seq<Component>) returns (resolved: Path)
      ensures root <= resolved && Follows(Lookup(tree, root), Normals(relative), resolved[|root|..])
      ensures NoSiblings(Lookup(tree, root)) ==> resolved == root + CasePath(Lookup(tree, root), Normals(relative))
    {
      resolved := root;
      var i := 0;
      ghost var d := Lookup(tree, root);
      while i < |relative|
        invariant 0 <= i <= |relative|
        invariant root <= resolved && Follows(d, Normals(relative[..i]), resolved[|root|..])
      {
        assert relative[..i + 1][..i] == relative[..i];
        if relative[i].Normal? {
          ghost var so := resolved[|root|..];
          assert root + so == resolved;
          LookupConcat(tree, root, so);
          var n := CaseMatchChild(resolved, relative[i].name);
          FollowsMore(d, Normals(relative[..i]), so, relative[i].name, n);
          resolved := resolved + [n];
          assert resolved[|root|..] == so + [n];
        } else {
          assert Normals(relative[..i]) + [] == Normals(relative[..i]);
        }
        i := i + 1;
      }
      assert relative[..i] == relative;
      assert root + resolved[|root|..] == resolved;
      if NoSiblings(d) {
        FollowsOne(d, Normals(relative), resolved[|root|..]);
      }
    }

    method CreateDirAll(p: Path) returns (ok: bool)
      modifies this
      ensures ok == Open(old(tree), p)
      ensures tree == if ok then WithDirs(old(tree), p) else old(tree)
    {
      ok := Open(tree, p);
      if ok {
        tree := WithDirs(tree, p);
      }
    }

    /** Fails for a directory. */
    method RemoveFile(p: Path) returns (ok: bool)
      modifies this
      ensures ok == Lookup(old(tree), p).File?
      ensures tree == if ok then Replace(old(tree), p, Missing) else old(tree)
    {
      ok := Lookup(tree, p).File?;
      if ok {
        tree := Replace(tree, p, Missing);
      }
    }

    /** Fails if the name is taken or its directory is not there. */
    method Symlink(source: Path, p: Path) returns (ok: bool)
      modifies this
      ensures ok == (HasParent(old(tree), p) && Lookup(old(tree), p).Missing?)
      ensures tree == if ok then Replace(old(tree), p, File(Link(source))) else old(tree)
    {
      ok := HasParent(tree, p) && Lookup(tree, p).Missing?;
      if ok {
        tree := Replace(tree, p, File(Link(source)));
      }
    }

    /** `deploy_symlinks`: the staged tree at `at` into the target at `dst`,
        up to the first entry that fails. Whatever names there are, and whether
        it works out or not, a file is afterwards what it was, or a link to a
        staged file whose path it matches. Unless staged files clash, it works
        out exactly if nothing staged meets a thing of the other kind, and then
        shows all that is staged. Without names that differ only in case, to what
        tree is determined. */
    method DeploySymlinks(src: Staged, at: Path, dst: Path) returns (ok: bool)
      requires WellFormed(src) && WellFormed(tree)
      modifies this
      ensures WellFormed(tree) && Spared(old(tree), tree, src, at, dst)
      ensures NoSiblings(src) && NoSiblings(Lookup(old(tree), dst)) ==>
                && ok == (src.Directory? && Deploys(old(tree), dst, src))
                && (ok ==> tree == Deployed(old(tree), dst, src, at))
      ensures ClashFree(src, at) && NoSiblings(Lookup(old(tree), dst)) ==>
                && ok == (src.Directory? && (Lookup(old(tree), dst).Missing? ==> Open(old(tree), dst)) && Clear(Lookup(old(tree), dst), src))
                && (ok ==> Landed(Made(old(tree), dst), tree, dst, src, at))
      decreases src, 1, 0
    {
      ghost var start := tree;
      if Lookup(tree, dst).Missing? {
        ok := CreateDirAll(dst);
        DirsSpared(start, src, at, dst, dst);
        if !ok {
          return;
        }
      }
      if !src.Directory? {
        NothingDone(start, dst, src, at);
        return false;
      }
      if NoSiblings(src) && NoSiblings(Lookup(start, dst)) {
        Started(start, dst, src, at);
      }
      if ClashFree(src, at) && NoSiblings(Lookup(start, dst)) {
        TidyStart(start, dst, src, at);
      }
      ghost var base := tree;
      ok := DeployEntries(src, at, dst);
      SparedTwice(start, base, tree, src, at, dst);
    }

    /** Entry by entry, as they are listed. */
    method DeployEntries(src: Staged, at: Path, dst: Path) returns (ok: bool)
      requires src.Directory? && WellFormed(src) && WellFormed(tree)
      modifies this
      ensures WellFormed(tree) && Spared(old(tree), tree, src, at, dst)
      ensures Tidy(old(tree), dst, src, at) ==>
                ok == Clear(Lookup(old(tree), dst), src) && (ok ==> Landed(old(tree), tree, dst, src, at))
      ensures Ready(old(tree), dst, src) ==>
                && ok == Deployable(Lookup(old(tree), dst), src)
                && (ok ==> tree == Replace(old(tree), dst, Merged(Lookup(old(tree), dst), src, at)))
      decreases src, 0, 2
    {
      hide Merged, Deployable, NoSiblings, WellFormed, EntryFits, Matched, Distinct, CaseName, Only, WithEntry, Ready, Spared, Tidy, Landed, Clear, OneClear;
      ghost var base := tree;
      var listing := ReadDir(src);
      ghost var done: set<Name> := {};
      var i := 0;
      NothingDone(base, dst, src, at);
      NothingLanded(base, dst, src, at);
      while i < |listing|
        invariant 0 <= i <= |listing|
        invariant done == set n | n in listing[..i]
        invariant WellFormed(tree) && Spared(base, tree, src, at, dst)
        invariant Ready(base, dst, src) ==> forall n :: n in done ==> n in src.entries && EntryFits(Lookup(base, dst), src, n)
        invariant Tidy(base, dst, src, at) ==>
                    Landed(base, tree, dst, Only(src, done), at) && (done != {} ==> OneClear(Lookup(base, dst), src, done))
        invariant Ready(base, dst, src) ==> tree == Replace(base, dst, Merged(Lookup(base, dst), Only(src, done), at))
      {
        var m := listing[i];
        assert m in listing;
        if Ready(base, dst, src) {
          SoFar(base, dst, src, at, done);
        }
        ghost var before := tree;
        if Tidy(base, dst, src, at) {
          StillTidy(base, tree, dst, src, at, done);
        }
        ok := DeployEntry(src, m, at, dst);
        SparedTwice(base, before, tree, src, at, dst);
        if !ok {
          if Ready(base, dst, src) {
            EntryFailed(base, dst, src, at, done, m);
          }
          if Tidy(base, dst, src, at) {
            OneFailed(base, before, dst, src, at, done, m);
          }
          return;
        }
        if Ready(base, dst, src) {
          EntryDone(base, dst, src, at, done, m);
        }
        if Tidy(base, dst, src, at) {
          OneLanded(base, before, tree, dst, src, at, done, m);
        }
        done := done + {m};
        i := i + 1;
      }
      assert listing[..i] == listing;
      OnlyAll(src, done);
      if Tidy(base, dst, src, at) {
        AllClear(base, dst, src, done);
      }
      DeployableEntries(Lookup(base, dst), src);
      ok := true;
    }

    method DeployEntry(src: Staged, m: Name, at: Path, dst: Path) returns (ok: bool)
      requires src.Directory? && m in src.entries && WellFormed(src) && WellFormed(tree)
      modifies this
      ensures WellFormed(tree) && Spared(old(tree), tree, src, at, dst)
      ensures Tidy(old(tree), dst, src, at) ==>
                ok == OneClear(Lookup(old(tree), dst), src, {m}) && (ok ==> Landed(old(tree), tree, dst, Only(src, {m}), at))
      ensures Ready(old(tree), dst, src) ==>
                && ok == EntryFits(Lookup(old(tree), dst), src, m)
                && (ok ==> tree == WithEntry(old(tree), dst, src, at, m))
      decreases src, 0, 1
    {
      var path := CaseMatchPath(dst, [Normal(m)]);
      OneComponent(Lookup(tree, dst), m, path[|dst|..]);
      if src.entries[m].Directory? {
        ok := PlaceDirectory(src, m, at, dst, path[|dst|]);
      } else {
        ok := PlaceLink(src, m, at, dst, path[|dst|]);
      }
    }

    /** A staged directory: made if it is not there, then deployed into. */
    method PlaceDirectory(src: Staged, m: Name, at: Path, dst: Path, n: Name) returns (ok: bool)
      requires src.Directory? && m in src.entries && WellFormed(src) && WellFormed(tree)
      requires src.entries[m].Directory? && Matches(Lookup(tree, dst), m, n)
      modifies this
      ensures WellFormed(tree) && Spared(old(tree), tree, src, at, dst)
      ensures Tidy(old(tree), dst, src, at) ==>
                ok == OneClear(Lookup(old(tree), dst), src, {m}) && (ok ==> Landed(old(tree), tree, dst, Only(src, {m}), at))
      ensures Ready(old(tree), dst, src) ==>
                && ok == EntryFits(Lookup(old(tree), dst), src, m)
                && (ok ==> tree == WithEntry(old(tree), dst, src, at, m))
      decreases src, 0, 0
    {
      ghost var start := tree;
      var path := dst + [n];
      if Ready(start, dst, src) {
        assert n == CaseName(Lookup(start, dst), m);
        EntryDirectory(start, dst, src, at, m);
      }
      if Tidy(start, dst, src, at) {
        assert n == CaseName(Lookup(start, dst), m);
        DirectoryTidy(start, dst, src, at, m);
      }
      DirsSpared(start, src, at, dst, path);
      ok := CreateDirAll(path);
      if !ok {
        return;
      }
      ghost var made := tree;
      ok := DeploySymlinks(src.entries[m], at + [m], path);
      if ok && Tidy(start, dst, src, at) {
        DirectoryLanded(start, made, tree, dst, src, at, m);
      }
      SparedInside(made, tree, src, at, dst, m, n);
      SparedTwice(start, made, tree, src, at, dst);
    }

    /** A staged file: what is there is removed if it is a file, then linked. */
    method PlaceLink(src: Staged, m: Name, at: Path, dst: Path, n: Name) returns (ok: bool)
      requires src.Directory? && m in src.entries && WellFormed(src) && WellFormed(tree)
      requires src.entries[m].File? && Matches(Lookup(tree, dst), m, n)
      modifies this
      ensures WellFormed(tree) && Spared(old(tree), tree, src, at, dst)
      ensures Tidy(old(tree), dst, src, at) ==>
                ok == OneClear(Lookup(old(tree), dst), src, {m}) && (ok ==> Landed(old(tree), tree, dst, Only(src, {m}), at))
      ensures Ready(old(tree), dst, src) ==>
                && ok == EntryFits(Lookup(old(tree), dst), src, m)
                && (ok ==> tree == WithEntry(old(tree), dst, src, at, m))
    {
      ghost var start := tree;
      var path := dst + [n];
      if Ready(start, dst, src) {
        assert n == CaseName(Lookup(start, dst), m);
        EntryFile(start, dst, src, at, m);
      }
      if Tidy(start, dst, src, at) {
        assert n == CaseName(Lookup(start, dst), m);
        LinkLanded(start, dst, src, at, m);
      }
      LinkSpared(start, src, at, dst, m, n);
      if !Lookup(tree, path).Missing? {
        ok := RemoveFile(path);
        if !ok {
          return;
        }
      }
      ok := Symlink(at + [m], path);
    }
  }

  /** Whether a deployment works out, and what it leaves. */
  ghost predicate Deploys(t: Target, dst: Path, s: Staged) {
    (Lookup(t, dst).Missing? ==> Open(t, dst)) && Deployable(Lookup(t, dst), s)
  }

  function Made(t: Target, dst: Path): Target {
    if Lookup(t, dst).Missing? then WithDirs(t, dst) else t
  }

  ghost function Deployed(t: Target, dst: Path, s: Staged, at: Path): Target {
    Replace(Made(t, dst), dst, Merged(Lookup(t, dst), s, at))
  }

  ghost function WithEntry(t: Target, dst: Path, s: Staged, at: Path, m: Name): Target
    requires s.Directory? && m in s.entries
  {
    var there := Lookup(t, dst);
    var r := CaseName(there, m);
    Replace(t, dst + [r], Merged(Child(there, r), s.entries[m], at + [m]))
  }

  /** A target to deploy to, its own directory made. */
  ghost predicate Ready(base: Target, dst: Path, src: Staged) {
    && WellFormed(base) && HasParent(base, dst)
    && !Lookup(base, dst).Missing? && NoSiblings(Lookup(base, dst))
    && src.Directory? && WellFormed(src) && NoSiblings(src)
  }

  lemma {:induction false} Started(start: Target, dst: Path, src: Staged, at: Path)
    requires Lookup(start, dst).Missing? ==> Open(start, dst)
    requires WellFormed(start) && NoSiblings(Lookup(start, dst))
    requires src.Directory? && WellFormed(src) && NoSiblings(src)
    ensures var base := Made(start, dst); var there := Lookup(base, dst);
            && Ready(base, dst, src)
            && Deployable(there, src) == Deployable(Lookup(start, dst), src)
            && Merged(there, src, at) == Merged(Lookup(start, dst), src, at)
  {
    var base := Made(start, dst);
    if Lookup(start, dst).Missing? {
      WithDirsEmpty(start, dst);
      WithDirsSound(start, dst);
      MergedEmpty(src, at);
    } else {
      PresentHasParent(start, dst);
    }
  }

  lemma {:induction false} NothingDone(base: Target, dst: Path, src: Staged, at: Path)
    ensures Spared(base, base, src, at, dst)
    ensures Ready(base, dst, src) ==> Replace(base, dst, Merged(Lookup(base, dst), Only(src, {}), at)) == base
  {
    if Ready(base, dst, src) {
      MergedNone(Lookup(base, dst), src, at);
      ReplaceSelf(base, dst);
    }
  }

  lemma {:induction false} OnlyAll(s: Staged, names: set<Name>)
    requires s.Directory? && forall n :: n in s.entries ==> n in names
    ensures Only(s, names) == s
  {
    assert Only(s, names).entries == s.entries;
  }

  lemma {:induction false} OnlySound(s: Staged, names: set<Name>)
    requires WellFormed(s) && NoSiblings(s)
    ensures WellFormed(Only(s, names)) && NoSiblings(Only(s, names))
  {
  }

  lemma {:induction false} SoFar(base: Target, dst: Path, src: Staged, at: Path, done: set<Name>)
    requires Ready(base, dst, src)
    ensures var so := Merged(Lookup(base, dst), Only(src, done), at);
            var now := Replace(base, dst, so);
            Ready(now, dst, src) && Lookup(now, dst) == so
  {
    var there := Lookup(base, dst);
    OnlySound(src, done);
    LookupWellFormed(base, dst);
    MergedWellFormed(there, Only(src, done), at);
    MergedNoSiblings(there, Only(src, done), at);
    LookupReplaceSame(base, dst, Merged(there, Only(src, done), at));
    ReplaceWellFormed(base, dst, Merged(there, Only(src, done), at));
    ReplaceHasParent(base, dst, Merged(there, Only(src, done), at));
  }

  /** An entry fits the target as it was exactly when it fits it as it is by now. */
  lemma {:induction false} SameFits(t: Target, s: Staged, at: Path, done: set<Name>, m: Name)
    requires Distinct(t) && Distinct(s) && s.Directory? && m in s.entries && m !in done
    ensures EntryFits(Merged(t, Only(s, done), at), s, m) == EntryFits(t, s, m)
  {
    if !t.File? {
      SameMatch(t, s, at, done, m);
    }
  }

  lemma {:induction false} EntryFailed(base: Target, dst: Path, src: Staged, at: Path, done: set<Name>, m: Name)
    requires Ready(base, dst, src) && m in src.entries && m !in done
    requires !EntryFits(Merged(Lookup(base, dst), Only(src, done), at), src, m)
    ensures !Deployable(Lookup(base, dst), src)
  {
    SameFits(Lookup(base, dst), src, at, done, m);
    DeployableEntries(Lookup(base, dst), src);
  }

  lemma {:induction false} EntryDone(base: Target, dst: Path, src: Staged, at: Path, done: set<Name>, m: Name)
    requires Ready(base, dst, src) && m in src.entries && m !in done
    requires EntryFits(Merged(Lookup(base, dst), Only(src, done), at), src, m)
    ensures var there := Lookup(base, dst);
            && there.Directory? && EntryFits(there, src, m)
            && WithEntry(Replace(base, dst, Merged(there, Only(src, done), at)), dst, src, at, m)
               == Replace(base, dst, Merged(there, Only(src, done + {m}), at))
  {
    var there := Lookup(base, dst);
    var so, r := Merged(there, Only(src, done), at), CaseName(there, m);
    SameFits(there, src, at, done, m);
    SameMatch(there, src, at, done, m);
    LookupReplaceSame(base, dst, so);
    MergedNames(there, Only(src, done), at);
    MergedNames(there, Only(src, done + {m}), at);
    OneMore(there, src, at, done, m);
    LookupWellFormed(base, dst);
    MergedWellFormed(Child(there, r), src.entries[m], at + [m]);
    ReplaceBelow(base, dst, so, r, Merged(Child(there, r), src.entries[m], at + [m]));
  }

  /** A staged directory: made if it is not there, then deployed into. */
  lemma {:induction false} EntryDirectory(start: Target, dst: Path, src: Staged, at: Path, m: Name)
    requires Ready(start, dst, src) && m in src.entries && src.entries[m].Directory?
    ensures var there := Lookup(start, dst);
            var r := CaseName(there, m);
            var made := WithDirs(start, dst + [r]);
            && (Open(start, dst + [r]) <==> !there.File? && Fits(Child(there, r), src.entries[m]))
            && (Open(start, dst + [r]) ==>
                 && WellFormed(made) && NoSiblings(Lookup(made, dst + [r])) && !Lookup(made, dst + [r]).Missing?
                 && Deploys(made, dst + [r], src.entries[m]) == EntryFits(there, src, m)
                 && Deployed(made, dst + [r], src.entries[m], at + [m]) == WithEntry(start, dst, src, at, m))
  {
    var there := Lookup(start, dst);
    var r := CaseName(there, m);
    var p := dst + [r];
    var s := src.entries[m];
    ReadBelow(start, dst, r);
    if there.File? {
      NotOpenBelowFile(start, dst, p);
    } else {
      WithDirsHere(start, p);
      LookupNoSiblings(there, [r]);
      if Child(there, r).Missing? {
        WithDirsEmpty(start, p);
        WithDirsSound(start, p);
        MergedEmpty(s, at + [m]);
        ReplaceTwice(start, p, Directory(map[]), Merged(Missing, s, at + [m]));
      }
    }
  }

  /** A staged file: what is there is removed if it is a file, then linked. */
  lemma {:induction false} EntryFile(start: Target, dst: Path, src: Staged, at: Path, m: Name)
    requires Ready(start, dst, src) && m in src.entries && src.entries[m].File?
    ensures var there := Lookup(start, dst);
            var r := CaseName(there, m);
            var p := dst + [r];
            var cleared := Replace(start, p, Missing);
            && WithEntry(start, dst, src, at, m) == Replace(start, p, File(Link(at + [m])))
            && (Lookup(start, p).Missing? ==> HasParent(start, p) == EntryFits(there, src, m))
            && (Lookup(start, p).Directory? ==> !EntryFits(there, src, m))
            && (Lookup(start, p).File? ==>
                 && EntryFits(there, src, m) && HasParent(cleared, p) && Lookup(cleared, p).Missing?
                 && Replace(cleared, p, File(Link(at + [m]))) == WithEntry(start, dst, src, at, m))
  {
    var there := Lookup(start, dst);
    var r := CaseName(there, m);
    var p := dst + [r];
    ReadBelow(start, dst, r);
    if Lookup(start, p).File? {
      ReplaceHasParent(start, p, Missing);
      LookupReplaceSame(start, p, Missing);
      ReplaceTwice(start, p, Missing, File(Link(at + [m])));
    }
  }

  lemma {:induction false} OneComponent(t: Target, m: Name, r: Path)
    requires Follows(t, Normals([Normal(m)]), r)
    ensures |r| == 1 && Matches(t, m, r[0])
  {
    assert Normals([Normal(m)]) == [m];
  }

  // ---------- what every deployment leaves alone ----------

  /** A link to a staged file whose path is the same, but for case. */
  ghost predicate LinksTo(s: Staged, at: Path, p: Path, c: Option<Item>)
    decreases |p|
  {
    if p == [] then s.File? && c == Some(Link(at))
    else exists m :: m in Entries(s) && Fold(m) == Fold(p[0]) && LinksTo(Entries(s)[m], at + [m], p[1..], c)
  }

  /** What `LinksTo` says, path by path. */
  lemma {:induction false} LinksToMeans(s: Staged, at: Path, p: Path, c: Option<Item>)
    requires LinksTo(s, at, p, c)
    ensures exists q :: SameSpelling(q, p) && Lookup(s, q).File? && c == Some(Link(at + q))
  {
    LinksToFolds(s, at, p, c);
    var q :| SameFold(q, p) && Lookup(s, q).File? && c == Some(Link(at + q));
    SpellingMeans(q, p);
  }

  lemma {:induction false} LinksToFolds(s: Staged, at: Path, p: Path, c: Option<Item>)
    requires LinksTo(s, at, p, c)
    ensures exists q :: SameFold(q, p) && Lookup(s, q).File? && c == Some(Link(at + q))
    decreases |p|
  {
    hide SameFold, Fold;
    if p == [] {
      assert at + [] == at;
      SameFoldEmpty();
      assert Lookup(s, []).File?;
    } else {
      var m :| m in Entries(s) && Fold(m) == Fold(p[0]) && LinksTo(Entries(s)[m], at + [m], p[1..], c);
      LinksToFolds(Entries(s)[m], at + [m], p[1..], c);
      var rest :| SameFold(rest, p[1..]) && Lookup(Entries(s)[m], rest).File? && c == Some(Link(at + [m] + rest));
      BelowEntry(s, at, m, rest, p);
    }
  }

  lemma {:induction false} SameFoldEmpty()
    ensures SameFold([], [])
  {
  }

  lemma {:induction false} BelowEntry(s: Staged, at: Path, m: Name, rest: Path, p: Path)
    requires p != [] && m in Entries(s) && Fold(m) == Fold(p[0])
    requires SameFold(rest, p[1..]) && Lookup(Entries(s)[m], rest).File?
    ensures SameFold([m] + rest, p) && Lookup(s, [m] + rest).File? && at + [m] + rest == at + ([m] + rest)
  {
    assert ([m] + rest)[1..] == rest;
  }

  /** Every file is what it was, or such a link. */
  ghost predicate Spared(before: Target, after: Target, s: Staged, at: Path, dst: Path) {
    forall q: Path :: SparedAt(before, after, s, at, dst, q)
  }

  ghost predicate SparedAt(before: Target, after: Target, s: Staged, at: Path, dst: Path, q: Path) {
    FileAt(after, q) == FileAt(before, q) || (dst <= q && LinksTo(s, at, q[|dst|..], FileAt(after, q)))
  }

  lemma {:induction false} SparedTwice(a: Target, b: Target, c: Target, s: Staged, at: Path, dst: Path)
    requires Spared(a, b, s, at, dst) && Spared(b, c, s, at, dst)
    ensures Spared(a, c, s, at, dst)
  {
    forall q: Path ensures SparedAt(a, c, s, at, dst, q) {
      assert SparedAt(a, b, s, at, dst, q) && SparedAt(b, c, s, at, dst, q);
    }
  }

  lemma {:induction false} DirsSpared(t: Target, s: Staged, at: Path, dst: Path, p: Path)
    requires WellFormed(t)
    ensures Spared(t, t, s, at, dst)
    ensures Open(t, p) ==> WellFormed(WithDirs(t, p)) && Spared(t, WithDirs(t, p), s, at, dst)
  {
    if Open(t, p) {
      WithDirsSound(t, p);
      forall q: Path ensures SparedAt(t, WithDirs(t, p), s, at, dst, q) {
        WithDirsLeaf(t, p, q);
      }
    }
  }

  lemma {:induction false} SparedInside(a: Target, b: Target, s: Staged, at: Path, dst: Path, m: Name, n: Name)
    requires m in Entries(s) && Fold(n) == Fold(m)
    requires Spared(a, b, Entries(s)[m], at + [m], dst + [n])
    ensures Spared(a, b, s, at, dst)
  {
    forall q: Path ensures SparedAt(a, b, s, at, dst, q) {
      assert SparedAt(a, b, Entries(s)[m], at + [m], dst + [n], q);
      if dst + [n] <= q {
        assert dst <= q && q[|dst|..][0] == n && q[|dst|..][1..] == q[|dst + [n]|..];
      }
    }
  }

  lemma {:induction false} LinkSpared(t: Target, s: Staged, at: Path, dst: Path, m: Name, n: Name)
    requires WellFormed(t) && m in Entries(s) && Entries(s)[m].File? && Fold(n) == Fold(m)
    ensures var p := dst + [n]; var cleared := Replace(t, p, Missing);
            && Spared(t, t, s, at, dst)
            && (Lookup(t, p).File? ==> HasParent(cleared, p) && Lookup(cleared, p).Missing?)
            && (HasParent(t, p) && !Lookup(t, p).Directory? ==>
                 var made := Replace(t, p, File(Link(at + [m])));
                 && WellFormed(made) && Spared(t, made, s, at, dst)
                 && Replace(cleared, p, File(Link(at + [m]))) == made)
            && (Lookup(t, p).File? ==> HasParent(t, p))
  {
    var p, link := dst + [n], File(Link(at + [m]));
    if Lookup(t, p).File? {
      PresentHasParent(t, p);
      ReplaceHasParent(t, p, Missing);
      LookupReplaceSame(t, p, Missing);
    }
    if HasParent(t, p) && !Lookup(t, p).Directory? {
      ReplaceTwice(t, p, Missing, link);
      ReplaceWellFormed(t, p, link);
      forall q: Path ensures SparedAt(t, Replace(t, p, link), s, at, dst, q) {
        LinkSparedAt(t, s, at, dst, m, n, q);
      }
    }
  }

  lemma {:induction false} LinkSparedAt(t: Target, s: Staged, at: Path, dst: Path, m: Name, n: Name, q: Path)
    requires m in Entries(s) && Entries(s)[m].File? && Fold(n) == Fold(m)
    requires HasParent(t, dst + [n]) && !Lookup(t, dst + [n]).Directory?
    ensures SparedAt(t, Replace(t, dst + [n], File(Link(at + [m]))), s, at, dst, q)
  {
    var p, link := dst + [n], File(Link(at + [m]));
    ReplacedLeaf(t, p, link, q);
    if p == q {
      assert q[|dst|..] == [n] && [n][1..] == [];
      assert LinksTo(Entries(s)[m], at + [m], [], Some(Link(at + [m])));
    } else if p <= q {
      var r := q[|p|..];
      assert p + r == q && r != [];
      LookupConcat(t, p, r);
      LookupMissing<Item>(r[1..]);
    }
  }

  // ---------- staged names that differ only in case ----------

  /** A staged file's path is the same, but for case. */
  ghost predicate HasFile(s: Staged, p: Path)
    decreases |p|
  {
    if p == [] then s.File?
    else exists m :: m in Entries(s) && Fold(m) == Fold(p[0]) && HasFile(Entries(s)[m], p[1..])
  }

  /** A staged directory's path is. */
  ghost predicate HasDirectory(s: Staged, p: Path)
    decreases |p|
  {
    if p == [] then s.Directory?
    else exists m :: m in Entries(s) && Fold(m) == Fold(p[0]) && HasDirectory(Entries(s)[m], p[1..])
  }

  lemma {:induction false} LinkIsFile(s: Staged, at: Path, p: Path)
    ensures HasFile(s, p) <==> exists c :: LinksTo(s, at, p, c)
    decreases |p|
  {
    if p == [] {
      if s.File? {
        assert LinksTo(s, at, p, Some(Link(at)));
      }
    } else {
      if m :| m in Entries(s) && Fold(m) == Fold(p[0]) && HasFile(Entries(s)[m], p[1..]) {
        LinkIsFile(Entries(s)[m], at + [m], p[1..]);
        var c :| LinksTo(Entries(s)[m], at + [m], p[1..], c);
        assert LinksTo(s, at, p, c);
      }
      if c :| LinksTo(s, at, p, c) {
        var m :| m in Entries(s) && Fold(m) == Fold(p[0]) && LinksTo(Entries(s)[m], at + [m], p[1..], c);
        assert exists d :: LinksTo(Entries(s)[m], at + [m], p[1..], d);
        LinkIsFile(Entries(s)[m], at + [m], p[1..]);
      }
    }
  }

  /** No two staged things have the same path but for case, unless both are
      directories. */
  ghost predicate ClashFree(s: Staged, at: Path) {
    forall p, c :: LinksTo(s, at, p, c) ==> !HasDirectory(s, p) && forall d :: LinksTo(s, at, p, d) ==> c == d
  }

  /** What is staged meets nothing of the other kind. */
  ghost predicate Clear(t: Target, s: Staged) {
    && (t.File? ==> Entries(s) == map[])
    && forall p: Path :: p != [] ==> ClearAt(t, s, p)
  }

  ghost predicate ClearAt(t: Target, s: Staged, p: Path) {
    && (HasFile(s, p) ==> !CaseLookup(t, p).Directory?)
    && (HasDirectory(s, p) ==> !CaseLookup(t, p).File?)
  }

  /** Read without regard to case: a link where a file is staged, a directory
      where a directory is, and what was there elsewhere. */
  ghost predicate Shows(t: Target, u: Target, s: Staged, at: Path) {
    forall p: Path :: p != [] ==> ShowsAt(t, u, s, at, p)
  }

  ghost predicate ShowsAt(t: Target, u: Target, s: Staged, at: Path, p: Path) {
    var k := KindOf(CaseLookup(u, p));
    && (forall c :: LinksTo(s, at, p, c) ==> c.Some? && k == Leaf(c.value))
    && (HasDirectory(s, p) ==> k == Node)
    && (!HasFile(s, p) && !HasDirectory(s, p) ==> k == KindOf(CaseLookup(t, p)))
  }

  /** What is staged of some entries. */
  lemma {:induction false} OnlyHas(s: Staged, at: Path, names: set<Name>, p: Path)
    requires p != []
    ensures HasFile(Only(s, names), p) <==>
              exists m :: m in Entries(s) && m in names && Fold(m) == Fold(p[0]) && HasFile(Entries(s)[m], p[1..])
    ensures HasDirectory(Only(s, names), p) <==>
              exists m :: m in Entries(s) && m in names && Fold(m) == Fold(p[0]) && HasDirectory(Entries(s)[m], p[1..])
    ensures forall c :: LinksTo(Only(s, names), at, p, c) <==>
              exists m :: m in Entries(s) && m in names && Fold(m) == Fold(p[0]) && LinksTo(Entries(s)[m], at + [m], p[1..], c)
  {
    var part := Only(s, names);
    assert forall m :: m in Entries(part) <==> m in Entries(s) && m in names;
    assert forall m :: m in Entries(part) ==> Entries(part)[m] == Entries(s)[m];
  }

  /** What is staged of one. */
  lemma {:induction false} OneHas(s: Staged, at: Path, m: Name, p: Path)
    requires p != [] && s.Directory? && m in s.entries
    ensures HasFile(Only(s, {m}), p) <==> Fold(m) == Fold(p[0]) && HasFile(s.entries[m], p[1..])
    ensures HasDirectory(Only(s, {m}), p) <==> Fold(m) == Fold(p[0]) && HasDirectory(s.entries[m], p[1..])
    ensures forall c :: LinksTo(Only(s, {m}), at, p, c) <==> Fold(m) == Fold(p[0]) && LinksTo(s.entries[m], at + [m], p[1..], c)
  {
    hide Fold;
    OnlyHas(s, at, {m}, p);
    assert Entries(s) == s.entries;
  }

  /** One more entry. */
  lemma {:induction false} MoreHas(s: Staged, at: Path, done: set<Name>, m: Name, p: Path)
    requires p != []
    ensures HasFile(Only(s, done + {m}), p) <==> HasFile(Only(s, done), p) || HasFile(Only(s, {m}), p)
    ensures HasDirectory(Only(s, done + {m}), p) <==> HasDirectory(Only(s, done), p) || HasDirectory(Only(s, {m}), p)
    ensures forall c :: LinksTo(Only(s, done + {m}), at, p, c) <==>
              LinksTo(Only(s, done), at, p, c) || LinksTo(Only(s, {m}), at, p, c)
  {
    OnlyHas(s, at, done, p);
    OnlyHas(s, at, {m}, p);
    OnlyHas(s, at, done + {m}, p);
  }

  /** Part of what is staged is staged. */
  lemma {:induction false} PartHas(s: Staged, at: Path, names: set<Name>, p: Path)
    requires p != []
    ensures HasFile(Only(s, names), p) ==> HasFile(s, p)
    ensures HasDirectory(Only(s, names), p) ==> HasDirectory(s, p)
    ensures forall c :: LinksTo(Only(s, names), at, p, c) ==> LinksTo(s, at, p, c)
  {
    OnlyHas(s, at, names, p);
  }

  /** Two parts merged one after the other. */
  lemma {:induction false} ShowsMore(t: Target, u: Target, v: Target, s: Staged, at: Path, done: set<Name>, m: Name, p: Path)
    requires ClashFree(s, at) && p != []
    requires ShowsAt(t, u, Only(s, done), at, p) && ShowsAt(u, v, Only(s, {m}), at, p)
    ensures ShowsAt(t, v, Only(s, done + {m}), at, p)
  {
    hide CaseLookup, Only, HasFile, HasDirectory, LinksTo;
    MoreHas(s, at, done, m, p);
    PartHas(s, at, done, p);
    PartHas(s, at, {m}, p);
    LinkIsFile(Only(s, {m}), at, p);
    LinkIsFile(Only(s, done), at, p);
  }

  /** The second part meets nothing of the other kind exactly if it met nothing
      before the first. */
  lemma {:induction false} ClearMore(t: Target, u: Target, s: Staged, at: Path, done: set<Name>, m: Name, p: Path)
    requires ClashFree(s, at) && p != []
    requires ShowsAt(t, u, Only(s, done), at, p) && ClearAt(t, Only(s, done), p)
    ensures ClearAt(t, Only(s, done + {m}), p) <==> ClearAt(u, Only(s, {m}), p)
  {
    hide CaseLookup, Only, HasFile, HasDirectory, LinksTo;
    MoreHas(s, at, done, m, p);
    PartHas(s, at, done, p);
    PartHas(s, at, {m}, p);
    LinkIsFile(Only(s, {m}), at, p);
    LinkIsFile(Only(s, done), at, p);
  }

  /** What is staged below an entry is staged. */
  lemma {:induction false} BelowHas(s: Staged, at: Path, m: Name, p: Path)
    requires s.Directory? && m in s.entries
    ensures HasDirectory(s.entries[m], p) ==> HasDirectory(s, [m] + p)
    ensures forall c :: LinksTo(s.entries[m], at + [m], p, c) ==> LinksTo(s, at, [m] + p, c)
  {
    var q := [m] + p;
    assert q[0] == m && q[1..] == p && Entries(s)[m] == s.entries[m];
    if HasDirectory(s.entries[m], p) {
      assert m in Entries(s) && Fold(m) == Fold(q[0]) && HasDirectory(Entries(s)[m], q[1..]);
    }
  }

  lemma {:induction false} ClashFreeEntry(s: Staged, at: Path, m: Name)
    requires ClashFree(s, at) && s.Directory? && m in s.entries
    ensures ClashFree(s.entries[m], at + [m])
  {
    var e := s.entries[m];
    forall p, c | LinksTo(e, at + [m], p, c)
      ensures !HasDirectory(e, p) && forall d :: LinksTo(e, at + [m], p, d) ==> c == d
    {
      BelowHas(s, at, m, p);
      assert LinksTo(s, at, [m] + p, c);
    }
  }

  /** Names that fold alike lead to the same child. */
  lemma {:induction false} SameChild<T>(t: Image<T>, m: Name, n: Name)
    requires Distinct(t) && Fold(m) == Fold(n)
    ensures Child(t, CaseName(t, m)) == Child(t, CaseName(t, n))
  {
    if !Matched(t, m) {
      assert !Matched(t, n);
      assert m !in Entries(t) && n !in Entries(t);
    }
  }

  /** Reading a directory in which one entry was put where a name leads. */
  lemma {:induction false} CaseLookupWith<T>(t: Image<T>, m: Name, x: Image<T>, p: Path)
    requires t.Directory? && Distinct(t) && !x.Missing? && p != []
    ensures var u := WithChild(t, CaseName(t, m), x);
            Distinct(u) &&
            CaseLookup(u, p) == if Fold(p[0]) == Fold(m) then CaseLookup(x, p[1..]) else CaseLookup(t, p)
  {
    var r, n := CaseName(t, m), p[0];
    var u := WithChild(t, r, x);
    WithDistinct(t, m, x);
    if Fold(n) == Fold(m) {
      assert r in Entries(u) && Matched(u, n);
      assert CaseName(u, n) == r;
    } else {
      assert forall k :: Fold(k) == Fold(n) ==> (k in Entries(u) <==> k in Entries(t));
      assert Matched(u, n) <==> Matched(t, n);
      assert CaseName(u, n) == CaseName(t, n);
      assert Child(u, CaseName(u, n)) == Child(t, CaseName(t, n));
    }
  }

  lemma {:induction false} WithDistinct<T>(t: Image<T>, m: Name, x: Image<T>)
    requires t.Directory? && Distinct(t) && !x.Missing?
    ensures Distinct(WithChild(t, CaseName(t, m), x))
  {
    var r := CaseName(t, m);
    forall k | k in Entries(t) && Fold(k) == Fold(r) ensures k == r {
      assert Matched(t, m);
    }
  }

  lemma {:induction false} WithNoSiblings<T>(t: Image<T>, m: Name, x: Image<T>)
    requires t.Directory? && NoSiblings(t) && !x.Missing? && NoSiblings(x)
    ensures NoSiblings(WithChild(t, CaseName(t, m), x))
  {
    WithDistinct(t, m, x);
  }

  /** One entry put in shows in the directory what it shows itself. */
  lemma {:induction false} EntryShown(t: Target, s: Staged, at: Path, m: Name, x: Target)
    requires t.Directory? && Distinct(t) && !x.Missing? && s.Directory? && m in s.entries
    requires KindOf(x) == (if s.entries[m].File? then Leaf(Link(at + [m])) else Node) && !s.entries[m].Missing?
    requires Shows(Child(t, CaseName(t, m)), x, s.entries[m], at + [m])
    ensures Shows(t, WithChild(t, CaseName(t, m), x), Only(s, {m}), at)
  {
    var u := WithChild(t, CaseName(t, m), x);
    forall p: Path | p != [] ensures ShowsAt(t, u, Only(s, {m}), at, p) {
      EntryShownAt(t, s, at, m, x, p);
    }
  }

  lemma {:induction false} EntryShownAt(t: Target, s: Staged, at: Path, m: Name, x: Target, p: Path)
    requires t.Directory? && Distinct(t) && !x.Missing? && s.Directory? && m in s.entries && p != []
    requires KindOf(x) == (if s.entries[m].File? then Leaf(Link(at + [m])) else Node) && !s.entries[m].Missing?
    requires Shows(Child(t, CaseName(t, m)), x, s.entries[m], at + [m])
    ensures ShowsAt(t, WithChild(t, CaseName(t, m), x), Only(s, {m}), at, p)
  {
    var c, e, rest := Child(t, CaseName(t, m)), s.entries[m], p[1..];
    CaseLookupWith(t, m, x, p);
    OneHas(s, at, m, p);
    FoundBelow(t, p);
    if Fold(p[0]) == Fold(m) {
      SameChild(t, m, p[0]);
      if rest == [] {
        ShownHere(c, x, e, at + [m]);
      }
      hide Only, Distinct, CaseName, CaseLookup, HasFile, HasDirectory, LinksTo;
      assert ShowsAt(c, x, e, at + [m], rest);
    }
  }

  lemma {:induction false} ShownHere(c: Target, x: Target, e: Staged, at: Path)
    requires !e.Missing? && KindOf(x) == if e.File? then Leaf(Link(at)) else Node
    ensures ShowsAt(c, x, e, at, [])
  {
  }

  /** It meets nothing of the other kind exactly if it does not there. */
  lemma {:induction false} EntryClear(t: Target, s: Staged, m: Name)
    requires Distinct(t) && s.Directory? && m in s.entries && !s.entries[m].Missing?
    ensures (forall p: Path :: p != [] ==> ClearAt(t, Only(s, {m}), p)) <==>
              Fits(Child(t, CaseName(t, m)), s.entries[m]) &&
              (s.entries[m].Directory? ==> Clear(Child(t, CaseName(t, m)), s.entries[m]))
  {
    var c, e := Child(t, CaseName(t, m)), s.entries[m];
    forall p: Path | p != []
      ensures ClearAt(t, Only(s, {m}), p) <==> (Fold(p[0]) == Fold(m) ==> ClearAt(c, e, p[1..]))
    {
      OneHas(s, [], m, p);
      FoundBelow(t, p);
      if Fold(p[0]) == Fold(m) {
        SameChild(t, m, p[0]);
      }
    }
    assert ClearAt(c, e, []) <==> Fits(c, e);
    if forall p: Path :: p != [] ==> ClearAt(t, Only(s, {m}), p) {
      forall q: Path ensures ClearAt(c, e, q) {
        assert ClearAt(t, Only(s, {m}), [m] + q);
        assert ([m] + q)[1..] == q;
      }
    }
    if e.File? {
      forall q: Path | q != [] ensures ClearAt(c, e, q) {
        assert Entries(e) == map[];
      }
    }
  }

  /** A target without names that differ only in case, and what may be deployed
      to it. */
  ghost predicate Tidy(base: Target, dst: Path, src: Staged, at: Path) {
    && WellFormed(base) && HasParent(base, dst)
    && !Lookup(base, dst).Missing? && NoSiblings(Lookup(base, dst))
    && src.Directory? && WellFormed(src) && ClashFree(src, at)
  }

  /** Some entries meet nothing of the other kind. */
  ghost predicate OneClear(t: Target, s: Staged, names: set<Name>) {
    t.Directory? && forall p: Path :: p != [] ==> ClearAt(t, Only(s, names), p)
  }

  /** What is staged shows at `dst`, where still no names differ only in case,
      and nothing else has changed. */
  ghost predicate Landed(before: Target, after: Target, dst: Path, s: Staged, at: Path) {
    var there, now := Lookup(before, dst), Lookup(after, dst);
    && NoSiblings(now) && !now.Missing? && (now.Directory? <==> there.Directory?)
    && Shows(there, now, s, at)
    && after == Replace(before, dst, now)
  }

  lemma {:induction false} EmptyReads(p: Path)
    requires p != []
    ensures CaseLookup<Item>(Directory(map[]), p) == Missing && CaseLookup<Item>(Missing, p) == Missing
  {
    var empty: Target := Directory(map[]);
    CaseLookupMissing<Item>(Missing, p);
    assert Child(empty, CaseName(empty, p[0])) == Missing;
    if |p| > 1 {
      CaseLookupMissing<Item>(Missing, p[1..]);
    }
  }

  /** A missing target shows, and is in the way of, no less than an empty one. */
  lemma {:induction false} EmptyShows(u: Target, s: Staged, at: Path)
    ensures Shows(Missing, u, s, at) == Shows(Directory(map[]), u, s, at)
    ensures Clear(Missing, s) == Clear(Directory(map[]), s)
  {
    forall p: Path | p != []
      ensures ShowsAt(Missing, u, s, at, p) == ShowsAt(Directory(map[]), u, s, at, p)
      ensures ClearAt(Missing, s, p) == ClearAt(Directory(map[]), s, p)
    {
      EmptyReads(p);
    }
  }

  lemma {:induction false} TidyStart(start: Target, dst: Path, src: Staged, at: Path)
    requires Lookup(start, dst).Missing? ==> Open(start, dst)
    requires WellFormed(start) && NoSiblings(Lookup(start, dst))
    requires src.Directory? && WellFormed(src) && ClashFree(src, at)
    ensures Tidy(Made(start, dst), dst, src, at)
    ensures Clear(Lookup(Made(start, dst), dst), src) == Clear(Lookup(start, dst), src)
  {
    if Lookup(start, dst).Missing? {
      WithDirsEmpty(start, dst);
      WithDirsSound(start, dst);
      EmptyShows(Missing, src, at);
    } else {
      PresentHasParent(start, dst);
    }
  }

  lemma {:induction false} NothingLanded(base: Target, dst: Path, src: Staged, at: Path)
    ensures Tidy(base, dst, src, at) ==> Landed(base, base, dst, Only(src, {}), at)
  {
    if Tidy(base, dst, src, at) {
      ReplaceSelf(base, dst);
      forall p: Path | p != [] ensures ShowsAt(Lookup(base, dst), Lookup(base, dst), Only(src, {}), at, p) {
        OnlyHas(src, at, {}, p);
      }
    }
  }

  lemma {:induction false} AllClear(base: Target, dst: Path, src: Staged, done: set<Name>)
    requires src.Directory? && Only(src, done) == src && (done != {} ==> OneClear(Lookup(base, dst), src, done))
    ensures Clear(Lookup(base, dst), src)
  {
    if done == {} {
      assert Entries(src) == map[];
      forall p: Path | p != [] ensures ClearAt(Lookup(base, dst), src, p) {
        OnlyHas(src, [], {}, p);
      }
    }
  }

  lemma {:induction false} StillTidy(base: Target, now: Target, dst: Path, src: Staged, at: Path, done: set<Name>)
    requires Tidy(base, dst, src, at) && Landed(base, now, dst, Only(src, done), at) && WellFormed(now)
    ensures Tidy(now, dst, src, at)
  {
    ReplaceHasParent(base, dst, Lookup(now, dst));
  }

  /** An entry that fails meets something that was there from the start. */
  lemma {:induction false} OneFailed(base: Target, now: Target, dst: Path, src: Staged, at: Path, done: set<Name>, m: Name)
    requires Tidy(base, dst, src, at) && Landed(base, now, dst, Only(src, done), at) && m in src.entries
    requires done != {} ==> OneClear(Lookup(base, dst), src, done)
    requires !OneClear(Lookup(now, dst), src, {m})
    ensures !Clear(Lookup(base, dst), src)
  {
    var there := Lookup(base, dst);
    if there.Directory? {
      var p: Path :| p != [] && !ClearAt(Lookup(now, dst), Only(src, {m}), p);
      assert ShowsAt(there, Lookup(now, dst), Only(src, done), at, p);
      DoneClear(there, src, done, p);
      ClearMore(there, Lookup(now, dst), src, at, done, m, p);
      PartHas(src, at, done + {m}, p);
      assert !ClearAt(there, src, p);
    }
  }

  lemma {:induction false} DoneClear(t: Target, src: Staged, done: set<Name>, p: Path)
    requires p != [] && (done != {} ==> OneClear(t, src, done))
    ensures ClearAt(t, Only(src, done), p)
  {
    OnlyHas(src, [], done, p);
  }

  /** One more entry has landed. */
  lemma {:induction false} OneLanded(base: Target, before: Target, now: Target, dst: Path, src: Staged, at: Path, done: set<Name>, m: Name)
    requires Tidy(base, dst, src, at) && Landed(base, before, dst, Only(src, done), at) && m in src.entries
    requires done != {} ==> OneClear(Lookup(base, dst), src, done)
    requires OneClear(Lookup(before, dst), src, {m}) && Landed(before, now, dst, Only(src, {m}), at)
    ensures Landed(base, now, dst, Only(src, done + {m}), at)
    ensures OneClear(Lookup(base, dst), src, done + {m})
  {
    var there, mid, last := Lookup(base, dst), Lookup(before, dst), Lookup(now, dst);
    ReplaceTwice(base, dst, mid, last);
    forall p: Path | p != []
      ensures ShowsAt(there, last, Only(src, done + {m}), at, p) && ClearAt(there, Only(src, done + {m}), p)
    {
      assert ShowsAt(there, mid, Only(src, done), at, p) && ShowsAt(mid, last, Only(src, {m}), at, p);
      ShowsMore(there, mid, last, src, at, done, m, p);
      DoneClear(there, src, done, p);
      ClearMore(there, mid, src, at, done, m, p);
    }
  }

  /** An entry put where its name leads has landed, if it shows what is staged. */
  lemma {:induction false} EntryLanded(start: Target, dst: Path, src: Staged, at: Path, m: Name, x: Target)
    requires Tidy(start, dst, src, at) && m in src.entries && Lookup(start, dst).Directory?
    requires !x.Missing? && NoSiblings(x)
    requires KindOf(x) == (if src.entries[m].File? then Leaf(Link(at + [m])) else Node) && !src.entries[m].Missing?
    requires var there := Lookup(start, dst); Shows(Child(there, CaseName(there, m)), x, src.entries[m], at + [m])
    ensures Landed(start, Replace(start, dst + [CaseName(Lookup(start, dst), m)], x), dst, Only(src, {m}), at)
  {
    var there := Lookup(start, dst);
    var n := CaseName(there, m);
    var u := WithChild(there, n, x);
    ReplaceSelf(start, dst);
    ReplaceBelow(start, dst, there, n, x);
    LookupReplaceSame(start, dst, u);
    WithNoSiblings(there, m, x);
    EntryShown(there, src, at, m, x);
  }

  lemma {:induction false} DirectoryTidy(start: Target, dst: Path, src: Staged, at: Path, m: Name)
    requires Tidy(start, dst, src, at) && m in src.entries && src.entries[m].Directory?
    ensures var there := Lookup(start, dst);
            var c := Child(there, CaseName(there, m));
            var path := dst + [CaseName(there, m)];
            && (Open(start, path) <==> there.Directory? && !c.File?)
            && (OneClear(there, src, {m}) <==> there.Directory? && !c.File? && Clear(c, src.entries[m]))
            && (Open(start, path) ==>
                 var made := WithDirs(start, path);
                 && WellFormed(made) && NoSiblings(Lookup(made, path)) && Lookup(made, path).Directory?
                 && made == Made(made, path)
                 && ClashFree(src.entries[m], at + [m])
                 && Clear(Lookup(made, path), src.entries[m]) == Clear(c, src.entries[m])
                 && Lookup(made, path) == (if c.Missing? then Directory(map[]) else c)
                 && forall x :: Replace(made, path, x) == Replace(start, path, x))
  {
    var there := Lookup(start, dst);
    var n := CaseName(there, m);
    var path := dst + [n];
    ReadBelow(start, dst, n);
    ClashFreeEntry(src, at, m);
    if there.File? {
      NotOpenBelowFile(start, dst, path);
    } else {
      EntryClear(there, src, m);
      WithDirsHere(start, path);
      LookupNoSiblings(there, [n]);
      if Child(there, n).Missing? {
        WithDirsEmpty(start, path);
        WithDirsSound(start, path);
        EmptyShows(Missing, src.entries[m], at + [m]);
        forall x ensures Replace(WithDirs(start, path), path, x) == Replace(start, path, x) {
          ReplaceTwice(start, path, Directory(map[]), x);
        }
      }
    }
  }

  lemma {:induction false} DirectoryLanded(start: Target, made: Target, now: Target, dst: Path, src: Staged, at: Path, m: Name)
    requires Tidy(start, dst, src, at) && m in src.entries && src.entries[m].Directory?
    requires var path := dst + [CaseName(Lookup(start, dst), m)];
             && Open(start, path) && made == WithDirs(start, path)
             && Landed(made, now, path, src.entries[m], at + [m])
    ensures Landed(start, now, dst, Only(src, {m}), at)
  {
    var there := Lookup(start, dst);
    var path := dst + [CaseName(there, m)];
    DirectoryTidy(start, dst, src, at, m);
    EmptyShows(Lookup(now, path), src.entries[m], at + [m]);
    EntryLanded(start, dst, src, at, m, Lookup(now, path));
  }

  /** A link shows what is staged where a file is. */
  lemma {:induction false} LinkShows(c: Target, s: Staged, at: Path)
    requires s.File? && !c.Directory?
    ensures Shows(c, File(Link(at)), s, at)
  {
    forall p: Path | p != [] ensures ShowsAt(c, File(Link(at)), s, at, p) {
      CaseLookupMissing<Item>(c, p);
      CaseLookupMissing<Item>(File(Link(at)), p);
      assert Entries(s) == map[];
    }
  }

  lemma {:induction false} LinkLanded(start: Target, dst: Path, src: Staged, at: Path, m: Name)
    requires Tidy(start, dst, src, at) && m in src.entries && src.entries[m].File?
    ensures var there := Lookup(start, dst);
            var path := dst + [CaseName(there, m)];
            && (OneClear(there, src, {m}) <==> there.Directory? && !Lookup(start, path).Directory?)
            && (HasParent(start, path) <==> there.Directory?)
            && (Lookup(start, path).File? ==> there.Directory?)
            && (OneClear(there, src, {m}) ==>
                 Landed(start, Replace(start, path, File(Link(at + [m]))), dst, Only(src, {m}), at))
  {
    var there := Lookup(start, dst);
    var n := CaseName(there, m);
    ReadBelow(start, dst, n);
    EntryClear(there, src, m);
    if there.Directory? && !Child(there, n).Directory? {
      LinkShows(Child(there, n), src.entries[m], at + [m]);
      EntryLanded(start, dst, src, at, m, File(Link(at + [m])));
    }
  }

  /** A staged file is one, under each spelling of its path. */
  lemma {:induction false} StagedLinks(s: Staged, at: Path, p: Path, spelt: Path)
    requires Lookup(s, p).File? && SameFold(p, spelt)
    ensures LinksTo(s, at, spelt, Some(Link(at + p)))
    decreases |p|
  {
    if p == [] {
      assert at + p == at;
    } else {
      if p[0] !in Entries(s) {
        LookupMissing<string>(p[1..]);
      }
      StagedLinks(Entries(s)[p[0]], at + [p[0]], p[1..], spelt[1..]);
      assert at + [p[0]] + p[1..] == at + p;
    }
  }

  lemma {:induction false} StagedDirectory(s: Staged, p: Path, spelt: Path)
    requires Lookup(s, p).Directory? && SameFold(p, spelt)
    ensures HasDirectory(s, spelt)
    decreases |p|
  {
    if p != [] {
      if p[0] !in Entries(s) {
        LookupMissing<string>(p[1..]);
      }
      StagedDirectory(Entries(s)[p[0]], p[1..], spelt[1..]);
    }
  }

  /** Whatever names are staged, as long as none clash, and in whatever order they
      are listed: after a deployment that works out, each staged file is found,
      under every spelling, as a link to its own place. */
  lemma {:induction false} LandedFound(t: Target, u: Target, dst: Path, s: Staged, at: Path, p: Path, spelt: Path)
    requires Landed(t, u, dst, s, at) && s.Directory? && Lookup(s, p).File? && SameSpelling(p, spelt)
    ensures CaseLookup(Lookup(u, dst), spelt) == File(Link(at + p))
    ensures OnlyAt(Lookup(u, dst), spelt, File(Link(at + p))) && CaseFree(Lookup(u, dst))
  {
    NoSiblingsMeans(Lookup(u, dst));
    SpellingMeans(p, spelt);
    StagedLinks(s, at, p, spelt);
    assert ShowsAt(Lookup(t, dst), Lookup(u, dst), s, at, spelt);
    CaseLookupMeans(Lookup(u, dst), spelt);
  }

  /** Of two staged files whose paths differ only in case, no target without such
      names has both: one is lost. */
  lemma {:induction false} OneLost(u: Target, at: Path, p: Path, q: Path)
    requires NoSiblings(u) && SameSpelling(p, q) && p != q
    ensures CaseLookup(u, p) == CaseLookup(u, q)
    ensures CaseLookup(u, p) == File(Link(at + p)) ==> CaseLookup(u, q) != File(Link(at + q))
  {
    SpellingsRead(u, p, q);
    assert (at + p)[|at|..] == p && (at + q)[|at|..] == q;
  }

  /** What not clashing means: no two staged things have paths that differ only
      in case, unless both are directories. */
  lemma {:induction false} ClashFreeMeans(s: Staged, at: Path)
    ensures ClashFree(s, at) <==>
              forall p, q :: SameSpelling(p, q) && Lookup(s, p).File? && !Lookup(s, q).Missing? ==> p == q
  {
    if ClashFree(s, at) {
      forall p, q | SameSpelling(p, q) && Lookup(s, p).File? && !Lookup(s, q).Missing? ensures p == q {
        SpellingMeans(p, q);
        NoClash(s, at, p, q);
      }
    }
    if forall p, q :: SameSpelling(p, q) && Lookup(s, p).File? && !Lookup(s, q).Missing? ==> p == q {
      forall p, q | SameFold(p, q) && Lookup(s, p).File? && !Lookup(s, q).Missing? ensures p == q {
        SpellingMeans(p, q);
      }
      forall r, c | LinksTo(s, at, r, c)
        ensures !HasDirectory(s, r) && forall d :: LinksTo(s, at, r, d) ==> c == d
      {
        OnlyLink(s, at, r, c);
      }
    }
  }

  lemma {:induction false} NoClash(s: Staged, at: Path, p: Path, q: Path)
    requires ClashFree(s, at) && SameFold(p, q) && Lookup(s, p).File? && !Lookup(s, q).Missing?
    ensures p == q
  {
    StagedLinks(s, at, p, q);
    if Lookup(s, q).File? {
      StagedLinks(s, at, q, q);
      assert (at + p)[|at|..] == p && (at + q)[|at|..] == q;
    } else {
      StagedDirectory(s, q, q);
      assert false;
    }
  }

  lemma {:induction false} OnlyLink(s: Staged, at: Path, r: Path, c: Option<Item>)
    requires forall p, q :: SameFold(p, q) && Lookup(s, p).File? && !Lookup(s, q).Missing? ==> p == q
    requires LinksTo(s, at, r, c)
    ensures !HasDirectory(s, r) && forall d :: LinksTo(s, at, r, d) ==> c == d
  {
    LinksToFolds(s, at, r, c);
    var p :| SameFold(p, r) && Lookup(s, p).File? && c == Some(Link(at + p));
    forall d | LinksTo(s, at, r, d) ensures c == d {
      LinksToFolds(s, at, r, d);
      var q :| SameFold(q, r) && Lookup(s, q).File? && d == Some(Link(at + q));
      assert SameFold(p, q);
    }
    if HasDirectory(s, r) {
      DirectoryStaged(s, r);
      var q :| SameFold(q, r) && Lookup(s, q).Directory?;
      assert SameFold(p, q);
      assert false;
    }
  }

  lemma {:induction false} DirectoryStaged(s: Staged, p: Path)
    requires HasDirectory(s, p)
    ensures exists q :: SameFold(q, p) && Lookup(s, q).Directory?
    decreases |p|
  {
    if p == [] {
      assert SameFold([], p) && Lookup(s, []).Directory?;
    } else {
      var m :| m in Entries(s) && Fold(m) == Fold(p[0]) && HasDirectory(Entries(s)[m], p[1..]);
      DirectoryStaged(Entries(s)[m], p[1..]);
      var rest :| SameFold(rest, p[1..]) && Lookup(Entries(s)[m], rest).Directory?;
      assert ([m] + rest)[1..] == rest;
      assert SameFold([m] + rest, p) && Lookup(s, [m] + rest).Directory?;
    }
  }

  /** A deployment that works out, for every order of listing: no names that
      differ only in case, each staged file found under every spelling as a link
      to its own place, every other file of the target as it was, and no file
      outside the target changed. */
  lemma {:induction false} DeployedSound(t: Target, dst: Path, s: Staged, at: Path, p: Path, spelt: Path, q: Path)
    requires Deploys(t, dst, s) && s.Directory? && SameSpelling(p, spelt)
    requires NoSiblings(Lookup(t, dst)) && NoSiblings(s)
    ensures var there, so := Lookup(t, dst), Lookup(Deployed(t, dst, s, at), dst);
            && NoSiblings(so) && CaseFree(so)
            && (Lookup(s, p).File? ==> CaseLookup(so, spelt) == File(Link(at + p)) && OnlyAt(so, spelt, File(Link(at + p))))
            && (Lookup(there, p).File? && !CaseLookup(s, p).File? ==> Lookup(so, p) == Lookup(there, p))
    ensures !Overlap(dst, q) ==> FileAt(Deployed(t, dst, s, at), q) == FileAt(t, q)
  {
    var there := Lookup(t, dst);
    var made, so := Made(t, dst), Merged(there, s, at);
    if there.Missing? {
      WithDirsEmpty(t, dst);
      WithDirsLeaf(t, dst, q);
    } else {
      PresentHasParent(t, dst);
    }
    LookupReplaceSame(made, dst, so);
    MergedNoSiblings(there, s, at);
    if Lookup(s, p).File? {
      StagedFound(there, s, at, p, spelt);
    }
    if !there.File? {
      MergedShows(there, s, at, p);
    }
    if !Overlap(dst, q) {
      LookupReplaceOther(made, dst, so, q);
    }
  }

  lemma {:induction false} LookupNoSiblings<T>(t: Image<T>, p: Path)
    requires NoSiblings(t)
    ensures NoSiblings(Lookup(t, p))
    decreases |p|
  {
    if p != [] {
      LookupNoSiblings(Child(t, p[0]), p[1..]);
    }
  }
}
