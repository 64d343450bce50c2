/** Live patches of a symlink farm (crates/modde-core/src/hot_deploy.rs): the
    patch between two link maps, and its execution on the staging directory. */
module HotDeploy {
  import opened Images
  import opened Leaves
  import opened Ordering
  import opened Results

  /** The link target: a plain file outside staging. */
  type Source = string

  type Links = map<string, Source>

  // ---------- keys and paths ----------

  /** The components of a key: what lies between its slashes. The keys of a farm
      have no component that is empty, `.` or `..`, which mean something else to
      a file system. */
  function Split(key: string): (p: Path)
    ensures p != []
  {
    if key == "" then [""]
    else
      var rest := Split(key[1..]);
      if key[0] == '/' then [""] + rest else [[key[0]] + rest[0]] + rest[1..]
  }

  function Join(p: Path): string {
    if p == [] then "" else if |p| == 1 then p[0] else p[0] + "/" + Join(p[1..])
  }

  lemma {:induction false} JoinSplit(key: string)
    ensures Join(Split(key)) == key
    decreases |key|
  {
    if key != "" {
      JoinSplit(key[1..]);
      JoinMore(key[0], Split(key[1..]));
      assert key == [key[0]] + key[1..];
    }
  }

  /** One more character in front. */
  lemma {:induction false} JoinMore(c: char, rest: Path)
    requires rest != []
    ensures Join([""] + rest) == "/" + Join(rest)
    ensures Join([[c] + rest[0]] + rest[1..]) == [c] + Join(rest)
  {
    assert ([""] + rest)[1..] == rest;
    var p := [[c] + rest[0]] + rest[1..];
    assert p[1..] == rest[1..];
    if |rest| > 1 {
      assert [c] + rest[0] + "/" + Join(rest[1..]) == [c] + (rest[0] + "/" + Join(rest[1..]));
    }
  }

  /** No component has a slash, and no other way of joining such components gives
      the key. */
  lemma {:induction false} SplitMeans(key: string, p: Path)
    ensures Split(key) == p <==> p != [] && Join(p) == key && forall i :: 0 <= i < |p| ==> '/' !in p[i]
  {
    JoinSplit(key);
    SplitSlashFree(key);
    if p != [] && Join(p) == key && forall i :: 0 <= i < |p| ==> '/' !in p[i] {
      SplitJoin(p);
    }
  }

  lemma {:induction false} SplitSlashFree(key: string)
    ensures forall i :: 0 <= i < |Split(key)| ==> '/' !in Split(key)[i]
    decreases |key|
  {
    if key != "" {
      SplitSlashFree(key[1..]);
      var rest := Split(key[1..]);
      assert forall i :: 1 <= i < |rest| ==> rest[1..][i - 1] == rest[i];
    }
  }

  lemma {:induction false} SplitJoin(p: Path)
    requires p != [] && forall i :: 0 <= i < |p| ==> '/' !in p[i]
    ensures Split(Join(p)) == p
    decreases |p|, |p[0]|
  {
    if p[0] != "" {
      var c, less := p[0][0], [p[0][1..]] + p[1..];
      assert p[0] == [c] + less[0] && less[1..] == p[1..];
      assert p == [[c] + less[0]] + less[1..];
      JoinMore(c, less);
      SplitJoin(less);
      assert Join(p) == [c] + Join(less);
      assert c in p[0];
    } else if |p| > 1 {
      SplitJoin(p[1..]);
      assert Join(p) == "/" + Join(p[1..]);
      assert Join(p)[1..] == Join(p[1..]);
      assert p == [""] + p[1..];
    }
  }

  /** Distinct keys are distinct paths. */
  lemma {:induction false} SplitInjective(a: string, b: string)
    requires Split(a) == Split(b)
    ensures a == b
  {
    JoinSplit(a);
    JoinSplit(b);
  }

  lemma {:induction false} JoinPrefix(p: Path, q: Path)
    requires p <= q && p != []
    ensures Join(p) <= Join(q)
    decreases |p|
  {
    if |p| > 1 {
      JoinPrefix(p[1..], q[1..]);
      var a, b, head := Join(p[1..]), Join(q[1..]), p[0] + "/";
      assert b == a + b[|a|..];
      assert head + b == head + a + b[|a|..];
    } else if |q| > 1 {
      assert Join(q) == p[0] + ("/" + Join(q[1..]));
    }
  }

  /** A path comes before everything below it in key order. */
  lemma {:induction false} PrefixFirst(a: string, b: string)
    requires Split(a) <= Split(b)
    ensures Le(a, b)
  {
    JoinPrefix(Split(a), Split(b));
    JoinSplit(a);
    JoinSplit(b);
    PrefixLe(a, b);
  }

  /** A later key is not above an earlier one. */
  lemma {:induction false} LaterNotAbove(a: string, b: string)
    requires Le(a, b) && a != b
    ensures !(Split(b) <= Split(a))
  {
    if Split(b) <= Split(a) {
      PrefixFirst(b, a);
      LeAntisymmetric(a, b);
      assert false;
    }
  }

  // ---------- planning ----------

  datatype Change = Change(key: string, before: Option<Source>, after: Option<Source>)

  function Planned(before: Links, after: Links, keys: seq<string>): seq<Change> {
    if keys == [] then []
    else
      var rest, key := Planned(before, after, keys[..|keys| - 1]), keys[|keys| - 1];
      if Get(before, key) == Get(after, key) then rest else rest + [Change(key, Get(before, key), Get(after, key))]
  }

  function Patch(before: Links, after: Links): seq<Change> {
    Planned(before, after, SortedKeys(before.Keys + after.Keys))
  }

  /** `plan_patch`. */
  method PlanPatch(before: Links, after: Links) returns (changes: seq<Change>)
    ensures changes == Patch(before, after)
  {
    hide SortedKeys;
    var keys := SortedKeys(before.Keys + after.Keys);
    changes := [];
    var i := 0;
    while i < |keys|
      invariant 0 <= i <= |keys|
      invariant changes == Planned(before, after, keys[..i])
    {
      assert keys[..i + 1][..i] == keys[..i];
      if Get(before, keys[i]) != Get(after, keys[i]) {
        changes := changes + [Change(keys[i], Get(before, keys[i]), Get(after, keys[i]))];
      }
      i := i + 1;
    }
    assert keys[..i] == keys;
  }

  /** Keys in strictly increasing order. */
  predicate Increasing(keys: seq<string>) {
    forall i, j :: 0 <= i < j < |keys| ==> keys[i] != keys[j] && Le(keys[i], keys[j])
  }

  predicate IncreasingChanges(changes: seq<Change>) {
    forall i, j :: 0 <= i < j < |changes| ==> changes[i].key != changes[j].key && Le(changes[i].key, changes[j].key)
  }

  predicate Changes(changes: seq<Change>, key: string) {
    exists i :: 0 <= i < |changes| && changes[i].key == key
  }

  /** The changes planned for these keys, and no others. */
  ghost predicate PlanFor(before: Links, after: Links, keys: seq<string>, changes: seq<Change>) {
    && IncreasingChanges(changes)
    && (forall i :: 0 <= i < |changes| ==>
          && changes[i].key in keys
          && changes[i].before == Get(before, changes[i].key) != Get(after, changes[i].key) == changes[i].after)
    && (forall key :: key in keys && Get(before, key) != Get(after, key) ==> Changes(changes, key))
  }

  lemma {:induction false} PlannedMeans(before: Links, after: Links, keys: seq<string>)
    requires Increasing(keys)
    ensures PlanFor(before, after, keys, Planned(before, after, keys))
    decreases |keys|
  {
    if keys != [] {
      var front, key := keys[..|keys| - 1], keys[|keys| - 1];
      PlannedMeans(before, after, front);
      assert front + [key] == keys;
      assert forall k :: k in front ==> exists i :: 0 <= i < |front| && keys[i] == k;
      OneMoreKey(before, after, front, key, Planned(before, after, front));
    }
  }

  lemma {:induction false} OneMoreKey(before: Links, after: Links, keys: seq<string>, key: string, changes: seq<Change>)
    requires PlanFor(before, after, keys, changes)
    requires forall k :: k in keys ==> k != key && Le(k, key)
    ensures var c := Change(key, Get(before, key), Get(after, key));
            PlanFor(before, after, keys + [key], if c.before == c.after then changes else changes + [c])
  {
    hide Le, Get, Changes;
    var c := Change(key, Get(before, key), Get(after, key));
    if c.before != c.after {
      assert (changes + [c])[|changes|] == c;
      forall k | Changes(changes, k) || k == key ensures Changes(changes + [c], k) {
        ChangesMore(changes, c, k);
      }
    }
  }

  lemma {:induction false} ChangesMore(changes: seq<Change>, c: Change, key: string)
    ensures Changes(changes + [c], key) <==> Changes(changes, key) || c.key == key
  {
    var more := changes + [c];
    assert more[|changes|] == c;
    if i :| 0 <= i < |changes| && changes[i].key == key {
      assert more[i].key == key;
    }
    if i :| 0 <= i < |more| && more[i].key == key && i < |changes| {
      assert changes[i].key == key;
    }
  }

  /** The patch is minimal and ordered: one change for each key whose link
      differs, with both its links, in key order. */
  lemma {:induction false} PatchMeans(before: Links, after: Links)
    ensures var changes := Patch(before, after);
            && IncreasingChanges(changes)
            && (forall i :: 0 <= i < |changes| ==>
                  changes[i].before == Get(before, changes[i].key) != Get(after, changes[i].key) == changes[i].after)
            && (forall key :: Changes(changes, key) <==> Get(before, key) != Get(after, key))
  {
    var keys := SortedKeys(before.Keys + after.Keys);
    SortedKeysOrder(before.Keys + after.Keys);
    PlannedMeans(before, after, keys);
    assert forall key :: Get(before, key) != Get(after, key) ==> key in keys;
  }

  // ---------- applying ----------

  /** How far a patch got. */
  datatype Progress = Progress(tree: Image<Source>, ok: bool)

  /** One change: what is there is removed, whatever it is; a new link needs its
      parent directories. */
  function Changed(t: Image<Source>, c: Change): Progress {
    var p := Split(c.key);
    var cleared := Cleared(t, p);
    if c.after.None? then Progress(cleared, true)
    else if !Open(cleared, p[..|p| - 1]) then Progress(cleared, false)
    else Progress(Linked(cleared, p, c.after.value), true)
  }

  /** All of them, up to the first that fails. */
  function AllChanged(t: Image<Source>, changes: seq<Change>): Progress {
    if changes == [] then Progress(t, true)
    else
      var so := AllChanged(t, changes[..|changes| - 1]);
      if so.ok then Changed(so.tree, changes[|changes| - 1]) else so
  }

  function Applied(t: Image<Source>, changes: seq<Change>): Progress {
    if t.File? then Progress(t, false) else AllChanged(WithDirs(t, []), changes)
  }

  class Staging {
    /** What the staging path holds: links are leaves. */
    var tree: Image<Source>

    constructor (tree: Image<Source>)
      ensures this.tree == tree
    {
      this.tree := tree;
    }

    method CreateDirAll(p: Path) returns (ok: bool)
      modifies this
      ensures ok == Open(old(tree), p)
      ensures tree == if ok then WithDirs(old(tree), p) else old(tree)
    {
      ok := Open(tree, p);
      if ok {
        tree := WithDirs(tree, p);
      }
    }

    /** Fails if the name is taken or its directory is not there. */
    method Symlink(source: Source, p: Path) returns (ok: bool)
      modifies this
      ensures ok == (HasParent(old(tree), p) && Lookup(old(tree), p).Missing?)
      ensures tree == if ok then Replace(old(tree), p, File(source)) else old(tree)
    {
      ok := HasParent(tree, p) && Lookup(tree, p).Missing?;
      if ok {
        tree := Replace(tree, p, File(source));
      }
    }

    /** `remove_path`: a file, a link, or a directory with all that is in it. */
    method RemovePath(p: Path)
      requires !Lookup(tree, p).Missing?
      modifies this
      ensures tree == Replace(old(tree), p, Missing)
    {
      tree := Replace(tree, p, Missing);
    }

    method ApplyChange(c: Change) returns (ok: bool)
      modifies this
      ensures Changed(old(tree), c) == Progress(tree, ok)
    {
      var dst := Split(c.key);
      if !Lookup(tree, dst).Missing? {
        RemovePath(dst);
      }
      if c.after.Some? {
        ClearedLeaf(old(tree), dst, dst);
        ok := CreateDirAll(dst[..|dst| - 1]);
        if !ok {
          return;
        }
        LinkedLeaf(Cleared(old(tree), dst), dst, c.after.value, dst);
        ok := Symlink(c.after.value, dst);
      }
      ok := true;
    }

    /** `apply_patch_to_staging`. */
    method ApplyPatch(changes: seq<Change>) returns (ok: bool)
      modifies this
      ensures Applied(old(tree), changes) == Progress(tree, ok)
      ensures old(tree).File? ==> !ok && tree == old(tree)
      ensures old(tree).Missing? && changes == [] ==> ok && tree == Directory(map[])
    {
      ok := CreateDirAll([]);
      if !ok {
        return;
      }
      var i := 0;
      while i < |changes|
        invariant 0 <= i <= |changes|
        invariant !old(tree).File?
        invariant AllChanged(WithDirs(old(tree), []), changes[..i]) == Progress(tree, true)
      {
        assert changes[..i + 1][..i] == changes[..i];
        ok := ApplyChange(changes[i]);
        if !ok {
          StoppedAt(WithDirs(old(tree), []), changes, i + 1);
          return;
        }
        i := i + 1;
      }
      assert changes[..i] == changes;
      ok := true;
    }
  }

  lemma {:induction false} StoppedAt(t: Image<Source>, changes: seq<Change>, i: nat)
    requires i <= |changes| && !AllChanged(t, changes[..i]).ok
    ensures AllChanged(t, changes) == AllChanged(t, changes[..i])
    decreases |changes|
  {
    var n := |changes| - 1;
    if i == |changes| {
      assert changes[..i] == changes;
    } else {
      assert changes[..n][..i] == changes[..i];
      StoppedAt(t, changes[..n], i);
    }
  }

  // ---------- what a tree shows ----------

  /** The link a map has for a path. */
  function At(m: Links, p: Path): Option<Source> {
    if Split(Join(p)) == p then Get(m, Join(p)) else None
  }

  /** The tree holds exactly these links, and otherwise only directories. */
  ghost predicate Shows(t: Image<Source>, m: Links) {
    forall p: Path :: FileAt(t, p) == At(m, p)
  }

  /** No link lies below another. */
  predicate PrefixFree(m: Links) {
    forall a, b :: a in m && b in m && Split(a) <= Split(b) ==> a == b
  }

  lemma {:induction false} AtKey(m: Links, key: string)
    ensures At(m, Split(key)) == Get(m, key)
  {
    JoinSplit(key);
  }

  lemma {:induction false} PrefixFreeAt(m: Links, p: Path, q: Path)
    requires PrefixFree(m) && p <= q && p != q && At(m, p).Some?
    ensures At(m, q).None?
  {
    if At(m, q).Some? {
      assert false;
    }
  }

  /** Only maps without such links can be shown. */
  lemma {:induction false} ShownPrefixFree(t: Image<Source>, m: Links)
    requires Shows(t, m)
    ensures PrefixFree(m)
  {
    forall a, b | a in m && b in m && Split(a) <= Split(b) ensures a == b {
      AtKey(m, a);
      AtKey(m, b);
      var p, q := Split(a), Split(b);
      assert FileAt(t, p) == At(m, p) && FileAt(t, q) == At(m, q);
      PresentHasParent(t, q);
      HasParentPrefix(t, p, q);
      SplitInjective(a, b);
    }
  }

  /** The leaf at `p` after the first changes, when none fails. */
  function Expected(before: Links, changes: seq<Change>, p: Path): Option<Source> {
    if changes == [] then At(before, p)
    else
      var c := changes[|changes| - 1];
      if Split(c.key) == p then c.after
      else if Split(c.key) <= p then None
      else Expected(before, changes[..|changes| - 1], p)
  }

  lemma {:induction false} ChangedLeaf(t: Image<Source>, c: Change, p: Path)
    ensures var r, q := Changed(t, c), Split(c.key);
            && (r.ok <==> c.after.None? || Open(Cleared(t, q), q[..|q| - 1]))
            && (r.ok ==> FileAt(r.tree, p) == if q == p then c.after else if q <= p then None else FileAt(t, p))
  {
    var q := Split(c.key);
    ClearedLeaf(t, q, p);
    if c.after.Some? && Open(Cleared(t, q), q[..|q| - 1]) {
      LinkedLeaf(Cleared(t, q), q, c.after.value, p);
    }
  }

  /** A change that is done stays done: nothing above it comes later. */
  lemma {:induction false} ExpectedDone(before: Links, changes: seq<Change>, i: nat)
    requires IncreasingChanges(changes) && i < |changes|
    ensures Expected(before, changes, Split(changes[i].key)) == changes[i].after
    decreases |changes|
  {
    var n := |changes| - 1;
    if i < n {
      LaterNotAbove(changes[i].key, changes[n].key);
      assert changes[..n][i] == changes[i];
      ExpectedDone(before, changes[..n], i);
    }
  }

  /** Everything else is as before, or was below a change. */
  lemma {:induction false} ExpectedElsewhere(before: Links, changes: seq<Change>, p: Path)
    requires forall i :: 0 <= i < |changes| ==> Split(changes[i].key) != p
    ensures Expected(before, changes, p) == At(before, p) ||
            (Expected(before, changes, p) == None && exists i :: 0 <= i < |changes| && Split(changes[i].key) <= p)
    ensures (exists i :: 0 <= i < |changes| && Split(changes[i].key) <= p) ==> Expected(before, changes, p) == None
    decreases |changes|
  {
    if changes != [] {
      var n := |changes| - 1;
      var front := changes[..n];
      assert forall i :: 0 <= i < n ==> front[i] == changes[i];
      ExpectedElsewhere(before, front, p);
      if Split(changes[n].key) <= p {
        assert Expected(before, changes, p) == None;
      } else if i :| 0 <= i < |front| && Split(front[i].key) <= p {
        assert Split(changes[i].key) <= p;
      }
    }
  }

  /** At a path that no change is for, both maps agree, and neither has a link
      there if a change lies above it. */
  lemma {:induction false} Unpatched(before: Links, after: Links, p: Path)
    requires PrefixFree(before) && PrefixFree(after)
    requires forall i :: 0 <= i < |Patch(before, after)| ==> Split(Patch(before, after)[i].key) != p
    ensures At(before, p) == At(after, p)
    ensures forall i :: 0 <= i < |Patch(before, after)| && Split(Patch(before, after)[i].key) <= p ==> At(after, p) == None
  {
    var changes := Patch(before, after);
    PatchMeans(before, after);
    if Split(Join(p)) == p && Get(before, Join(p)) != Get(after, Join(p)) {
      assert false;
    }
    forall i | 0 <= i < |changes| && Split(changes[i].key) <= p ensures At(after, p) == None {
      var c := changes[i];
      AtKey(before, c.key);
      AtKey(after, c.key);
      if c.after.Some? {
        PrefixFreeAt(after, Split(c.key), p);
      } else {
        PrefixFreeAt(before, Split(c.key), p);
      }
    }
  }

  /** All changes done, the new map is what is expected. */
  lemma {:induction false} ExpectedAll(before: Links, after: Links, p: Path)
    requires PrefixFree(before) && PrefixFree(after)
    ensures Expected(before, Patch(before, after), p) == At(after, p)
  {
    var changes := Patch(before, after);
    PatchMeans(before, after);
    if i :| 0 <= i < |changes| && Split(changes[i].key) == p {
      ExpectedDone(before, changes, i);
      AtKey(after, changes[i].key);
    } else {
      ExpectedElsewhere(before, changes, p);
      Unpatched(before, after, p);
    }
  }

  /** When its turn comes, nothing is in the way of a new link. */
  lemma {:induction false} NothingAbove(before: Links, after: Links, k: nat, p: Path)
    requires PrefixFree(before) && PrefixFree(after) && k < |Patch(before, after)|
    requires var c := Patch(before, after)[k]; c.after.Some? && p < Split(c.key)
    ensures Expected(before, Patch(before, after)[..k], p) == None
  {
    var changes := Patch(before, after);
    var c, done := changes[k], changes[..k];
    PatchMeans(before, after);
    assert forall i :: 0 <= i < k ==> done[i] == changes[i];
    AtKey(after, c.key);
    if At(after, p).Some? {
      PrefixFreeAt(after, p, Split(c.key));
      assert false;
    }
    if i :| 0 <= i < k && Split(done[i].key) == p {
      ExpectedDone(before, done, i);
      AtKey(after, done[i].key);
    } else {
      NoLaterAbove(changes, k, p);
      Unpatched(before, after, p);
      ExpectedElsewhere(before, done, p);
    }
  }

  lemma {:induction false} NoLaterAbove(changes: seq<Change>, k: nat, p: Path)
    requires IncreasingChanges(changes) && k < |changes| && p < Split(changes[k].key)
    requires forall i :: 0 <= i < k ==> Split(changes[i].key) != p
    ensures forall i :: 0 <= i < |changes| ==> Split(changes[i].key) != p
  {
    forall i | 0 <= i < |changes| ensures Split(changes[i].key) != p {
      if i > k {
        LaterNotAbove(changes[k].key, changes[i].key);
      }
    }
  }

  lemma {:induction false} ShownAtStart(t: Image<Source>, before: Links)
    requires Shows(t, before)
    ensures forall p: Path :: FileAt(t, p) == Expected(before, [], p)
  {
  }

  lemma {:induction false} OpenForLink(now: Image<Source>, before: Links, after: Links, k: nat)
    requires PrefixFree(before) && PrefixFree(after) && k < |Patch(before, after)| && Patch(before, after)[k].after.Some?
    requires forall p: Path :: FileAt(now, p) == Expected(before, Patch(before, after)[..k], p)
    ensures var q := Split(Patch(before, after)[k].key); Open(Cleared(now, q), q[..|q| - 1])
  {
    var q := Split(Patch(before, after)[k].key);
    var cleared, parent := Cleared(now, q), q[..|q| - 1];
    forall n | 0 <= n <= |parent| ensures FileAt(cleared, parent[..n]) == None {
      assert parent[..n] == q[..n];
      NothingAbove(before, after, k, q[..n]);
      ClearedLeaf(now, q, q[..n]);
    }
    OpenMeans(cleared, parent);
  }

  lemma {:induction false} AppliedSoFar(t: Image<Source>, before: Links, after: Links, k: nat)
    requires Shows(t, before) && PrefixFree(before) && PrefixFree(after) && k <= |Patch(before, after)|
    ensures AllChanged(t, Patch(before, after)[..k]).ok
    ensures forall p: Path :: FileAt(AllChanged(t, Patch(before, after)[..k]).tree, p) == Expected(before, Patch(before, after)[..k], p)
    decreases k
  {
    hide Patch, Changed, Cleared, Linked, PrefixFree, Shows, Open;
    var changes := Patch(before, after);
    if k == 0 {
      ShownAtStart(t, before);
    } else {
      var done, c := changes[..k - 1], changes[k - 1];
      AppliedSoFar(t, before, after, k - 1);
      assert changes[..k][..k - 1] == done;
      var now := AllChanged(t, done).tree;
      if c.after.Some? {
        OpenForLink(now, before, after, k - 1);
      }
      ChangedLeaf(now, c, []);
      forall p: Path ensures FileAt(Changed(now, c).tree, p) == Expected(before, changes[..k], p) {
        ChangedLeaf(now, c, p);
      }
    }
  }

  /** A planned patch, applied to a staging directory that holds the old links,
      leaves exactly the new ones, whatever directories are about; and it works
      out exactly when no new link lies below another. */
  lemma {:induction false} PatchCorrect(t: Image<Source>, before: Links, after: Links)
    requires Shows(t, before) && !t.File?
    ensures var r := Applied(t, Patch(before, after));
            r.ok && Shows(r.tree, after) <==> PrefixFree(after)
  {
    var changes, made := Patch(before, after), WithDirs(t, []);
    ShownPrefixFree(t, before);
    forall p: Path ensures FileAt(made, p) == FileAt(t, p) {
      WithDirsLeaf(t, [], p);
    }
    assert changes[..|changes|] == changes;
    if PrefixFree(after) {
      AppliedSoFar(made, before, after, |changes|);
      forall p: Path ensures FileAt(AllChanged(made, changes).tree, p) == At(after, p) {
        ExpectedAll(before, after, p);
      }
    } else if Applied(t, changes).ok && Shows(Applied(t, changes).tree, after) {
      ShownPrefixFree(Applied(t, changes).tree, after);
      assert false;
    }
  }

  /** Patching back restores the links. */
  lemma {:induction false} PatchBack(t: Image<Source>, before: Links, after: Links)
    requires Shows(t, before) && !t.File? && PrefixFree(after)
    ensures var there := Applied(t, Patch(before, after));
            var back := Applied(there.tree, Patch(after, before));
            there.ok && back.ok && Shows(back.tree, before)
  {
    PatchCorrect(t, before, after);
    ShownPrefixFree(t, before);
    var there := Applied(t, Patch(before, after)).tree;
    AppliedDirectory(t, Patch(before, after));
    PatchCorrect(there, after, before);
  }

  lemma {:induction false} AppliedDirectory(t: Image<Source>, changes: seq<Change>)
    requires !t.File?
    ensures Applied(t, changes).tree.Directory?
  {
    AllChangedOutside(WithDirs(t, []), changes, []);
  }

  // ---------- what a patch does not touch ----------

  /** The first component of each changed key. */
  function TouchedRoots(changes: seq<Change>): set<Name> {
    set c | c in changes && Split(c.key)[0] != "" :: Split(c.key)[0]
  }

  predicate Rooted(changes: seq<Change>) {
    forall c :: c in changes ==> Split(c.key)[0] != ""
  }

  lemma {:induction false} AllChangedOutside(t: Image<Source>, changes: seq<Change>, keep: seq<Name>)
    requires t.Directory?
    requires forall c, n :: c in changes && n in keep ==> Split(c.key)[0] != n
    ensures var r := AllChanged(t, changes).tree;
            r.Directory? && forall n :: n in keep ==> Child(r, n) == Child(t, n)
    decreases |changes|
  {
    if changes != [] {
      var front, last := changes[..|changes| - 1], changes[|changes| - 1];
      assert last in changes;
      AllChangedOutside(t, front, keep);
      ChangedOutside(AllChanged(t, front).tree, last, keep);
    }
  }

  lemma {:induction false} ChangedOutside(t: Image<Source>, c: Change, keep: seq<Name>)
    requires t.Directory?
    requires forall n :: n in keep ==> Split(c.key)[0] != n
    ensures var r := Changed(t, c).tree;
            r.Directory? && forall n :: n in keep ==> Child(r, n) == Child(t, n)
  {
    var p := Split(c.key);
    var cleared, parent := Cleared(t, p), p[..|p| - 1];
    assert cleared.Directory? && forall n :: n in keep ==> Child(cleared, n) == Child(t, n);
    if c.after.Some? && Open(cleared, parent) {
      var made := WithDirs(cleared, parent);
      assert made.Directory? && forall n :: n in keep ==> Child(made, n) == Child(cleared, n);
      assert Replace(made, p, File(c.after.value)).Directory?;
    }
  }

  /** Outside the touched roots nothing changes at all, whether the patch works
      out or not. */
  lemma {:induction false} UntouchedRoots(t: Image<Source>, changes: seq<Change>, n: Name)
    requires t.Directory? && Rooted(changes) && n !in TouchedRoots(changes)
    ensures Child(Applied(t, changes).tree, n) == Child(t, n)
  {
    assert WithDirs(t, []) == t;
    forall c | c in changes ensures Split(c.key)[0] != n {
    }
    AllChangedOutside(t, changes, [n]);
    assert n in [n];
  }

  // ---------- the counters ----------

  /** How many changes had a link before, or not, and have one after, or not:
      `added_count`, `removed_count` and `changed_count`. */
  function Count(changes: seq<Change>, had: bool, has: bool): nat {
    if changes == [] then 0
    else
      var c := changes[|changes| - 1];
      Count(changes[..|changes| - 1], had, has) + if c.before.Some? == had && c.after.Some? == has then 1 else 0
  }

  function Added(changes: seq<Change>): nat {
    Count(changes, false, true)
  }

  function Removed(changes: seq<Change>): nat {
    Count(changes, true, false)
  }

  function Replaced(changes: seq<Change>): nat {
    Count(changes, true, true)
  }

  /** The three counters count the keys that are new, gone, and different, and
      leave out no change. */
  lemma {:induction false} CountersMean(before: Links, after: Links)
    ensures var changes := Patch(before, after);
            && Added(changes) == |after.Keys - before.Keys|
            && Removed(changes) == |before.Keys - after.Keys|
            && Replaced(changes) == |set k | k in before && k in after && before[k] != after[k]|
            && Added(changes) + Removed(changes) + Replaced(changes) == |changes|
  {
    var keys := SortedKeys(before.Keys + after.Keys);
    SortedKeysOrder(before.Keys + after.Keys);
    PlannedCount(before, after, keys, false, true);
    PlannedCount(before, after, keys, true, false);
    PlannedCount(before, after, keys, true, true);
    DifferingKeys(before, after, keys);
    EveryKind(before, after, keys);
  }

  lemma {:induction false} DifferingKeys(before: Links, after: Links, keys: seq<string>)
    requires forall k :: k in keys <==> k in before.Keys + after.Keys
    ensures Differing(before, after, keys, false, true) == after.Keys - before.Keys
    ensures Differing(before, after, keys, true, false) == before.Keys - after.Keys
    ensures Differing(before, after, keys, true, true) == set k | k in before && k in after && before[k] != after[k]
  {
  }

  predicate Differs(before: Links, after: Links, k: string, had: bool, has: bool) {
    (k in before) == had && (k in after) == has && Get(before, k) != Get(after, k)
  }

  function Differing(before: Links, after: Links, keys: seq<string>, had: bool, has: bool): set<string> {
    set k | k in keys && Differs(before, after, k, had, has)
  }

  lemma {:induction false} CountSnoc(changes: seq<Change>, c: Change, had: bool, has: bool)
    ensures Count(changes + [c], had, has)
         == Count(changes, had, has) + if c.before.Some? == had && c.after.Some? == has then 1 else 0
  {
    assert (changes + [c])[..|changes|] == changes;
  }

  lemma {:induction false} DifferingSnoc(before: Links, after: Links, keys: seq<string>, key: string, had: bool, has: bool)
    requires key !in keys
    ensures |Differing(before, after, keys + [key], had, has)|
         == |Differing(before, after, keys, had, has)| + if Differs(before, after, key, had, has) then 1 else 0
  {
    hide Differs;
    var differing := Differing(before, after, keys, had, has);
    assert Differing(before, after, keys + [key], had, has)
        == if Differs(before, after, key, had, has) then differing + {key} else differing;
  }

  lemma {:induction false} PlannedCount(before: Links, after: Links, keys: seq<string>, had: bool, has: bool)
    requires Increasing(keys)
    ensures Count(Planned(before, after, keys), had, has) == |Differing(before, after, keys, had, has)|
    decreases |keys|
  {
    if keys == [] {
      assert Differing(before, after, keys, had, has) == {};
    } else {
      hide Count, Differing;
      var front, key := keys[..|keys| - 1], keys[|keys| - 1];
      PlannedCount(before, after, front, had, has);
      assert key !in front && front + [key] == keys;
      DifferingSnoc(before, after, front, key, had, has);
      CountSnoc(Planned(before, after, front), Change(key, Get(before, key), Get(after, key)), had, has);
    }
  }

  lemma {:induction false} EveryKind(before: Links, after: Links, keys: seq<string>)
    ensures var changes := Planned(before, after, keys);
            Added(changes) + Removed(changes) + Replaced(changes) == |changes|
  {
    if keys != [] {
      var front, key := keys[..|keys| - 1], keys[|keys| - 1];
      EveryKind(before, after, front);
      var rest, c := Planned(before, after, front), Change(key, Get(before, key), Get(after, key));
      CountSnoc(rest, c, false, true);
      CountSnoc(rest, c, true, false);
      CountSnoc(rest, c, true, true);
    }
  }
}
