/** The states, steps and specification of the multi-file transaction
    (crates/modde-manager/src/transaction.rs): what one primitive does to the
    destination tree and the staging directory, what a run of primitives
    keeps, and what committing and undoing operations does to a tree that
    nobody else writes. `Committing` holds the procedure itself. */
module Transaction {
  import opened Images
  import Bytes

  /** File contents: valid UTF-8 as its text, anything else as raw bytes. */
  datatype Content = Text(text: string) | Raw(bytes: Bytes.Text)

  type Tree = Image<Content>

  datatype Operation = Operation(path: Path, before: Tree, after: Tree, seed: bool)

  /** What `prepare` guarantees of the operations it hands over
      (`Preparation.PreparedAreValid`). */
  ghost predicate ValidOperations(ops: seq<Operation>) {
    && (forall i :: 0 <= i < |ops| ==> ops[i].path != [] && WellFormed(ops[i].before))
    && (forall i :: 0 <= i < |ops| ==> ops[i].after != Missing && WellFormed(ops[i].after))
    && (forall i :: 0 <= i < |ops| && ops[i].seed ==> ops[i].before == Missing && ops[i].after.File?)
    && (forall i, j :: 0 <= i < j < |ops| ==> !Overlap(ops[i].path, ops[j].path))
  }

  /** Names in the staging directory: `new-i`, `old-i`, `rolled-back-i`. */
  datatype Slot = New(index: nat) | Old(index: nat) | RolledBack(index: nat)

  datatype Location = At(path: Path) | In(slot: Slot)

  type Staging = map<Slot, Tree>

  function Stored(g: Staging, x: Slot): Tree {
    if x in g then g[x] else Missing
  }

  /** The slots of all operations but `i` are the same. */
  ghost predicate SameElsewhere(g: Staging, h: Staging, i: nat) {
    forall x: Slot :: x.index != i ==> Stored(g, x) == Stored(h, x)
  }

  datatype State = State(tree: Tree, staging: Staging) {
    function Get(l: Location): Tree {
      match l
      case At(p) => Lookup(tree, p)
      case In(x) => Stored(staging, x)
    }

    function Set(l: Location, i: Tree): State {
      match l
      case At(p) => this.(tree := Replace(tree, p, i))
      case In(x) => this.(staging := if i.Missing? then staging - {x} else staging[x := i])
    }

    predicate Room(l: Location) {
      l.At? ==> HasParent(tree, l.path)
    }

    /** The no-clobber rename succeeds only onto a free name. */
    predicate CanMove(from: Location, to: Location) {
      Get(from) != Missing && Get(to) == Missing && Room(to)
    }

    function Moved(from: Location, to: Location): State {
      Set(from, Missing).Set(to, Get(from))
    }

    ghost predicate Sound() {
      WellFormed(tree) && forall x :: x in staging ==> staging[x] != Missing && WellFormed(staging[x])
    }
  }

  /** One primitive that took effect, or a change by somebody else. */
  datatype Event =
    | Outside
    | Backup(i: nat)
    | Place(i: nat)
    | Seed(i: nat)
    | Retire(i: nat)
    | Restore(i: nat)
    | MakeDirectory(path: Path)
    | RemoveDirectory(path: Path)

  predicate Rename(ops: seq<Operation>, e: Event) {
    (e.Backup? || e.Place? || e.Retire? || e.Restore?) && e.i < |ops|
  }

  function From(ops: seq<Operation>, e: Event): Location
    requires Rename(ops, e)
  {
    match e
    case Place(i) => In(New(i))
    case Restore(i) => In(Old(i))
    case Backup(i) => At(ops[i].path)
    case Retire(i) => At(ops[i].path)
  }

  function To(ops: seq<Operation>, e: Event): Location
    requires Rename(ops, e)
  {
    match e
    case Place(i) => At(ops[i].path)
    case Restore(i) => At(ops[i].path)
    case Backup(i) => In(Old(i))
    case Retire(i) => In(RolledBack(i))
  }

  const EMPTY: Tree := Directory(map[])

  /** The effect of each event. Nobody else writes the staging directory. */
  ghost predicate Step(ops: seq<Operation>, s: State, e: Event, t: State) {
    match e
    case Outside => t.staging == s.staging && t.Sound()
    case Seed(i) =>
      i < |ops| && Stored(s.staging, New(i)).File? && s.CanMove(In(New(i)), At(ops[i].path)) &&
      t == s.Set(At(ops[i].path), Stored(s.staging, New(i)))
    case MakeDirectory(p) =>
      s.Get(At(p)) == Missing && HasParent(s.tree, p) && t == s.Set(At(p), EMPTY)
    case RemoveDirectory(p) =>
      s.Get(At(p)) == EMPTY && t == s.Set(At(p), Missing)
    case _ =>
      Rename(ops, e) && s.CanMove(From(ops, e), To(ops, e)) && t == s.Moved(From(ops, e), To(ops, e))
  }

  ghost predicate Run(ops: seq<Operation>, states: seq<State>, events: seq<Event>) {
    && |states| == |events| + 1
    && states[0].Sound()
    && forall k {:trigger events[k]} :: 0 <= k < |events| ==> Step(ops, states[k], events[k], states[k + 1])
  }

  // ---------- what every run keeps, whatever others do in between ----------

  /** An address of file content: a path of the tree, or a path inside a slot. */
  datatype Address = InTree(path: Path) | InSlot(slot: Slot, path: Path)

  function ContentAt(s: State, a: Address): Tree {
    match a
    case InTree(p) => Lookup(s.tree, p)
    case InSlot(x, p) => Lookup(Stored(s.staging, x), p)
  }

  /** Where a step takes what was at an address. */
  function Relocate(ops: seq<Operation>, e: Event, a: Address): Address {
    if !Rename(ops, e) then a
    else
      match (From(ops, e), To(ops, e))
      case (At(p), In(x)) => if a.InTree? && p <= a.path then InSlot(x, a.path[|p|..]) else a
      case (In(x), At(p)) => if a.InSlot? && x == a.slot then InTree(p + a.path) else a
      case _ => a
  }

  lemma {:induction false} MovedOut(s: State, p: Path, x: Slot, a: Address)
    requires s.CanMove(At(p), In(x)) && ContentAt(s, a).File?
    ensures ContentAt(s.Moved(At(p), In(x)), if a.InTree? && p <= a.path then InSlot(x, a.path[|p|..]) else a)
         == ContentAt(s, a)
  {
    PresentHasParent(s.tree, p);
    match a
    case InTree(q) =>
      if p <= q {
        LookupConcat(s.tree, p, q[|p|..]);
        assert p + q[|p|..] == q;
      } else if q <= p {
        LookupReplaceAbove(s.tree, p, Missing, q);
      } else {
        LookupReplaceOther(s.tree, p, Missing, q);
      }
    case InSlot(y, q) =>
      LookupMissing<Content>(q);
  }

  lemma {:induction false} MovedIn(s: State, x: Slot, p: Path, a: Address)
    requires s.CanMove(In(x), At(p)) && ContentAt(s, a).File?
    ensures ContentAt(s.Moved(In(x), At(p)), if a.InSlot? && x == a.slot then InTree(p + a.path) else a)
         == ContentAt(s, a)
  {
    match a
    case InTree(q) => PutKeepsFiles(s.tree, p, Stored(s.staging, x), q);
    case InSlot(y, q) =>
      LookupReplaceInside(s.tree, p, Stored(s.staging, x), q);
  }

  /** Filling a free name hides no file. */
  lemma {:induction false} PutKeepsFiles(t: Tree, p: Path, i: Tree, q: Path)
    requires HasParent(t, p) && Lookup(t, p) == Missing && Lookup(t, q).File?
    ensures Lookup(Replace(t, p, i), q) == Lookup(t, q)
  {
    if p <= q {
      LookupConcat(t, p, q[|p|..]);
      assert p + q[|p|..] == q;
      LookupMissing<Content>(q[|p|..]);
    } else if q <= p {
      LookupReplaceAbove(t, p, i, q);
    } else {
      LookupReplaceOther(t, p, i, q);
    }
  }

  lemma {:induction false} ClearKeepsFiles(t: Tree, p: Path, q: Path)
    requires Lookup(t, p) == EMPTY && Lookup(t, q).File?
    ensures Lookup(Replace(t, p, Missing), q) == Lookup(t, q)
  {
    PresentHasParent(t, p);
    if p <= q {
      LookupConcat(t, p, q[|p|..]);
      assert p + q[|p|..] == q;
      LookupEmpty<Content>(q[|p|..]);
    } else if q <= p {
      LookupReplaceAbove(t, p, Missing, q);
    } else {
      LookupReplaceOther(t, p, Missing, q);
    }
  }

  /** No step of the manager overwrites or deletes file content: every file is
      found unchanged where the step took it. */
  lemma {:induction false} StepKeepsFiles(ops: seq<Operation>, s: State, e: Event, t: State, a: Address)
    requires Step(ops, s, e, t) && e != Outside && ContentAt(s, a).File?
    ensures ContentAt(t, Relocate(ops, e, a)) == ContentAt(s, a)
  {
    match e
    case Backup(i) => MovedOut(s, ops[i].path, Old(i), a);
    case Retire(i) => MovedOut(s, ops[i].path, RolledBack(i), a);
    case Place(i) => MovedIn(s, New(i), ops[i].path, a);
    case Restore(i) => MovedIn(s, Old(i), ops[i].path, a);
    case Seed(i) => if a.InTree? { PutKeepsFiles(s.tree, ops[i].path, Stored(s.staging, New(i)), a.path); }
    case MakeDirectory(p) => if a.InTree? { PutKeepsFiles(s.tree, p, EMPTY, a.path); }
    case RemoveDirectory(p) => if a.InTree? { ClearKeepsFiles(s.tree, p, a.path); }
  }

  /** ... and no two files are taken to the same place. */
  lemma {:induction false} StepKeepsFilesApart(ops: seq<Operation>, s: State, e: Event, t: State, a: Address, b: Address)
    requires Step(ops, s, e, t) && e != Outside && a != b
    requires ContentAt(s, a).File? && ContentAt(s, b).File?
    ensures Relocate(ops, e, a) != Relocate(ops, e, b)
  {
    if Rename(ops, e) {
      match (From(ops, e), To(ops, e))
      case (At(p), In(x)) =>
        assert Stored(s.staging, x) == Missing;
        if a.InSlot? { LookupMissing<Content>(a.path); }
        if b.InSlot? { LookupMissing<Content>(b.path); }
        if a.InTree? && b.InTree? && p <= a.path && p <= b.path {
          assert a.path == p + a.path[|p|..] && b.path == p + b.path[|p|..];
        }
      case (In(x), At(p)) =>
        FreeHoldsNothing(s, p, a);
        FreeHoldsNothing(s, p, b);
        if a.InSlot? && b.InSlot? && a.slot == x == b.slot {
          assert (p + a.path)[|p|..] == a.path && (p + b.path)[|p|..] == b.path;
        }
      case _ =>
    }
  }

  lemma {:induction false} FreeHoldsNothing(s: State, p: Path, a: Address)
    requires s.Get(At(p)) == Missing && ContentAt(s, a).File?
    ensures a.InTree? ==> !(p <= a.path)
  {
    if a.InTree? && p <= a.path {
      LookupConcat(s.tree, p, a.path[|p|..]);
      assert p + a.path[|p|..] == a.path;
      LookupMissing<Content>(a.path[|p|..]);
    }
  }

  function RelocateAll(ops: seq<Operation>, events: seq<Event>, a: Address): Address {
    if events == [] then a else RelocateAll(ops, events[1..], Relocate(ops, events[0], a))
  }

  /** Whole runs: as long as nobody else writes, every file there was is still
      there at the end, at a place that the steps taken determine. */
  lemma {:induction false} RunKeepsFiles(ops: seq<Operation>, states: seq<State>, events: seq<Event>, a: Address)
    requires Run(ops, states, events) && Outside !in events && ContentAt(states[0], a).File?
    ensures ContentAt(states[|events|], RelocateAll(ops, events, a)) == ContentAt(states[0], a)
    decreases |events|
  {
    if events != [] {
      StepKeepsFiles(ops, states[0], events[0], states[1], a);
      StepSound(ops, states[0], events[0], states[1]);
      assert states[1..][|events[1..]|] == states[|events|];
      assert forall k :: 0 <= k < |events[1..]| ==> states[1..][k] == states[k + 1] && events[1..][k] == events[k + 1];
      RunKeepsFiles(ops, states[1..], events[1..], Relocate(ops, events[0], a));
    }
  }

  lemma {:induction false} StepSound(ops: seq<Operation>, s: State, e: Event, t: State)
    requires Step(ops, s, e, t) && s.Sound()
    ensures t.Sound()
  {
    match e
    case Outside =>
    case MakeDirectory(p) => ReplaceWellFormed(s.tree, p, EMPTY);
    case RemoveDirectory(p) => ReplaceWellFormed(s.tree, p, Missing);
    case Seed(i) => ReplaceWellFormed(s.tree, ops[i].path, Stored(s.staging, New(i)));
    case Place(i) => ReplaceWellFormed(s.tree, ops[i].path, Stored(s.staging, New(i)));
    case Restore(i) => ReplaceWellFormed(s.tree, ops[i].path, Stored(s.staging, Old(i)));
    case Backup(i) =>
      LookupWellFormed(s.tree, ops[i].path);
      ReplaceWellFormed(s.tree, ops[i].path, Missing);
    case Retire(i) =>
      LookupWellFormed(s.tree, ops[i].path);
      ReplaceWellFormed(s.tree, ops[i].path, Missing);
  }

  lemma {:induction false} RunSound(ops: seq<Operation>, states: seq<State>, events: seq<Event>, k: nat)
    requires Run(ops, states, events) && k <= |events|
    ensures states[k].Sound()
    decreases k
  {
    if k > 0 {
      RunSound(ops, states, events, k - 1);
      RunStep(ops, states, events, k - 1);
      StepSound(ops, states[k - 1], events[k - 1], states[k]);
    }
  }

  lemma {:induction false} RunStep(ops: seq<Operation>, states: seq<State>, events: seq<Event>, k: nat)
    requires Run(ops, states, events) && k < |events|
    ensures Step(ops, states[k], events[k], states[k + 1])
    ensures Rename(ops, events[k]) ==> events[k].i < |ops|
  {
  }

  /** The step `j` put the image `x` back at the destination of operation `i`. */
  ghost predicate PutBack(ops: seq<Operation>, states: seq<State>, events: seq<Event>, i: nat, j: nat, x: Tree)
    requires i < |ops| && j < |events| < |states|
  {
    events[j] == Restore(i) && states[j + 1].Get(At(ops[i].path)) == x
  }

  /** In every reachable state, the one a crash would leave included: what the
      commit moved away for an operation is at its `old-i`, or a later step has
      put it back at its destination. */
  lemma {:induction false} BackupSurvives(ops: seq<Operation>, states: seq<State>, events: seq<Event>, k: nat, m: nat)
    requires Run(ops, states, events)
    requires k < m <= |events| && events[k].Backup? && events[k].i < |ops|
    ensures var i, x := events[k].i, states[k].Get(At(ops[events[k].i].path));
            || Stored(states[m].staging, Old(i)) == x
            || exists j :: k < j < m && PutBack(ops, states, events, i, j, x)
    decreases m
  {
    var i, x := events[k].i, states[k].Get(At(ops[events[k].i].path));
    RunStep(ops, states, events, k);
    RunStep(ops, states, events, m - 1);
    if m > k + 1 {
      BackupSurvives(ops, states, events, k, m - 1);
      var s := states[m - 1];
      if Stored(s.staging, Old(i)) == x && events[m - 1] == Restore(i) {
        LookupReplaceSame(s.tree, ops[i].path, x);
        assert PutBack(ops, states, events, i, m - 1, x);
      }
    }
  }

  // ---------- a tree that nobody else writes ----------

  /** The tree with the directories of `ds` made, in this order. */
  ghost function Mkdirs(t: Tree, ds: seq<Path>): Tree {
    if ds == [] then t else Replace(Mkdirs(t, ds[..|ds| - 1]), ds[|ds| - 1], EMPTY)
  }

  ghost predicate MkdirsFit(t: Tree, ds: seq<Path>) {
    ds == [] ||
    var below, d := Mkdirs(t, ds[..|ds| - 1]), ds[|ds| - 1];
    MkdirsFit(t, ds[..|ds| - 1]) && HasParent(below, d) && Lookup(below, d) == Missing
  }

  ghost predicate Indices(ops: seq<Operation>, c: seq<nat>) {
    && (forall k :: 0 <= k < |c| ==> c[k] < |ops|)
    && (forall k, l :: 0 <= k < l < |c| ==> c[k] < c[l])
  }

  /** The tree with the operations `c` committed, in this order. */
  ghost function Puts(t: Tree, ops: seq<Operation>, c: seq<nat>): Tree
    requires Indices(ops, c)
  {
    if c == [] then t
    else var i := c[|c| - 1]; Replace(Puts(t, ops, c[..|c| - 1]), ops[i].path, ops[i].after)
  }

  ghost predicate PutsFit(t: Tree, ops: seq<Operation>, c: seq<nat>)
    requires Indices(ops, c)
  {
    c == [] ||
    var below, i := Puts(t, ops, c[..|c| - 1]), c[|c| - 1];
    PutsFit(t, ops, c[..|c| - 1]) && HasParent(below, ops[i].path) && Lookup(below, ops[i].path) == ops[i].before
  }

  lemma {:induction false} MkdirsSound(t: Tree, ds: seq<Path>)
    requires WellFormed(t)
    ensures WellFormed(Mkdirs(t, ds))
    decreases |ds|
  {
    if ds != [] {
      MkdirsSound(t, ds[..|ds| - 1]);
      ReplaceWellFormed(Mkdirs(t, ds[..|ds| - 1]), ds[|ds| - 1], EMPTY);
    }
  }

  lemma {:induction false} PutsSound(t: Tree, ops: seq<Operation>, c: seq<nat>)
    requires WellFormed(t) && ValidOperations(ops) && Indices(ops, c)
    ensures WellFormed(Puts(t, ops, c))
    decreases |c|
  {
    if c != [] {
      PutsSound(t, ops, c[..|c| - 1]);
      var i := c[|c| - 1];
      ReplaceWellFormed(Puts(t, ops, c[..|c| - 1]), ops[i].path, ops[i].after);
    }
  }

  /** Committing operations does not show at a path none of them overlaps. */
  lemma {:induction false} PutsElsewhere(t: Tree, ops: seq<Operation>, c: seq<nat>, q: Path)
    requires Indices(ops, c)
    requires forall k :: 0 <= k < |c| ==> !Overlap(ops[c[k]].path, q)
    ensures Lookup(Puts(t, ops, c), q) == Lookup(t, q)
    ensures HasParent(Puts(t, ops, c), q) == HasParent(t, q)
    decreases |c|
  {
    if c != [] {
      var d, i := c[..|c| - 1], c[|c| - 1];
      assert !Overlap(ops[c[|c| - 1]].path, q);
      assert forall k :: 0 <= k < |d| ==> d[k] == c[k];
      PutsElsewhere(t, ops, d, q);
      LookupReplaceOther(Puts(t, ops, d), ops[i].path, ops[i].after, q);
      HasParentReplaceOther(Puts(t, ops, d), ops[i].path, ops[i].after, q);
    }
  }

  lemma {:induction false} PutsAt(t: Tree, ops: seq<Operation>, c: seq<nat>, k: nat)
    requires ValidOperations(ops) && Indices(ops, c) && PutsFit(t, ops, c) && k < |c|
    ensures Lookup(Puts(t, ops, c), ops[c[k]].path) == ops[c[k]].after
    ensures HasParent(Puts(t, ops, c), ops[c[k]].path)
    decreases |c|
  {
    var d, i := c[..|c| - 1], c[|c| - 1];
    if k < |d| {
      PutsAt(t, ops, d, k);
      assert d[k] == c[k] < i;
      LookupReplaceOther(Puts(t, ops, d), ops[i].path, ops[i].after, ops[c[k]].path);
      HasParentReplaceOther(Puts(t, ops, d), ops[i].path, ops[i].after, ops[c[k]].path);
    } else {
      LookupReplaceSame(Puts(t, ops, d), ops[i].path, ops[i].after);
      ReplaceHasParent(Puts(t, ops, d), ops[i].path, ops[i].after);
    }
  }

  /** Making directories does not show except at and above them. */
  lemma {:induction false} MkdirsElsewhere(t: Tree, ds: seq<Path>, q: Path)
    requires MkdirsFit(t, ds)
    requires forall k :: 0 <= k < |ds| ==> !(q <= ds[k])
    ensures Lookup(Mkdirs(t, ds), q) == Lookup(t, q)
    decreases |ds|
  {
    if ds != [] {
      var below, d := Mkdirs(t, ds[..|ds| - 1]), ds[|ds| - 1];
      MkdirsElsewhere(t, ds[..|ds| - 1], q);
      assert !(q <= ds[|ds| - 1]);
      if d <= q {
        var rest := q[|d|..];
        assert d + rest == q;
        LookupReplaceInside(below, d, EMPTY, rest);
        LookupEmpty<Content>(rest);
        LookupConcat(below, d, rest);
        LookupMissing<Content>(rest);
      } else {
        LookupReplaceOther(below, d, EMPTY, q);
      }
    }
  }

  /** A directory made after some commits could have been made before them. */
  lemma {:induction false} MkdirUnderPuts(t: Tree, ops: seq<Operation>, c: seq<nat>, d: Path)
    requires ValidOperations(ops) && Indices(ops, c) && PutsFit(t, ops, c)
    requires HasParent(Puts(t, ops, c), d) && Lookup(Puts(t, ops, c), d) == Missing
    requires forall k :: 0 <= k < |c| ==> !Overlap(ops[c[k]].path, d)
    ensures HasParent(t, d) && Lookup(t, d) == Missing
    ensures PutsFit(Replace(t, d, EMPTY), ops, c)
    ensures Puts(Replace(t, d, EMPTY), ops, c) == Replace(Puts(t, ops, c), d, EMPTY)
    decreases |c|
  {
    if c != [] {
      var e, i := c[..|c| - 1], c[|c| - 1];
      assert forall k :: 0 <= k < |e| ==> e[k] == c[k];
      var p, below := ops[i].path, Puts(t, ops, e);
      assert !Overlap(ops[c[|c| - 1]].path, d);
      LookupReplaceOther(below, p, ops[i].after, d);
      HasParentReplaceOther(below, p, ops[i].after, d);
      MkdirUnderPuts(t, ops, e, d);
      ReplaceCommute(below, p, ops[i].after, d, EMPTY);
      LookupReplaceOther(below, d, EMPTY, p);
      HasParentReplaceOther(below, d, EMPTY, p);
    }
  }

  /** Taking the last commit back out, and its backup back in, undoes it. */
  lemma {:induction false} UndoLast(t: Tree, ops: seq<Operation>, c: seq<nat>)
    requires WellFormed(t) && ValidOperations(ops) && Indices(ops, c) && PutsFit(t, ops, c) && c != []
    ensures var i, all := c[|c| - 1], Puts(t, ops, c);
            && HasParent(all, ops[i].path)
            && Lookup(all, ops[i].path) == ops[i].after
            && Replace(Replace(all, ops[i].path, Missing), ops[i].path, ops[i].before) == Puts(t, ops, c[..|c| - 1])
            && (ops[i].before == Missing ==> Replace(all, ops[i].path, Missing) == Puts(t, ops, c[..|c| - 1]))
  {
    var d, i := c[..|c| - 1], c[|c| - 1];
    var p, below := ops[i].path, Puts(t, ops, d);
    PutsSound(t, ops, d);
    PutsAt(t, ops, c, |c| - 1);
    ReplaceTwice(below, p, ops[i].after, Missing);
    ReplaceTwice(below, p, Missing, ops[i].before);
    ReplaceSelf(below, p);
  }

  lemma {:induction false} UndoPending(t: Tree, p: Path)
    requires WellFormed(t) && Lookup(t, p) != Missing
    ensures Lookup(Replace(t, p, Missing), p) == Missing && HasParent(Replace(t, p, Missing), p)
    ensures Replace(Replace(t, p, Missing), p, Lookup(t, p)) == t
  {
    PresentHasParent(t, p);
    LookupReplaceSame(t, p, Missing);
    ReplaceHasParent(t, p, Missing);
    ReplaceTwice(t, p, Missing, Lookup(t, p));
    ReplaceSelf(t, p);
  }

  lemma {:induction false} RemoveLast(t: Tree, ds: seq<Path>)
    requires WellFormed(t) && MkdirsFit(t, ds) && ds != []
    ensures Lookup(Mkdirs(t, ds), ds[|ds| - 1]) == EMPTY
    ensures Replace(Mkdirs(t, ds), ds[|ds| - 1], Missing) == Mkdirs(t, ds[..|ds| - 1])
  {
    var below, d := Mkdirs(t, ds[..|ds| - 1]), ds[|ds| - 1];
    MkdirsSound(t, ds[..|ds| - 1]);
    LookupReplaceSame(below, d, EMPTY);
    ReplaceTwice(below, d, EMPTY, Missing);
    ReplaceSelf(below, d);
  }

  // ---------- how far a commit has got ----------

  /** A directory the commit may make: a proper prefix of a destination. */
  ghost predicate Above(ops: seq<Operation>, d: Path) {
    exists i :: 0 <= i < |ops| && d < ops[i].path
  }

  ghost predicate Skipped(ops: seq<Operation>, start: Tree, i: nat)
    requires i < |ops|
  {
    ops[i].seed && Lookup(start, ops[i].path).File?
  }

  /** With nobody else writing, `t` is the start with the directories `ds` made
      and the operations `c` committed. */
  ghost predicate Built(ops: seq<Operation>, start: Tree, t: Tree, ds: seq<Path>, c: seq<nat>) {
    && Indices(ops, c)
    && MkdirsFit(start, ds)
    && PutsFit(Mkdirs(start, ds), ops, c)
    && t == Puts(Mkdirs(start, ds), ops, c)
  }

  /** The originals of the operations `c` are in their backups. */
  ghost predicate Saved(ops: seq<Operation>, g: Staging, c: seq<nat>)
    requires Indices(ops, c)
  {
    forall i :: i in c ==>
      Stored(g, RolledBack(i)) == Missing && (ops[i].before != Missing ==> Stored(g, Old(i)) == ops[i].before)
  }

  /** The slots of the operations from `next` on are as they were staged. */
  ghost predicate Staged(ops: seq<Operation>, g: Staging, next: nat) {
    forall i: nat :: next <= i < |ops| ==>
      Stored(g, New(i)) == ops[i].after && Stored(g, Old(i)) == Missing && Stored(g, RolledBack(i)) == Missing
  }

  /** ... and all of it can be undone. */
  ghost predicate Recoverable(ops: seq<Operation>, start: Tree, s: State, ds: seq<Path>, c: seq<nat>) {
    Built(ops, start, s.tree, ds, c) && Saved(ops, s.staging, c)
  }

  /** ... and `c` is the first `next` operations but for the seeds whose file was
      already there. */
  ghost predicate Reached(ops: seq<Operation>, start: Tree, ds: seq<Path>, c: seq<nat>, next: nat) {
    && (forall i :: i in c ==> i < next)
    && (forall i: nat :: i < next && i < |ops| && i !in c ==> Skipped(ops, start, i))
    && (forall d :: d in ds ==> Above(ops, d))
  }

  ghost predicate Committed(ops: seq<Operation>, start: Tree, s: State, ds: seq<Path>, c: seq<nat>, next: nat) {
    && Recoverable(ops, start, s, ds, c)
    && Reached(ops, start, ds, c, next)
    && Staged(ops, s.staging, next)
  }

  /** ... and the original of operation `i` is on its way: at `old-i`, with
      nothing at its destination. */
  ghost predicate HalfMoved(ops: seq<Operation>, start: Tree, s: State, ds: seq<Path>, c: seq<nat>, i: nat) {
    && i < |ops| && i !in c
    && s.CanMove(In(Old(i)), At(ops[i].path))
    && Recoverable(ops, start, s.Moved(In(Old(i)), At(ops[i].path)), ds, c)
  }

  /** What a successful apply leaves behind for the operations it was given. */
  ghost predicate Converged(ops: seq<Operation>, start: Tree, t: Tree) {
    && (forall i :: 0 <= i < |ops| && !ops[i].seed ==> Lookup(t, ops[i].path) == ops[i].after)
    && (forall i :: 0 <= i < |ops| && ops[i].seed ==>
          Lookup(t, ops[i].path) == if Lookup(start, ops[i].path).File? then Lookup(start, ops[i].path) else ops[i].after)
    && (forall q: Path :: (forall i :: 0 <= i < |ops| ==> !Overlap(ops[i].path, q)) ==> Lookup(t, q) == Lookup(start, q))
  }

  /** A path none of the committed operations overlaps, and that no directory
      made lies under, shows what it showed at the start. */
  lemma {:induction false} CommittedElsewhere(ops: seq<Operation>, start: Tree, s: State, ds: seq<Path>, c: seq<nat>, next: nat, q: Path)
    requires Committed(ops, start, s, ds, c, next)
    requires forall k :: 0 <= k < |c| ==> !Overlap(ops[c[k]].path, q)
    requires forall k :: 0 <= k < |ds| ==> !(q <= ds[k])
    ensures Lookup(s.tree, q) == Lookup(start, q)
  {
    PutsElsewhere(Mkdirs(start, ds), ops, c, q);
    MkdirsElsewhere(start, ds, q);
  }

  lemma {:induction false} AboveMisses(ops: seq<Operation>, ds: seq<Path>, p: Path)
    requires forall d :: d in ds ==> Above(ops, d)
    requires forall j :: 0 <= j < |ops| ==> !(p < ops[j].path)
    ensures forall k :: 0 <= k < |ds| ==> !(p <= ds[k])
  {
    forall k | 0 <= k < |ds| ensures !(p <= ds[k]) {
      assert Above(ops, ds[k]);
    }
  }

  lemma {:induction false} DestinationsApart(ops: seq<Operation>, i: nat)
    requires ValidOperations(ops) && i < |ops|
    ensures forall j :: 0 <= j < |ops| ==> !(ops[i].path < ops[j].path)
  {
    forall j | 0 <= j < |ops| ensures !(ops[i].path < ops[j].path) {
      assert i != j ==> !Overlap(ops[i].path, ops[j].path);
    }
  }

  /** The destination of an operation still to come is as it was at the start. */
  lemma {:induction false} DestinationUntouched(ops: seq<Operation>, start: Tree, s: State, ds: seq<Path>, c: seq<nat>, next: nat, i: nat)
    requires ValidOperations(ops) && Committed(ops, start, s, ds, c, next) && i < |ops| && i !in c
    ensures Lookup(s.tree, ops[i].path) == Lookup(start, ops[i].path)
  {
    forall k | 0 <= k < |c| ensures !Overlap(ops[c[k]].path, ops[i].path) {
      assert c[k] in c;
    }
    DestinationsApart(ops, i);
    AboveMisses(ops, ds, ops[i].path);
    CommittedElsewhere(ops, start, s, ds, c, next, ops[i].path);
  }

  // ---------- nothing is in the way ----------

  /** Every destination is as it was prepared, or is a seed that exists, and no
      file lies above it. */
  ghost predicate Feasible(ops: seq<Operation>, t: Tree) {
    t.Directory? && forall i :: 0 <= i < |ops| ==> FeasibleOne(ops, t, i)
  }

  ghost predicate FeasibleOne(ops: seq<Operation>, t: Tree, i: nat)
    requires i < |ops|
  {
    !Blocked(t, ops[i].path) && (Lookup(t, ops[i].path) == ops[i].before || Skipped(ops, t, i))
  }

  /** Making directories makes no file and removes no directory. */
  lemma {:induction false} MkdirsKeepKinds(t: Tree, ds: seq<Path>, q: Path)
    requires MkdirsFit(t, ds)
    ensures !Lookup(t, q).File? ==> !Lookup(Mkdirs(t, ds), q).File?
    ensures Lookup(t, q).Directory? ==> Lookup(Mkdirs(t, ds), q).Directory?
    decreases |ds|
  {
    if ds != [] {
      var below, d := Mkdirs(t, ds[..|ds| - 1]), ds[|ds| - 1];
      MkdirsKeepKinds(t, ds[..|ds| - 1], q);
      if d <= q {
        var r := q[|d|..];
        assert d + r == q;
        LookupReplaceInside(below, d, EMPTY, r);
        LookupConcat(below, d, r);
        LookupMissing<Content>(r);
        if r != [] {
          LookupEmpty<Content>(r);
        }
      } else if q <= d {
        LookupReplaceAbove(below, d, EMPTY, q);
      } else {
        LookupReplaceOther(below, d, EMPTY, q);
      }
    }
  }

  /** Above an operation still to come there is no file: it is a directory above
      a committed one, or was made, or is as at the start. */
  lemma {:induction false} NoFileAbove(ops: seq<Operation>, start: Tree, s: State, ds: seq<Path>, c: seq<nat>, i: nat, q: Path)
    requires ValidOperations(ops) && Committed(ops, start, s, ds, c, i) && i < |ops| && q < ops[i].path
    requires !Lookup(start, q).File?
    ensures !Lookup(s.tree, q).File?
  {
    var base := Mkdirs(start, ds);
    if k :| 0 <= k < |c| && q <= ops[c[k]].path {
      PutsAt(base, ops, c, k);
      assert c[k] in c && !Overlap(ops[c[k]].path, ops[i].path);
      HasParentPrefix(s.tree, q, ops[c[k]].path);
    } else {
      forall k | 0 <= k < |c| ensures !Overlap(ops[c[k]].path, q) {
        assert c[k] in c && !Overlap(ops[c[k]].path, ops[i].path);
      }
      PutsElsewhere(base, ops, c, q);
      MkdirsKeepKinds(start, ds, q);
    }
  }

  /** So nothing is in its way, and the root is still a directory. */
  lemma {:induction false} WayFree(ops: seq<Operation>, start: Tree, s: State, ds: seq<Path>, c: seq<nat>, i: nat)
    requires ValidOperations(ops) && Committed(ops, start, s, ds, c, i) && i < |ops|
    requires start.Directory? && !Blocked(start, ops[i].path)
    ensures s.tree.Directory? && !Blocked(s.tree, ops[i].path)
    ensures forall q :: q < ops[i].path ==> !Lookup(s.tree, q).File?
  {
    var p := ops[i].path;
    BlockedMeans(start, p);
    BlockedMeans(s.tree, p);
    forall q | q < p ensures !Lookup(s.tree, q).File? {
      assert p[..|q|] == q;
      NoFileAbove(ops, start, s, ds, c, i, q);
    }
    RootStays(ops, start, s, ds, c);
  }

  lemma {:induction false} RootStays(ops: seq<Operation>, start: Tree, s: State, ds: seq<Path>, c: seq<nat>)
    requires ValidOperations(ops) && Built(ops, start, s.tree, ds, c) && start.Directory?
    ensures s.tree.Directory?
  {
    var base := Mkdirs(start, ds);
    MkdirsKeepKinds(start, ds, []);
    if c != [] {
      PutsAt(base, ops, c, 0);
      assert [] < ops[c[0]].path;
      HasParentPrefix(s.tree, [], ops[c[0]].path);
    }
  }

  /** A commit that got through all operations has converged. */
  lemma {:induction false} CommittedConverges(ops: seq<Operation>, start: Tree, s: State, ds: seq<Path>, c: seq<nat>)
    requires ValidOperations(ops) && Committed(ops, start, s, ds, c, |ops|)
    ensures Converged(ops, start, s.tree)
  {
    var base := Mkdirs(start, ds);
    forall i: nat | i < |ops|
      ensures i in c ==> Lookup(s.tree, ops[i].path) == ops[i].after && (ops[i].seed ==> Lookup(start, ops[i].path) == Missing)
      ensures i !in c ==> Lookup(s.tree, ops[i].path) == Lookup(start, ops[i].path)
    {
      if i in c {
        var k :| 0 <= k < |c| && c[k] == i;
        PutsAt(base, ops, c, k);
        if ops[i].seed {
          BeforeAtStart(ops, start, ds, c, k);
        }
      } else {
        DestinationUntouched(ops, start, s, ds, c, |ops|, i);
      }
    }
    forall q: Path | forall i :: 0 <= i < |ops| ==> !Overlap(ops[i].path, q)
      ensures Lookup(s.tree, q) == Lookup(start, q)
    {
      AboveMisses(ops, ds, q);
      CommittedElsewhere(ops, start, s, ds, c, |ops|, q);
    }
  }

  /** What an operation replaced is what the start had there. */
  lemma {:induction false} BeforeAtStart(ops: seq<Operation>, start: Tree, ds: seq<Path>, c: seq<nat>, k: nat)
    requires ValidOperations(ops) && Indices(ops, c) && k < |c|
    requires MkdirsFit(start, ds) && (forall d :: d in ds ==> Above(ops, d))
    requires PutsFit(Mkdirs(start, ds), ops, c)
    ensures Lookup(start, ops[c[k]].path) == ops[c[k]].before
    decreases |c|
  {
    var d, p := c[..|c| - 1], ops[c[k]].path;
    if k < |d| {
      assert d[k] == c[k];
      BeforeAtStart(ops, start, ds, d, k);
    } else {
      forall l | 0 <= l < |d| ensures !Overlap(ops[d[l]].path, p) {
        assert d[l] == c[l] < c[k];
      }
      PutsElsewhere(Mkdirs(start, ds), ops, d, p);
      DestinationsApart(ops, c[k]);
      AboveMisses(ops, ds, p);
      MkdirsElsewhere(start, ds, p);
    }
  }

  /** An absent directory on the way to an operation still to come lies neither
      above nor below any committed one. */
  lemma {:induction false} NewDirectoryApart(ops: seq<Operation>, base: Tree, c: seq<nat>, i: nat, d: Path, k: nat)
    requires ValidOperations(ops) && Indices(ops, c) && PutsFit(base, ops, c)
    requires i < |ops| && i !in c && d < ops[i].path && Lookup(Puts(base, ops, c), d) == Missing
    requires k < |c|
    ensures !Overlap(ops[c[k]].path, d)
  {
    assert c[k] in c;
    assert !Overlap(ops[c[k]].path, ops[i].path);
    PutsAt(base, ops, c, k);
    if d < ops[c[k]].path {
      HasParentPrefix(Puts(base, ops, c), d, ops[c[k]].path);
    }
  }

  lemma {:induction false} BuiltWithDirectory(ops: seq<Operation>, start: Tree, t: Tree, ds: seq<Path>, c: seq<nat>, d: Path)
    requires ValidOperations(ops) && Built(ops, start, t, ds, c)
    requires HasParent(t, d) && Lookup(t, d) == Missing
    requires forall k :: 0 <= k < |c| ==> !Overlap(ops[c[k]].path, d)
    ensures Built(ops, start, Replace(t, d, EMPTY), ds + [d], c)
  {
    MkdirUnderPuts(Mkdirs(start, ds), ops, c, d);
    assert (ds + [d])[..|ds + [d]| - 1] == ds;
  }

  /** Making a directory on the way to the next operation keeps the commit on track. */
  lemma {:induction false} DirectoryMade(ops: seq<Operation>, start: Tree, s: State, ds: seq<Path>, c: seq<nat>, i: nat, d: Path)
    requires ValidOperations(ops) && Committed(ops, start, s, ds, c, i) && i < |ops| && d < ops[i].path
    requires HasParent(s.tree, d) && Lookup(s.tree, d) == Missing
    ensures Committed(ops, start, s.Set(At(d), EMPTY), ds + [d], c, i)
  {
    forall k | 0 <= k < |c| ensures !Overlap(ops[c[k]].path, d) {
      NewDirectoryApart(ops, Mkdirs(start, ds), c, i, d, k);
    }
    BuiltWithDirectory(ops, start, s.tree, ds, c, d);
    assert Above(ops, d);
  }

  lemma {:induction false} IndicesGrow(ops: seq<Operation>, c: seq<nat>, i: nat)
    requires Indices(ops, c) && i < |ops| && forall k :: k in c ==> k < i
    ensures Indices(ops, c + [i])
  {
    forall k | 0 <= k < |c| ensures c[k] < i {
      assert c[k] in c;
    }
  }

  lemma {:induction false} SavedGrows(ops: seq<Operation>, g: Staging, h: Staging, c: seq<nat>, i: nat)
    requires Indices(ops, c) && i < |ops| && (forall k :: k in c ==> k < i) && Indices(ops, c + [i])
    requires Saved(ops, g, c) && SameElsewhere(g, h, i)
    requires Stored(h, RolledBack(i)) == Missing && Stored(h, Old(i)) == ops[i].before
    ensures Saved(ops, h, c + [i])
  {
    forall j | j in c + [i]
      ensures Stored(h, RolledBack(j)) == Missing && (ops[j].before != Missing ==> Stored(h, Old(j)) == ops[j].before)
    {
      assert j in c || j == i;
    }
  }

  lemma {:induction false} BuiltGrows(ops: seq<Operation>, start: Tree, t: Tree, ds: seq<Path>, c: seq<nat>, i: nat)
    requires Built(ops, start, t, ds, c) && i < |ops| && Indices(ops, c + [i])
    requires HasParent(t, ops[i].path) && Lookup(t, ops[i].path) == ops[i].before
    ensures Built(ops, start, Replace(t, ops[i].path, ops[i].after), ds, c + [i])
  {
    assert (c + [i])[..|c + [i]| - 1] == c;
  }

  lemma {:induction false} ReachedGrows(ops: seq<Operation>, start: Tree, ds: seq<Path>, c: seq<nat>, i: nat)
    requires Reached(ops, start, ds, c, i) && i < |ops|
    ensures Reached(ops, start, ds, c + [i], i + 1)
  {
    forall j: nat | j < i + 1 && j < |ops| && j !in c + [i] ensures Skipped(ops, start, j) {
      assert (c + [i])[|c|] == i;
      assert j !in c;
    }
  }

  lemma {:induction false} StagedShrinks(ops: seq<Operation>, g: Staging, h: Staging, i: nat)
    requires Staged(ops, g, i) && SameElsewhere(g, h, i)
    ensures Staged(ops, h, i + 1)
  {
  }

  /** An operation whose payload is in place counts as committed. */
  lemma {:induction false} OperationPlaced(ops: seq<Operation>, start: Tree, s: State, ds: seq<Path>, c: seq<nat>, i: nat, t: State)
    requires ValidOperations(ops) && Committed(ops, start, s, ds, c, i) && i < |ops|
    requires HasParent(s.tree, ops[i].path) && Lookup(s.tree, ops[i].path) == ops[i].before
    requires t.tree == Replace(s.tree, ops[i].path, ops[i].after)
    requires SameElsewhere(s.staging, t.staging, i)
    requires Stored(t.staging, RolledBack(i)) == Missing && Stored(t.staging, Old(i)) == ops[i].before
    ensures Committed(ops, start, t, ds, c + [i], i + 1)
  {
    IndicesGrow(ops, c, i);
    BuiltGrows(ops, start, s.tree, ds, c, i);
    SavedGrows(ops, s.staging, t.staging, c, i);
    ReachedGrows(ops, start, ds, c, i);
    StagedShrinks(ops, s.staging, t.staging, i);
  }

  // ---------- undoing ----------

  datatype Undoing = Undone(state: State) | Refused(state: State, index: nat)

  /** Undoing one operation: its payload to `rolled-back-i`, its backup home. */
  function UndoOne(ops: seq<Operation>, s: State, i: nat): State
    requires i < |ops|
  {
    var r := s.Moved(At(ops[i].path), In(RolledBack(i)));
    if ops[i].before == Missing then r else r.Moved(In(Old(i)), At(ops[i].path))
  }

  /** The rollback of the operations `c`, last one first, with no primitive failing. */
  function Undo(ops: seq<Operation>, s: State, c: seq<nat>): Undoing
    requires Indices(ops, c)
    decreases |c|
  {
    if c == [] then Undone(s)
    else
      var i := c[|c| - 1];
      if s.Get(At(ops[i].path)) != ops[i].after then Refused(s, i)
      else Undo(ops, UndoOne(ops, s, i), c[..|c| - 1])
  }

  /** Every committed operation has a free `rolled-back-i`, and its original, if
      it replaced one, is at `old-i`. */
  ghost predicate Held(ops: seq<Operation>, g: Staging, c: seq<nat>)
    requires Indices(ops, c)
  {
    forall i :: i in c ==>
      Stored(g, RolledBack(i)) == Missing && (ops[i].before != Missing ==> Stored(g, Old(i)) != Missing)
  }

  lemma {:induction false} UndoOneSteps(ops: seq<Operation>, s: State, i: nat)
    requires ValidOperations(ops) && i < |ops| && s.Sound()
    requires s.Get(At(ops[i].path)) == ops[i].after && Stored(s.staging, RolledBack(i)) == Missing
    requires ops[i].before != Missing ==> Stored(s.staging, Old(i)) != Missing
    ensures s.CanMove(At(ops[i].path), In(RolledBack(i)))
    ensures var r := s.Moved(At(ops[i].path), In(RolledBack(i)));
            ops[i].before != Missing ==> r.CanMove(In(Old(i)), At(ops[i].path)) && Stored(r.staging, Old(i)) == Stored(s.staging, Old(i))
    ensures Lookup(UndoOne(ops, s, i).tree, ops[i].path) == if ops[i].before == Missing then Missing else Stored(s.staging, Old(i))
    ensures SameElsewhere(s.staging, UndoOne(ops, s, i).staging, i)
    ensures UndoOne(ops, s, i).Sound()
  {
    var p := ops[i].path;
    UndoPending(s.tree, p);
    var t := Replace(s.tree, p, Missing);
    var o := Stored(s.staging, Old(i));
    LookupReplaceSame(t, p, o);
    LookupWellFormed(s.tree, p);
    ReplaceWellFormed(s.tree, p, Missing);
    ReplaceWellFormed(t, p, o);
  }

  lemma {:induction false} UndoOneElsewhere(ops: seq<Operation>, s: State, i: nat, q: Path)
    requires i < |ops| && !Overlap(ops[i].path, q)
    ensures Lookup(UndoOne(ops, s, i).tree, q) == Lookup(s.tree, q)
  {
    var p := ops[i].path;
    LookupReplaceOther(s.tree, p, Missing, q);
    LookupReplaceOther(Replace(s.tree, p, Missing), p, Stored(s.staging, Old(i)), q);
    LookupReplaceOther(Replace(s.tree, p, Missing), p, Missing, q);
  }

  lemma {:induction false} UndoPuts(ops: seq<Operation>, base: Tree, s: State, c: seq<nat>)
    requires ValidOperations(ops) && WellFormed(base) && s.Sound() && Indices(ops, c)
    requires PutsFit(base, ops, c) && s.tree == Puts(base, ops, c)
    requires Saved(ops, s.staging, c)
    ensures Undo(ops, s, c).Undone? && Undo(ops, s, c).state.tree == base
    decreases |c|
  {
    if c != [] {
      var i, d := c[|c| - 1], c[..|c| - 1];
      assert i in c;
      UndoLast(base, ops, c);
      UndoOneSteps(ops, s, i);
      forall j | j in d ensures j in c && j != i {
        var k :| 0 <= k < |d| && d[k] == j;
        assert c[k] == j < c[|c| - 1];
      }
      UndoPuts(ops, base, UndoOne(ops, s, i), d);
    }
  }

  /** Rollback is exact: with nobody else writing it never refuses, and it leaves
      the start with only the created directories still to be removed. */
  lemma {:induction false} UndoRestores(ops: seq<Operation>, start: Tree, s: State, ds: seq<Path>, c: seq<nat>)
    requires ValidOperations(ops) && WellFormed(start) && s.Sound()
    requires Recoverable(ops, start, s, ds, c)
    ensures Undo(ops, s, c).Undone? && Undo(ops, s, c).state.tree == Mkdirs(start, ds)
  {
    MkdirsSound(start, ds);
    UndoPuts(ops, Mkdirs(start, ds), s, c);
  }

  /** How many of the operations `c`, from the front, a rollback leaves alone:
      all up to the last one whose destination no longer holds its payload. */
  function Cut(ops: seq<Operation>, s: State, c: seq<nat>): (cut: nat)
    requires Indices(ops, c)
    ensures cut <= |c|
    decreases |c|
  {
    if c == [] then 0
    else if s.Get(At(ops[c[|c| - 1]].path)) != ops[c[|c| - 1]].after then |c|
    else Cut(ops, s, c[..|c| - 1])
  }

  /** The cut is at the last destination that changed. */
  lemma {:induction false} CutMeaning(ops: seq<Operation>, s: State, c: seq<nat>, k: nat)
    requires Indices(ops, c) && k < |c|
    ensures Cut(ops, s, c) <= k ==> s.Get(At(ops[c[k]].path)) == ops[c[k]].after
    ensures Cut(ops, s, c) == k + 1 ==> s.Get(At(ops[c[k]].path)) != ops[c[k]].after
    decreases |c|
  {
    if s.Get(At(ops[c[|c| - 1]].path)) == ops[c[|c| - 1]].after && k < |c| - 1 {
      assert c[..|c| - 1][k] == c[k];
      CutMeaning(ops, s, c[..|c| - 1], k);
    }
  }

  /** One undone operation leaves the rest to undo, and the cut, as they were. */
  lemma {:induction false} UndoStep(ops: seq<Operation>, s: State, c: seq<nat>)
    requires ValidOperations(ops) && Indices(ops, c) && s.Sound() && Held(ops, s.staging, c)
    requires c != [] && s.Get(At(ops[c[|c| - 1]].path)) == ops[c[|c| - 1]].after
    ensures UndoOne(ops, s, c[|c| - 1]).Sound()
    ensures Held(ops, UndoOne(ops, s, c[|c| - 1]).staging, c[..|c| - 1])
    ensures Cut(ops, UndoOne(ops, s, c[|c| - 1]), c[..|c| - 1]) == Cut(ops, s, c)
  {
    hide ValidOperations, Lookup;
    var i, d := c[|c| - 1], c[..|c| - 1];
    var r := UndoOne(ops, s, i);
    assert i in c;
    UndoOneSteps(ops, s, i);
    forall k | 0 <= k < |d| ensures r.Get(At(ops[d[k]].path)) == s.Get(At(ops[d[k]].path)) {
      EarlierApart(ops, c, k);
      UndoOneElsewhere(ops, s, i, ops[d[k]].path);
    }
    CutStable(ops, s, r, d);
    forall j | j in d
      ensures Stored(r.staging, RolledBack(j)) == Missing && (ops[j].before != Missing ==> Stored(r.staging, Old(j)) != Missing)
    {
      var k :| 0 <= k < |d| && d[k] == j;
      EarlierApart(ops, c, k);
      assert j in c;
    }
  }

  lemma {:induction false} EarlierApart(ops: seq<Operation>, c: seq<nat>, k: nat)
    requires ValidOperations(ops) && Indices(ops, c) && k < |c| - 1
    ensures c[..|c| - 1][k] == c[k] < c[|c| - 1]
    ensures !Overlap(ops[c[|c| - 1]].path, ops[c[k]].path)
  {
    assert !Overlap(ops[c[k]].path, ops[c[|c| - 1]].path);
  }

  /** A rollback in which no primitive fails refuses exactly at the last changed
      destination. That destination, all earlier ones, and everything else that
      no later operation overlaps are untouched. */
  lemma {:induction false} UndoElsewhere(ops: seq<Operation>, s: State, c: seq<nat>, q: Path)
    requires ValidOperations(ops) && Indices(ops, c) && s.Sound() && Held(ops, s.staging, c)
    requires forall k :: Cut(ops, s, c) <= k < |c| ==> !Overlap(ops[c[k]].path, q)
    ensures Lookup(Undo(ops, s, c).state.tree, q) == Lookup(s.tree, q)
    ensures Undo(ops, s, c).Refused? <==> Cut(ops, s, c) > 0
    ensures Undo(ops, s, c).Refused? ==> Undo(ops, s, c).index == c[Cut(ops, s, c) - 1]
    decreases |c|
  {
    if c != [] && s.Get(At(ops[c[|c| - 1]].path)) == ops[c[|c| - 1]].after {
      var i, d := c[|c| - 1], c[..|c| - 1];
      var r := UndoOne(ops, s, i);
      UndoStep(ops, s, c);
      assert !Overlap(ops[c[|c| - 1]].path, q);
      UndoOneElsewhere(ops, s, i, q);
      forall k | Cut(ops, r, d) <= k < |d| ensures !Overlap(ops[d[k]].path, q) {
        assert d[k] == c[k];
      }
      UndoElsewhere(ops, r, d, q);
    }
  }

  /** ... the originals of the operations it leaves alone are still backed up ... */
  lemma {:induction false} UndoKeepsBackups(ops: seq<Operation>, s: State, c: seq<nat>, k: nat)
    requires ValidOperations(ops) && Indices(ops, c) && s.Sound() && Held(ops, s.staging, c)
    requires k < Cut(ops, s, c)
    ensures Stored(Undo(ops, s, c).state.staging, Old(c[k])) == Stored(s.staging, Old(c[k]))
    decreases |c|
  {
    if c != [] && s.Get(At(ops[c[|c| - 1]].path)) == ops[c[|c| - 1]].after {
      var i, d := c[|c| - 1], c[..|c| - 1];
      UndoStep(ops, s, c);
      EarlierApart(ops, c, k);
      assert i in c;
      UndoOneSteps(ops, s, i);
      UndoKeepsBackups(ops, UndoOne(ops, s, i), d, k);
    }
  }

  lemma {:induction false} UndoReachesLast(ops: seq<Operation>, s: State, c: seq<nat>)
    requires ValidOperations(ops) && Indices(ops, c) && s.Sound() && Held(ops, s.staging, c)
    requires c != [] && Cut(ops, s, c) < |c|
    ensures Lookup(Undo(ops, s, c).state.tree, ops[c[|c| - 1]].path)
         == Lookup(UndoOne(ops, s, c[|c| - 1]).tree, ops[c[|c| - 1]].path)
  {
    var i, d := c[|c| - 1], c[..|c| - 1];
    UndoStep(ops, s, c);
    forall l | 0 <= l < |d| ensures !Overlap(ops[d[l]].path, ops[i].path) {
      EarlierApart(ops, c, l);
    }
    UndoElsewhere(ops, UndoOne(ops, s, i), d, ops[i].path);
  }

  /** ... and every later operation is undone: its destination holds what was
      backed up, or nothing if it replaced nothing. */
  lemma {:induction false} UndoReaches(ops: seq<Operation>, s: State, c: seq<nat>, k: nat)
    requires ValidOperations(ops) && Indices(ops, c) && s.Sound() && Held(ops, s.staging, c)
    requires Cut(ops, s, c) <= k < |c|
    ensures Lookup(Undo(ops, s, c).state.tree, ops[c[k]].path)
         == if ops[c[k]].before == Missing then Missing else Stored(s.staging, Old(c[k]))
    decreases |c|
  {
    hide ValidOperations, Lookup;
    var i, d := c[|c| - 1], c[..|c| - 1];
    UndoStep(ops, s, c);
    assert i in c;
    UndoOneSteps(ops, s, i);
    if k < |d| {
      EarlierApart(ops, c, k);
      UndoReaches(ops, UndoOne(ops, s, i), d, k);
    } else {
      UndoReachesLast(ops, s, c);
    }
  }

  lemma {:induction false} CutStable(ops: seq<Operation>, s: State, r: State, c: seq<nat>)
    requires Indices(ops, c)
    requires forall k :: 0 <= k < |c| ==> r.Get(At(ops[c[k]].path)) == s.Get(At(ops[c[k]].path))
    ensures Cut(ops, r, c) == Cut(ops, s, c)
    decreases |c|
  {
    if c != [] {
      assert forall k :: 0 <= k < |c| - 1 ==> c[..|c| - 1][k] == c[k];
      CutStable(ops, s, r, c[..|c| - 1]);
    }
  }

  /** Undoing an operation removes no directory outside its destination. */
  lemma {:induction false} UndoOneDirectory(ops: seq<Operation>, s: State, i: nat, q: Path)
    requires i < |ops| && s.Get(At(ops[i].path)) == ops[i].after && ops[i].after != Missing
    requires !(ops[i].path <= q) && Lookup(s.tree, q).Directory?
    ensures Lookup(UndoOne(ops, s, i).tree, q).Directory?
  {
    var p := ops[i].path;
    if q <= p {
      PresentHasParent(s.tree, p);
      LookupReplaceAbove(s.tree, p, Missing, q);
      ReplaceHasParent(s.tree, p, Missing);
      LookupReplaceAbove(Replace(s.tree, p, Missing), p, Stored(s.staging, Old(i)), q);
    } else {
      UndoOneElsewhere(ops, s, i, q);
    }
  }

  /** ... no directory outside the destinations undone goes, so all that the
      commit made are left ... */
  lemma {:induction false} UndoLeavesDirectories(ops: seq<Operation>, s: State, c: seq<nat>, q: Path)
    requires ValidOperations(ops) && Indices(ops, c) && s.Sound() && Held(ops, s.staging, c)
    requires forall k :: Cut(ops, s, c) <= k < |c| ==> !(ops[c[k]].path <= q)
    requires Lookup(s.tree, q).Directory?
    ensures Lookup(Undo(ops, s, c).state.tree, q).Directory?
    decreases |c|
  {
    if c != [] && s.Get(At(ops[c[|c| - 1]].path)) == ops[c[|c| - 1]].after {
      var i, d := c[|c| - 1], c[..|c| - 1];
      var r := UndoOne(ops, s, i);
      UndoStep(ops, s, c);
      UndoOneDirectory(ops, s, i, q);
      forall k | Cut(ops, r, d) <= k < |d| ensures !(ops[d[k]].path <= q) {
        assert d[k] == c[k];
      }
      UndoLeavesDirectories(ops, r, d, q);
    }
  }

  /** The operation `k` of `c` is undone. */
  predicate IsUndone(ops: seq<Operation>, s: State, c: seq<nat>, t: State, k: nat)
    requires Indices(ops, c) && k < |c|
  {
    Lookup(t.tree, ops[c[k]].path) == if ops[c[k]].before == Missing then Missing else Stored(s.staging, Old(c[k]))
  }

  /** The operation `k` of `c` is left alone, with its original. */
  predicate IsLeft(ops: seq<Operation>, s: State, c: seq<nat>, t: State, k: nat)
    requires Indices(ops, c) && k < |c|
  {
    && Lookup(t.tree, ops[c[k]].path) == Lookup(s.tree, ops[c[k]].path)
    && Stored(t.staging, Old(c[k])) == Stored(s.staging, Old(c[k]))
  }

  /** The operations of `c` from number `cut` on lie neither at nor above `q`. */
  ghost predicate NotBelow(ops: seq<Operation>, c: seq<nat>, cut: nat, q: Path)
    requires Indices(ops, c)
  {
    forall k :: cut <= k < |c| ==> !(ops[c[k]].path <= q)
  }

  /** What a rollback leaves that no primitive stopped: `cut` operations left
      alone, the later ones undone, and no directory gone but inside those. */
  ghost predicate StoppedAt(ops: seq<Operation>, s: State, c: seq<nat>, t: State, cut: nat)
    requires Indices(ops, c) && cut <= |c|
  {
    && (forall k :: cut <= k < |c| ==> IsUndone(ops, s, c, t, k))
    && (forall k :: 0 <= k < cut ==> IsLeft(ops, s, c, t, k))
    && (forall q: Path :: Lookup(s.tree, q).Directory? && NotBelow(ops, c, cut, q) ==> Lookup(t.tree, q).Directory?)
  }

  lemma {:induction false} UndoStops(ops: seq<Operation>, s: State, c: seq<nat>)
    requires ValidOperations(ops) && Indices(ops, c) && s.Sound() && Held(ops, s.staging, c)
    ensures StoppedAt(ops, s, c, Undo(ops, s, c).state, Cut(ops, s, c))
  {
    var t, cut := Undo(ops, s, c).state, Cut(ops, s, c);
    hide Undo, Cut, Held, Lookup, Overlap, IsUndone, IsLeft, NotBelow;
    forall k | cut <= k < |c| ensures IsUndone(ops, s, c, t, k) {
      UndoneIs(ops, s, c, k);
    }
    forall k | 0 <= k < cut ensures IsLeft(ops, s, c, t, k) {
      LeftIs(ops, s, c, k);
    }
    forall q: Path | Lookup(s.tree, q).Directory? && NotBelow(ops, c, cut, q) ensures Lookup(t.tree, q).Directory? {
      DirectoryLeft(ops, s, c, q);
    }
  }

  lemma {:induction false} UndoneIs(ops: seq<Operation>, s: State, c: seq<nat>, k: nat)
    requires ValidOperations(ops) && Indices(ops, c) && s.Sound() && Held(ops, s.staging, c)
    requires Cut(ops, s, c) <= k < |c|
    ensures IsUndone(ops, s, c, Undo(ops, s, c).state, k)
  {
    UndoReaches(ops, s, c, k);
  }

  lemma {:induction false} LeftIs(ops: seq<Operation>, s: State, c: seq<nat>, k: nat)
    requires ValidOperations(ops) && Indices(ops, c) && s.Sound() && Held(ops, s.staging, c)
    requires k < Cut(ops, s, c)
    ensures IsLeft(ops, s, c, Undo(ops, s, c).state, k)
  {
    UndoKeepsBackups(ops, s, c, k);
    LaterApart(ops, c, k, Cut(ops, s, c));
    UndoElsewhere(ops, s, c, ops[c[k]].path);
  }

  lemma {:induction false} DirectoryLeft(ops: seq<Operation>, s: State, c: seq<nat>, q: Path)
    requires ValidOperations(ops) && Indices(ops, c) && s.Sound() && Held(ops, s.staging, c)
    requires NotBelow(ops, c, Cut(ops, s, c), q) && Lookup(s.tree, q).Directory?
    ensures Lookup(Undo(ops, s, c).state.tree, q).Directory?
  {
    UndoLeavesDirectories(ops, s, c, q);
  }

  /** The destination `k` of `c` no longer holds its payload. */
  predicate IsChanged(ops: seq<Operation>, s: State, c: seq<nat>, k: nat)
    requires Indices(ops, c) && k < |c|
  {
    s.Get(At(ops[c[k]].path)) != ops[c[k]].after
  }

  /** The shape of a rollback in which no primitive fails: it refuses exactly if
      some committed destination no longer holds its payload, and then at the
      last such one; that and all earlier ones are untouched, with the originals
      they replaced at their `old-i`; all later ones are undone; no directory
      the commit made has gone. */
  lemma {:induction false} RefusedShape(ops: seq<Operation>, s: State, c: seq<nat>)
    requires ValidOperations(ops) && Indices(ops, c) && s.Sound() && Held(ops, s.staging, c)
    ensures var u, cut := Undo(ops, s, c), Cut(ops, s, c);
            && StoppedAt(ops, s, c, u.state, cut)
            && (u.Refused? <==> exists k :: 0 <= k < |c| && IsChanged(ops, s, c, k))
            && (u.Refused? ==> cut > 0 && u.index == c[cut - 1] && IsChanged(ops, s, c, cut - 1))
            && (forall k :: cut <= k < |c| ==> !IsChanged(ops, s, c, k))
  {
    UndoStops(ops, s, c);
    RefusedAtCut(ops, s, c);
    hide Undo, Cut, Held, StoppedAt;
    var cut := Cut(ops, s, c);
    forall k | 0 <= k < |c|
      ensures cut <= k ==> !IsChanged(ops, s, c, k)
      ensures cut == k + 1 ==> IsChanged(ops, s, c, k)
    {
      CutMeaning(ops, s, c, k);
    }
    if cut > 0 {
      assert IsChanged(ops, s, c, cut - 1);
    }
  }

  lemma {:induction false} RefusedAtCut(ops: seq<Operation>, s: State, c: seq<nat>)
    requires ValidOperations(ops) && Indices(ops, c) && s.Sound() && Held(ops, s.staging, c)
    ensures Undo(ops, s, c).Refused? <==> Cut(ops, s, c) > 0
    ensures Undo(ops, s, c).Refused? ==> Undo(ops, s, c).index == c[Cut(ops, s, c) - 1]
    decreases |c|
  {
    if c != [] && s.Get(At(ops[c[|c| - 1]].path)) == ops[c[|c| - 1]].after {
      UndoStep(ops, s, c);
      RefusedAtCut(ops, UndoOne(ops, s, c[|c| - 1]), c[..|c| - 1]);
    }
  }

  lemma {:induction false} LaterApart(ops: seq<Operation>, c: seq<nat>, k: nat, cut: nat)
    requires ValidOperations(ops) && Indices(ops, c) && k < cut <= |c|
    ensures forall l :: cut <= l < |c| ==> !Overlap(ops[c[l]].path, ops[c[k]].path)
  {
    forall l | cut <= l < |c| ensures !Overlap(ops[c[l]].path, ops[c[k]].path) {
      assert c[k] < c[l];
    }
  }

  // ---------- what lands at a destination ----------

  /** Every payload has been staged. */
  ghost predicate AllStaged(ops: seq<Operation>, g: Staging) {
    forall i: nat :: i < |ops| ==> Stored(g, New(i)) == ops[i].after
  }

  lemma {:induction false} StepKeepsPayload(ops: seq<Operation>, s: State, e: Event, t: State, i: nat)
    requires Step(ops, s, e, t) && i < |ops|
    requires Stored(s.staging, New(i)) == ops[i].after || Stored(s.staging, New(i)) == Missing
    ensures Stored(t.staging, New(i)) == ops[i].after || Stored(t.staging, New(i)) == Missing
  {
  }

  lemma {:induction false} PayloadStays(ops: seq<Operation>, states: seq<State>, events: seq<Event>, k: nat, i: nat)
    requires Run(ops, states, events) && k <= |events| && i < |ops| && AllStaged(ops, states[0].staging)
    ensures Stored(states[k].staging, New(i)) == ops[i].after || Stored(states[k].staging, New(i)) == Missing
    decreases k
  {
    if k > 0 {
      PayloadStays(ops, states, events, k - 1, i);
      RunStep(ops, states, events, k - 1);
      StepKeepsPayload(ops, states[k - 1], events[k - 1], states[k], i);
    }
  }

  /** Whoever else writes the tree: what a commit puts at a destination is the
      declared payload, and it replaces nothing. */
  lemma {:induction false} PayloadLands(ops: seq<Operation>, states: seq<State>, events: seq<Event>, k: nat)
    requires Run(ops, states, events) && k < |events| && AllStaged(ops, states[0].staging)
    requires events[k].Place? || events[k].Seed?
    ensures var i := events[k].i;
            && i < |ops|
            && states[k].Get(At(ops[i].path)) == Missing
            && states[k + 1].Get(At(ops[i].path)) == ops[i].after
  {
    var i, s, t := events[k].i, states[k], states[k + 1];
    RunStep(ops, states, events, k);
    PayloadStays(ops, states, events, k, i);
    LookupReplaceSame(s.tree, ops[i].path, Stored(s.staging, New(i)));
  }
}
