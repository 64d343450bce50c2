/** The commit and rollback procedure of the transaction
    (crates/modde-manager/src/transaction.rs, `apply_inner`), over a tree that
    others may write between any two of its steps, with primitives any of which
    may fail without effect. */
module Committing {
  import opened Images
  import opened Results
  import opened Transaction

  datatype Status = Prepared | InProgress | CommitDone | RollbackDone | RollbackFailed

  /** The durable journal: its last written record. */
  datatype Journal = Journal(status: Status, committed: seq<nat>, created: seq<Path>, pending: Option<nat>)

  datatype Reading = Found(image: Tree) | Unreachable | Unreadable

  datatype Placing = Placed | Skip | Broken

  datatype Recovery = Restored | RefusedAt(index: nat) | Stuck

  datatype Outcome =
    | NotStarted
    | Applied
    | AppliedUnrecorded
    /** A failed commit, with how many primitives failed while undoing it. */
    | Failed(recovery: Recovery, failures: nat)

  /** The ledger has the steps that commit operation `i`. */
  ghost predicate Written(ops: seq<Operation>, events: seq<Event>, i: nat)
    requires i < |ops|
  {
    if ops[i].seed then Seed(i) in events
    else Place(i) in events && (ops[i].before != Missing ==> Backup(i) in events)
  }

  /** It has them for all that the bookkeeping lists. */
  ghost predicate Accounted(ops: seq<Operation>, events: seq<Event>, c: seq<nat>, ds: seq<Path>) {
    && (forall i :: i in c ==> i < |ops| && Written(ops, events, i))
    && (forall d :: d in ds ==> MakeDirectory(d) in events)
  }

  /** Operation `i` is committed, or is a seed whose file was there at some step. */
  ghost predicate Dealt(ops: seq<Operation>, states: seq<State>, c: seq<nat>, i: nat)
    requires i < |ops|
  {
    i in c || (ops[i].seed && exists s :: s in states && Lookup(s.tree, ops[i].path).File?)
  }

  /** The ledger has the steps that undo operation `i`. */
  ghost predicate TakenBack(ops: seq<Operation>, events: seq<Event>, i: nat)
    requires i < |ops|
  {
    Retire(i) in events && (ops[i].before != Missing ==> Restore(i) in events)
  }

  ghost predicate TakenBackFrom(ops: seq<Operation>, events: seq<Event>, c: seq<nat>, k: nat) {
    forall j :: k <= j < |c| ==> c[j] < |ops| && TakenBack(ops, events, c[j])
  }

  ghost predicate AllTakenBack(ops: seq<Operation>, events: seq<Event>, c: seq<nat>, ds: seq<Path>) {
    && (forall i :: i in c ==> i < |ops| && TakenBack(ops, events, i))
    && (forall d :: d in ds ==> RemoveDirectory(d) in events)
  }

  class Commit {
    const ops: seq<Operation>
    /** Nobody else writes the tree. */
    const quiet: bool

    var tree: Tree
    var staging: map<Slot, Tree>
    var journal: Option<Journal>
    /** Primitives that have failed so far. */
    var faults: nat

    var committed: seq<nat>
    var created: seq<Path>
    var pending: Option<nat>

    /** The tree when the commit began, and every state and step since. */
    ghost var start: Tree
    ghost var states: seq<State>
    ghost var events: seq<Event>

    function Now(): State
      reads this
    {
      State(tree, staging)
    }

    ghost predicate Valid()
      reads this
    {
      && ValidOperations(ops)
      && Now().Sound() && WellFormed(start)
      && Run(ops, states, events)
      && states[|events|] == Now()
    }

    /** The journal is begun and does not yet say how the commit ended. */
    predicate Open()
      reads this
    {
      journal.Some? && (journal.value.status.Prepared? || journal.value.status.InProgress?)
    }

    /** Everything that holds of the bookkeeping whoever else writes. */
    ghost predicate Kept()
      reads this
    {
      && Open()
      && Indices(ops, committed)
      && Held(ops, staging, committed)
      && (pending.Some? ==>
            pending.value < |ops| && pending.value !in committed && Stored(staging, Old(pending.value)) != Missing)
    }

    /** With nobody else writing: the first `next` operations are dealt with. */
    ghost predicate OnTrack(next: nat)
      reads this
    {
      quiet ==> pending.None? && Committed(ops, start, Now(), created, committed, next)
    }

    /** With nobody else writing: all that was done can be undone. */
    ghost predicate CanRecover()
      reads this
    {
      quiet ==>
        if pending.None? then Recoverable(ops, start, Now(), created, committed)
        else HalfMoved(ops, start, Now(), created, committed, pending.value)
    }

    /** With nobody else writing, and a start that fits the preparation: nothing
        but a failing primitive can stop the commit. */
    ghost predicate Hopeful()
      reads this
    {
      quiet && Feasible(ops, start)
    }

    /** The ledger goes back to when all payloads were staged. */
    ghost predicate Begun()
      reads this
    {
      states != [] && states[0].tree == start && AllStaged(ops, states[0].staging)
    }

    /** What the bookkeeping lists is on the ledger. */
    ghost predicate AllAccounted()
      reads this
    {
      Accounted(ops, events, committed, created)
    }

    /** The first `next` operations are dealt with, whoever else writes. */
    ghost predicate AllDealt(next: nat)
      reads this
    {
      forall i: nat :: i < next && i < |ops| ==> Dealt(ops, states, committed, i)
    }

    /** The payloads of the operations from `next` on are in their slots. */
    ghost predicate ToCome(next: nat)
      reads this
    {
      forall i: nat :: next <= i < |ops| ==> Stored(staging, New(i)) == ops[i].after
    }

    /** The ledger only grows. */
    twostate predicate Later()
      reads this
    {
      old(states) <= states && old(events) <= events && old(faults) <= faults
    }

    /** No slot of another operation, and no `rolled-back` one, has changed. */
    twostate predicate SlotsKept(i: nat)
      reads this
    {
      forall x: Slot :: x.index != i || x.RolledBack? ==> Stored(staging, x) == old(Stored(staging, x))
    }

    constructor (ops: seq<Operation>, tree: Tree, quiet: bool)
      requires ValidOperations(ops) && WellFormed(tree)
      ensures Valid() && this.ops == ops && this.quiet == quiet && this.tree == tree
      ensures staging == map[] && journal == None && faults == 0
      ensures committed == [] && created == [] && pending == None
    {
      this.ops, this.quiet, this.tree := ops, quiet, tree;
      staging, journal, faults := map[], None, 0;
      committed, created, pending := [], [], None;
      start, states, events := tree, [State(tree, map[])], [];
    }

    ghost method Record(e: Event)
      requires ValidOperations(ops) && WellFormed(start) && Run(ops, states, events)
      requires Step(ops, states[|events|], e, Now())
      modifies this`states, this`events
      ensures Valid() && old(states) <= states && events == old(events) + [e]
    {
      RunSound(ops, states, events, |events|);
      StepSound(ops, states[|events|], e, Now());
      states, events := states + [Now()], events + [e];
    }

    // ---------- primitives ----------

    /** What others do to the tree between two steps. */
    method Environment()
      requires Valid()
      modifies this`tree, this`states, this`events
      ensures Valid() && Later()
      ensures quiet ==> Now() == old(Now())
    {
      if !quiet {
        var t: Tree := *;
        if WellFormed(t) {
          tree := t;
          Record(Outside);
        }
      }
    }

    /** A primitive may fail without effect. */
    method Fault() returns (failed: bool)
      modifies this`faults
      ensures faults == old(faults) + (if failed then 1 else 0)
    {
      failed := *;
      if failed {
        faults := faults + 1;
      }
    }

    /** Reading a path is an error where a file stands in the way. */
    method Read(p: Path) returns (image: Reading)
      requires Valid()
      modifies this`tree, this`states, this`events, this`faults
      ensures Valid() && Later()
      ensures quiet ==> Now() == old(Now())
      ensures image.Found? ==> image.image == Lookup(tree, p) && !Blocked(tree, p)
      ensures image.Unreachable? ==> Blocked(tree, p)
      ensures image.Unreadable? ==> faults > old(faults)
    {
      Environment();
      var failed := Fault();
      image := if failed then Unreadable else if Blocked(tree, p) then Unreachable else Found(Lookup(tree, p));
    }

    /** Opening the parent of a path, and checking that it is still that one. */
    method OpenParent(p: Path) returns (ok: bool)
      requires Valid()
      modifies this`tree, this`states, this`events, this`faults
      ensures Valid() && Later()
      ensures quiet ==> Now() == old(Now())
      ensures ok ==> HasParent(tree, p)
      ensures quiet && !ok && HasParent(tree, p) ==> faults > old(faults)
    {
      Environment();
      var failed := Fault();
      ok := !failed && HasParent(tree, p);
    }

    /** Opening the parent of a path that exists and checking it again: two steps. */
    method Pin(p: Path) returns (ok: bool)
      requires Valid()
      modifies this`tree, this`states, this`events, this`faults
      ensures Valid() && Later()
      ensures quiet ==> Now() == old(Now())
      ensures quiet && !ok && HasParent(tree, p) ==> faults > old(faults)
    {
      ok := OpenParent(p);
      if ok {
        ok := OpenParent(p);
      }
    }

    method WriteJournal(status: Status) returns (ok: bool)
      requires Valid()
      modifies this`tree, this`states, this`events, this`faults, this`journal
      ensures Valid() && Later()
      ensures quiet ==> Now() == old(Now())
      ensures ok ==> journal == Some(Journal(status, committed, created, pending)) && faults == old(faults)
      ensures !ok ==> journal == old(journal) && faults > old(faults)
    {
      Environment();
      var failed := Fault();
      if !failed {
        journal := Some(Journal(status, committed, created, pending));
      }
      ok := !failed;
    }

    /** `rename_noreplace` between the tree and the staging directory. */
    method Move(e: Event) returns (ok: bool)
      requires Valid() && Rename(ops, e)
      modifies this`tree, this`staging, this`states, this`events, this`faults
      ensures Valid() && Later()
      ensures !ok ==> staging == old(staging)
      ensures ok ==> |events| > |old(events)| && events[|events| - 1] == e
      ensures SameElsewhere(old(staging), staging, e.i)
      ensures !e.Retire? ==> SlotsKept(e.i)
      ensures ok && e.Backup? ==> Stored(staging, Old(e.i)) != Missing
      ensures ok && e.Place? ==> Stored(staging, Old(e.i)) == old(Stored(staging, Old(e.i)))
      ensures ok && e.Place? ==> Lookup(tree, ops[e.i].path) == old(Stored(staging, New(e.i)))
      ensures !e.Place? ==> Stored(staging, New(e.i)) == old(Stored(staging, New(e.i)))
      ensures quiet ==> Now() == if ok then old(Now()).Moved(From(ops, e), To(ops, e)) else old(Now())
      ensures quiet && ok ==> old(Now()).CanMove(From(ops, e), To(ops, e))
      ensures quiet && !ok && old(Now()).CanMove(From(ops, e), To(ops, e)) ==> faults > old(faults)
    {
      Environment();
      var failed := Fault();
      if failed || !Now().CanMove(From(ops, e), To(ops, e)) {
        return false;
      }
      MovedSlots(ops, Now(), e);
      if e.Place? {
        LookupReplaceSame(tree, ops[e.i].path, Stored(staging, New(e.i)));
      }
      Perform(e);
      ok := true;
    }

    method Perform(e: Event)
      requires Valid() && Rename(ops, e) && Now().CanMove(From(ops, e), To(ops, e))
      modifies this`tree, this`staging, this`states, this`events
      ensures Valid() && old(states) <= states && events == old(events) + [e]
      ensures Now() == old(Now()).Moved(From(ops, e), To(ops, e))
    {
      var t := Now().Moved(From(ops, e), To(ops, e));
      tree, staging := t.tree, t.staging;
      Record(e);
    }

    /** The hard link that seeds an absent file; `Skip` when the name is taken. */
    method LinkSeed(i: nat) returns (r: Placing)
      requires Valid() && i < |ops|
      modifies this`tree, this`states, this`events, this`faults
      ensures Valid() && Later()
      ensures quiet ==> Now() == if r.Placed? then old(Now()).Set(At(ops[i].path), old(Stored(staging, New(i)))) else old(Now())
      ensures r.Skip? ==> Lookup(tree, ops[i].path) != Missing
      ensures r.Placed? ==> Seed(i) in events
      ensures r.Placed? ==> Lookup(tree, ops[i].path) == Stored(staging, New(i))
      ensures quiet && r.Broken? && HasParent(old(tree), ops[i].path) && Stored(staging, New(i)).File? ==> faults > old(faults)
    {
      Environment();
      var failed := Fault();
      var payload := Stored(staging, New(i));
      if failed || !HasParent(tree, ops[i].path) || !payload.File? {
        return Broken;
      }
      if Lookup(tree, ops[i].path) != Missing {
        return Skip;
      }
      LookupReplaceSame(tree, ops[i].path, payload);
      tree := Replace(tree, ops[i].path, payload);
      Record(Seed(i));
      r := Placed;
    }

    /** `create_dir`; `Skip` when the name is taken. */
    method CreateDirectory(d: Path) returns (r: Placing)
      requires Valid()
      modifies this`tree, this`states, this`events, this`faults
      ensures Valid() && Later()
      ensures quiet ==> Now() == if r.Placed? then old(Now()).Set(At(d), EMPTY) else old(Now())
      ensures quiet && r.Placed? ==> HasParent(old(tree), d) && Lookup(old(tree), d) == Missing
      ensures quiet && r.Broken? && HasParent(old(tree), d) ==> faults > old(faults)
      ensures r.Skip? ==> Lookup(tree, d) != Missing
      ensures r.Placed? ==> MakeDirectory(d) in events
    {
      Environment();
      var failed := Fault();
      if failed || !HasParent(tree, d) {
        return Broken;
      }
      if Lookup(tree, d) != Missing {
        return Skip;
      }
      tree := Replace(tree, d, EMPTY);
      Record(MakeDirectory(d));
      r := Placed;
    }

    /** `remove_dir`, which removes only an empty directory. */
    method RemoveEmpty(d: Path) returns (ok: bool)
      requires Valid()
      modifies this`tree, this`states, this`events, this`faults
      ensures Valid() && Later()
      ensures quiet ==> Now() == if ok then old(Now()).Set(At(d), Missing) else old(Now())
      ensures quiet && ok ==> Lookup(old(tree), d) == EMPTY
      ensures quiet && !ok && Lookup(old(tree), d) == EMPTY ==> faults > old(faults)
      ensures ok ==> RemoveDirectory(d) in events
    {
      Environment();
      var failed := Fault();
      if failed || Lookup(tree, d) != EMPTY {
        return false;
      }
      tree := Replace(tree, d, Missing);
      Record(RemoveDirectory(d));
      ok := true;
    }

    // ---------- commit ----------

    /** Make and note one directory on the way to the destination of operation `i`. */
    method NewDirectory(i: nat, d: Path) returns (r: Placing)
      requires Valid() && i < |ops| && OnTrack(i) && d < ops[i].path
      modifies this`tree, this`states, this`events, this`faults, this`created
      ensures Valid() && Later() && OnTrack(i)
      ensures quiet && r.Placed? ==> HasParent(tree, d) && Lookup(tree, d).Directory?
      ensures quiet && r.Broken? && HasParent(old(tree), d) ==> faults > old(faults)
      ensures r.Skip? ==> Lookup(tree, d) != Missing
      ensures quiet && r.Skip? ==> tree == old(tree)
      ensures old(AllAccounted()) ==> AllAccounted()
    {
      ghost var s, ds := Now(), created;
      r := CreateDirectory(d);
      if r.Placed? {
        created := created + [d];
        if quiet {
          DirectoryMade(ops, start, s, ds, committed, i, d);
          ReplaceHasParent(s.tree, d, EMPTY);
          LookupReplaceSame(s.tree, d, EMPTY);
        }
      }
    }

    /** Enter one directory on the way to the destination of operation `i`,
        making and noting it if it is absent. */
    method EnterDirectory(i: nat, d: Path) returns (ok: bool)
      requires Valid() && i < |ops| && OnTrack(i) && d < ops[i].path
      modifies this`tree, this`states, this`events, this`faults, this`created
      ensures Valid() && Later() && OnTrack(i)
      ensures quiet && ok ==> Lookup(tree, d).Directory?
      ensures Hopeful() && HasParent(old(tree), d) && !ok ==> faults > old(faults)
      ensures old(AllAccounted()) ==> AllAccounted()
    {
      hide Feasible, FeasibleOne, ValidOperations, Committed, Accounted;
      ghost var steps := events;
      if Hopeful() {
        FreeAtTurn(ops, start, Now(), created, committed, i);
      }
      ReachableRead(tree, d);
      var there := Read(d);
      LedgerGrows(ops, steps, events, committed, created);
      if !there.Found? || there.image.File? {
        return false;
      }
      if there.image.Missing? {
        var made := NewDirectory(i, d);
        if made.Broken? {
          return false;
        }
        ReachableRead(tree, d);
        steps := events;
        there := Read(d);
        LedgerGrows(ops, steps, events, committed, created);
      }
      ok := there.Found? && there.image.Directory?;
    }

    /** Walk to the parent of the destination of operation `i`. */
    method MakeParents(i: nat) returns (ok: bool)
      requires Valid() && i < |ops| && OnTrack(i)
      modifies this`tree, this`states, this`events, this`faults, this`created
      ensures Valid() && Later() && OnTrack(i)
      ensures ok ==> HasParent(tree, ops[i].path)
      ensures Hopeful() && !ok ==> faults > old(faults)
      ensures old(AllAccounted()) ==> AllAccounted()
    {
      hide Accounted, Feasible;
      ok := EnterAll(i);
      if ok {
        ghost var steps := events;
        ok := OpenParent(ops[i].path);
        LedgerGrows(ops, steps, events, committed, created);
      }
    }

    method EnterAll(i: nat) returns (ok: bool)
      requires Valid() && i < |ops| && OnTrack(i)
      modifies this`tree, this`states, this`events, this`faults, this`created
      ensures Valid() && Later() && OnTrack(i)
      ensures Hopeful() && ok ==> HasParent(tree, ops[i].path)
      ensures Hopeful() && !ok ==> faults > old(faults)
      ensures old(AllAccounted()) ==> AllAccounted()
    {
      hide Accounted, Feasible, FeasibleOne;
      if Hopeful() {
        FreeAtTurn(ops, start, Now(), created, committed, i);
      }
      for k := 1 to |ops[i].path|
        invariant Valid() && Later() && OnTrack(i)
        invariant Hopeful() ==> Lookup(tree, ops[i].path[..k - 1]).Directory?
        invariant old(AllAccounted()) ==> AllAccounted()
      {
        ParentThere(tree, ops[i].path, k);
        var entered := EnterDirectory(i, ops[i].path[..k]);
        if !entered {
          return false;
        }
      }
      ParentThere(tree, ops[i].path, |ops[i].path|);
      ok := true;
    }

    /** Move the original of operation `i` to its backup and note it in the journal. */
    method BackUp(i: nat) returns (ok: bool)
      requires Valid() && Kept() && i < |ops| && i !in committed && pending.None? && OnTrack(i)
      requires quiet ==> Lookup(tree, ops[i].path) == ops[i].before && ops[i].before != Missing
      modifies this`tree, this`staging, this`states, this`events, this`faults, this`journal, this`pending
      ensures Valid() && Kept() && Later() && SlotsKept(i) && CanRecover()
      ensures ok ==> pending == Some(i) && Stored(staging, Old(i)) != Missing && journal == Some(Journal(InProgress, committed, created, pending))
      ensures Stored(staging, New(i)) == old(Stored(staging, New(i)))
      ensures ok ==> Backup(i) in events
      ensures quiet && ok ==> Now() == old(Now()).Moved(At(ops[i].path), In(Old(i)))
      ensures quiet && !ok ==> faults > old(faults)
    {
      ok := SetAside(i);
      if ok {
        ok := WriteJournal(InProgress);
      }
    }

    method SetAside(i: nat) returns (ok: bool)
      requires Valid() && Kept() && i < |ops| && i !in committed && pending.None? && OnTrack(i)
      requires quiet ==> Lookup(tree, ops[i].path) == ops[i].before && ops[i].before != Missing
      modifies this`tree, this`staging, this`states, this`events, this`faults, this`pending
      ensures Valid() && Kept() && Later() && SlotsKept(i) && CanRecover()
      ensures pending == if ok then Some(i) else None
      ensures ok ==> Stored(staging, Old(i)) != Missing && Backup(i) in events
      ensures Stored(staging, New(i)) == old(Stored(staging, New(i)))
      ensures quiet && ok ==> Now() == old(Now()).Moved(At(ops[i].path), In(Old(i)))
      ensures quiet && !ok ==> faults > old(faults)
    {
      ok := Move(Backup(i));
      HeldElsewhere(ops, old(staging), committed, staging, i);
      if ok {
        pending := Some(i);
        if quiet {
          BackedUp(ops, start, old(Now()), created, committed, i);
        }
      }
    }

    /** Move the backup of operation `i` home again. */
    method MoveHome(i: nat) returns (ok: bool)
      requires Valid() && Kept() && pending == Some(i)
      modifies this`tree, this`staging, this`states, this`events, this`faults, this`pending
      ensures Valid() && Kept() && Later() && SlotsKept(i)
      ensures pending == if ok then None else old(pending)
      ensures ok ==> Restore(i) in events
      ensures old(CanRecover()) ==> CanRecover()
      ensures quiet && old(CanRecover()) && !ok ==> faults > old(faults)
    {
      ok := Move(Restore(i));
      HeldElsewhere(ops, old(staging), committed, staging, i);
      if ok {
        pending := None;
      }
    }

    /** Move the payload of operation `i` into place; if that fails, move the
        backup, if there is one, home again. */
    method PlacePayload(i: nat) returns (ok: bool)
      requires Valid() && Kept() && i < |ops| && i !in committed && CanRecover() && ToCome(i)
      requires pending == if ops[i].before == Missing then None else Some(i)
      modifies this`tree, this`staging, this`states, this`events, this`faults, this`pending
      ensures Valid() && Kept() && Later() && SlotsKept(i)
      ensures ok ==> pending == old(pending)
      ensures !ok ==> CanRecover()
      ensures ok ==> Stored(staging, Old(i)) == old(Stored(staging, Old(i)))
      ensures ok ==> Place(i) in events
      ensures ok ==> Lookup(tree, ops[i].path) == ops[i].after
      ensures quiet && !ok && old(Now()).CanMove(In(New(i)), At(ops[i].path)) ==> faults > old(faults)
      ensures quiet && ok ==> Now() == old(Now()).Moved(In(New(i)), At(ops[i].path)) && old(Now()).CanMove(In(New(i)), At(ops[i].path))
    {
      ok := Move(Place(i));
      if !ok && ops[i].before != Missing {
        var _ := MoveHome(i);
      }
    }

    /** Note operation `i` as committed. */
    method NoteCommitted(i: nat, ghost s: State) returns (r: Placing)
      requires Valid() && Kept() && i < |ops| && i !in committed && forall k :: k in committed ==> k < i
      requires Stored(staging, RolledBack(i)) == Missing
      requires ops[i].before != Missing ==> Stored(staging, Old(i)) != Missing
      requires quiet ==> Committed(ops, start, s, created, committed, i)
      requires quiet ==> HasParent(s.tree, ops[i].path) && Lookup(s.tree, ops[i].path) == ops[i].before
      requires quiet ==> tree == Replace(s.tree, ops[i].path, ops[i].after)
      requires quiet ==> SameElsewhere(s.staging, staging, i)
      requires quiet ==> Stored(staging, Old(i)) == ops[i].before
      modifies this`tree, this`states, this`events, this`faults, this`journal, this`pending, this`committed
      ensures Valid() && Kept() && Later() && pending.None? && OnTrack(i + 1)
      ensures committed == old(committed) + [i]
      ensures r.Placed? ==> journal == Some(Journal(InProgress, committed, created, None))
      ensures !r.Skip? && (r.Broken? ==> faults > old(faults))
      ensures old(AllAccounted()) && Written(ops, old(events), i) ==> AllAccounted()
    {
      MarkCommitted(i, s);
      hide Accounted;
      ghost var steps := events;
      var noted := WriteJournal(InProgress);
      LedgerGrows(ops, steps, events, committed, created);
      r := if noted then Placed else Broken;
    }

    method MarkCommitted(i: nat, ghost s: State)
      requires Valid() && Kept() && i < |ops| && i !in committed && forall k :: k in committed ==> k < i
      requires Stored(staging, RolledBack(i)) == Missing
      requires ops[i].before != Missing ==> Stored(staging, Old(i)) != Missing
      requires quiet ==> Committed(ops, start, s, created, committed, i)
      requires quiet ==> HasParent(s.tree, ops[i].path) && Lookup(s.tree, ops[i].path) == ops[i].before
      requires quiet ==> tree == Replace(s.tree, ops[i].path, ops[i].after)
      requires quiet ==> SameElsewhere(s.staging, staging, i)
      requires quiet ==> Stored(staging, Old(i)) == ops[i].before
      modifies this`pending, this`committed
      ensures Valid() && Kept() && pending.None? && OnTrack(i + 1)
      ensures committed == old(committed) + [i]
      ensures old(AllAccounted()) && Written(ops, events, i) ==> AllAccounted()
    {
      IndicesGrow(ops, committed, i);
      committed, pending := committed + [i], None;
      if quiet {
        OperationPlaced(ops, start, s, created, old(committed), i, Now());
      }
    }

    /** Commit a seed whose destination was absent when it was read. */
    method CommitSeed(i: nat) returns (r: Placing)
      requires Valid() && Kept() && i < |ops| && ops[i].seed && pending.None? && OnTrack(i)
      requires forall k :: k in committed ==> k < i
      requires Stored(staging, RolledBack(i)) == Missing
      requires quiet ==> HasParent(tree, ops[i].path) && Lookup(tree, ops[i].path) == Missing
      modifies this`tree, this`states, this`events, this`faults, this`journal, this`pending, this`committed
      ensures Valid() && Kept() && Later() && forall k :: k in committed ==> k <= i
      ensures pending.None?
      ensures if r.Broken? then OnTrack(i) || OnTrack(i + 1) else OnTrack(i + 1)
      ensures r.Skip? ==> Lookup(tree, ops[i].path).File?
      ensures quiet && r.Broken? ==> faults > old(faults)
      ensures old(committed) <= committed && (!r.Broken? ==> Dealt(ops, states, committed, i))
      ensures old(AllAccounted()) ==> AllAccounted()
    {
      hide Accounted;
      ghost var s, steps := Now(), events;
      var linked := LinkSeed(i);
      LedgerGrows(ops, steps, events, committed, created);
      if linked.Broken? {
        return Broken;
      }
      if linked.Skip? {
        var now := Read(ops[i].path);
        LedgerGrows(ops, steps, events, committed, created);
        return if now.Found? && now.image.File? then Skip else Broken;
      }
      r := NoteCommitted(i, s);
    }

    /** Move the original of operation `i` out, if it has one, and its payload in. */
    method Exchange(i: nat) returns (ok: bool)
      requires Valid() && Kept() && i < |ops| && i !in committed && pending.None? && OnTrack(i) && ToCome(i)
      requires quiet ==> HasParent(tree, ops[i].path) && Lookup(tree, ops[i].path) == ops[i].before
      modifies this`tree, this`staging, this`states, this`events, this`faults, this`journal, this`pending
      ensures Valid() && Kept() && Later() && SlotsKept(i)
      ensures ok ==> ops[i].before != Missing ==> Stored(staging, Old(i)) != Missing
      ensures quiet && ok ==> tree == Replace(old(tree), ops[i].path, ops[i].after) && Stored(staging, Old(i)) == ops[i].before
      ensures ok ==> Lookup(tree, ops[i].path) == ops[i].after
      ensures ok && !ops[i].seed ==> Written(ops, events, i)
      ensures !ok ==> CanRecover()
      ensures quiet && !ok ==> faults > old(faults)
    {
      if quiet {
        ContentPlaced(ops, start, Now(), created, committed, i);
      }
      if ops[i].before != Missing {
        ok := BackUp(i);
        if !ok {
          return;
        }
      }
      ok := PlacePayload(i);
    }

    /** Commit an operation that is not a seed. */
    method CommitContent(i: nat) returns (r: Placing)
      requires Valid() && Kept() && i < |ops| && pending.None? && OnTrack(i) && ToCome(i)
      requires forall k :: k in committed ==> k < i
      requires Stored(staging, RolledBack(i)) == Missing
      requires quiet ==> HasParent(tree, ops[i].path) && Lookup(tree, ops[i].path) == ops[i].before
      requires !ops[i].seed
      modifies this`tree, this`staging, this`states, this`events, this`faults, this`journal, this`pending, this`committed
      ensures Valid() && Kept() && Later() && SlotsKept(i) && forall k :: k in committed ==> k <= i
      ensures !r.Broken? ==> pending.None? && OnTrack(i + 1)
      ensures r.Broken? ==> CanRecover()
      ensures quiet && r.Broken? ==> faults > old(faults)
      ensures old(committed) <= committed && (!r.Broken? ==> i in committed)
      ensures old(AllAccounted()) ==> AllAccounted()
    {
      hide Accounted;
      ghost var s, steps := Now(), events;
      var done := Exchange(i);
      LedgerGrows(ops, steps, events, committed, created);
      if !done {
        return Broken;
      }
      r := NoteCommitted(i, s);
    }

    /** Read the destination of operation `i`; `Skip` for a seed whose file is
        already there, `Broken` if it is not as prepared. */
    method Inspect(i: nat) returns (r: Placing)
      requires Valid() && i < |ops| && pending.None? && OnTrack(i)
      modifies this`tree, this`states, this`events, this`faults
      ensures Valid() && Later()
      ensures OnTrack(if r.Skip? then i + 1 else i)
      ensures Hopeful() && r.Broken? ==> faults > old(faults)
      ensures r.Skip? ==> ops[i].seed && Lookup(tree, ops[i].path).File? && Dealt(ops, states, committed, i)
      ensures r.Placed? ==> Lookup(tree, ops[i].path) == ops[i].before
      ensures quiet && r.Placed? ==> Lookup(start, ops[i].path) == ops[i].before
    {
      if Hopeful() {
        FreeAtTurn(ops, start, Now(), created, committed, i);
      }
      var current := Read(ops[i].path);
      if !current.Found? {
        return Broken;
      }
      if ops[i].seed && current.image.File? {
        if quiet {
          SeedSkipped(ops, start, Now(), created, committed, i);
        }
        return Skip;
      }
      if quiet {
        DestinationUntouched(ops, start, Now(), created, committed, i, i);
      }
      r := if current.image == ops[i].before then Placed else Broken;
    }

    /** Make the way to the destination of operation `i`, and note in the journal
        the directories made for it before anything is moved. */
    method Reach(i: nat) returns (ok: bool)
      requires Valid() && Open() && i < |ops| && i !in committed && pending.None? && OnTrack(i)
      modifies this`tree, this`states, this`events, this`faults, this`journal, this`created
      ensures Valid() && Open() && Later() && OnTrack(i)
      ensures ok ==> HasParent(tree, ops[i].path) && journal == Some(Journal(InProgress, committed, created, pending))
      ensures quiet && ok ==> Lookup(tree, ops[i].path) == Lookup(start, ops[i].path)
      ensures Hopeful() && !ok ==> faults > old(faults)
      ensures old(AllAccounted()) ==> AllAccounted()
    {
      hide Accounted;
      ok := MakeParents(i);
      ghost var steps := events;
      if ok {
        ok := WriteJournal(InProgress);
      }
      if ok {
        ok := OpenParent(ops[i].path);
      }
      LedgerGrows(ops, steps, events, committed, created);
      if quiet {
        DestinationUntouched(ops, start, Now(), created, committed, i, i);
      }
    }

    /** Commit operation `i`, unless it is a seed whose file is already there. */
    method CommitOne(i: nat) returns (r: Placing)
      requires Valid() && Kept() && i < |ops| && pending.None? && OnTrack(i) && ToCome(i)
      requires forall k :: k in committed ==> k < i
      requires Stored(staging, RolledBack(i)) == Missing
      modifies this`tree, this`staging, this`states, this`events, this`faults, this`journal, this`pending, this`created, this`committed
      ensures Valid() && Kept() && Later() && SlotsKept(i) && forall k :: k in committed ==> k <= i
      ensures !r.Broken? ==> pending.None? && OnTrack(i + 1) && ToCome(i + 1)
      ensures r.Broken? ==> CanRecover()
      ensures Hopeful() && r.Broken? ==> faults > old(faults)
      ensures old(committed) <= committed && (!r.Broken? ==> Dealt(ops, states, committed, i))
      ensures old(AllAccounted()) ==> AllAccounted()
    {
      hide Accounted;
      ghost var steps := events;
      r := Inspect(i);
      LedgerGrows(ops, steps, events, committed, created);
      if r.Placed? {
        r := CommitAsRead(i);
      }
    }

    /** Commit operation `i`, whose destination was read as it was prepared. */
    method CommitAsRead(i: nat) returns (r: Placing)
      requires Valid() && Kept() && i < |ops| && pending.None? && OnTrack(i) && ToCome(i)
      requires forall k :: k in committed ==> k < i
      requires Stored(staging, RolledBack(i)) == Missing
      requires quiet ==> Lookup(start, ops[i].path) == ops[i].before
      modifies this`tree, this`staging, this`states, this`events, this`faults, this`journal, this`pending, this`created, this`committed
      ensures Valid() && Kept() && Later() && SlotsKept(i) && forall k :: k in committed ==> k <= i
      ensures !r.Broken? ==> pending.None? && OnTrack(i + 1)
      ensures r.Broken? ==> CanRecover()
      ensures Hopeful() && r.Broken? ==> faults > old(faults)
      ensures old(committed) <= committed && (!r.Broken? ==> Dealt(ops, states, committed, i))
      ensures old(AllAccounted()) ==> AllAccounted()
    {
      hide Accounted;
      var reached := Reach(i);
      if !reached {
        return Broken;
      }
      if ops[i].seed {
        r := CommitSeed(i);
      } else {
        r := CommitContent(i);
      }
    }

    /** Commit all operations in order, up to the first failure. */
    method CommitAll() returns (ok: bool)
      requires Valid() && Kept() && pending.None? && committed == [] && OnTrack(0) && ToCome(0)
      requires forall x: Slot :: x.RolledBack? ==> Stored(staging, x) == Missing
      modifies this`tree, this`staging, this`states, this`events, this`faults, this`journal, this`pending, this`created, this`committed
      ensures Valid() && Kept() && Later()
      ensures if ok then pending.None? && OnTrack(|ops|) else CanRecover()
      ensures Hopeful() && !ok ==> faults > old(faults)
      ensures ok ==> AllDealt(|ops|)
      ensures old(AllAccounted()) ==> AllAccounted()
    {
      hide Dealt, Accounted, Committed, Feasible;
      for i := 0 to |ops|
        invariant AllDealt(i) && (old(AllAccounted()) ==> AllAccounted())
        invariant Valid() && Kept() && Later() && pending.None? && OnTrack(i) && ToCome(i)
        invariant forall k :: k in committed ==> k < i
        invariant forall x: Slot :: x.RolledBack? ==> Stored(staging, x) == Missing
      {
        ghost var before, c := states, committed;
        var r := CommitOne(i);
        if r.Broken? {
          return false;
        }
        DealtGrows(ops, before, c, states, committed, i);
      }
      ok := true;
    }

    // ---------- rollback ----------

    /** What undoing the operations `c` comes to from here, as a result. */
    ghost predicate Undoes(u: Undoing, r: Recovery)
      reads this
    {
      match r
      case Restored => u == Undone(Now())
      case RefusedAt(i) => u == Refused(Now(), i)
      case Stuck => true
    }

    /** A refusal is at a committed operation whose destination holds something
        else than its payload, whoever wrote it. */
    predicate RefusedRightly(r: Recovery)
      reads this
    {
      r.RefusedAt? ==> r.index in committed && r.index < |ops| && Lookup(tree, ops[r.index].path) != ops[r.index].after
    }

    /** Undo one committed operation. */
    method UndoOperation(i: nat) returns (r: Recovery)
      requires Valid() && i < |ops|
      requires Stored(staging, RolledBack(i)) == Missing
      requires ops[i].before != Missing ==> Stored(staging, Old(i)) != Missing
      modifies this`tree, this`staging, this`states, this`events, this`faults
      ensures Valid() && Later()
      ensures SameElsewhere(old(staging), staging, i)
      ensures quiet && r.Restored? ==> old(Now()).Get(At(ops[i].path)) == ops[i].after && Now() == UndoOne(ops, old(Now()), i)
      ensures r.RefusedAt? ==> r.index == i && Lookup(tree, ops[i].path) != ops[i].after && staging == old(staging)
      ensures quiet && r.RefusedAt? ==> Now() == old(Now())
      ensures quiet && r.Stuck? ==> faults > old(faults)
      ensures r.Restored? ==> TakenBack(ops, events, i)
    {
      var current := Read(ops[i].path);
      if current.Unreadable? {
        return Stuck;
      }
      if current.Unreachable? {
        PresentNotBlocked(tree, ops[i].path);
      }
      if !current.Found? || current.image != ops[i].after {
        return RefusedAt(i);
      }
      PresentHasParent(tree, ops[i].path);
      var pinned := Pin(ops[i].path);
      if !pinned {
        return Stuck;
      }
      var back := TakeBack(i);
      r := if back then Restored else Stuck;
    }

    /** The payload of operation `i` to `rolled-back-i`, and its original home. */
    method TakeBack(i: nat) returns (ok: bool)
      requires Valid() && i < |ops|
      requires Stored(staging, RolledBack(i)) == Missing
      requires ops[i].before != Missing ==> Stored(staging, Old(i)) != Missing
      requires quiet ==> Now().Get(At(ops[i].path)) == ops[i].after
      modifies this`tree, this`staging, this`states, this`events, this`faults
      ensures Valid() && Later()
      ensures SameElsewhere(old(staging), staging, i)
      ensures quiet && ok ==> Now() == UndoOne(ops, old(Now()), i)
      ensures quiet && !ok ==> faults > old(faults)
      ensures ok ==> TakenBack(ops, events, i)
    {
      if quiet {
        UndoOneSteps(ops, Now(), i);
      }
      ok := Move(Retire(i));
      if ok && ops[i].before != Missing {
        ok := Move(Restore(i));
      }
    }

    /** Undo the committed operations, last one first. With nobody else writing
        this is `Undo`, and only a failing primitive stops it short of that. */
    method UndoCommitted() returns (r: Recovery)
      requires Valid() && Kept()
      modifies this`tree, this`staging, this`states, this`events, this`faults
      ensures Valid() && Later()
      ensures quiet ==> Undoes(Undo(ops, old(Now()), committed), r)
      ensures quiet && r.Stuck? ==> faults > old(faults)
      ensures RefusedRightly(r)
      ensures r.Restored? ==> forall i :: i in committed ==> i < |ops| && TakenBack(ops, events, i)
    {
      hide TakenBack;
      var k := |committed|;
      assert committed[..k] == committed;
      while k > 0
        invariant 0 <= k <= |committed| && Indices(ops, committed[..k])
        invariant Valid() && Later()
        invariant Held(ops, staging, committed[..k])
        invariant quiet ==> Undo(ops, Now(), committed[..k]) == Undo(ops, old(Now()), committed)
        invariant TakenBackFrom(ops, events, committed, k)
      {
        ghost var steps := events;
        r := UndoOneOf(k, Undo(ops, Now(), committed[..k]));
        if !r.Restored? {
          return;
        }
        OneMoreTakenBack(ops, steps, events, committed, k - 1);
        k := k - 1;
      }
      r := Restored;
    }

    /** One round of it: undo the last of the first `k` committed operations. */
    method UndoOneOf(k: nat, ghost u: Undoing) returns (r: Recovery)
      requires Valid() && 0 < k <= |committed| && Indices(ops, committed[..k]) && Held(ops, staging, committed[..k])
      requires quiet ==> u == Undo(ops, Now(), committed[..k])
      modifies this`tree, this`staging, this`states, this`events, this`faults
      ensures Valid() && Later()
      ensures Indices(ops, committed[..k - 1]) && Held(ops, staging, committed[..k - 1])
      ensures quiet && r.Restored? ==> u == Undo(ops, Now(), committed[..k - 1])
      ensures quiet && !r.Restored? ==> Undoes(u, r)
      ensures quiet && r.Stuck? ==> faults > old(faults)
      ensures r.Restored? ==> committed[k - 1] < |ops| && TakenBack(ops, events, committed[k - 1])
      ensures RefusedRightly(r)
    {
      ghost var g, c := staging, committed[..k];
      assert c[..k - 1] == committed[..k - 1] && c[k - 1] in c;
      r := UndoOperation(committed[k - 1]);
      HeldRest(ops, g, c, staging);
    }

    /** Remove the created directories, last one first. */
    method RemoveCreated() returns (ok: bool)
      requires Valid()
      modifies this`tree, this`states, this`events, this`faults
      ensures Valid() && Later()
      ensures quiet && MkdirsFit(start, created) && old(tree) == Mkdirs(start, created) ==>
                (ok ==> tree == start) && (!ok ==> faults > old(faults))
      ensures ok ==> forall d :: d in created ==> RemoveDirectory(d) in events
    {
      ghost var exact := quiet && MkdirsFit(start, created) && tree == Mkdirs(start, created);
      var k := |created|;
      assert created[..k] == created;
      while k > 0
        invariant 0 <= k <= |created|
        invariant Valid() && Later()
        invariant exact ==> MkdirsFit(start, created[..k]) && tree == Mkdirs(start, created[..k])
        invariant forall j :: k <= j < |created| ==> RemoveDirectory(created[j]) in events
      {
        k := k - 1;
        assert created[..k + 1][..k] == created[..k];
        if exact {
          RemoveLast(start, created[..k + 1]);
          PresentHasParent(tree, created[k]);
        }
        var reached := OpenParent(created[k]);
        if !reached {
          return false;
        }
        var removed := RemoveEmpty(created[k]);
        if !removed {
          return false;
        }
      }
      ok := true;
    }

    /** First of all, bring a half-moved original home. */
    method FinishPending() returns (ok: bool)
      requires Valid() && Kept()
      modifies this`tree, this`staging, this`states, this`events, this`faults, this`pending
      ensures Valid() && Kept() && Later()
      ensures ok ==> pending.None?
      ensures old(pending).None? ==> ok && Now() == old(Now()) && faults == old(faults)
      ensures ok && old(pending).Some? ==> Restore(old(pending).value) in events
      ensures old(CanRecover()) ==> CanRecover()
      ensures quiet && old(CanRecover()) && !ok ==> faults > old(faults)
    {
      if pending.None? {
        return true;
      }
      ok := OpenParent(ops[pending.value].path);
      if ok {
        ok := MoveHome(pending.value);
      }
    }

    /** Then undo the committed operations, and remove the created directories. */
    method UndoAll() returns (r: Recovery)
      requires Valid() && Kept() && pending.None?
      modifies this`tree, this`staging, this`states, this`events, this`faults
      ensures Valid() && Later()
      ensures quiet && old(CanRecover()) ==> Exact(r)
      ensures quiet && old(CanRecover()) && r.Stuck? ==> faults > old(faults)
      ensures quiet && r.RefusedAt? ==> Undo(ops, old(Now()), committed) == Refused(Now(), r.index)
      ensures quiet && faults == old(faults) ==> (r.RefusedAt? <==> Undo(ops, old(Now()), committed).Refused?)
      ensures RefusedRightly(r)
      ensures r.Restored? ==> AllTakenBack(ops, events, committed, created)
    {
      if quiet && CanRecover() {
        UndoRestores(ops, start, Now(), created, committed);
      }
      r := UndoCommitted();
      if r.Restored? {
        var removed := RemoveCreated();
        r := if removed then Restored else Stuck;
      }
    }

    /** What a rollback comes to that can restore the tree. */
    ghost predicate Exact(r: Recovery)
      reads this
    {
      !r.RefusedAt? && (r.Restored? ==> tree == start)
    }

    /** Undo what the failed commit did. With nobody else writing, neither during
        the commit nor now: it never refuses, only a failing primitive keeps it
        from finishing, and when it finishes the tree is the one the commit began
        with. With nobody else writing now, whatever happened during the commit,
        and no half-moved original: it is `Undo`, and refuses exactly if that
        does (`RefusedShape`), unless a primitive fails. */
    method Rollback() returns (r: Recovery)
      requires Valid() && Kept()
      modifies this`tree, this`staging, this`states, this`events, this`faults, this`pending
      ensures Valid() && Open() && Later()
      ensures quiet && old(CanRecover()) ==> Exact(r)
      ensures quiet && old(CanRecover()) && r.Stuck? ==> faults > old(faults)
      ensures quiet && old(pending).None? && r.RefusedAt? ==> Undo(ops, old(Now()), committed) == Refused(Now(), r.index)
      ensures quiet && old(pending).None? && faults == old(faults) ==>
                (r.RefusedAt? <==> Undo(ops, old(Now()), committed).Refused?)
      ensures RefusedRightly(r)
      ensures r.Restored? ==> AllTakenBack(ops, events, committed, created)
      ensures r.Restored? && old(pending).Some? ==> Restore(old(pending).value) in events
    {
      var home := FinishPending();
      if !home {
        return Stuck;
      }
      r := UndoAll();
    }

    // ---------- apply ----------

    /** Every destination can be read, and is as it was prepared or is a seed that
        exists. */
    ghost predicate AsPrepared(t: Tree) {
      forall i :: 0 <= i < |ops| ==> FeasibleOne(ops, t, i)
    }

    /** With nobody else writing it succeeds exactly if all is as prepared, unless
        a primitive fails. */
    method Revalidate() returns (ok: bool)
      requires Valid()
      modifies this`tree, this`states, this`events, this`faults
      ensures Valid() && Later()
      ensures quiet ==> Now() == old(Now())
      ensures quiet && ok ==> AsPrepared(tree)
      ensures quiet && AsPrepared(tree) && !ok ==> faults > old(faults)
    {
      for i := 0 to |ops|
        invariant Valid() && Later()
        invariant quiet ==> Now() == old(Now())
        invariant quiet ==> forall j :: 0 <= j < i ==> FeasibleOne(ops, tree, j)
      {
        assert quiet && AsPrepared(tree) ==> FeasibleOne(ops, tree, i);
        var current := Read(ops[i].path);
        if !current.Found? || (current.image != ops[i].before && !(ops[i].seed && current.image.File?)) {
          return false;
        }
      }
      ok := true;
    }

    /** Write every payload to its slot of a new staging directory. */
    method StageAll() returns (ok: bool)
      requires ValidOperations(ops) && staging == map[]
      modifies this`staging, this`faults
      ensures if ok then faults == old(faults) else faults > old(faults)
      ensures ok ==> AllStaged(ops, staging)
      ensures forall x :: x in staging ==> x.New? && staging[x] != Missing && WellFormed(staging[x])
    {
      for i := 0 to |ops|
        invariant faults == old(faults)
        invariant forall j: nat :: j < i ==> Stored(staging, New(j)) == ops[j].after
        invariant forall x :: x in staging ==> x.New? && staging[x] != Missing && WellFormed(staging[x])
      {
        var failed := Fault();
        if failed {
          return false;
        }
        staging := staging[New(i) := ops[i].after];
      }
      ok := true;
    }

    /** Stage the payloads, check again that nothing moved meanwhile, and write
        the first journal record. An early failure drops the staging directory. */
    method Begin(stopped: bool, sources: bool) returns (ok: bool)
      requires Valid() && staging == map[] && committed == [] && created == [] && pending.None?
      modifies this`tree, this`staging, this`states, this`events, this`faults, this`journal, this`start
      ensures Valid()
      ensures quiet ==> tree == old(tree)
      ensures !ok ==> journal == old(journal)
      ensures ok ==> Kept() && OnTrack(0)
      ensures ok ==> forall x: Slot :: x.RolledBack? ==> Stored(staging, x) == Missing
      ensures quiet && ok ==> start == tree && AsPrepared(tree)
      ensures ok ==> Begun() && ToCome(0) && AllAccounted()
      ensures ok ==> stopped && sources
      ensures quiet && Feasible(ops, old(tree)) && stopped && sources && !ok ==> faults > old(faults)
      ensures faults >= old(faults)
    {
      hide Committed, Held, FeasibleOne;
      ok := StageAll();
      states, events := [Now()], [];
      if ok {
        ok := Revalidate();
      }
      if !ok || !stopped || !sources {
        staging := map[];
        states, events := [Now()], [];
        return false;
      }
      ok := OpenJournal();
    }

    /** The first journal record: the commit begins. */
    method OpenJournal() returns (ok: bool)
      requires Valid() && committed == [] && created == [] && pending.None?
      requires AllStaged(ops, staging) && forall x :: x in staging ==> x.New?
      modifies this`tree, this`states, this`events, this`faults, this`journal, this`start
      ensures Valid() && staging == old(staging) && faults >= old(faults)
      ensures quiet ==> tree == old(tree) && start == tree
      ensures !ok ==> journal == old(journal) && faults > old(faults)
      ensures ok ==> Kept() && OnTrack(0) && Begun() && AllAccounted()
    {
      hide Committed, Held;
      start, states, events := tree, [Now()], [];
      NothingCommitted(ops, start, Now());
      ok := WriteJournal(Prepared);
    }

    /** `apply`: lock, revalidate, stage, revalidate again, commit, and on a
        failure roll back. `stopped` and `sources` say, for the check before
        staging and the one after it, whether the game is stopped and whether
        the sources are unchanged.

        With nobody else writing: an apply that did not start changed nothing;
        one that committed has converged, whether or not its last journal write
        succeeded; one that failed restored the tree exactly, unless a primitive
        failed during the rollback, and it never refused to. And from a tree that
        fits the preparation, an apply in which no primitive fails goes through.

        Whoever else writes: its steps are on a ledger that goes back to when all
        payloads were staged, so `RunKeepsFiles`, `BackupSurvives` and
        `PayloadLands` hold of every state on the way. */
    method Apply(stopped: (bool, bool), sources: (bool, bool)) returns (outcome: Outcome)
      requires Valid() && staging == map[] && committed == [] && created == [] && pending.None? && journal.None?
      modifies this
      ensures Valid()
      ensures !stopped.0 || !sources.0 ==> outcome.NotStarted?
      ensures ops != [] && !(stopped.1 && sources.1) ==> outcome.NotStarted?
      ensures quiet && outcome.NotStarted? ==> tree == old(tree)
      ensures quiet && !outcome.NotStarted? ==> AsPrepared(old(tree))
      ensures quiet && (outcome.Applied? || outcome.AppliedUnrecorded?) ==> Converged(ops, old(tree), tree)
      ensures quiet && outcome.Failed? && outcome.recovery.Restored? ==> tree == old(tree)
      ensures quiet && outcome.Failed? && outcome.failures == 0 ==> outcome.recovery.Restored?
      ensures quiet && outcome.Failed? ==> !outcome.recovery.RefusedAt?
      ensures journal.Some? && journal.value.status.RollbackDone? ==> outcome.Failed? && outcome.recovery.Restored?
      ensures outcome.Failed? ==> NotedRightly(outcome, faults - old(faults))
      ensures journal.Some? && journal.value.status.CommitDone? ==> outcome.Applied?
      ensures outcome.Applied? && ops != [] ==> journal == Some(Journal(CommitDone, committed, created, None))
      ensures outcome.AppliedUnrecorded? ==> faults > old(faults)
      ensures quiet && Feasible(ops, old(tree)) && stopped == (true, true) && sources == (true, true) && faults == old(faults) ==>
                outcome.Applied?
      ensures outcome.Failed? ==> outcome.failures <= faults - old(faults)
      ensures quiet && Feasible(ops, old(tree)) && outcome.Failed? ==> outcome.failures < faults - old(faults)
      ensures quiet && Feasible(ops, old(tree)) && outcome.Failed? && faults == old(faults) + 1 ==>
                outcome.recovery.Restored? && tree == old(tree)
      ensures !outcome.NotStarted? && ops != [] ==> Begun() && AllAccounted()
      ensures outcome.Applied? || outcome.AppliedUnrecorded? ==> AllDealt(|ops|)
      ensures outcome.Failed? && outcome.recovery.Restored? ==> AllTakenBack(ops, events, committed, created)
    {
      var lease := Fault();
      var ready := Revalidate();
      if lease || !ready || !sources.0 || !stopped.0 {
        return NotStarted;
      }
      if ops == [] {
        return Applied;
      }
      ready := Begin(stopped.1, sources.1);
      if !ready {
        return NotStarted;
      }
      outcome := CommitOrRollBack();
    }

    /** The commit with its rollback, from the first journal record on. It is
        `AppliedUnrecorded` exactly when the commit did not fail and the journal
        does not say that it is done, which takes a failing journal write. */
    method CommitOrRollBack() returns (outcome: Outcome)
      requires Valid() && Kept() && pending.None? && committed == [] && OnTrack(0) && ToCome(0)
      requires Begun() && AllAccounted()
      requires forall x: Slot :: x.RolledBack? ==> Stored(staging, x) == Missing
      modifies this`tree, this`staging, this`states, this`events, this`faults, this`journal, this`pending, this`created, this`committed
      ensures Valid() && Later() && Begun()
      ensures !outcome.Failed? ==> (outcome.AppliedUnrecorded? <==> journal.Some? && !journal.value.status.CommitDone?)
      ensures outcome.AppliedUnrecorded? ==> faults > old(faults)
      ensures Hopeful() && faults == old(faults) ==> outcome.Applied?
      ensures outcome.Failed? ==> outcome.failures <= faults - old(faults)
      ensures Hopeful() && outcome.Failed? ==> outcome.failures < faults - old(faults)
      ensures Hopeful() && outcome.Failed? && faults == old(faults) + 1 ==> outcome.recovery.Restored? && tree == start
      ensures AllAccounted()
      ensures !outcome.Failed? ==> AllDealt(|ops|)
      ensures outcome.Failed? && outcome.recovery.Restored? ==> AllTakenBack(ops, events, committed, created)
      ensures !outcome.NotStarted?
      ensures quiet && !outcome.Failed? ==> Converged(ops, start, tree)
      ensures quiet && outcome.Failed? && outcome.recovery.Restored? ==> tree == start
      ensures quiet && outcome.Failed? && outcome.failures == 0 ==> outcome.recovery.Restored?
      ensures quiet && outcome.Failed? ==> !outcome.recovery.RefusedAt?
      ensures journal.Some? && journal.value.status.RollbackDone? ==> outcome.Failed? && outcome.recovery.Restored?
      ensures outcome.Failed? ==> NotedRightly(outcome, faults - old(faults))
      ensures journal.Some? && journal.value.status.CommitDone? ==> outcome.Applied?
      ensures outcome.Applied? ==> journal == Some(Journal(CommitDone, committed, created, None))
    {
      hide Dealt, Accounted, AllTakenBack;
      var done := CommitAll();
      if done {
        outcome := Conclude();
      } else {
        outcome := RollBackAndNote();
      }
    }

    /** The last journal record of a complete commit. */
    method Conclude() returns (outcome: Outcome)
      requires Valid() && Kept() && pending.None? && OnTrack(|ops|) && AllDealt(|ops|) && AllAccounted()
      modifies this`tree, this`states, this`events, this`faults, this`journal
      ensures Valid() && Later() && AllDealt(|ops|) && AllAccounted()
      ensures outcome == if faults == old(faults) then Applied else AppliedUnrecorded
      ensures outcome.AppliedUnrecorded? ==> journal == old(journal)
      ensures outcome.Applied? ==> journal == Some(Journal(CommitDone, committed, created, None))
      ensures quiet ==> Converged(ops, start, tree)
    {
      if quiet {
        CommittedConverges(ops, start, Now(), created, committed);
      }
      hide Dealt, Accounted, Converged, Committed;
      ghost var before, steps := states, events;
      var noted := WriteJournal(CommitDone);
      DealtGrows(ops, before, committed, states, committed, |ops|);
      LedgerGrows(ops, steps, events, committed, created);
      outcome := if noted then Applied else AppliedUnrecorded;
    }

    /** The journal says how the rollback ended, unless a primitive failed that
        was none of the rollback's: the last journal write. */
    predicate NotedRightly(outcome: Outcome, failed: int)
      requires outcome.Failed?
      reads this
    {
      journal.Some? &&
      (journal.value.status == (if outcome.recovery.Restored? then RollbackDone else RollbackFailed) ||
        ((journal.value.status.Prepared? || journal.value.status.InProgress?) && failed > outcome.failures))
    }

    /** The rollback of a failed commit, and the last journal record. */
    method RollBackAndNote() returns (outcome: Outcome)
      requires Valid() && Kept() && CanRecover() && AllAccounted()
      modifies this`tree, this`staging, this`states, this`events, this`faults, this`journal, this`pending
      ensures Valid() && Later() && AllAccounted() && outcome.Failed?
      ensures outcome.failures <= faults - old(faults)
      ensures quiet && outcome.recovery.Restored? ==> tree == start
      ensures quiet && outcome.failures == 0 ==> outcome.recovery.Restored?
      ensures quiet ==> !outcome.recovery.RefusedAt?
      ensures outcome.recovery.Restored? ==> AllTakenBack(ops, events, committed, created)
      ensures journal.Some? && (journal.value.status.RollbackDone? ==> outcome.recovery.Restored?)
      ensures !journal.value.status.CommitDone?
      ensures NotedRightly(outcome, faults - old(faults))
    {
      hide Accounted, AllTakenBack;
      ghost var steps := events;
      var first := faults;
      var r := Rollback();
      outcome := Failed(r, faults - first);
      LedgerGrows(ops, steps, events, committed, created);
      ghost var undone := events;
      var _ := WriteJournal(if r.Restored? then RollbackDone else RollbackFailed);
      LedgerGrows(ops, undone, events, committed, created);
    }
  }

  /** What is on the ledger stays there. */
  lemma {:induction false} LedgerGrows(ops: seq<Operation>, before: seq<Event>, events: seq<Event>, c: seq<nat>, ds: seq<Path>)
    requires before <= events
    ensures Accounted(ops, before, c, ds) ==> Accounted(ops, events, c, ds)
    ensures AllTakenBack(ops, before, c, ds) ==> AllTakenBack(ops, events, c, ds)
  {
    assert forall e :: e in before ==> e in events;
  }

  lemma {:induction false} OneMoreTakenBack(ops: seq<Operation>, before: seq<Event>, events: seq<Event>, c: seq<nat>, k: nat)
    requires before <= events && k < |c| && TakenBackFrom(ops, before, c, k + 1)
    requires c[k] < |ops| && TakenBack(ops, events, c[k])
    ensures TakenBackFrom(ops, events, c, k)
  {
    assert forall e :: e in before ==> e in events;
  }

  /** What is dealt with stays so. */
  lemma {:induction false} DealtStays(ops: seq<Operation>, before: seq<State>, c: seq<nat>, states: seq<State>, d: seq<nat>, i: nat)
    requires before <= states && c <= d && i < |ops| && Dealt(ops, before, c, i)
    ensures Dealt(ops, states, d, i)
  {
    if i !in c {
      var s :| s in before && Lookup(s.tree, ops[i].path).File?;
      assert s in states;
    }
  }

  lemma {:induction false} DealtGrows(ops: seq<Operation>, before: seq<State>, c: seq<nat>, states: seq<State>, d: seq<nat>, next: nat)
    requires before <= states && c <= d
    requires forall j: nat :: j < next && j < |ops| ==> Dealt(ops, before, c, j)
    ensures forall j: nat :: j < next && j < |ops| ==> Dealt(ops, states, d, j)
  {
    forall j: nat | j < next && j < |ops| ensures Dealt(ops, states, d, j) {
      DealtStays(ops, before, c, states, d, j);
    }
  }

  /** When the turn of an operation comes, nothing is in its way. */
  lemma {:induction false} FreeAtTurn(ops: seq<Operation>, start: Tree, s: State, ds: seq<Path>, c: seq<nat>, i: nat)
    requires ValidOperations(ops) && Committed(ops, start, s, ds, c, i) && i < |ops| && Feasible(ops, start)
    ensures FeasibleOne(ops, start, i)
    ensures s.tree.Directory? && !Blocked(s.tree, ops[i].path)
    ensures forall q :: q < ops[i].path ==> !Lookup(s.tree, q).File?
  {
    assert FeasibleOne(ops, start, i);
    WayFree(ops, start, s, ds, c, i);
  }

  lemma {:induction false} ReachableRead(t: Tree, p: Path)
    ensures HasParent(t, p) ==> !Blocked(t, p)
  {
    if HasParent(t, p) {
      HasParentNotBlocked(t, p);
    }
  }

  /** Inside a directory there is room for an entry. */
  lemma {:induction false} ParentThere(t: Tree, p: Path, k: nat)
    requires 0 < k <= |p|
    ensures Lookup(t, p[..k - 1]).Directory? ==> HasParent(t, p[..k]) && p[..|p|] == p
  {
    ParentDirectory(t, p[..k]);
    assert p[..k][..k - 1] == p[..k - 1];
  }

  /** A commit starts on track. */
  lemma {:induction false} NothingCommitted(ops: seq<Operation>, start: Tree, s: State)
    requires s.tree == start
    requires forall i: nat :: i < |ops| ==> Stored(s.staging, New(i)) == ops[i].after
    requires forall x :: x in s.staging ==> x.New?
    ensures Committed(ops, start, s, [], [], 0) && Held(ops, s.staging, [])
  {
  }

  lemma {:induction false} PresentNotBlocked(t: Tree, p: Path)
    ensures Blocked(t, p) ==> Lookup(t, p) == Missing
  {
    if Lookup(t, p) != Missing {
      PresentHasParent(t, p);
      HasParentNotBlocked(t, p);
    }
  }

  lemma {:induction false} HeldElsewhere(ops: seq<Operation>, g: Staging, c: seq<nat>, h: Staging, i: nat)
    requires Indices(ops, c) && Held(ops, g, c) && i !in c && SameElsewhere(g, h, i)
    ensures Held(ops, h, c)
  {
  }

  /** A rename changes only its own operation's slots. */
  lemma {:induction false} MovedSlots(ops: seq<Operation>, s: State, e: Event)
    requires Rename(ops, e) && s.CanMove(From(ops, e), To(ops, e))
    ensures var t := s.Moved(From(ops, e), To(ops, e));
            && SameElsewhere(s.staging, t.staging, e.i)
            && (!e.Retire? ==> forall x: Slot :: x.RolledBack? ==> Stored(t.staging, x) == Stored(s.staging, x))
            && (!e.Place? ==> Stored(t.staging, New(e.i)) == Stored(s.staging, New(e.i)))
            && (e.Backup? ==> Stored(t.staging, Old(e.i)) != Missing)
            && (e.Place? ==> Stored(t.staging, Old(e.i)) == Stored(s.staging, Old(e.i)))
  {
  }

  /** The two renames of an operation put its payload where its original was. */
  lemma {:induction false} ContentPlaced(ops: seq<Operation>, start: Tree, s: State, ds: seq<Path>, c: seq<nat>, i: nat)
    requires ValidOperations(ops) && Committed(ops, start, s, ds, c, i) && i < |ops|
    requires HasParent(s.tree, ops[i].path) && Lookup(s.tree, ops[i].path) == ops[i].before
    ensures var mid := if ops[i].before == Missing then s else s.Moved(At(ops[i].path), In(Old(i)));
            var t := mid.Moved(In(New(i)), At(ops[i].path));
            && t.tree == Replace(s.tree, ops[i].path, ops[i].after)
            && Stored(t.staging, Old(i)) == ops[i].before
  {
    assert Stored(s.staging, New(i)) == ops[i].after;
    ReplaceTwice(s.tree, ops[i].path, Missing, ops[i].after);
  }

  /** Undoing the last operation leaves the others' slots alone. */
  lemma {:induction false} HeldRest(ops: seq<Operation>, g: Staging, c: seq<nat>, h: Staging)
    requires Indices(ops, c) && c != [] && Held(ops, g, c)
    requires SameElsewhere(g, h, c[|c| - 1])
    ensures Indices(ops, c[..|c| - 1]) && Held(ops, h, c[..|c| - 1])
  {
    var d := c[..|c| - 1];
    forall i | i in d
      ensures Stored(h, RolledBack(i)) == Missing && (ops[i].before != Missing ==> Stored(h, Old(i)) != Missing)
    {
      var k :| 0 <= k < |d| && d[k] == i;
      assert c[k] < c[|c| - 1];
      assert i in c;
    }
  }

  lemma {:induction false} SeedSkipped(ops: seq<Operation>, start: Tree, s: State, ds: seq<Path>, c: seq<nat>, i: nat)
    requires ValidOperations(ops) && Committed(ops, start, s, ds, c, i) && i < |ops|
    requires ops[i].seed && Lookup(s.tree, ops[i].path).File?
    ensures Committed(ops, start, s, ds, c, i + 1)
  {
    DestinationUntouched(ops, start, s, ds, c, i, i);
  }

  lemma {:induction false} BackedUp(ops: seq<Operation>, start: Tree, s: State, ds: seq<Path>, c: seq<nat>, i: nat)
    requires ValidOperations(ops) && Committed(ops, start, s, ds, c, i) && i < |ops| && s.Sound()
    requires s.Get(At(ops[i].path)) == ops[i].before && s.CanMove(At(ops[i].path), In(Old(i)))
    ensures HalfMoved(ops, start, s.Moved(At(ops[i].path), In(Old(i))), ds, c, i)
    ensures s.Moved(At(ops[i].path), In(Old(i))).Moved(In(Old(i)), At(ops[i].path)) == s
  {
    var h := s.Moved(At(ops[i].path), In(Old(i)));
    UndoPending(s.tree, ops[i].path);
    assert h.staging - {Old(i)} == s.staging;
    assert h.Moved(In(Old(i)), At(ops[i].path)) == s;
  }
}
