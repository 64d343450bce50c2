/** Preparing a declaration and applying it: the two halves together. */
module Manager {
  import opened Images
  import opened Results
  import opened Transaction
  import P = Preparation
  import D = Declarations
  import opened Committing

  /** Prepare, then apply, with nobody else writing when `quiet`; `faults` is how
      many primitives failed. A refused preparation, an apply that did not start
      and a completed rollback all leave the tree as it was; after a successful
      one every place holds what is declared for it, and preparing the same
      declaration again finds nothing to do. It does not start unless the game is stopped and the sources
      are as they were. Of a root that is there, with the game stopped and the
      sources as they were, an accepted declaration is applied if no primitive
      fails, and either applied or undone completely if one does. */
  method ApplyDeclaration(d: P.Declaration, tree: Tree, quiet: bool, stopped: (bool, bool), sources: (bool, bool))
    returns (r: Result<Outcome, P.Refusal>, after: Tree, faults: nat)
    requires WellFormed(tree) && P.GoodDeclaration(d)
    ensures r.Err? <==> P.Prepared(d, tree).Err?
    ensures r.Ok? <==> D.Accepted(d, tree)
    ensures r.Err? ==> after == tree
    ensures r.Ok? && (!stopped.0 || !sources.0) ==> r.value.NotStarted?
    ensures r.Ok? && !(forall x :: D.Names(d, x) ==> D.Holds(d, tree, x)) && !(stopped.1 && sources.1) ==> r.value.NotStarted?
    ensures quiet && r.Ok? && r.value.NotStarted? ==> after == tree
    ensures quiet && r.Ok? && r.value.Failed? && r.value.failures == 0 ==> after == tree
    ensures quiet && r.Ok? && (r.value.Applied? || r.value.AppliedUnrecorded?) ==>
              && (forall x :: D.Names(d, x) ==> D.Left(d, tree, after, x))
              && P.AsDeclared(d, after) && P.Prepared(d, after).Ok? && P.Prepared(d, after).value.operations == []
    ensures quiet && r.Ok? && tree.Directory? && stopped == (true, true) && sources == (true, true) && faults == 0 ==>
              r.value.Applied?
    ensures quiet && r.Ok? && tree.Directory? && r.value.Failed? && faults == 1 ==> after == tree
    ensures r.Ok? && r.value.Failed? ==> r.value.failures <= faults
  {
    var prepared := P.Prepare(d, tree);
    D.AcceptedMeans(d, tree);
    if prepared.Err? {
      return Err(prepared.error), tree, 0;
    }
    P.PreparedAreValid(d, tree);
    D.NothingToDoMeans(d, tree);
    if tree.Directory? {
      P.PreparedAreFeasible(d, tree);
    }
    var commit := new Commit(prepared.value.operations, tree, quiet);
    var outcome := commit.Apply(stopped, sources);
    r, after, faults := Ok(outcome), commit.tree, commit.faults;
    if quiet && (outcome.Applied? || outcome.AppliedUnrecorded?) {
      P.ApplyConverges(d, tree, after);
      D.AppliedLeaves(d, tree, after);
      P.AppliedAsDeclared(d, tree, after);
    }
  }
}
