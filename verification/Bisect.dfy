/** Bisecting a mod list (crates/modde-core/src/bisect.rs): the next candidate,
    what an answer leaves of the suspects, and whole runs. */
module Bisect {
  import opened Ordering
  import opened Results
  import opened Sequences

  type Id = string

  type Dependencies = map<Id, seq<Id>>

  datatype Plan = Plan(candidate: seq<Id>, enabled: seq<Id>, disabled: seq<Id>)

  datatype Answer = Good | Bad

  // ---------- what has to be enabled together ----------

  function FirstHalf(suspects: seq<Id>): seq<Id> {
    suspects[..|suspects| / 2]
  }

  function SecondHalf(suspects: seq<Id>): seq<Id> {
    suspects[|suspects| / 2..]
  }

  predicate Needs(deps: Dependencies, a: Id, b: Id) {
    a in deps && b in deps[a]
  }

  /** Each suspect of the path needs the next. */
  ghost predicate Chain(deps: Dependencies, suspects: seq<Id>, path: seq<Id>) {
    && path != []
    && (forall i :: 0 <= i < |path| ==> path[i] in suspects)
    && (forall i, j :: 0 <= i && j == i + 1 && j < |path| ==> Needs(deps, path[i], path[j]))
  }

  ghost predicate Reached(deps: Dependencies, suspects: seq<Id>, x: Id) {
    exists path :: Chain(deps, suspects, path) && path[0] in SecondHalf(suspects) && path[|path| - 1] == x
  }

  /** The second half and everything it reaches among the suspects. */
  ghost function Enabled(deps: Dependencies, suspects: seq<Id>): set<Id> {
    set x | x in suspects && Reached(deps, suspects, x)
  }

  /** What of the first half nothing enabled needs. */
  ghost function Disabled(deps: Dependencies, suspects: seq<Id>): set<Id> {
    set x | x in FirstHalf(suspects) && !NeededBy(deps, Enabled(deps, suspects), x)
  }

  predicate NeededBy(deps: Dependencies, s: set<Id>, x: Id) {
    exists a :: a in s && Needs(deps, a, x)
  }

  predicate Closed(deps: Dependencies, suspects: seq<Id>, s: set<Id>) {
    forall a, b :: a in s && b in suspects && Needs(deps, a, b) ==> b in s
  }

  function Filter(s: seq<Id>, keep: set<Id>): (r: seq<Id>)
    ensures forall x :: x in r <==> x in s && x in keep
  {
    if s == [] then []
    else
      var rest := Filter(s[1..], keep);
      if s[0] in keep then [s[0]] + rest else rest
  }

  ghost function NextPlan(deps: Dependencies, suspects: seq<Id>): Option<Plan> {
    if |suspects| <= 1 then None
    else
      var disabled := Filter(suspects, Disabled(deps, suspects));
      Some(Plan(disabled, Filter(suspects, Enabled(deps, suspects)), disabled))
  }

  lemma {:induction false} ReachedHalf(deps: Dependencies, suspects: seq<Id>, x: Id)
    requires x in SecondHalf(suspects)
    ensures Reached(deps, suspects, x)
  {
    assert Chain(deps, suspects, [x]);
  }

  lemma {:induction false} ReachedNext(deps: Dependencies, suspects: seq<Id>, x: Id, y: Id)
    requires Reached(deps, suspects, x) && y in suspects && Needs(deps, x, y)
    ensures Reached(deps, suspects, y)
  {
    var path :| Chain(deps, suspects, path) && path[0] in SecondHalf(suspects) && path[|path| - 1] == x;
    assert Chain(deps, suspects, path + [y]);
  }

  lemma {:induction false} ReachedInside(deps: Dependencies, suspects: seq<Id>, s: set<Id>, path: seq<Id>)
    requires Closed(deps, suspects, s) && Chain(deps, suspects, path) && path[0] in s
    ensures path[|path| - 1] in s
    decreases |path|
  {
    if |path| > 1 {
      var front := path[..|path| - 1];
      assert Chain(deps, suspects, front);
      ReachedInside(deps, suspects, s, front);
      assert Needs(deps, path[|path| - 2], path[|path| - 1]);
    }
  }

  /** What is enabled is the least set of suspects that has the second half and
      lacks nothing that it needs among the suspects. */
  lemma {:induction false} EnabledIsLeast(deps: Dependencies, suspects: seq<Id>)
    ensures var e := Enabled(deps, suspects);
            && Closed(deps, suspects, e)
            && (forall x :: x in SecondHalf(suspects) ==> x in e)
            && forall s :: Closed(deps, suspects, s) && (forall x :: x in SecondHalf(suspects) ==> x in s) ==> e <= s
  {
    var e := Enabled(deps, suspects);
    forall a, b | a in e && b in suspects && Needs(deps, a, b) ensures b in e {
      ReachedNext(deps, suspects, a, b);
    }
    forall x | x in SecondHalf(suspects) ensures x in e {
      ReachedHalf(deps, suspects, x);
    }
    forall s | Closed(deps, suspects, s) && forall x :: x in SecondHalf(suspects) ==> x in s ensures e <= s {
      forall x | x in e ensures x in s {
        var path :| Chain(deps, suspects, path) && path[0] in SecondHalf(suspects) && path[|path| - 1] == x;
        ReachedInside(deps, suspects, s, path);
      }
    }
  }

  /** A set of suspects that has the second half, and all that its members need
      among the suspects, has all that a plan enables; and that is such a set. */
  lemma {:induction false} PlanIsLeast(deps: Dependencies, suspects: seq<Id>, s: set<Id>)
    requires |suspects| > 1
    ensures var on := NextPlan(deps, suspects).value.enabled;
            && (forall x :: x in suspects[|suspects| / 2..] ==> x in on)
            && (forall a, b :: a in on && a in deps && b in deps[a] && b in suspects ==> b in on)
            && ((forall x :: x in suspects[|suspects| / 2..] ==> x in s)
                && (forall a, b :: a in s && a in deps && b in deps[a] && b in suspects ==> b in s)
                ==> forall x :: x in on ==> x in s)
  {
    var e, second := Enabled(deps, suspects), suspects[|suspects| / 2..];
    EnabledIsLeast(deps, suspects);
    assert second == SecondHalf(suspects);
    forall x | x in second ensures x in suspects {
      Halves(suspects, x);
    }
    hide Enabled, Disabled, NeededBy;
    forall a, b | a in e && a in deps && b in deps[a] && b in suspects ensures b in e {
      assert Needs(deps, a, b);
    }
    if forall a, b :: a in s && a in deps && b in deps[a] && b in suspects ==> b in s {
      assert Closed(deps, suspects, s);
    }
  }

  // ---------- the algorithm ----------

  /** What one pass finds: ids still disabled that an enabled one needs. */
  method FindMoved(deps: Dependencies, suspects: seq<Id>, enabled: set<Id>, disabled: set<Id>) returns (moved: seq<Id>)
    ensures forall x :: x in moved ==> x in suspects && x in disabled && NeededBy(deps, enabled, x)
    ensures moved == [] ==> forall x :: x in suspects && x in disabled ==> !NeededBy(deps, enabled, x)
  {
    moved := [];
    var ids := SortedKeys(enabled);
    var i := 0;
    while i < |ids|
      invariant 0 <= i <= |ids|
      invariant forall x :: x in moved ==> x in suspects && x in disabled && NeededBy(deps, enabled, x)
      invariant moved == [] ==> forall a, x :: a in ids[..i] && x in suspects && x in disabled ==> !Needs(deps, a, x)
    {
      var id := ids[i];
      if id in deps {
        var more := NeededDisabled(deps[id], suspects, disabled);
        assert forall x :: x in more ==> Needs(deps, id, x);
        assert id in enabled;
        moved := moved + more;
      }
      i := i + 1;
    }
    assert ids[..i] == ids;
  }

  method NeededDisabled(needed: seq<Id>, suspects: seq<Id>, disabled: set<Id>) returns (moved: seq<Id>)
    ensures forall x :: x in moved <==> x in needed && x in suspects && x in disabled
  {
    moved := [];
    var i := 0;
    while i < |needed|
      invariant 0 <= i <= |needed|
      invariant forall x :: x in moved <==> x in needed[..i] && x in suspects && x in disabled
    {
      if needed[i] in suspects && needed[i] in disabled {
        moved := moved + [needed[i]];
      }
      i := i + 1;
    }
    assert needed[..i] == needed;
  }

  method MoveAll(moved: seq<Id>, enabled: set<Id>, disabled: set<Id>) returns (e: set<Id>, d: set<Id>)
    ensures e == enabled + (set x | x in moved) && d == disabled - (set x | x in moved)
  {
    e, d := enabled, disabled;
    var i := 0;
    while i < |moved|
      invariant 0 <= i <= |moved|
      invariant e == enabled + (set x | x in moved[..i]) && d == disabled - (set x | x in moved[..i])
    {
      d := d - {moved[i]};
      e := e + {moved[i]};
      i := i + 1;
    }
    assert moved[..i] == moved;
  }

  /** What the sets are between passes. */
  ghost predicate Between(deps: Dependencies, suspects: seq<Id>, enabled: set<Id>, disabled: set<Id>) {
    && (forall x :: x in SecondHalf(suspects) ==> x in enabled)
    && (forall x :: x in enabled ==> x in suspects && Reached(deps, suspects, x))
    && (forall x :: x in disabled ==> x in FirstHalf(suspects))
    && (forall x :: x in FirstHalf(suspects) && x !in disabled ==> x in enabled && NeededBy(deps, enabled, x))
  }

  lemma {:induction false} Halves(suspects: seq<Id>, x: Id)
    ensures x in suspects <==> x in FirstHalf(suspects) || x in SecondHalf(suspects)
  {
    assert suspects == FirstHalf(suspects) + SecondHalf(suspects);
  }

  lemma {:induction false} PassKeeps(deps: Dependencies, suspects: seq<Id>, enabled: set<Id>, disabled: set<Id>, moved: seq<Id>)
    requires Between(deps, suspects, enabled, disabled)
    requires forall x :: x in moved ==> x in suspects && x in disabled && NeededBy(deps, enabled, x)
    ensures Between(deps, suspects, enabled + (set x | x in moved), disabled - (set x | x in moved))
  {
    hide Reached, Needs;
    var e := enabled + set x | x in moved;
    forall x | x in moved ensures Reached(deps, suspects, x) {
      var a :| a in enabled && Needs(deps, a, x);
      ReachedNext(deps, suspects, a, x);
    }
    forall x | NeededBy(deps, enabled, x) ensures NeededBy(deps, e, x) {
      var a :| a in enabled && Needs(deps, a, x);
      assert a in e;
    }
  }

  lemma {:induction false} Settled(deps: Dependencies, suspects: seq<Id>, enabled: set<Id>, disabled: set<Id>)
    requires Between(deps, suspects, enabled, disabled)
    requires forall x :: x in suspects && x in disabled ==> !NeededBy(deps, enabled, x)
    ensures enabled == Enabled(deps, suspects) && disabled == Disabled(deps, suspects)
  {
    forall a, b | a in enabled && b in suspects && Needs(deps, a, b) ensures b in enabled {
      Halves(suspects, b);
      assert NeededBy(deps, enabled, b);
    }
    EnabledIsLeast(deps, suspects);
    assert Closed(deps, suspects, enabled);
    assert enabled == Enabled(deps, suspects);
    forall x | x in FirstHalf(suspects) ensures x in suspects {
      Halves(suspects, x);
    }
  }

  /** `next_candidate_with_dependencies`. */
  method NextCandidate(deps: Dependencies, suspects: seq<Id>) returns (plan: Option<Plan>)
    ensures plan == NextPlan(deps, suspects)
  {
    if |suspects| <= 1 {
      return None;
    }
    var split := |suspects| / 2;
    var disabled := set x | x in suspects[..split];
    var enabled := set x | x in suspects[split..];
    forall x | x in SecondHalf(suspects) ensures x in suspects && Reached(deps, suspects, x) {
      Halves(suspects, x);
      ReachedHalf(deps, suspects, x);
    }
    var moved := FindMoved(deps, suspects, enabled, disabled);
    while moved != []
      invariant Between(deps, suspects, enabled, disabled)
      invariant forall x :: x in moved ==> x in suspects && x in disabled && NeededBy(deps, enabled, x)
      invariant moved == [] ==> forall x :: x in suspects && x in disabled ==> !NeededBy(deps, enabled, x)
      decreases disabled
    {
      PassKeeps(deps, suspects, enabled, disabled, moved);
      assert moved[0] in moved;
      enabled, disabled := MoveAll(moved, enabled, disabled);
      moved := FindMoved(deps, suspects, enabled, disabled);
    }
    Settled(deps, suspects, enabled, disabled);
    var off := Filter(suspects, disabled);
    plan := Some(Plan(off, Filter(suspects, enabled), off));
  }

  /** `next_candidate`. */
  method NextCandidateAlone(suspects: seq<Id>) returns (plan: Option<Plan>)
    ensures plan == NextPlan(map[], suspects)
  {
    plan := NextCandidate(map[], suspects);
  }

  /** `apply_result`. */
  function ApplyResult(p: Plan, answer: Answer): seq<Id> {
    match answer
    case Good => p.disabled
    case Bad => p.enabled
  }

  // ---------- the two parts ----------

  /** `r` is `s` with some elements left out. */
  predicate Subsequence(r: seq<Id>, s: seq<Id>)
    decreases |s|
  {
    if s == [] then r == []
    else Subsequence(r, s[1..]) || (r != [] && r[0] == s[0] && Subsequence(r[1..], s[1..]))
  }

  lemma {:induction false} FilterSubsequence(s: seq<Id>, keep: set<Id>)
    ensures Subsequence(Filter(s, keep), s)
    decreases |s|
  {
    if s != [] {
      FilterSubsequence(s[1..], keep);
      assert Filter(s, keep) == [s[0]] + Filter(s[1..], keep) || Filter(s, keep) == Filter(s[1..], keep);
    }
  }

  lemma {:induction false} FilterNoRepeats(s: seq<Id>, keep: set<Id>)
    requires NoRepeats(s)
    ensures NoRepeats(Filter(s, keep))
    decreases |s|
  {
    if s != [] {
      FilterNoRepeats(s[1..], keep);
      assert s[0] !in s[1..];
    }
  }

  lemma {:induction false} FilterLengths(s: seq<Id>, a: set<Id>, b: set<Id>)
    requires forall x :: x in s ==> (x in a <==> x !in b)
    ensures |Filter(s, a)| + |Filter(s, b)| == |s|
    decreases |s|
  {
    if s != [] {
      assert s[0] in s;
      FilterLengths(s[1..], a, b);
    }
  }

  /** Of distinct suspects, enabled and disabled are two complementary parts, in
      the original order; neither is more than that. */
  lemma {:induction false} PlanPartitions(deps: Dependencies, suspects: seq<Id>)
    requires NoRepeats(suspects) && |suspects| > 1
    ensures var p := NextPlan(deps, suspects).value;
            && Subsequence(p.enabled, suspects) && Subsequence(p.disabled, suspects)
            && NoRepeats(p.enabled) && NoRepeats(p.disabled)
            && (forall x :: x in suspects ==> (x in p.enabled <==> x !in p.disabled))
            && p.candidate == p.disabled
            && |p.enabled| + |p.disabled| == |suspects|
            && |p.enabled| >= |suspects| - |suspects| / 2
  {
    var e, d := Enabled(deps, suspects), Disabled(deps, suspects);
    FilterSubsequence(suspects, e);
    FilterSubsequence(suspects, d);
    FilterNoRepeats(suspects, e);
    FilterNoRepeats(suspects, d);
    DisabledIsRest(deps, suspects);
    FilterLengths(suspects, e, d);
    EnabledIsLeast(deps, suspects);
    SecondHalfKept(suspects, e);
  }

  lemma {:induction false} DisabledIsRest(deps: Dependencies, suspects: seq<Id>)
    requires NoRepeats(suspects)
    ensures forall x :: x in suspects ==> (x in Enabled(deps, suspects) <==> x !in Disabled(deps, suspects))
  {
    var e := Enabled(deps, suspects);
    EnabledIsLeast(deps, suspects);
    forall x | x in suspects ensures x in e <==> x !in Disabled(deps, suspects) {
      Halves(suspects, x);
      if x in FirstHalf(suspects) && x in e {
        FirstNotSecond(suspects, x);
        var path :| Chain(deps, suspects, path) && path[0] in SecondHalf(suspects) && path[|path| - 1] == x;
        NeededAtEnd(deps, suspects, path);
      }
    }
  }

  lemma {:induction false} FirstNotSecond(suspects: seq<Id>, x: Id)
    requires NoRepeats(suspects) && x in FirstHalf(suspects)
    ensures x !in SecondHalf(suspects)
  {
    var k := |suspects| / 2;
    var i :| 0 <= i < k && FirstHalf(suspects)[i] == x;
    forall j | 0 <= j < |SecondHalf(suspects)| ensures SecondHalf(suspects)[j] != x {
      assert suspects[i] != suspects[k + j];
    }
  }

  lemma {:induction false} NeededAtEnd(deps: Dependencies, suspects: seq<Id>, path: seq<Id>)
    requires Chain(deps, suspects, path) && path[0] in SecondHalf(suspects)
    requires path[|path| - 1] !in SecondHalf(suspects)
    ensures NeededBy(deps, Enabled(deps, suspects), path[|path| - 1])
  {
    var front := path[..|path| - 1];
    assert |path| > 1;
    assert Chain(deps, suspects, front);
    var a := path[|path| - 2];
    assert front[|front| - 1] == a;
    assert a in Enabled(deps, suspects) && Needs(deps, a, path[|path| - 1]);
  }

  lemma {:induction false} SecondHalfKept(suspects: seq<Id>, keep: set<Id>)
    requires forall x :: x in SecondHalf(suspects) ==> x in keep
    ensures |Filter(suspects, keep)| >= |SecondHalf(suspects)|
  {
    assert suspects == FirstHalf(suspects) + SecondHalf(suspects);
    FilterConcat(FirstHalf(suspects), SecondHalf(suspects), keep);
    FilterAll(SecondHalf(suspects), keep);
  }

  lemma {:induction false} FilterConcat(a: seq<Id>, b: seq<Id>, keep: set<Id>)
    ensures Filter(a + b, keep) == Filter(a, keep) + Filter(b, keep)
    decreases |a|
  {
    if a == [] {
      assert a + b == b;
    } else {
      FilterConcat(a[1..], b, keep);
      assert (a + b)[1..] == a[1..] + b;
    }
  }

  lemma {:induction false} FilterAll(s: seq<Id>, keep: set<Id>)
    requires forall x :: x in s ==> x in keep
    ensures Filter(s, keep) == s
    decreases |s|
  {
    if s != [] {
      assert s[0] in s;
      FilterAll(s[1..], keep);
      assert s == [s[0]] + s[1..];
    }
  }

  lemma {:induction false} FilterNone(s: seq<Id>, keep: set<Id>)
    requires forall x :: x in s ==> x !in keep
    ensures Filter(s, keep) == []
    decreases |s|
  {
    if s != [] {
      assert s[0] in s;
      FilterNone(s[1..], keep);
    }
  }

  // ---------- runs ----------

  /** What a tester finds who sees the fault exactly when the culprit is on. */
  function Truth(p: Plan, culprit: Id): Answer {
    if culprit in p.enabled then Bad else Good
  }

  /** The suspects after one truthful round. */
  ghost function Round(deps: Dependencies, suspects: seq<Id>, culprit: Id): seq<Id> {
    var p := NextPlan(deps, suspects);
    if p.None? then suspects else ApplyResult(p.value, Truth(p.value, culprit))
  }

  ghost function After(deps: Dependencies, suspects: seq<Id>, culprit: Id, rounds: nat): seq<Id> {
    if rounds == 0 then suspects else Round(deps, After(deps, suspects, culprit, rounds - 1), culprit)
  }

  /** The second half needs all of the first, directly or through other suspects. */
  ghost predicate Stuck(deps: Dependencies, suspects: seq<Id>) {
    |suspects| > 1 && forall x :: x in FirstHalf(suspects) ==> Reached(deps, suspects, x)
  }

  /** Exactly then nothing can be switched off. */
  lemma {:induction false} StuckMeans(deps: Dependencies, suspects: seq<Id>)
    requires NoRepeats(suspects) && |suspects| > 1
    ensures Stuck(deps, suspects) <==> NextPlan(deps, suspects).value.disabled == []
  {
    var off := NextPlan(deps, suspects).value.disabled;
    DisabledIsRest(deps, suspects);
    forall x | x in FirstHalf(suspects) ensures x in off <==> !Reached(deps, suspects, x) {
      Halves(suspects, x);
    }
    if off != [] {
      assert off[0] in off;
      Halves(suspects, off[0]);
    }
  }

  /** One round keeps the culprit, leaves distinct suspects, and makes progress
      exactly unless the second half needs all of the first; a good answer
      leaves at most half. */
  lemma {:induction false} RoundKeeps(deps: Dependencies, suspects: seq<Id>, culprit: Id)
    requires NoRepeats(suspects) && culprit in suspects
    ensures var next := Round(deps, suspects, culprit);
            && culprit in next && NoRepeats(next) && |next| <= |suspects|
            && (forall x :: x in next ==> x in suspects)
            && (|suspects| > 1 ==> (|next| < |suspects| <==> !Stuck(deps, suspects)))
            && (Stuck(deps, suspects) ==> next == suspects)
            && (|suspects| > 1 && Truth(NextPlan(deps, suspects).value, culprit) == Good ==> |next| <= |suspects| / 2)
  {
    if |suspects| > 1 {
      PlanPartitions(deps, suspects);
      StuckMeans(deps, suspects);
      if Stuck(deps, suspects) {
        FilterAll(suspects, Enabled(deps, suspects));
      }
    }
  }

  /** Every run keeps the culprit among ever fewer suspects. */
  lemma {:induction false} RunKeeps(deps: Dependencies, suspects: seq<Id>, culprit: Id, rounds: nat)
    requires NoRepeats(suspects) && culprit in suspects
    ensures var so := After(deps, suspects, culprit, rounds);
            && culprit in so && NoRepeats(so) && |so| <= |suspects| && forall x :: x in so ==> x in suspects
  {
    hide NextPlan, Stuck, NoRepeats, Round, Truth, ApplyResult;
    if rounds > 0 {
      RunKeeps(deps, suspects, culprit, rounds - 1);
      RoundKeeps(deps, After(deps, suspects, culprit, rounds - 1), culprit);
    }
  }

  /** A run with dependencies comes, in fewer rounds than there are suspects, to
      the culprit or to where it is stuck for good. */
  lemma {:induction false} RunEnds(deps: Dependencies, suspects: seq<Id>, culprit: Id)
    requires NoRepeats(suspects) && culprit in suspects
    ensures exists k :: 0 <= k < |suspects| &&
              (After(deps, suspects, culprit, k) == [culprit] || Stuck(deps, After(deps, suspects, culprit, k)))
  {
    hide NextPlan, Stuck, Round, Truth, ApplyResult;
    var k := 0;
    while After(deps, suspects, culprit, k) != [culprit] && !Stuck(deps, After(deps, suspects, culprit, k))
      invariant 0 <= k && |After(deps, suspects, culprit, k)| + k <= |suspects|
      decreases |suspects| - k
    {
      var so := After(deps, suspects, culprit, k);
      RunKeeps(deps, suspects, culprit, k);
      RoundKeeps(deps, so, culprit);
      assert so == [so[0]] || |so| > 1;
      k := k + 1;
    }
    RunKeeps(deps, suspects, culprit, k);
  }

  lemma {:induction false} StuckForGood(deps: Dependencies, suspects: seq<Id>, culprit: Id, more: nat)
    requires NoRepeats(suspects) && culprit in suspects && Stuck(deps, suspects)
    ensures After(deps, suspects, culprit, more) == suspects
  {
    hide NextPlan, Stuck, NoRepeats, Round, Truth, ApplyResult;
    if more > 0 {
      StuckForGood(deps, suspects, culprit, more - 1);
      RoundKeeps(deps, suspects, culprit);
    }
  }

  /** The least number of halvings, rounded up, that leave one. */
  function CeilLog2(n: nat): nat {
    if n <= 1 then 0 else 1 + CeilLog2((n + 1) / 2)
  }

  function Power2(n: nat): nat {
    if n == 0 then 1 else 2 * Power2(n - 1)
  }

  lemma {:induction false} CeilLog2Means(n: nat)
    requires n >= 1
    ensures n <= Power2(CeilLog2(n)) && (n > 1 ==> Power2(CeilLog2(n) - 1) < n)
  {
    if n > 1 {
      CeilLog2Means((n + 1) / 2);
    }
  }

  lemma {:induction false} CeilLog2Monotone(m: nat, n: nat)
    requires m <= n
    ensures CeilLog2(m) <= CeilLog2(n)
    decreases n
  {
    if m > 1 {
      CeilLog2Monotone((m + 1) / 2, (n + 1) / 2);
    }
  }

  /** No suspect needs an earlier one. */
  ghost predicate Forward(deps: Dependencies, suspects: seq<Id>) {
    forall i, j :: 0 <= i < j < |suspects| ==> !Needs(deps, suspects[j], suspects[i])
  }

  /** Then the halves are the two parts, and the same holds of each of them. */
  lemma {:induction false} ForwardHalves(deps: Dependencies, suspects: seq<Id>)
    requires NoRepeats(suspects) && |suspects| > 1 && Forward(deps, suspects)
    ensures var half := |suspects| / 2;
            NextPlan(deps, suspects) == Some(Plan(suspects[..half], suspects[half..], suspects[..half]))
    ensures Forward(deps, FirstHalf(suspects)) && Forward(deps, SecondHalf(suspects))
  {
    var a, b := FirstHalf(suspects), SecondHalf(suspects);
    ForwardSets(deps, suspects);
    assert suspects == a + b;
    hide Enabled, Disabled;
    KeepHalves(a, b, Enabled(deps, suspects), Disabled(deps, suspects));
  }

  lemma {:induction false} ForwardSets(deps: Dependencies, suspects: seq<Id>)
    requires NoRepeats(suspects) && Forward(deps, suspects)
    ensures Enabled(deps, suspects) == set x | x in SecondHalf(suspects)
    ensures Disabled(deps, suspects) == set x | x in FirstHalf(suspects)
    ensures forall x :: x in FirstHalf(suspects) ==> x !in SecondHalf(suspects)
  {
    var second := set x | x in SecondHalf(suspects);
    forall x | x in FirstHalf(suspects) ensures x !in SecondHalf(suspects) {
      FirstNotSecond(suspects, x);
    }
    forall a, b | a in second && b in FirstHalf(suspects) ensures !Needs(deps, a, b) {
      NotNeeded(deps, suspects, a, b);
    }
    forall b | b in suspects && b !in second ensures b in FirstHalf(suspects) {
      Halves(suspects, b);
    }
    assert Closed(deps, suspects, second);
    EnabledIsLeast(deps, suspects);
    assert Enabled(deps, suspects) == second;
  }

  lemma {:induction false} NotNeeded(deps: Dependencies, suspects: seq<Id>, a: Id, b: Id)
    requires Forward(deps, suspects) && a in SecondHalf(suspects) && b in FirstHalf(suspects)
    ensures !Needs(deps, a, b)
  {
    var k := |suspects| / 2;
    var i :| 0 <= i < k && FirstHalf(suspects)[i] == b;
    var j :| 0 <= j < |suspects| - k && SecondHalf(suspects)[j] == a;
    assert suspects[i] == b && suspects[k + j] == a;
  }

  /** Without dependencies, say, the halves are the two parts. */
  lemma {:induction false} AloneHalves(suspects: seq<Id>)
    requires NoRepeats(suspects) && |suspects| > 1
    ensures var half := |suspects| / 2;
            NextPlan(map[], suspects) == Some(Plan(suspects[..half], suspects[half..], suspects[..half]))
  {
    ForwardHalves(map[], suspects);
  }

  lemma {:induction false} KeepHalves(a: seq<Id>, b: seq<Id>, e: set<Id>, d: set<Id>)
    requires (forall x :: x in a ==> x in d && x !in e) && forall x :: x in b ==> x in e && x !in d
    ensures Filter(a + b, e) == b && Filter(a + b, d) == a
  {
    FilterConcat(a, b, e);
    FilterConcat(a, b, d);
    FilterAll(a, d);
    FilterAll(b, e);
    FilterNone(a, e);
    FilterNone(b, d);
    assert [] + b == b && a + [] == a;
  }

  lemma {:induction false} PlanNeeded(deps: Dependencies, suspects: seq<Id>)
    ensures NextPlan(deps, suspects).Some? <==> |suspects| > 1
  {
  }

  /** A run in which no suspect needs an earlier one, as when there are no
      dependencies, finds the culprit in at most as many rounds as halving the
      number of suspects takes. */
  method FindCulprit(deps: Dependencies, suspects: seq<Id>, culprit: Id) returns (found: seq<Id>, rounds: nat)
    requires NoRepeats(suspects) && culprit in suspects && Forward(deps, suspects)
    ensures found == [culprit] && found == After(deps, suspects, culprit, rounds)
    ensures rounds <= CeilLog2(|suspects|)
  {
    hide NextPlan, Stuck, NoRepeats, Forward;
    found, rounds := suspects, 0;
    var plan := NextCandidate(deps, found);
    while plan.Some?
      invariant plan == NextPlan(deps, found)
      invariant NoRepeats(found) && culprit in found && Forward(deps, found)
      invariant found == After(deps, suspects, culprit, rounds)
      invariant rounds + CeilLog2(|found|) <= CeilLog2(|suspects|)
      decreases |found|
    {
      PlanNeeded(deps, found);
      ForwardHalves(deps, found);
      RoundKeeps(deps, found, culprit);
      ghost var n := |found|;
      found := ApplyResult(plan.value, Truth(plan.value, culprit));
      CeilLog2Monotone(|found|, (n + 1) / 2);
      rounds := rounds + 1;
      plan := NextCandidate(deps, found);
    }
    PlanNeeded(deps, found);
  }

  /** In particular without dependencies. */
  method FindCulpritAlone(suspects: seq<Id>, culprit: Id) returns (found: seq<Id>, rounds: nat)
    requires NoRepeats(suspects) && culprit in suspects
    ensures found == [culprit] && found == After(map[], suspects, culprit, rounds)
    ensures rounds <= CeilLog2(|suspects|)
  {
    found, rounds := FindCulprit(map[], suspects, culprit);
  }

  /** With dependencies a run need not end: two mods, the second needing the
      first. */
  lemma {:induction false} StuckExample()
    ensures var deps: Dependencies := map["b" := ["a"]]; Stuck(deps, ["a", "b"])
  {
    var deps: Dependencies, suspects := map["b" := ["a"]], ["a", "b"];
    assert SecondHalf(suspects) == ["b"] && FirstHalf(suspects) == ["a"];
    ReachedHalf(deps, suspects, "b");
    ReachedNext(deps, suspects, "b", "a");
  }
}
