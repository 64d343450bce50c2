/** Turning a declaration into operations
    (crates/modde-manager/src/transaction.rs, `prepare`, `register`, `add` and
    `seed`), what every accepted preparation guarantees, and that applying one
    leaves nothing to prepare. */
module Preparation {
  import opened Images
  import opened Results
  import opened Ordering
  import opened Transaction
  import Config

  datatype Refusal =
    | UnsafePath(path: Path)
    | StockContent(path: Path)
    | Collision(path: Path)
    | TypeConflict(path: Path)
    | NotReadable(path: Path)
    | BadSource
    | BadConfig(path: Path)
    | SourceOverlap

  // ---------- paths ----------

  /** A component that is an ordinary name, on every platform. */
  predicate NormalName(n: Name) {
    n != "" && n != "." && n != ".." && forall c :: c in n ==> c !in "/\\:"
  }

  /** `files::relative`. */
  predicate Relative(p: Path) {
    p != [] && |p| <= 128 && forall n :: n in p ==> NormalName(n)
  }

  function Lower(s: string): string {
    if s == [] then []
    else [if 'A' <= s[0] <= 'Z' then (s[0] as int + 32) as char else s[0]] + Lower(s[1..])
  }

  const STOCK := "blizzard_"

  predicate Stock(p: Path) {
    exists n :: n in p && STOCK <= Lower(n)
  }

  /** `register`: the destinations taken, with one more, or why it is refused. */
  function Registered(taken: seq<Path>, p: Path): Result<seq<Path>, Refusal> {
    if !Relative(p) then Err(UnsafePath(p))
    else if Stock(p) then Err(StockContent(p))
    else if exists q :: q in taken && Overlap(q, p) then Err(Collision(p))
    else Ok(taken + [p])
  }

  // ---------- operations of one destination ----------

  predicate SameKind(before: Tree, after: Tree) {
    before.Missing? || (before.File? && after.File?) || (before.Directory? && after.Directory?)
  }

  /** `add`: at most one operation; none if there is nothing to do, or if a seed
      is already there. */
  function Added(t: Tree, p: Path, after: Tree, seed: bool): Result<seq<Operation>, Refusal> {
    if Blocked(t, p) then Err(NotReadable(p))
    else
      var before := Lookup(t, p);
      if !SameKind(before, after) then Err(TypeConflict(p))
      else Ok(if before != after && (!seed || before == Missing) then [Operation(p, before, after, seed)] else [])
  }

  /** `seed`: one operation for each absent file of a tree, in name order. */
  function Seeded(t: Tree, p: Path, image: Tree): Result<seq<Operation>, Refusal>
    decreases image, 1, 0
  {
    match image
    case Missing => Err(BadSource)
    case File(_) => Added(t, p, image, true)
    case Directory(entries) =>
      if Blocked(t, p) then Err(NotReadable(p))
      else if Lookup(t, p).File? then Err(TypeConflict(p))
      else SeededEntries(t, p, image, SortedKeys(entries.Keys))
  }

  function SeededEntries(t: Tree, p: Path, image: Tree, names: seq<Name>): Result<seq<Operation>, Refusal>
    requires image.Directory? && forall n :: n in names ==> n in image.entries
    decreases image, 0, |names|
  {
    if names == [] then Ok([])
    else
      match Seeded(t, p + [names[0]], image.entries[names[0]])
      case Err(e) => Err(e)
      case Ok(first) =>
        match SeededEntries(t, p, image, names[1..])
        case Err(e) => Err(e)
        case Ok(rest) => Ok(first + rest)
  }

  // ---------- declarations ----------

  datatype AddonDirectory = AddonDirectory(source: Path, target: Name)

  /** An addon with the content of its checkout; `accepted` says that the lock
      names it at this revision, repository and content. */
  datatype Addon = Addon(checkout: Path, content: Tree, accepted: bool, directories: seq<AddonDirectory>)

  datatype ConfigFile = ConfigFile(path: Path, settings: map<string, Config.Setting>)

  datatype Source = Source(path: Path, content: Tree)

  datatype SavedVariables = SavedVariables(path: Path, seed: bool, source: Option<Source>)

  datatype SeedTree = SeedTree(source: Source, destination: Path)

  /** A declared instance, with what its sources hold. `lockRead` is false when
      the lock file is needed and cannot be read. */
  datatype Declaration = Declaration(
    root: Path,
    lock: Option<Path>,
    lockRead: bool,
    applicable: Content -> bool,
    addons: seq<Addon>,
    configs: seq<ConfigFile>,
    saved: seq<SavedVariables>,
    seeds: seq<SeedTree>)

  /** One step of `prepare`: a check, or a destination with what goes there. */
  datatype Item =
    | Gate(passes: bool)
    | Install(destination: Path, directory: AddonDirectory, content: Tree)
    | Configure(destination: Path, settings: map<string, Config.Setting>)
    | Save(destination: Path, from: Option<Source>, seed: bool)
    | Plant(destination: Path, source: Source)

  const ADDONS: Path := ["Interface", "AddOns"]

  function AddonItems(a: Addon): seq<Item> {
    [Gate(a.accepted && !a.content.Missing?)] +
    seq(|a.directories|, i requires 0 <= i < |a.directories| =>
      Install(ADDONS + [a.directories[i].target], a.directories[i], a.content))
  }

  function AllAddonItems(addons: seq<Addon>): seq<Item> {
    if addons == [] then [] else AddonItems(addons[0]) + AllAddonItems(addons[1..])
  }

  /** The steps in the order `prepare` takes them. */
  function Items(d: Declaration): seq<Item> {
    [Gate(d.addons == [] || d.lockRead)] +
    AllAddonItems(d.addons) +
    seq(|d.configs|, i requires 0 <= i < |d.configs| => Configure(d.configs[i].path, d.configs[i].settings)) +
    seq(|d.saved|, i requires 0 <= i < |d.saved| => Save(d.saved[i].path, d.saved[i].source, d.saved[i].seed)) +
    seq(|d.seeds|, i requires 0 <= i < |d.seeds| => Plant(d.seeds[i].destination, d.seeds[i].source))
  }

  function Sources(d: Declaration): seq<Path> {
    (if d.addons != [] && d.lock.Some? then [d.lock.value] else []) +
    seq(|d.addons|, i requires 0 <= i < |d.addons| => d.addons[i].checkout) +
    SavedSources(d.saved) +
    seq(|d.seeds|, i requires 0 <= i < |d.seeds| => d.seeds[i].source.path)
  }

  function SavedSources(saved: seq<SavedVariables>): seq<Path> {
    if saved == [] then []
    else (if saved[0].source.Some? then [saved[0].source.value.path] else []) + SavedSources(saved[1..])
  }

  /** The subdirectory of a checkout that is installed, with its applicable TOC. */
  function AddonContent(applicable: Content -> bool, d: AddonDirectory, content: Tree): Result<Tree, Refusal> {
    if d.source != ["."] && !Relative(d.source) then Err(UnsafePath(d.source))
    else
      var c := if d.source == ["."] then content else Lookup(content, d.source);
      if !c.Directory? then Err(BadSource)
      else
        var toc := Child(c, d.target + ".toc");
        if toc.File? && applicable(toc.content) then Ok(c) else Err(BadSource)
  }

  /** The text a configuration file starts from. */
  function Body(t: Tree, p: Path): Result<string, Refusal> {
    if Blocked(t, p) then Err(NotReadable(p))
    else
      match Lookup(t, p)
      case Missing => Ok("")
      case File(c) => if c.Text? then Ok(c.text) else Err(BadConfig(p))
      case Directory(_) => Err(BadConfig(p))
  }

  function ItemOperations(applicable: Content -> bool, t: Tree, item: Item): Result<seq<Operation>, Refusal>
    requires !item.Gate?
  {
    match item
    case Install(p, d, content) =>
      (match AddonContent(applicable, d, content)
       case Err(e) => Err(e)
       case Ok(c) => Added(t, p, c, false))
    case Configure(p, settings) =>
      if settings == map[] then Ok([])
      else
        (match Body(t, p)
         case Err(e) => Err(e)
         case Ok(body) =>
           match Config.Rendered(body, settings)
           case Err(_) => Err(BadConfig(p))
           case Ok(text) => Added(t, p, File(Text(text)), false))
    case Save(p, source, seed) =>
      if source.Some? && source.value.content.File? then Added(t, p, source.value.content, seed) else Err(BadSource)
    case Plant(p, source) =>
      if source.content.Directory? then Seeded(t, p, source.content) else Err(BadSource)
  }

  datatype Progress = Progress(destinations: seq<Path>, operations: seq<Operation>)

  function Taken(applicable: Content -> bool, t: Tree, s: Progress, item: Item): Result<Progress, Refusal> {
    if item.Gate? then if item.passes then Ok(s) else Err(BadSource)
    else
      match Registered(s.destinations, item.destination)
      case Err(e) => Err(e)
      case Ok(destinations) =>
        match ItemOperations(applicable, t, item)
        case Err(e) => Err(e)
        case Ok(ops) => Ok(Progress(destinations, s.operations + ops))
  }

  function TakenAll(applicable: Content -> bool, t: Tree, s: Progress, items: seq<Item>): Result<Progress, Refusal>
    decreases |items|
  {
    if items == [] then Ok(s)
    else
      match Taken(applicable, t, s, items[0])
      case Err(e) => Err(e)
      case Ok(s') => TakenAll(applicable, t, s', items[1..])
  }

  predicate SourceClear(root: Path, source: Path, destinations: seq<Path>) {
    forall d :: d in destinations ==> !Overlap(source, root + d)
  }

  /** `prepare`. */
  function Prepared(d: Declaration, t: Tree): Result<Progress, Refusal> {
    match TakenAll(d.applicable, t, Progress([], []), Items(d))
    case Err(e) => Err(e)
    case Ok(s) =>
      if forall source :: source in Sources(d) ==> SourceClear(d.root, source, s.destinations) then Ok(s) else Err(SourceOverlap)
  }

  // ---------- the procedure ----------

  /** `prepare` as it runs: a list of destinations and a list of operations that
      its steps push onto. */
  class Preparing {
    const tree: Tree
    const applicable: Content -> bool
    var destinations: seq<Path>
    var operations: seq<Operation>

    constructor (tree: Tree, applicable: Content -> bool)
      ensures this.tree == tree && this.applicable == applicable
      ensures destinations == [] && operations == []
    {
      this.tree, this.applicable, destinations, operations := tree, applicable, [], [];
    }

    method Register(p: Path) returns (refusal: Option<Refusal>)
      modifies this`destinations
      ensures match Registered(old(destinations), p)
              case Ok(ds) => refusal == None && destinations == ds
              case Err(e) => refusal == Some(e) && destinations == old(destinations)
    {
      if !Relative(p) {
        return Some(UnsafePath(p));
      }
      if Stock(p) {
        return Some(StockContent(p));
      }
      for i := 0 to |destinations|
        invariant forall q :: q in destinations[..i] ==> !Overlap(q, p)
      {
        if Overlap(destinations[i], p) {
          return Some(Collision(p));
        }
      }
      assert destinations[..|destinations|] == destinations;
      destinations := destinations + [p];
      refusal := None;
    }

    method Add(p: Path, after: Tree, seed: bool) returns (refusal: Option<Refusal>)
      modifies this`operations
      ensures match Added(tree, p, after, seed)
              case Ok(ops) => refusal == None && operations == old(operations) + ops
              case Err(e) => refusal == Some(e) && operations == old(operations)
    {
      if Blocked(tree, p) {
        return Some(NotReadable(p));
      }
      var before := Lookup(tree, p);
      if !SameKind(before, after) {
        return Some(TypeConflict(p));
      }
      if before != after && (!seed || before == Missing) {
        operations := operations + [Operation(p, before, after, seed)];
      }
      refusal := None;
    }

    /** On an error the operations pushed so far stay, but are never used. */
    method Seed(p: Path, image: Tree) returns (refusal: Option<Refusal>)
      modifies this`operations
      ensures match Seeded(tree, p, image)
              case Ok(ops) => refusal == None && operations == old(operations) + ops
              case Err(e) => refusal == Some(e)
      decreases image, 0
    {
      match image {
        case Missing => refusal := Some(BadSource);
        case File(_) => refusal := Add(p, image, true);
        case Directory(entries) =>
          if Blocked(tree, p) {
            return Some(NotReadable(p));
          }
          if Lookup(tree, p).File? {
            return Some(TypeConflict(p));
          }
          var names := SortedKeys(entries.Keys);
          ghost var whole := SeededEntries(tree, p, image, names);
          for i := 0 to |names|
            invariant forall n :: n in names ==> n in entries
            invariant Continues(SeededEntries(tree, p, image, names[i..]), old(operations), operations, whole)
          {
            assert names[i..][0] == names[i] && names[i..][1..] == names[i + 1..];
            ghost var before := operations;
            var bad := Seed(p + [names[i]], entries[names[i]]);
            if bad.Some? {
              return bad;
            }
            ContinuesStep(tree, p, image, names[i..], old(operations), before, operations, whole);
          }
          assert names[|names|..] == [];
          refusal := None;
      }
    }

    /** One step: register the destination, and push what goes there. */
    method Take(item: Item) returns (refusal: Option<Refusal>)
      modifies this
      ensures match Taken(applicable, tree, Progress(old(destinations), old(operations)), item)
              case Ok(s) => refusal == None && destinations == s.destinations && operations == s.operations
              case Err(e) => refusal == Some(e)
    {
      if item.Gate? {
        return if item.passes then None else Some(BadSource);
      }
      refusal := Register(item.destination);
      if refusal.Some? {
        return;
      }
      match item {
        case Install(p, d, content) =>
          var c := AddonContent(applicable, d, content);
          if c.Err? {
            return Some(c.error);
          }
          refusal := Add(p, c.value, false);
        case Configure(p, settings) =>
          if settings != map[] {
            var body := Body(tree, p);
            if body.Err? {
              return Some(body.error);
            }
            var text := Config.RenderConfig(body.value, settings);
            if text.Err? {
              return Some(BadConfig(p));
            }
            refusal := Add(p, File(Text(text.value)), false);
          }
        case Save(p, from, seed) =>
          if from.None? || !from.value.content.File? {
            return Some(BadSource);
          }
          refusal := Add(p, from.value.content, seed);
        case Plant(p, source) =>
          if !source.content.Directory? {
            return Some(BadSource);
          }
          refusal := Seed(p, source.content);
      }
    }
  }

  /** What is still to be pushed completes the whole. */
  ghost predicate Continues(rest: Result<seq<Operation>, Refusal>, start: seq<Operation>, now: seq<Operation>,
                            whole: Result<seq<Operation>, Refusal>)
  {
    match rest
    case Err(e) => whole == Err(e)
    case Ok(ops) => whole.Ok? && start + whole.value == now + ops
  }

  lemma {:induction false} ContinuesStep(t: Tree, p: Path, image: Tree, names: seq<Name>, start: seq<Operation>,
                      before: seq<Operation>, after: seq<Operation>, whole: Result<seq<Operation>, Refusal>)
    requires image.Directory? && (forall n :: n in names ==> n in image.entries) && names != []
    requires Seeded(t, p + [names[0]], image.entries[names[0]]).Ok?
    requires after == before + Seeded(t, p + [names[0]], image.entries[names[0]]).value
    requires Continues(SeededEntries(t, p, image, names), start, before, whole)
    ensures Continues(SeededEntries(t, p, image, names[1..]), start, after, whole)
  {
    var first, rest := Seeded(t, p + [names[0]], image.entries[names[0]]).value, SeededEntries(t, p, image, names[1..]);
    if rest.Ok? {
      assert before + (first + rest.value) == after + rest.value;
    }
  }

  /** `prepare` comes to `Prepared`. */
  method Prepare(d: Declaration, t: Tree) returns (r: Result<Progress, Refusal>)
    ensures r == Prepared(d, t)
  {
    var preparing := new Preparing(t, d.applicable);
    var items := Items(d);
    for i := 0 to |items|
      invariant preparing.tree == t && preparing.applicable == d.applicable
      invariant TakenAll(d.applicable, t, Progress(preparing.destinations, preparing.operations), items[i..])
             == TakenAll(d.applicable, t, Progress([], []), items)
    {
      assert items[i..][0] == items[i] && items[i..][1..] == items[i + 1..];
      var refusal := preparing.Take(items[i]);
      if refusal.Some? {
        return Err(refusal.value);
      }
    }
    assert items[|items|..] == [];
    var s := Progress(preparing.destinations, preparing.operations);
    if forall source :: source in Sources(d) ==> SourceClear(d.root, source, s.destinations) {
      return Ok(s);
    }
    return Err(SourceOverlap);
  }

  // ---------- prepared operations ----------

  /** Operations for one destination: all at or under it, apart from each other,
      each recording what it found, and as the transaction needs them. */
  ghost predicate UnderOne(t: Tree, p: Path, ops: seq<Operation>) {
    && (forall op :: op in ops ==> p <= op.path && GoodOperation(t, op))
    && (forall i, j :: 0 <= i < j < |ops| ==> !Overlap(ops[i].path, ops[j].path))
  }

  ghost predicate GoodOperation(t: Tree, op: Operation) {
    && !Blocked(t, op.path) && op.before == Lookup(t, op.path) && WellFormed(op.before)
    && op.after != Missing && WellFormed(op.after)
    && (op.seed ==> op.before == Missing && op.after.File?)
  }

  lemma {:induction false} AddedUnderOne(t: Tree, p: Path, after: Tree, seed: bool)
    requires WellFormed(t) && WellFormed(after) && after != Missing && Added(t, p, after, seed).Ok?
    requires seed ==> after.File?
    ensures UnderOne(t, p, Added(t, p, after, seed).value)
  {
    LookupWellFormed(t, p);
  }

  lemma {:induction false} SeededUnderOne(t: Tree, p: Path, image: Tree)
    requires WellFormed(t) && WellFormed(image) && Seeded(t, p, image).Ok?
    ensures UnderOne(t, p, Seeded(t, p, image).value)
    decreases image, 1, 0
  {
    match image
    case File(_) => AddedUnderOne(t, p, image, true);
    case Directory(entries) =>
      SortedKeysOrder(entries.Keys);
      SeededEntriesUnderOne(t, p, image, SortedKeys(entries.Keys));
  }

  /** They are all seeds. */
  lemma {:induction false} SeededSeeds(t: Tree, p: Path, image: Tree)
    requires Seeded(t, p, image).Ok?
    ensures forall op :: op in Seeded(t, p, image).value ==> op.seed
    decreases image, 1, 0
  {
    if image.Directory? {
      SeededEntriesSeeds(t, p, image, SortedKeys(image.entries.Keys));
    }
  }

  lemma {:induction false} SeededEntriesSeeds(t: Tree, p: Path, image: Tree, names: seq<Name>)
    requires image.Directory? && (forall n :: n in names ==> n in image.entries) && SeededEntries(t, p, image, names).Ok?
    ensures forall op :: op in SeededEntries(t, p, image, names).value ==> op.seed
    decreases image, 0, |names|
  {
    if names != [] {
      SeededSeeds(t, p + [names[0]], image.entries[names[0]]);
      SeededEntriesSeeds(t, p, image, names[1..]);
    }
  }

  lemma {:induction false} SeededEntriesUnderOne(t: Tree, p: Path, image: Tree, names: seq<Name>)
    requires WellFormed(t) && WellFormed(image) && image.Directory? && forall n :: n in names ==> n in image.entries
    requires forall i, j :: 0 <= i < j < |names| ==> names[i] != names[j]
    requires SeededEntries(t, p, image, names).Ok?
    ensures UnderOne(t, p, SeededEntries(t, p, image, names).value)
    ensures forall op :: op in SeededEntries(t, p, image, names).value ==>
              |op.path| > |p| && op.path[|p|] in names
    decreases image, 0, |names|
  {
    if names != [] {
      var first := Seeded(t, p + [names[0]], image.entries[names[0]]).value;
      var rest := SeededEntries(t, p, image, names[1..]).value;
      SeededUnderOne(t, p + [names[0]], image.entries[names[0]]);
      SeededEntriesUnderOne(t, p, image, names[1..]);
      JoinUnder(t, p, names[0], first, names[1..], rest);
    }
  }

  /** Operations under different names of a directory do not overlap. */
  lemma {:induction false} JoinUnder(t: Tree, p: Path, n: Name, first: seq<Operation>, names: seq<Name>, rest: seq<Operation>)
    requires UnderOne(t, p + [n], first) && UnderOne(t, p, rest)
    requires forall op :: op in rest ==> |op.path| > |p| && op.path[|p|] in names
    requires n !in names
    ensures UnderOne(t, p, first + rest)
    ensures forall op :: op in first + rest ==> |op.path| > |p| && op.path[|p|] in [n] + names
  {
    forall op | op in first ensures p <= op.path && |op.path| > |p| && op.path[|p|] == n {
      assert p + [n] <= op.path;
      assert (p + [n])[|p|] == n;
    }
    forall i, j | 0 <= i < j < |first + rest| ensures !Overlap((first + rest)[i].path, (first + rest)[j].path) {
      if i < |first| <= j {
        assert first[i] in first && rest[j - |first|] in rest;
      }
    }
  }

  /** Sources are read images: well formed. */
  ghost predicate GoodItem(item: Item) {
    match item
    case Install(_, _, content) => WellFormed(content)
    case Save(_, source, _) => source.Some? ==> WellFormed(source.value.content)
    case Plant(_, source) => WellFormed(source.content)
    case _ => true
  }

  ghost predicate GoodDeclaration(d: Declaration) {
    && (forall a :: a in d.addons ==> WellFormed(a.content))
    && (forall s :: s in d.saved && s.source.Some? ==> WellFormed(s.source.value.content))
    && (forall s :: s in d.seeds ==> WellFormed(s.source.content))
  }

  lemma {:induction false} ItemUnderOne(applicable: Content -> bool, t: Tree, item: Item)
    requires WellFormed(t) && !item.Gate? && GoodItem(item) && ItemOperations(applicable, t, item).Ok?
    ensures UnderOne(t, item.destination, ItemOperations(applicable, t, item).value)
  {
    match item
    case Install(p, d, content) =>
      if d.source != ["."] {
        LookupWellFormed(content, d.source);
      }
      AddedUnderOne(t, p, AddonContent(applicable, d, content).value, false);
    case Configure(p, settings) =>
      if settings != map[] {
        AddedUnderOne(t, p, File(Text(Config.Rendered(Body(t, p).value, settings).value)), false);
      }
    case Save(p, source, seed) => AddedUnderOne(t, p, source.value.content, seed);
    case Plant(p, source) => SeededUnderOne(t, p, source.content);
  }

  ghost predicate Apart(ops: seq<Operation>) {
    forall i, j :: 0 <= i < j < |ops| ==> !Overlap(ops[i].path, ops[j].path)
  }

  ghost predicate Housed(destinations: seq<Path>, op: Operation) {
    exists d :: d in destinations && d <= op.path
  }

  /** What holds after any number of steps. */
  ghost predicate Sorted(t: Tree, s: Progress) {
    && (forall d :: d in s.destinations ==> Relative(d) && !Stock(d))
    && (forall i, j :: 0 <= i < j < |s.destinations| ==> !Overlap(s.destinations[i], s.destinations[j]))
    && (forall op :: op in s.operations ==> GoodOperation(t, op) && Housed(s.destinations, op))
    && Apart(s.operations)
  }

  lemma {:induction false} DestinationsSorted(taken: seq<Path>, p: Path)
    requires forall d :: d in taken ==> Relative(d) && !Stock(d)
    requires forall i, j :: 0 <= i < j < |taken| ==> !Overlap(taken[i], taken[j])
    requires Registered(taken, p).Ok?
    ensures forall d :: d in taken + [p] ==> Relative(d) && !Stock(d)
    ensures forall i, j :: 0 <= i < j < |taken + [p]| ==> !Overlap((taken + [p])[i], (taken + [p])[j])
  {
    forall i | 0 <= i < |taken| ensures !Overlap(taken[i], p) {
      assert taken[i] in taken;
    }
  }

  lemma {:induction false} OperationsApart(t: Tree, s: Progress, p: Path, ops: seq<Operation>)
    requires Sorted(t, s) && UnderOne(t, p, ops)
    requires forall q :: q in s.destinations ==> !Overlap(q, p)
    ensures Apart(s.operations + ops)
  {
    var n := |s.operations|;
    forall i, j | 0 <= i < j < n + |ops| ensures !Overlap((s.operations + ops)[i].path, (s.operations + ops)[j].path) {
      if i < n <= j {
        assert ops[j - n] in ops;
        ApartBelow(t, s, p, s.operations[i], ops[j - n]);
      }
    }
  }

  lemma {:induction false} OperationsHoused(t: Tree, s: Progress, p: Path, ops: seq<Operation>, op: Operation)
    requires Sorted(t, s) && UnderOne(t, p, ops) && op in s.operations + ops
    ensures GoodOperation(t, op) && Housed(s.destinations + [p], op)
  {
    if op in ops {
      assert p in s.destinations + [p];
    } else {
      var d :| d in s.destinations && d <= op.path;
      assert d in s.destinations + [p];
    }
  }

  lemma {:induction false} TakenSorted(applicable: Content -> bool, t: Tree, s: Progress, item: Item)
    requires WellFormed(t) && GoodItem(item) && Sorted(t, s) && Taken(applicable, t, s, item).Ok?
    ensures Sorted(t, Taken(applicable, t, s, item).value)
  {
    if !item.Gate? {
      var p, ops := item.destination, ItemOperations(applicable, t, item).value;
      ItemUnderOne(applicable, t, item);
      DestinationsSorted(s.destinations, p);
      OperationsApart(t, s, p, ops);
      forall op | op in s.operations + ops ensures GoodOperation(t, op) && Housed(s.destinations + [p], op) {
        OperationsHoused(t, s, p, ops, op);
      }
    }
  }

  lemma {:induction false} ApartBelow(t: Tree, s: Progress, p: Path, earlier: Operation, later: Operation)
    requires Sorted(t, s) && earlier in s.operations && p <= later.path
    requires forall q :: q in s.destinations ==> !Overlap(q, p)
    ensures !Overlap(earlier.path, later.path)
  {
    var d :| d in s.destinations && d <= earlier.path;
  }

  lemma {:induction false} TakenAllSorted(applicable: Content -> bool, t: Tree, s: Progress, items: seq<Item>)
    requires WellFormed(t) && Sorted(t, s) && TakenAll(applicable, t, s, items).Ok?
    requires forall item :: item in items ==> GoodItem(item)
    ensures Sorted(t, TakenAll(applicable, t, s, items).value)
    decreases |items|
  {
    if items != [] {
      assert items[0] in items && forall item :: item in items[1..] ==> item in items;
      TakenSorted(applicable, t, s, items[0]);
      TakenAllSorted(applicable, t, Taken(applicable, t, s, items[0]).value, items[1..]);
    }
  }

  lemma {:induction false} AddonItemsGood(addons: seq<Addon>)
    requires forall a :: a in addons ==> WellFormed(a.content)
    ensures forall item :: item in AllAddonItems(addons) ==> GoodItem(item)
    decreases |addons|
  {
    if addons != [] {
      assert addons[0] in addons && forall a :: a in addons[1..] ==> a in addons;
      AddonItemsGood(addons[1..]);
    }
  }

  lemma {:induction false} ItemsGood(d: Declaration)
    requires GoodDeclaration(d)
    ensures forall item :: item in Items(d) ==> GoodItem(item)
  {
    AddonItemsGood(d.addons);
    forall i | 0 <= i < |d.saved| ensures d.saved[i] in d.saved {
    }
    forall i | 0 <= i < |d.seeds| ensures d.seeds[i] in d.seeds {
    }
  }

  /** The operations of an accepted preparation never overlap each other, each
      lies at or under a registered, unprotected relative destination, none of
      which overlaps a source, and they are what the transaction relies on. */
  lemma {:induction false} PreparedAreValid(d: Declaration, t: Tree)
    requires WellFormed(t) && GoodDeclaration(d) && Prepared(d, t).Ok?
    ensures ValidOperations(Prepared(d, t).value.operations)
    ensures Sorted(t, Prepared(d, t).value)
    ensures forall source, x :: source in Sources(d) && x in Prepared(d, t).value.destinations ==> !Overlap(source, d.root + x)
  {
    ItemsGood(d);
    TakenAllSorted(d.applicable, t, Progress([], []), Items(d));
    SortedIsValid(t, Prepared(d, t).value);
  }

  lemma {:induction false} SortedIsValid(t: Tree, s: Progress)
    requires Sorted(t, s)
    ensures ValidOperations(s.operations)
  {
    forall i | 0 <= i < |s.operations|
      ensures GoodOperation(t, s.operations[i]) && s.operations[i].path != []
    {
      assert s.operations[i] in s.operations;
      var d :| d in s.destinations && d <= s.operations[i].path;
    }
  }

  // ---------- convergence ----------

  /** And nothing is in the way of any of them. */
  lemma {:induction false} PreparedAreFeasible(d: Declaration, t: Tree)
    requires WellFormed(t) && t.Directory? && GoodDeclaration(d) && Prepared(d, t).Ok?
    ensures Feasible(Prepared(d, t).value.operations, t)
  {
    var ops := Prepared(d, t).value.operations;
    PreparedAreValid(d, t);
    forall i | 0 <= i < |ops| ensures FeasibleOne(ops, t, i) {
      assert ops[i] in ops;
    }
  }

  /** What a path shows after a converged apply, when no operation overlaps it. */
  lemma {:induction false} UntouchedBlocked(ops: seq<Operation>, start: Tree, t: Tree, p: Path)
    requires ValidOperations(ops) && Converged(ops, start, t)
    requires forall op :: op in ops ==> !Overlap(op.path, p)
    ensures Lookup(t, p) == Lookup(start, p)
    ensures Blocked(t, p) ==> Blocked(start, p)
  {
    forall i | 0 <= i < |ops| ensures !Overlap(ops[i].path, p) {
      assert ops[i] in ops;
    }
    BlockedMeans(t, p);
    BlockedMeans(start, p);
    if k :| 0 <= k < |p| && Lookup(t, p[..k]).File? {
      AbovePath(ops, start, t, p, k);
    }
  }

  lemma {:induction false} AbovePath(ops: seq<Operation>, start: Tree, t: Tree, p: Path, k: nat)
    requires ValidOperations(ops) && Converged(ops, start, t)
    requires forall op :: op in ops ==> !Overlap(op.path, p)
    requires k <= |p| && Lookup(t, p[..k]).File?
    ensures Lookup(start, p[..k]).File?
  {
    var q := p[..k];
    forall i | 0 <= i < |ops| ensures !Overlap(ops[i].path, q) {
      assert ops[i] in ops;
      if q <= ops[i].path {
        BelowIsDirectory(ops, start, t, i, q);
      }
    }
  }

  lemma {:induction false} BelowIsDirectory(ops: seq<Operation>, start: Tree, t: Tree, i: nat, q: Path)
    requires ValidOperations(ops) && Converged(ops, start, t) && i < |ops| && q <= ops[i].path
    ensures HasParent(t, ops[i].path)
    ensures q != ops[i].path ==> Lookup(t, q).Directory?
  {
    PresentHasParent(t, ops[i].path);
    HasParentPrefix(t, q, ops[i].path);
  }

  /** An operation that was carried out is not asked for again. */
  lemma {:induction false} AddedConverges(ops: seq<Operation>, start: Tree, t: Tree, p: Path, after: Tree, seed: bool)
    requires ValidOperations(ops) && Converged(ops, start, t) && after != Missing
    requires Added(start, p, after, seed).Ok?
    requires forall op :: op in Added(start, p, after, seed).value ==> op in ops
    requires forall op :: op in ops ==> op in Added(start, p, after, seed).value || !Overlap(op.path, p)
    ensures Added(t, p, after, seed) == Ok([])
    ensures (seed ==> after.File?) ==> Lookup(t, p) == if seed && Lookup(start, p).File? then Lookup(start, p) else after
  {
    var mine := Added(start, p, after, seed).value;
    if mine == [] {
      UntouchedBlocked(ops, start, t, p);
    } else {
      assert mine[0] in ops;
      var i :| 0 <= i < |ops| && ops[i] == mine[0];
      BelowIsDirectory(ops, start, t, i, p);
      HasParentNotBlocked(t, p);
    }
  }

  lemma {:induction false} UnderApart(d: Path, q: Path, p: Path)
    requires d <= q && !Overlap(d, p)
    ensures !Overlap(q, p)
  {
  }

  /** A directory that seeds go under is still no file, and can be read. */
  lemma {:induction false} StillDirectory(ops: seq<Operation>, start: Tree, t: Tree, p: Path, mine: seq<Operation>)
    requires ValidOperations(ops) && Converged(ops, start, t)
    requires !Blocked(start, p) && !Lookup(start, p).File?
    requires forall op :: op in mine ==> op in ops && p < op.path
    requires forall op :: op in ops ==> op in mine || !Overlap(op.path, p)
    ensures !Blocked(t, p) && !Lookup(t, p).File?
  {
    if mine == [] {
      UntouchedBlocked(ops, start, t, p);
    } else {
      assert mine[0] in ops;
      var i :| 0 <= i < |ops| && ops[i] == mine[0];
      BelowIsDirectory(ops, start, t, i, p);
      HasParentPrefix(t, p, ops[i].path);
      HasParentNotBlocked(t, p);
    }
  }

  lemma {:induction false} SeededConverges(ops: seq<Operation>, start: Tree, t: Tree, p: Path, image: Tree)
    requires ValidOperations(ops) && Converged(ops, start, t)
    requires WellFormed(start) && WellFormed(image) && Seeded(start, p, image).Ok?
    requires forall op :: op in Seeded(start, p, image).value ==> op in ops
    requires forall op :: op in ops ==> op in Seeded(start, p, image).value || !Overlap(op.path, p)
    ensures Seeded(t, p, image) == Ok([])
    ensures SeedArrived(start, t, p, image)
    decreases image, 1, 0
  {
    hide SeedArrived;
    match image
    case File(_) =>
      AddedConverges(ops, start, t, p, image, true);
      FileArrived(start, t, p, image);
    case Directory(entries) =>
      var names := SortedKeys(entries.Keys);
      SortedKeysOrder(entries.Keys);
      SeededEntriesUnderOne(start, p, image, names);
      var mine := SeededEntries(start, p, image, names).value;
      forall op | op in mine ensures op in ops && p < op.path {
        assert p <= op.path && |op.path| > |p|;
      }
      StillDirectory(ops, start, t, p, mine);
      forall op, n | op in ops && n in names ensures op in mine || !Overlap(op.path, p + [n]) {
        if op !in mine {
          UnderApart(p, p + [n], op.path);
        }
      }
      SeededEntriesConverge(ops, start, t, p, image, names);
      EntriesArrived(start, t, p, image);
  }

  /** Where a seed tree has a file there is the one that was there, or else its own. */
  ghost predicate SeedArrived(start: Tree, t: Tree, p: Path, image: Tree) {
    forall q :: Lookup(image, q).File? ==>
      Lookup(t, p + q) == if Lookup(start, p + q).File? then Lookup(start, p + q) else Lookup(image, q)
  }

  lemma {:induction false} FileArrived(start: Tree, t: Tree, p: Path, image: Tree)
    requires image.File? && Lookup(t, p) == if Lookup(start, p).File? then Lookup(start, p) else image
    ensures SeedArrived(start, t, p, image)
  {
    assert p + [] == p;
    forall q | q != [] ensures Lookup(image, q) == Missing {
      LookupFile(image.content, q);
    }
  }

  lemma {:induction false} EntriesArrived(start: Tree, t: Tree, p: Path, image: Tree)
    requires image.Directory? && forall n :: n in image.entries ==> SeedArrived(start, t, p + [n], image.entries[n])
    ensures SeedArrived(start, t, p, image)
  {
    forall q | Lookup(image, q).File?
      ensures Lookup(t, p + q) == if Lookup(start, p + q).File? then Lookup(start, p + q) else Lookup(image, q)
    {
      if q[0] !in image.entries {
        LookupMissing<Content>(q[1..]);
      }
      assert q == [q[0]] + q[1..];
      BelowName(t, p, image, q[0], q[1..]);
      assert SeedArrived(start, t, p + [q[0]], image.entries[q[0]]);
    }
  }

  lemma {:induction false} SeededEntriesConverge(ops: seq<Operation>, start: Tree, t: Tree, p: Path, image: Tree, names: seq<Name>)
    requires ValidOperations(ops) && Converged(ops, start, t)
    requires WellFormed(start) && WellFormed(image) && image.Directory? && forall n :: n in names ==> n in image.entries
    requires forall i, j :: 0 <= i < j < |names| ==> names[i] != names[j]
    requires SeededEntries(start, p, image, names).Ok?
    requires forall op :: op in SeededEntries(start, p, image, names).value ==> op in ops
    requires forall op, n :: op in ops && n in names ==>
               op in SeededEntries(start, p, image, names).value || !Overlap(op.path, p + [n])
    ensures SeededEntries(t, p, image, names) == Ok([])
    ensures forall n :: n in names ==> SeedArrived(start, t, p + [n], image.entries[n])
    decreases image, 0, |names|
  {
    hide SeedArrived;
    if names != [] {
      var n, child := names[0], image.entries[names[0]];
      var first, rest := Seeded(start, p + [n], child).value, SeededEntries(start, p, image, names[1..]).value;
      SeededUnderOne(start, p + [n], child);
      SeededEntriesUnderOne(start, p, image, names[1..]);
      assert n in names && forall m :: m in names[1..] ==> m in names;
      forall op | op in ops ensures op in first || !Overlap(op.path, p + [n]) {
        if op in rest {
          OtherName(p, n, op.path);
        }
      }
      SeededConverges(ops, start, t, p + [n], child);
      forall op, m | op in ops && m in names[1..] ensures op in rest || !Overlap(op.path, p + [m]) {
        if op in first {
          assert m != n;
          assert p + [n] <= op.path;
          OtherName(p, m, op.path);
        }
      }
      SeededEntriesConverge(ops, start, t, p, image, names[1..]);
      var none: seq<Operation> := [];
      assert none + none == none;
    }
  }

  lemma {:induction false} OtherName(p: Path, n: Name, q: Path)
    requires p <= q && |q| > |p| && q[|p|] != n
    ensures !Overlap(q, p + [n])
  {
    assert (p + [n])[|p|] == n;
  }

  lemma {:induction false} ItemConverges(applicable: Content -> bool, ops: seq<Operation>, start: Tree, t: Tree, item: Item)
    requires ValidOperations(ops) && Converged(ops, start, t) && WellFormed(start)
    requires !item.Gate? && GoodItem(item) && ItemOperations(applicable, start, item).Ok?
    requires forall op :: op in ItemOperations(applicable, start, item).value ==> op in ops
    requires forall op :: op in ops ==> op in ItemOperations(applicable, start, item).value || !Overlap(op.path, item.destination)
    ensures ItemOperations(applicable, t, item) == Ok([])
    ensures Arrived(applicable, start, t, item)
  {
    match item
    case Install(p, d, content) =>
      AddedConverges(ops, start, t, p, AddonContent(applicable, d, content).value, false);
    case Save(p, source, seed) => AddedConverges(ops, start, t, p, source.value.content, seed);
    case Plant(p, source) => SeededConverges(ops, start, t, p, source.content);
    case Configure(p, settings) =>
      if settings != map[] {
        ConfigConverges(ops, start, t, p, settings);
      } else {
        UntouchedBlocked(ops, start, t, p);
      }
  }

  /** What a step leaves at its destination, in terms of what was there. */
  ghost predicate Arrived(applicable: Content -> bool, start: Tree, t: Tree, item: Item) {
    match item
    case Gate(_) => true
    case Install(p, d, content) =>
      AddonContent(applicable, d, content).Ok? && Lookup(t, p) == AddonContent(applicable, d, content).value
    case Configure(p, settings) =>
      if settings == map[] then Lookup(t, p) == Lookup(start, p)
      else
        && Body(start, p).Ok? && Config.Rendered(Body(start, p).value, settings).Ok?
        && Lookup(t, p) == File(Text(Config.Rendered(Body(start, p).value, settings).value))
    case Save(p, source, seed) =>
      source.Some? && Lookup(t, p) == if seed && Lookup(start, p).File? then Lookup(start, p) else source.value.content
    case Plant(p, source) => SeedArrived(start, t, p, source.content)
  }

  /** A rendered configuration renders to itself. */
  lemma {:induction false} ConfigConverges(ops: seq<Operation>, start: Tree, t: Tree, p: Path, settings: map<string, Config.Setting>)
    requires ValidOperations(ops) && Converged(ops, start, t) && settings != map[]
    requires Body(start, p).Ok? && Config.Rendered(Body(start, p).value, settings).Ok?
    requires var text := Config.Rendered(Body(start, p).value, settings).value;
             && Added(start, p, File(Text(text)), false).Ok?
             && (forall op :: op in Added(start, p, File(Text(text)), false).value ==> op in ops)
             && (forall op :: op in ops ==> op in Added(start, p, File(Text(text)), false).value || !Overlap(op.path, p))
    ensures Body(t, p).Ok? && Config.Rendered(Body(t, p).value, settings).Ok?
    ensures Added(t, p, File(Text(Config.Rendered(Body(t, p).value, settings).value)), false) == Ok([])
    ensures Lookup(t, p) == File(Text(Config.Rendered(Body(start, p).value, settings).value))
  {
    hide Config.Rendered;
    var body := Body(start, p).value;
    var text := Config.Rendered(body, settings).value;
    Config.RenderIdempotent(body, settings);
    AddedConverges(ops, start, t, p, File(Text(text)), false);
    assert Lookup(t, p) == File(Text(text));
  }

  /** Operation `k` lies at or under a destination from number `m` on. */
  ghost predicate UnderFrom(u: Progress, m: nat, k: nat)
    requires k < |u.operations|
  {
    exists j :: m <= j < |u.destinations| && u.destinations[j] <= u.operations[k].path
  }

  /** Steps only add, and what they add lies under the destinations they add. */
  lemma {:induction false} TakenAllGrows(applicable: Content -> bool, t: Tree, s: Progress, items: seq<Item>)
    requires WellFormed(t) && TakenAll(applicable, t, s, items).Ok?
    requires forall item :: item in items ==> GoodItem(item)
    ensures var u := TakenAll(applicable, t, s, items).value;
            && s.destinations <= u.destinations && s.operations <= u.operations
            && forall k :: |s.operations| <= k < |u.operations| ==> UnderFrom(u, |s.destinations|, k)
    decreases |items|
  {
    if items != [] {
      assert items[0] in items && forall item :: item in items[1..] ==> item in items;
      var s', u := Taken(applicable, t, s, items[0]).value, TakenAll(applicable, t, s, items).value;
      TakenAllGrows(applicable, t, s', items[1..]);
      forall k | |s.operations| <= k < |u.operations| ensures UnderFrom(u, |s.destinations|, k) {
        if k < |s'.operations| {
          var mine := ItemOperations(applicable, t, items[0]).value;
          ItemUnderOne(applicable, t, items[0]);
          assert u.operations[k] == s'.operations[k] == mine[k - |s.operations|];
          assert mine[k - |s.operations|] in mine;
          assert u.destinations[|s.destinations|] == s'.destinations[|s.destinations|] == items[0].destination;
        } else {
          assert UnderFrom(u, |s'.destinations|, k);
        }
      }
    }
  }

  /** The operations of all other steps keep clear of a step's destination. */
  lemma {:induction false} OthersApart(applicable: Content -> bool, t: Tree, s: Progress, items: seq<Item>)
    requires WellFormed(t) && Sorted(t, s) && items != [] && !items[0].Gate?
    requires forall item :: item in items ==> GoodItem(item)
    requires TakenAll(applicable, t, s, items).Ok?
    ensures var all, mine := TakenAll(applicable, t, s, items).value.operations, ItemOperations(applicable, t, items[0]).value;
            && (forall op :: op in mine ==> op in all)
            && (forall op :: op in all ==> op in mine || !Overlap(op.path, items[0].destination))
  {
    assert items[0] in items && forall item :: item in items[1..] ==> item in items;
    var s', u := Taken(applicable, t, s, items[0]).value, TakenAll(applicable, t, s, items).value;
    var mine, p := ItemOperations(applicable, t, items[0]).value, items[0].destination;
    TakenAllGrows(applicable, t, s', items[1..]);
    TakenSorted(applicable, t, s, items[0]);
    TakenAllSorted(applicable, t, s', items[1..]);
    var n, m := |s'.operations|, |s'.destinations|;
    forall op | op in mine ensures op in u.operations {
      assert op in s'.operations;
    }
    assert s'.destinations[m - 1] == p && u.destinations[m - 1] == p;
    forall op | op in u.operations ensures op in mine || !Overlap(op.path, p) {
      if op in s.operations {
        var d :| d in s.destinations && d <= op.path;
        UnderApart(d, op.path, p);
      } else if op !in mine {
        var k :| 0 <= k < |u.operations| && u.operations[k] == op;
        assert op !in s'.operations;
        assert UnderFrom(u, m, k);
        var j :| m <= j < |u.destinations| && u.destinations[j] <= op.path;
        assert !Overlap(u.destinations[m - 1], u.destinations[j]);
        UnderApart(u.destinations[j], op.path, p);
      }
    }
  }

  /** The operations at a step's destination are its own. */
  lemma {:induction false} OwnOperations(applicable: Content -> bool, t: Tree, s: Progress, items: seq<Item>, item: Item)
    requires WellFormed(t) && Sorted(t, s) && item in items && !item.Gate?
    requires forall i :: i in items ==> GoodItem(i)
    requires TakenAll(applicable, t, s, items).Ok?
    ensures ItemOperations(applicable, t, item).Ok?
    ensures var all, mine := TakenAll(applicable, t, s, items).value.operations, ItemOperations(applicable, t, item).value;
            && (forall op :: op in mine ==> op in all)
            && (forall op :: op in all ==> op in mine || !Overlap(op.path, item.destination))
    decreases |items|
  {
    if item == items[0] {
      OthersApart(applicable, t, s, items);
    } else {
      assert items[0] in items && forall i :: i in items[1..] ==> i in items;
      TakenSorted(applicable, t, s, items[0]);
      OwnOperations(applicable, t, Taken(applicable, t, s, items[0]).value, items[1..], item);
    }
  }

  lemma {:induction false} TakenAllConverges(applicable: Content -> bool, start: Tree, t: Tree, s: Progress, r: Progress, items: seq<Item>)
    requires WellFormed(start) && Sorted(start, s) && TakenAll(applicable, start, s, items).Ok?
    requires forall item :: item in items ==> GoodItem(item)
    requires r.destinations == s.destinations && r.operations == []
    requires var all := TakenAll(applicable, start, s, items).value.operations;
             ValidOperations(all) && Converged(all, start, t)
    ensures TakenAll(applicable, t, r, items)
         == Ok(Progress(TakenAll(applicable, start, s, items).value.destinations, []))
    ensures forall item :: item in items ==> Arrived(applicable, start, t, item)
    decreases |items|
  {
    if items != [] {
      assert items[0] in items && forall item :: item in items[1..] ==> item in items;
      var s' := Taken(applicable, start, s, items[0]).value;
      TakenSorted(applicable, start, s, items[0]);
      if items[0].Gate? {
        TakenAllConverges(applicable, start, t, s', r, items[1..]);
      } else {
        OthersApart(applicable, start, s, items);
        ItemConverges(applicable, TakenAll(applicable, start, s, items).value.operations, start, t, items[0]);
        var r' := Progress(s'.destinations, []);
        assert r.operations + [] == [];
        assert Taken(applicable, t, r, items[0]) == Ok(r');
        TakenAllConverges(applicable, start, t, s', r', items[1..]);
      }
    }
  }

  /** Apply converges: once the operations of a preparation have been applied,
      preparing the same declaration again finds nothing to do. */
  lemma {:induction false} ApplyConverges(d: Declaration, start: Tree, t: Tree)
    requires WellFormed(start) && GoodDeclaration(d) && Prepared(d, start).Ok?
    requires Converged(Prepared(d, start).value.operations, start, t)
    ensures Prepared(d, t) == Ok(Progress(Prepared(d, start).value.destinations, []))
    ensures forall item :: item in Items(d) ==> Arrived(d.applicable, start, t, item)
  {
    var empty := Progress([], []);
    PreparedAreValid(d, start);
    ItemsGood(d);
    TakenAllConverges(d.applicable, start, t, empty, empty, Items(d));
  }

  // ---------- when a declaration is accepted ----------

  /** Nothing about this step by itself is refused. */
  predicate Acceptable(applicable: Content -> bool, t: Tree, item: Item) {
    if item.Gate? then item.passes
    else Relative(item.destination) && !Stock(item.destination) && ItemOperations(applicable, t, item).Ok?
  }

  /** Two steps have destinations that overlap. */
  predicate Collide(a: Item, b: Item) {
    !a.Gate? && !b.Gate? && Overlap(a.destination, b.destination)
  }

  predicate Takes(taken: seq<Path>, item: Item) {
    !item.Gate? ==> forall q :: q in taken ==> !Overlap(q, item.destination)
  }

  /** The steps are accepted exactly if each is by itself and no two collide. */
  lemma {:induction false} TakenAllAccepts(applicable: Content -> bool, t: Tree, s: Progress, items: seq<Item>)
    ensures TakenAll(applicable, t, s, items).Ok? <==>
              && (forall i :: 0 <= i < |items| ==> Acceptable(applicable, t, items[i]) && Takes(s.destinations, items[i]))
              && (forall i, j :: 0 <= i < j < |items| ==> !Collide(items[i], items[j]))
    decreases |items|
  {
    if items != [] {
      var rest, next := items[1..], Taken(applicable, t, s, items[0]);
      assert next.Ok? <==> Acceptable(applicable, t, items[0]) && Takes(s.destinations, items[0]);
      if next.Ok? {
        TakenAllAccepts(applicable, t, next.value, rest);
        hide Acceptable, Takes, Collide;
        forall i | 0 <= i < |rest|
          ensures Takes(next.value.destinations, rest[i]) <==> Takes(s.destinations, rest[i]) && !Collide(items[0], rest[i])
        {
          TakesMore(applicable, t, s, items[0], rest[i]);
        }
        assert forall i :: 1 <= i < |items| ==> items[i] == rest[i - 1];
      }
    }
  }

  lemma {:induction false} TakesMore(applicable: Content -> bool, t: Tree, s: Progress, first: Item, item: Item)
    requires Taken(applicable, t, s, first).Ok?
    ensures Takes(Taken(applicable, t, s, first).value.destinations, item)
       <==> Takes(s.destinations, item) && !Collide(first, item)
  {
    hide ItemOperations;
  }

  /** A declaration is accepted exactly if all checks pass, every destination is
      relative, unprotected and apart from the others, what is at each can be
      replaced by what is declared, and no source overlaps a destination. */
  lemma {:induction false} PreparedAccepts(d: Declaration, t: Tree)
    ensures Prepared(d, t).Ok? <==>
              && (forall i :: 0 <= i < |Items(d)| ==> Acceptable(d.applicable, t, Items(d)[i]))
              && (forall i, j :: 0 <= i < j < |Items(d)| ==> !Collide(Items(d)[i], Items(d)[j]))
              && (forall i, source :: 0 <= i < |Items(d)| && !Items(d)[i].Gate? && source in Sources(d) ==>
                    !Overlap(source, d.root + Items(d)[i].destination))
  {
    var items, all := Items(d), TakenAll(d.applicable, t, Progress([], []), Items(d));
    TakenAllAccepts(d.applicable, t, Progress([], []), items);
    if all.Ok? {
      forall p ensures p in all.value.destinations <==> IsDestination(items, p) {
        DestinationsTaken(d.applicable, t, Progress([], []), items, p);
      }
      forall i | 0 <= i < |items| && !items[i].Gate? ensures IsDestination(items, items[i].destination) {
      }
    }
  }

  /** Some step has this destination. */
  ghost predicate IsDestination(items: seq<Item>, p: Path) {
    exists i :: 0 <= i < |items| && !items[i].Gate? && items[i].destination == p
  }

  lemma {:induction false} OneDestination(first: Item, rest: seq<Item>, p: Path)
    ensures IsDestination([first] + rest, p) <==> (!first.Gate? && first.destination == p) || IsDestination(rest, p)
  {
    var items := [first] + rest;
    if i :| 0 <= i < |rest| && !rest[i].Gate? && rest[i].destination == p {
      assert items[i + 1].destination == p;
    }
    if !first.Gate? && first.destination == p {
      assert items[0].destination == p;
    }
  }

  /** The destinations are those of the steps. */
  lemma {:induction false} DestinationsTaken(applicable: Content -> bool, t: Tree, s: Progress, items: seq<Item>, p: Path)
    requires TakenAll(applicable, t, s, items).Ok?
    ensures p in TakenAll(applicable, t, s, items).value.destinations <==> p in s.destinations || IsDestination(items, p)
    decreases |items|
  {
    if items != [] {
      DestinationsTaken(applicable, t, Taken(applicable, t, s, items[0]).value, items[1..], p);
      OneDestination(items[0], items[1..], p);
      assert items == [items[0]] + items[1..];
    }
  }

  /** An operation or none: refused where a file is in the way or the kinds differ. */
  lemma {:induction false} AddedAccepts(t: Tree, p: Path, after: Tree, seed: bool)
    requires after != Missing
    ensures Added(t, p, after, seed).Ok? <==>
              !Blocked(t, p) && (Lookup(t, p).File? ==> after.File?) && (Lookup(t, p).Directory? ==> after.Directory?)
  {
  }

  /** A seed tree is accepted exactly if nothing it would add a file or go down
      into is of the other kind, or cannot be read. */
  lemma {:induction false} SeededAccepts(t: Tree, p: Path, image: Tree)
    requires WellFormed(image) && image != Missing
    ensures Seeded(t, p, image).Ok? <==> forall q :: SeedFits(t, p, image, q)
    decreases image, 1
  {
    if image.Directory? {
      var names := SortedKeys(image.entries.Keys);
      SeededEntriesAccept(t, p, image, names);
      assert p + [] == p;
      if forall q :: SeedFits(t, p, image, q) {
        assert SeedFits(t, p, image, []);
        forall n, q | n in names ensures SeedFits(t, p + [n], image.entries[n], q) {
          assert SeedFits(t, p, image, [n] + q);
          BelowName(t, p, image, n, q);
        }
      }
      if Seeded(t, p, image).Ok? {
        forall q ensures SeedFits(t, p, image, q) {
          if q != [] && q[0] in image.entries {
            assert q == [q[0]] + q[1..];
            assert SeedFits(t, p + [q[0]], image.entries[q[0]], q[1..]);
            BelowName(t, p, image, q[0], q[1..]);
          } else if q != [] {
            LookupMissing<Content>(q[1..]);
          }
        }
      }
    } else {
      AddedAccepts(t, p, image, true);
      assert p + [] == p;
      if forall q :: SeedFits(t, p, image, q) {
        assert SeedFits(t, p, image, []);
      }
      forall q | q != [] ensures Lookup(image, q) == Missing {
        LookupFile(image.content, q);
      }
    }
  }

  predicate SeedFits(t: Tree, p: Path, image: Tree, q: Path) {
    Lookup(image, q).Missing? ||
    (!Blocked(t, p + q) &&
      (if Lookup(image, q).File? then !Lookup(t, p + q).Directory? else !Lookup(t, p + q).File?))
  }

  lemma {:induction false} BelowName(t: Tree, p: Path, image: Tree, n: Name, q: Path)
    requires image.Directory? && n in image.entries
    ensures SeedFits(t, p, image, [n] + q) == SeedFits(t, p + [n], image.entries[n], q)
    ensures Lookup(image, [n] + q) == Lookup(image.entries[n], q) && p + [n] + q == p + ([n] + q)
  {
    assert ([n] + q)[1..] == q;
    assert p + [n] + q == p + ([n] + q);
  }

  lemma {:induction false} SeededEntriesAccept(t: Tree, p: Path, image: Tree, names: seq<Name>)
    requires WellFormed(image) && image.Directory? && forall n :: n in names ==> n in image.entries
    ensures SeededEntries(t, p, image, names).Ok? <==>
              forall n, q :: n in names ==> SeedFits(t, p + [n], image.entries[n], q)
    decreases image, 0, |names|
  {
    if names != [] {
      var n := names[0];
      SeededAccepts(t, p + [n], image.entries[n]);
      SeededEntriesAccept(t, p, image, names[1..]);
      assert forall m :: m in names <==> m == n || m in names[1..];
    }
  }

  // ---------- what having nothing to do means ----------

  /** The tree has what this step declares. */
  ghost predicate Declared(applicable: Content -> bool, t: Tree, item: Item) {
    match item
    case Gate(passes) => passes
    case Install(p, d, content) =>
      AddonContent(applicable, d, content).Ok? && Lookup(t, p) == AddonContent(applicable, d, content).value
    case Configure(p, settings) =>
      settings == map[] ||
      (Lookup(t, p).File? && Lookup(t, p).content.Text? &&
        Config.Rendered(Lookup(t, p).content.text, settings) == Ok(Lookup(t, p).content.text))
    case Save(p, source, seed) =>
      source.Some? && source.value.content.File? &&
      (if seed then Lookup(t, p).File? else Lookup(t, p) == source.value.content)
    case Plant(p, source) =>
      source.content.Directory? && Planted(t, p, source.content)
  }

  /** Wherever the seed tree has a file, there is one. */
  ghost predicate Planted(t: Tree, p: Path, image: Tree) {
    forall q :: Lookup(image, q).File? ==> Lookup(t, p + q).File?
  }

  lemma {:induction false} PlantedBelow(t: Tree, p: Path, image: Tree)
    requires image.Directory?
    ensures Planted(t, p, image) <==> forall n :: n in image.entries ==> Planted(t, p + [n], image.entries[n])
  {
    if Planted(t, p, image) {
      forall n | n in image.entries ensures Planted(t, p + [n], image.entries[n]) {
        forall q | Lookup(image.entries[n], q).File? ensures Lookup(t, p + [n] + q).File? {
          BelowName(t, p, image, n, q);
        }
      }
    }
    if forall n :: n in image.entries ==> Planted(t, p + [n], image.entries[n]) {
      forall q | Lookup(image, q).File? ensures Lookup(t, p + q).File? {
        if q[0] !in image.entries {
          LookupMissing<Content>(q[1..]);
        }
        assert q == [q[0]] + q[1..];
        BelowName(t, p, image, q[0], q[1..]);
        assert Planted(t, p + [q[0]], image.entries[q[0]]);
      }
    }
  }

  lemma {:induction false} PlantedFile(t: Tree, p: Path, image: Tree)
    requires image.File?
    ensures Planted(t, p, image) <==> Lookup(t, p).File?
  {
    assert p + [] == p && Lookup(image, []) == image;
    forall q | q != [] ensures Lookup(image, q) == Missing {
      LookupFile(image.content, q);
    }
  }

  /** A seed tree that is accepted asks for nothing exactly if it is planted. */
  lemma {:induction false} SeededNothing(t: Tree, p: Path, image: Tree)
    requires WellFormed(image) && Seeded(t, p, image).Ok?
    ensures Seeded(t, p, image) == Ok([]) <==> Planted(t, p, image)
    decreases image, 1
  {
    hide Planted;
    if image.Directory? {
      SeededEntriesNothing(t, p, image, SortedKeys(image.entries.Keys));
      PlantedBelow(t, p, image);
    } else {
      PlantedFile(t, p, image);
    }
  }

  lemma {:induction false} SeededEntriesNothing(t: Tree, p: Path, image: Tree, names: seq<Name>)
    requires WellFormed(image) && image.Directory? && forall n :: n in names ==> n in image.entries
    requires SeededEntries(t, p, image, names).Ok?
    ensures SeededEntries(t, p, image, names) == Ok([]) <==>
              forall n :: n in names ==> Planted(t, p + [n], image.entries[n])
    decreases image, 0, |names|
  {
    if names != [] {
      hide Planted, Seeded;
      var n := names[0];
      SeededNothing(t, p + [n], image.entries[n]);
      SeededEntriesNothing(t, p, image, names[1..]);
      var first, rest := Seeded(t, p + [n], image.entries[n]).value, SeededEntries(t, p, image, names[1..]).value;
      assert SeededEntries(t, p, image, names) == Ok(first + rest);
      assert |first + rest| == |first| + |rest|;
      assert forall m :: m in names <==> m == n || m in names[1..];
    }
  }

  /** A step that is accepted asks for nothing exactly if the tree has what it
      declares. */
  lemma {:induction false} ItemNothing(applicable: Content -> bool, t: Tree, item: Item)
    requires !item.Gate? && GoodItem(item) && ItemOperations(applicable, t, item).Ok?
    ensures ItemOperations(applicable, t, item) == Ok([]) <==> Declared(applicable, t, item)
  {
    match item {
      case Plant(p, source) => SeededNothing(t, p, source.content);
      case Configure(p, settings) =>
        if settings != map[] {
          ConfiguredNothing(t, p, settings);
        }
      case _ =>
    }
  }

  /** A configuration asks for nothing exactly if it reads as it renders. */
  lemma {:induction false} ConfiguredNothing(t: Tree, p: Path, settings: map<string, Config.Setting>)
    requires settings != map[] && Body(t, p).Ok? && Config.Rendered(Body(t, p).value, settings).Ok?
    requires Added(t, p, File(Text(Config.Rendered(Body(t, p).value, settings).value)), false).Ok?
    ensures Added(t, p, File(Text(Config.Rendered(Body(t, p).value, settings).value)), false) == Ok([]) <==>
              Lookup(t, p).File? && Lookup(t, p).content.Text? &&
              Config.Rendered(Lookup(t, p).content.text, settings) == Ok(Lookup(t, p).content.text)
  {
    hide Config.Rendered;
  }

  lemma {:induction false} TakenAllNothing(applicable: Content -> bool, t: Tree, s: Progress, items: seq<Item>)
    requires TakenAll(applicable, t, s, items).Ok? && forall item :: item in items ==> GoodItem(item)
    ensures |TakenAll(applicable, t, s, items).value.operations| >= |s.operations|
    ensures |TakenAll(applicable, t, s, items).value.operations| == |s.operations| <==>
              forall i :: 0 <= i < |items| ==> Declared(applicable, t, items[i])
    decreases |items|
  {
    if items != [] {
      var rest, next := items[1..], Taken(applicable, t, s, items[0]).value;
      assert forall item :: item in rest ==> item in items;
      TakenAllNothing(applicable, t, next, rest);
      if !items[0].Gate? {
        ItemNothing(applicable, t, items[0]);
      }
      assert forall i :: 1 <= i < |items| ==> items[i] == rest[i - 1];
      assert |next.operations| >= |s.operations| && (|next.operations| == |s.operations| <==> Declared(applicable, t, items[0]));
    }
  }

  /** The tree is as the declaration says. */
  ghost predicate AsDeclared(d: Declaration, t: Tree) {
    forall i :: 0 <= i < |Items(d)| ==> Declared(d.applicable, t, Items(d)[i])
  }

  /** An accepted declaration leaves nothing to do exactly if the tree is as it
      says. */
  lemma {:induction false} NothingToDo(d: Declaration, t: Tree)
    requires GoodDeclaration(d) && Prepared(d, t).Ok?
    ensures Prepared(d, t).value.operations == [] <==> AsDeclared(d, t)
  {
    ItemsGood(d);
    TakenAllNothing(d.applicable, t, Progress([], []), Items(d));
  }

  /** So a converged apply leaves the tree as declared. */
  lemma {:induction false} AppliedAsDeclared(d: Declaration, start: Tree, t: Tree)
    requires WellFormed(start) && GoodDeclaration(d) && Prepared(d, start).Ok?
    requires Converged(Prepared(d, start).value.operations, start, t)
    ensures AsDeclared(d, t)
  {
    ApplyConverges(d, start, t);
    NothingToDo(d, t);
  }
}
