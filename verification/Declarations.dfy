/** What a declaration says, field by field: when `prepare` accepts it, and what
    applying it leaves (crates/modde-manager/src/transaction.rs). Nothing here
    speaks of the steps that `prepare` takes, but for the proofs. */
module Declarations {
  import opened Images
  import opened Results
  import opened Transaction
  import P = Preparation
  import Config

  type Declaration = P.Declaration

  // ---------- the places a declaration is about ----------

  datatype Place =
    | AddonAt(addon: nat, directory: nat)
    | ConfigAt(config: nat)
    | SavedAt(saved: nat)
    | SeedAt(seed: nat)

  predicate Names(d: Declaration, x: Place) {
    match x
    case AddonAt(a, k) => a < |d.addons| && k < |d.addons[a].directories|
    case ConfigAt(i) => i < |d.configs|
    case SavedAt(i) => i < |d.saved|
    case SeedAt(i) => i < |d.seeds|
  }

  function Destination(d: Declaration, x: Place): Path
    requires Names(d, x)
  {
    match x
    case AddonAt(a, k) => ["Interface", "AddOns", d.addons[a].directories[k].target]
    case ConfigAt(i) => d.configs[i].path
    case SavedAt(i) => d.saved[i].path
    case SeedAt(i) => d.seeds[i].destination
  }

  /** What is read to prepare it. */
  predicate IsSource(d: Declaration, p: Path) {
    || (d.addons != [] && d.lock == Some(p))
    || (exists a :: 0 <= a < |d.addons| && d.addons[a].checkout == p)
    || (exists i :: 0 <= i < |d.saved| && d.saved[i].source.Some? && d.saved[i].source.value.path == p)
    || (exists i :: 0 <= i < |d.seeds| && d.seeds[i].source.path == p)
  }

  // ---------- acceptance ----------

  /** Between 1 and 128 components, each an ordinary name on every platform. */
  predicate Inside(p: Path) {
    1 <= |p| <= 128 &&
    forall i :: 0 <= i < |p| ==>
      && p[i] != "" && p[i] != "." && p[i] != ".."
      && forall j :: 0 <= j < |p[i]| ==> p[i][j] != '/' && p[i][j] != '\\' && p[i][j] != ':'
  }

  /** `blizzard_`, in lower and in upper case. */
  const LOW := "blizzard_"
  const HIGH := "BLIZZARD_"

  /** A component that begins so, in any mixture of case. */
  predicate Protected(p: Path) {
    exists i :: 0 <= i < |p| && |p[i]| >= 9 && forall j :: 0 <= j < 9 ==> p[i][j] == LOW[j] || p[i][j] == HIGH[j]
  }

  /** The subdirectory of a checkout that an addon directory installs. */
  function Installed(d: Declaration, a: nat, k: nat): Tree
    requires Names(d, AddonAt(a, k))
  {
    var source := d.addons[a].directories[k].source;
    if source == ["."] then d.addons[a].content else Lookup(d.addons[a].content, source)
  }

  /** What is declared can replace what is there. */
  ghost predicate Fits(d: Declaration, t: Tree, x: Place)
    requires Names(d, x)
  {
    var p := Destination(d, x);
    match x
    case AddonAt(a, k) =>
      var directory, c := d.addons[a].directories[k], Installed(d, a, k);
      && (directory.source == ["."] || Inside(directory.source))
      && c.Directory? && Child(c, directory.target + ".toc").File? && d.applicable(Child(c, directory.target + ".toc").content)
      && !Blocked(t, p) && !Lookup(t, p).File?
    case ConfigAt(i) =>
      d.configs[i].settings == map[] ||
      (&& !Blocked(t, p) && !Lookup(t, p).Directory? && (Lookup(t, p).File? ==> Lookup(t, p).content.Text?)
       && forall k :: k in d.configs[i].settings ==> Config.SettingName(k) && Config.Renderable(d.configs[i].settings[k]))
    case SavedAt(i) =>
      d.saved[i].source.Some? && d.saved[i].source.value.content.File? && !Blocked(t, p) && !Lookup(t, p).Directory?
    case SeedAt(i) =>
      d.seeds[i].source.content.Directory? && forall q :: P.SeedFits(t, p, d.seeds[i].source.content, q)
  }

  /** The addons are locked at what their checkouts hold. */
  predicate Locked(d: Declaration) {
    && (d.addons == [] || d.lockRead)
    && forall a :: 0 <= a < |d.addons| ==> d.addons[a].accepted && !d.addons[a].content.Missing?
  }

  ghost predicate Accepted(d: Declaration, t: Tree) {
    && Locked(d)
    && (forall x :: Names(d, x) ==> Inside(Destination(d, x)) && !Protected(Destination(d, x)) && Fits(d, t, x))
    && (forall x, y :: Names(d, x) && Names(d, y) && x != y ==> !Overlap(Destination(d, x), Destination(d, y)))
    && (forall x, source :: Names(d, x) && IsSource(d, source) ==> !Overlap(source, d.root + Destination(d, x)))
  }

  // ---------- what applying leaves ----------

  /** What is at a place afterwards, in terms of what was there. A seed never
      replaces a file. */
  ghost predicate Left(d: Declaration, start: Tree, t: Tree, x: Place)
    requires Names(d, x)
  {
    var p := Destination(d, x);
    match x
    case AddonAt(a, k) => Lookup(t, p) == Installed(d, a, k)
    case ConfigAt(i) =>
      if d.configs[i].settings == map[] then Lookup(t, p) == Lookup(start, p)
      else
        var original := if Lookup(start, p).File? && Lookup(start, p).content.Text? then Lookup(start, p).content.text else "";
        && Config.Rendered(original, d.configs[i].settings).Ok?
        && Lookup(t, p) == File(Text(Config.Rendered(original, d.configs[i].settings).value))
    case SavedAt(i) =>
      && d.saved[i].source.Some?
      && Lookup(t, p) == if d.saved[i].seed && Lookup(start, p).File? then Lookup(start, p) else d.saved[i].source.value.content
    case SeedAt(i) =>
      forall q :: Lookup(d.seeds[i].source.content, q).File? ==>
        Lookup(t, p + q) == if Lookup(start, p + q).File? then Lookup(start, p + q) else Lookup(d.seeds[i].source.content, q)
  }

  /** The tree is as declared. */
  ghost predicate Holds(d: Declaration, t: Tree, x: Place)
    requires Names(d, x)
  {
    var p := Destination(d, x);
    match x
    case AddonAt(a, k) => Lookup(t, p) == Installed(d, a, k)
    case ConfigAt(i) =>
      d.configs[i].settings == map[] ||
      (Lookup(t, p).File? && Lookup(t, p).content.Text? &&
        Config.Rendered(Lookup(t, p).content.text, d.configs[i].settings) == Ok(Lookup(t, p).content.text))
    case SavedAt(i) =>
      d.saved[i].source.Some? &&
      (if d.saved[i].seed then Lookup(t, p).File? else Lookup(t, p) == d.saved[i].source.value.content)
    case SeedAt(i) => forall q :: Lookup(d.seeds[i].source.content, q).File? ==> Lookup(t, p + q).File?
  }

  // ---------- the steps and the places ----------

  function StepFor(d: Declaration, x: Place): P.Item
    requires Names(d, x)
  {
    match x
    case AddonAt(a, k) =>
      P.Install(P.ADDONS + [d.addons[a].directories[k].target], d.addons[a].directories[k], d.addons[a].content)
    case ConfigAt(i) => P.Configure(d.configs[i].path, d.configs[i].settings)
    case SavedAt(i) => P.Save(d.saved[i].path, d.saved[i].source, d.saved[i].seed)
    case SeedAt(i) => P.Plant(d.seeds[i].destination, d.seeds[i].source)
  }

  /** Where the steps of addon `a` begin among those of all addons. */
  function AddonStart(addons: seq<P.Addon>, a: nat): nat
    requires a <= |addons|
  {
    if a == 0 then 0 else 1 + |addons[0].directories| + AddonStart(addons[1..], a - 1)
  }

  function StepIndex(d: Declaration, x: Place): nat
    requires Names(d, x)
  {
    var addons := |P.AllAddonItems(d.addons)|;
    match x
    case AddonAt(a, k) => 1 + AddonStart(d.addons, a) + 1 + k
    case ConfigAt(i) => 1 + addons + i
    case SavedAt(i) => 1 + addons + |d.configs| + i
    case SeedAt(i) => 1 + addons + |d.configs| + |d.saved| + i
  }

  lemma {:induction false} AddonSteps(addons: seq<P.Addon>, a: nat)
    requires a < |addons|
    ensures var all, at := P.AllAddonItems(addons), AddonStart(addons, a);
            && at + 1 + |addons[a].directories| <= |all|
            && all[at] == P.Gate(addons[a].accepted && !addons[a].content.Missing?)
    ensures AddonStart(addons, a + 1) == AddonStart(addons, a) + 1 + |addons[a].directories|
  {
    AddonSlice(addons, a);
    OneAddon(addons[a]);
    var all, at, s := P.AllAddonItems(addons), AddonStart(addons, a), P.AddonItems(addons[a]);
    hide P.AllAddonItems, P.AddonItems, AddonStart;
    SliceAt(all, at, s, 0);
  }

  lemma {:induction false} AddonInstall(addons: seq<P.Addon>, a: nat, k: nat)
    requires a < |addons| && k < |addons[a].directories|
    ensures var n, directory := AddonStart(addons, a) + 1 + k, addons[a].directories[k];
            && n < |P.AllAddonItems(addons)|
            && P.AllAddonItems(addons)[n] == P.Install(P.ADDONS + [directory.target], directory, addons[a].content)
  {
    AddonSlice(addons, a);
    OneDirectory(addons[a], k);
    var all, at, s := P.AllAddonItems(addons), AddonStart(addons, a), P.AddonItems(addons[a]);
    hide P.AllAddonItems, P.AddonItems, AddonStart;
    SliceAt(all, at, s, 1 + k);
  }

  lemma {:induction false} AddonSlice(addons: seq<P.Addon>, a: nat)
    requires a < |addons|
    ensures var all, at, s := P.AllAddonItems(addons), AddonStart(addons, a), P.AddonItems(addons[a]);
            && at + |s| <= |all| && all[at..at + |s|] == s
    ensures AddonStart(addons, a + 1) == AddonStart(addons, a) + 1 + |addons[a].directories|
    decreases a
  {
    var first, rest := P.AddonItems(addons[0]), P.AllAddonItems(addons[1..]);
    OneAddon(addons[0]);
    hide P.AddonItems;
    if a > 0 {
      AddonSlice(addons[1..], a - 1);
      assert addons[1..][a - 1] == addons[a];
      SliceBehind(first, rest, AddonStart(addons[1..], a - 1), |P.AddonItems(addons[a])|);
    } else {
      assert AddonStart(addons[1..], 0) == 0;
    }
  }

  lemma {:induction false} SliceAt<T>(a: seq<T>, at: nat, s: seq<T>, i: nat)
    requires at + |s| <= |a| && a[at..at + |s|] == s && i < |s|
    ensures a[at + i] == s[i]
  {
    assert a[at..at + |s|][i] == a[at + i];
  }

  lemma {:induction false} SliceBehind<T>(a: seq<T>, b: seq<T>, at: nat, n: nat)
    requires at + n <= |b|
    ensures (a + b)[|a| + at..|a| + at + n] == b[at..at + n]
  {
  }

  lemma {:induction false} OneAddon(a: P.Addon)
    ensures var s := P.AddonItems(a);
            && |s| == 1 + |a.directories|
            && s[0] == P.Gate(a.accepted && !a.content.Missing?)
  {
  }

  lemma {:induction false} OneDirectory(a: P.Addon, k: nat)
    requires k < |a.directories|
    ensures |P.AddonItems(a)| == 1 + |a.directories|
    ensures P.AddonItems(a)[1 + k] == P.Install(P.ADDONS + [a.directories[k].target], a.directories[k], a.content)
  {
  }

  /** Every step of the addons is the check of one or is of one of its directories. */
  lemma {:induction false} AddonStep(addons: seq<P.Addon>, n: nat) returns (a: nat)
    requires n < |P.AllAddonItems(addons)|
    ensures a < |addons| && AddonStart(addons, a) <= n < AddonStart(addons, a) + 1 + |addons[a].directories|
    decreases |addons|
  {
    var first := P.AddonItems(addons[0]);
    assert |first| == 1 + |addons[0].directories|;
    if n < |first| {
      a := 0;
    } else {
      var b := AddonStep(addons[1..], n - |first|);
      a := b + 1;
      assert addons[1..][b] == addons[a];
    }
  }

  lemma {:induction false} AddonsApart(addons: seq<P.Addon>, a: nat, b: nat)
    requires a < b <= |addons|
    ensures AddonStart(addons, a) + 1 + |addons[a].directories| <= AddonStart(addons, b)
    decreases b
  {
    AddonSteps(addons, a);
    if b > a + 1 {
      AddonSteps(addons, b - 1);
      AddonsApart(addons, a, b - 1);
    }
  }

  lemma {:induction false} AddonThere(d: Declaration, n: nat)
    requires n < |P.AllAddonItems(d.addons)|
    ensures 1 + n < |P.Items(d)| && P.Items(d)[1 + n] == P.AllAddonItems(d.addons)[n]
  {
  }

  lemma {:induction false} ConfigThere(d: Declaration, i: nat)
    requires i < |d.configs|
    ensures var n := 1 + |P.AllAddonItems(d.addons)| + i;
            n < |P.Items(d)| && P.Items(d)[n] == P.Configure(d.configs[i].path, d.configs[i].settings)
  {
  }

  lemma {:induction false} SavedThere(d: Declaration, i: nat)
    requires i < |d.saved|
    ensures var n := 1 + |P.AllAddonItems(d.addons)| + |d.configs| + i;
            n < |P.Items(d)| && P.Items(d)[n] == P.Save(d.saved[i].path, d.saved[i].source, d.saved[i].seed)
  {
  }

  lemma {:induction false} SeedThere(d: Declaration, i: nat)
    requires i < |d.seeds|
    ensures var n := 1 + |P.AllAddonItems(d.addons)| + |d.configs| + |d.saved| + i;
            n < |P.Items(d)| && P.Items(d)[n] == P.Plant(d.seeds[i].destination, d.seeds[i].source)
  {
  }

  /** The step for a place is where it should be. */
  lemma {:induction false} StepThere(d: Declaration, x: Place)
    requires Names(d, x)
    ensures StepIndex(d, x) < |P.Items(d)| && P.Items(d)[StepIndex(d, x)] == StepFor(d, x)
    ensures StepFor(d, x) in P.Items(d)
    ensures !StepFor(d, x).Gate? && StepFor(d, x).destination == Destination(d, x)
  {
    hide P.Items, P.AllAddonItems, AddonStart;
    match x
    case AddonAt(a, k) =>
      AddonInstall(d.addons, a, k);
      AddonThere(d, AddonStart(d.addons, a) + 1 + k);
      assert P.ADDONS == ["Interface", "AddOns"];
    case ConfigAt(i) => ConfigThere(d, i);
    case SavedAt(i) => SavedThere(d, i);
    case SeedAt(i) => SeedThere(d, i);
  }

  /** Different places have different steps. */
  lemma {:induction false} StepsDiffer(d: Declaration, x: Place, y: Place)
    requires Names(d, x) && Names(d, y) && x != y
    ensures StepIndex(d, x) != StepIndex(d, y)
  {
    if x.AddonAt? {
      AddonSteps(d.addons, x.addon);
    }
    if y.AddonAt? {
      AddonSteps(d.addons, y.addon);
    }
    if x.AddonAt? && y.AddonAt? {
      if x.addon < y.addon {
        AddonsApart(d.addons, x.addon, y.addon);
      } else if y.addon < x.addon {
        AddonsApart(d.addons, y.addon, x.addon);
      }
    }
  }

  /** Every step is for a place, or is the check of the lock or of an addon. */
  lemma {:induction false} PlaceOf(d: Declaration, n: nat) returns (x: Option<Place>)
    requires n < |P.Items(d)|
    ensures x.Some? ==> Names(d, x.value) && StepIndex(d, x.value) == n && P.Items(d)[n] == StepFor(d, x.value)
    ensures x.None? ==> P.Items(d)[n].Gate? && (Locked(d) ==> P.Items(d)[n].passes)
  {
    var addons := |P.AllAddonItems(d.addons)|;
    if n == 0 {
      x := None;
    } else if n < 1 + addons {
      var a := AddonStep(d.addons, n - 1);
      AddonSteps(d.addons, a);
      var at := 1 + AddonStart(d.addons, a);
      if n == at {
        x := None;
        assert P.Items(d)[n] == P.AllAddonItems(d.addons)[n - 1];
      } else {
        x := Some(AddonAt(a, n - at - 1));
        StepThere(d, x.value);
      }
    } else if n < 1 + addons + |d.configs| {
      x := Some(ConfigAt(n - 1 - addons));
      StepThere(d, x.value);
    } else if n < 1 + addons + |d.configs| + |d.saved| {
      x := Some(SavedAt(n - 1 - addons - |d.configs|));
      StepThere(d, x.value);
    } else {
      x := Some(SeedAt(n - 1 - addons - |d.configs| - |d.saved|));
      StepThere(d, x.value);
    }
  }

  /** The checks pass exactly if the addons are locked. */
  lemma {:induction false} ChecksPass(d: Declaration)
    ensures Locked(d) <==> forall n :: 0 <= n < |P.Items(d)| && P.Items(d)[n].Gate? ==> P.Items(d)[n].passes
  {
    if Locked(d) {
      forall n | 0 <= n < |P.Items(d)| && P.Items(d)[n].Gate? ensures P.Items(d)[n].passes {
        var x := PlaceOf(d, n);
        if x.Some? {
          StepThere(d, x.value);
        }
      }
    }
    if forall n :: 0 <= n < |P.Items(d)| && P.Items(d)[n].Gate? ==> P.Items(d)[n].passes {
      assert P.Items(d)[0].passes;
      forall a | 0 <= a < |d.addons| ensures d.addons[a].accepted && !d.addons[a].content.Missing? {
        AddonSteps(d.addons, a);
        var n := 1 + AddonStart(d.addons, a);
        assert P.Items(d)[n] == P.AllAddonItems(d.addons)[n - 1];
        assert P.Items(d)[n].passes;
      }
    }
  }

  // ---------- acceptance, field by field ----------

  lemma {:induction false} InsideMeans(p: Path)
    ensures Inside(p) <==> P.Relative(p)
  {
    forall i | 0 <= i < |p|
      ensures P.NormalName(p[i]) <==>
                p[i] != "" && p[i] != "." && p[i] != ".." &&
                forall j :: 0 <= j < |p[i]| ==> p[i][j] != '/' && p[i][j] != '\\' && p[i][j] != ':'
    {
      NameMeans(p[i]);
    }
    assert (forall n :: n in p ==> P.NormalName(n)) <==> forall i :: 0 <= i < |p| ==> P.NormalName(p[i]);
  }

  lemma {:induction false} NameMeans(n: Name)
    ensures P.NormalName(n) <==>
              n != "" && n != "." && n != ".." && forall j :: 0 <= j < |n| ==> n[j] != '/' && n[j] != '\\' && n[j] != ':'
  {
    assert forall c: char :: c in "/\\:" <==> c == '/' || c == '\\' || c == ':';
    assert (forall c :: c in n ==> c !in "/\\:") <==> forall j :: 0 <= j < |n| ==> n[j] !in "/\\:";
  }

  /** Lower case, character by character. */
  lemma {:induction false} LowerAt(s: string)
    ensures |P.Lower(s)| == |s|
    ensures forall j :: 0 <= j < |s| ==> P.Lower(s)[j] == if 'A' <= s[j] <= 'Z' then (s[j] as int + 32) as char else s[j]
    decreases |s|
  {
    if s != [] {
      LowerAt(s[1..]);
    }
  }

  lemma {:induction false} ProtectedMeans(p: Path)
    ensures Protected(p) <==> P.Stock(p)
  {
    forall i | 0 <= i < |p|
      ensures P.STOCK <= P.Lower(p[i]) <==>
                |p[i]| >= 9 && forall j :: 0 <= j < 9 ==> p[i][j] == LOW[j] || p[i][j] == HIGH[j]
    {
      ProtectedName(p[i]);
    }
    assert P.Stock(p) <==> exists i :: 0 <= i < |p| && P.STOCK <= P.Lower(p[i]);
  }

  lemma {:induction false} ProtectedName(n: Name)
    ensures P.STOCK <= P.Lower(n) <==> |n| >= 9 && forall j :: 0 <= j < 9 ==> n[j] == LOW[j] || n[j] == HIGH[j]
  {
    LowerAt(n);
    var low := P.Lower(n);
    assert |P.STOCK| == 9 && P.STOCK == LOW;
    assert P.STOCK <= low <==> |n| >= 9 && forall j :: 0 <= j < 9 ==> low[j] == LOW[j];
    if |n| >= 9 {
      forall j | 0 <= j < 9 ensures low[j] == LOW[j] <==> n[j] == LOW[j] || n[j] == HIGH[j] {
        LetterPair(j);
      }
    }
  }

  /** Each letter of the two has its other case in the other. */
  lemma {:induction false} LetterPair(j: nat)
    requires j < 9
    ensures if j < 8 then 'a' <= LOW[j] <= 'z' && HIGH[j] as int + 32 == LOW[j] as int else LOW[j] == '_' && HIGH[j] == '_'
  {
    assert LOW == ['b', 'l', 'i', 'z', 'z', 'a', 'r', 'd', '_'];
    assert HIGH == ['B', 'L', 'I', 'Z', 'Z', 'A', 'R', 'D', '_'];
  }

  /** What a step can do is what its place allows. */
  lemma {:induction false} FitsMeans(d: Declaration, t: Tree, x: Place)
    requires P.GoodDeclaration(d) && Names(d, x)
    ensures Fits(d, t, x) <==> P.ItemOperations(d.applicable, t, StepFor(d, x)).Ok?
  {
    var p := Destination(d, x);
    if x.AddonAt? {
      assert P.ADDONS + [d.addons[x.addon].directories[x.directory].target] == p;
    }
    match x {
      case AddonAt(a, k) =>
        var directory := d.addons[a].directories[k];
        InsideMeans(directory.source);
        var content := P.AddonContent(d.applicable, directory, d.addons[a].content);
        if content.Ok? {
          P.AddedAccepts(t, p, content.value, false);
        }
      case ConfigAt(i) => ConfigFits(d, t, i);
      case SavedAt(i) =>
        assert d.saved[i] in d.saved;
        if d.saved[i].source.Some? && d.saved[i].source.value.content.File? {
          P.AddedAccepts(t, p, d.saved[i].source.value.content, d.saved[i].seed);
        }
      case SeedAt(i) =>
        assert d.seeds[i] in d.seeds;
        if d.seeds[i].source.content.Directory? {
          P.SeededAccepts(t, p, d.seeds[i].source.content);
        }
    }
  }

  lemma {:induction false} ConfigFits(d: Declaration, t: Tree, i: nat)
    requires i < |d.configs|
    ensures Fits(d, t, ConfigAt(i)) <==> P.ItemOperations(d.applicable, t, P.Configure(d.configs[i].path, d.configs[i].settings)).Ok?
  {
    hide Config.Rendered;
    var p, settings := d.configs[i].path, d.configs[i].settings;
    if settings != map[] && P.Body(t, p).Ok? {
      var body := P.Body(t, p).value;
      Config.RenderFails(body, settings);
      if Config.Rendered(body, settings).Ok? {
        P.AddedAccepts(t, p, File(Text(Config.Rendered(body, settings).value)), false);
      }
    }
  }

  lemma {:induction false} SavedSources(saved: seq<P.SavedVariables>, p: Path)
    ensures p in P.SavedSources(saved) <==>
              exists i :: 0 <= i < |saved| && saved[i].source.Some? && saved[i].source.value.path == p
    decreases |saved|
  {
    if saved != [] {
      SavedSources(saved[1..], p);
      if i :| 0 <= i < |saved[1..]| && saved[1..][i].source.Some? && saved[1..][i].source.value.path == p {
        assert saved[i + 1].source.value.path == p;
      }
      if i :| 0 <= i < |saved| && saved[i].source.Some? && saved[i].source.value.path == p {
        if i > 0 {
          assert saved[1..][i - 1] == saved[i];
        }
      }
    }
  }

  lemma {:induction false} SourcesMean(d: Declaration, p: Path)
    ensures p in P.Sources(d) <==> IsSource(d, p)
  {
    SavedSources(d.saved, p);
    var checkouts := seq(|d.addons|, i requires 0 <= i < |d.addons| => d.addons[i].checkout);
    var seeds := seq(|d.seeds|, i requires 0 <= i < |d.seeds| => d.seeds[i].source.path);
    assert p in checkouts <==> exists a :: 0 <= a < |d.addons| && d.addons[a].checkout == p by {
      if a :| 0 <= a < |d.addons| && d.addons[a].checkout == p {
        assert checkouts[a] == p;
      }
    }
    assert p in seeds <==> exists i :: 0 <= i < |d.seeds| && d.seeds[i].source.path == p by {
      if i :| 0 <= i < |d.seeds| && d.seeds[i].source.path == p {
        assert seeds[i] == p;
      }
    }
  }

  /** `prepare` accepts a declaration exactly if the addons are locked at what
      their checkouts hold, every destination is inside and not protected, what
      is at each can be replaced by what is declared for it, and no two of them,
      and none and a source, overlap. */
  lemma {:induction false} AcceptedMeans(d: Declaration, t: Tree)
    requires P.GoodDeclaration(d)
    ensures P.Prepared(d, t).Ok? <==> Accepted(d, t)
  {
    P.PreparedAccepts(d, t);
    ChecksPass(d);
    if P.Prepared(d, t).Ok? {
      AcceptedThen(d, t);
    }
    if Accepted(d, t) {
      AcceptedIf(d, t);
    }
  }

  lemma {:induction false} PlaceAcceptable(d: Declaration, t: Tree, x: Place)
    requires P.GoodDeclaration(d) && Names(d, x)
    ensures P.Acceptable(d.applicable, t, StepFor(d, x)) <==>
              Inside(Destination(d, x)) && !Protected(Destination(d, x)) && Fits(d, t, x)
  {
    StepThere(d, x);
    InsideMeans(Destination(d, x));
    ProtectedMeans(Destination(d, x));
    FitsMeans(d, t, x);
  }

  lemma {:induction false} AcceptedThen(d: Declaration, t: Tree)
    requires P.GoodDeclaration(d) && Locked(d) && P.Prepared(d, t).Ok?
    ensures Accepted(d, t)
  {
    P.PreparedAccepts(d, t);
    hide P.Prepared, P.Acceptable, Inside, Protected, Fits, P.Items, P.Sources, IsSource, Locked;
    forall x | Names(d, x) ensures Inside(Destination(d, x)) && !Protected(Destination(d, x)) && Fits(d, t, x) {
      StepThere(d, x);
      PlaceAcceptable(d, t, x);
    }
    forall x, y | Names(d, x) && Names(d, y) && x != y ensures !Overlap(Destination(d, x), Destination(d, y)) {
      StepThere(d, x);
      StepThere(d, y);
      StepsDiffer(d, x, y);
      var m, n := StepIndex(d, x), StepIndex(d, y);
      assert if m < n then !P.Collide(P.Items(d)[m], P.Items(d)[n]) else !P.Collide(P.Items(d)[n], P.Items(d)[m]);
    }
    forall x, source | Names(d, x) && IsSource(d, source) ensures !Overlap(source, d.root + Destination(d, x)) {
      StepThere(d, x);
      SourcesMean(d, source);
    }
  }

  lemma {:induction false} AcceptedIf(d: Declaration, t: Tree)
    requires P.GoodDeclaration(d) && Accepted(d, t)
    ensures P.Prepared(d, t).Ok?
  {
    var items := P.Items(d);
    P.PreparedAccepts(d, t);
    hide P.Prepared, P.Acceptable, Inside, Protected, Fits, P.Items, P.Sources, IsSource, Locked;
    forall i | 0 <= i < |items| ensures P.Acceptable(d.applicable, t, items[i]) {
      StepAcceptable(d, t, i);
    }
    forall i, j | 0 <= i < j < |items| ensures !P.Collide(items[i], items[j]) {
      var x := PlaceOf(d, i);
      var y := PlaceOf(d, j);
      if x.Some? && y.Some? {
        StepThere(d, x.value);
        StepThere(d, y.value);
      }
    }
    forall i, source | 0 <= i < |items| && !items[i].Gate? && source in P.Sources(d)
      ensures !Overlap(source, d.root + items[i].destination)
    {
      var x := PlaceOf(d, i);
      StepThere(d, x.value);
      SourcesMean(d, source);
    }
  }

  lemma {:induction false} StepAcceptable(d: Declaration, t: Tree, i: nat)
    requires P.GoodDeclaration(d) && Accepted(d, t) && i < |P.Items(d)|
    ensures P.Acceptable(d.applicable, t, P.Items(d)[i])
  {
    var x := PlaceOf(d, i);
    if x.Some? {
      PlaceAcceptable(d, t, x.value);
    }
  }

  // ---------- what applying leaves, field by field ----------

  /** After a converged apply each place holds what is declared for it, a seed
      only where there was no file. */
  lemma {:induction false} AppliedLeaves(d: Declaration, start: Tree, t: Tree)
    requires WellFormed(start) && P.GoodDeclaration(d) && P.Prepared(d, start).Ok?
    requires Converged(P.Prepared(d, start).value.operations, start, t)
    ensures forall x :: Names(d, x) ==> Left(d, start, t, x)
  {
    P.ApplyConverges(d, start, t);
    hide P.Prepared, Converged;
    forall x | Names(d, x) ensures Left(d, start, t, x) {
      StepThere(d, x);
      assert P.Arrived(d.applicable, start, t, StepFor(d, x));
      ArrivedLeft(d, start, t, x);
    }
  }

  lemma {:induction false} ArrivedLeft(d: Declaration, start: Tree, t: Tree, x: Place)
    requires Names(d, x) && P.Arrived(d.applicable, start, t, StepFor(d, x))
    ensures Left(d, start, t, x)
  {
    hide Config.Rendered;
    if x.AddonAt? {
      assert P.ADDONS + [d.addons[x.addon].directories[x.directory].target] == Destination(d, x);
    }
  }

  /** An accepted declaration leaves nothing to do exactly if every place holds
      what is declared for it. */
  lemma {:induction false} NothingToDoMeans(d: Declaration, t: Tree)
    requires P.GoodDeclaration(d) && P.Prepared(d, t).Ok?
    ensures P.Prepared(d, t).value.operations == [] <==> forall x :: Names(d, x) ==> Holds(d, t, x)
  {
    P.NothingToDo(d, t);
    AcceptedMeans(d, t);
    hide P.Prepared;
    if P.AsDeclared(d, t) {
      forall x | Names(d, x) ensures Holds(d, t, x) {
        StepThere(d, x);
        assert P.Declared(d.applicable, t, P.Items(d)[StepIndex(d, x)]);
        HoldsMeans(d, t, x);
      }
    }
    if forall x :: Names(d, x) ==> Holds(d, t, x) {
      forall i | 0 <= i < |P.Items(d)| ensures P.Declared(d.applicable, t, P.Items(d)[i]) {
        var x := PlaceOf(d, i);
        if x.Some? {
          HoldsMeans(d, t, x.value);
        }
      }
    }
  }

  lemma {:induction false} HoldsMeans(d: Declaration, t: Tree, x: Place)
    requires Names(d, x) && Accepted(d, t)
    ensures Holds(d, t, x) <==> P.Declared(d.applicable, t, StepFor(d, x))
  {
    hide Config.Rendered;
    assert Fits(d, t, x);
    if x.AddonAt? {
      assert P.ADDONS + [d.addons[x.addon].directories[x.directory].target] == Destination(d, x);
      InsideMeans(d.addons[x.addon].directories[x.directory].source);
    }
  }

  // ---------- what is there is not touched ----------

  /** A saved variable that seeds gets no operation where there is a file. */
  lemma {:induction false} SavedSeedKept(d: Declaration, t: Tree, i: nat)
    requires WellFormed(t) && P.GoodDeclaration(d) && P.Prepared(d, t).Ok?
    requires i < |d.saved| && d.saved[i].seed && Lookup(t, d.saved[i].path).File?
    ensures forall op :: op in P.Prepared(d, t).value.operations ==> !Overlap(op.path, d.saved[i].path)
  {
    PlaceOperations(d, t, SavedAt(i));
    SavedIdle(d, t, i);
    hide P.Prepared, P.ItemOperations, StepFor;
  }

  /** A place's own operations are among all, and all others are apart from it. */
  lemma {:induction false} PlaceOperations(d: Declaration, t: Tree, x: Place)
    requires WellFormed(t) && P.GoodDeclaration(d) && P.Prepared(d, t).Ok? && Names(d, x)
    ensures !StepFor(d, x).Gate? && StepFor(d, x).destination == Destination(d, x)
    ensures var r := P.ItemOperations(d.applicable, t, StepFor(d, x));
            && r.Ok?
            && (forall op :: op in r.value ==> op in P.Prepared(d, t).value.operations)
            && forall op :: op in P.Prepared(d, t).value.operations ==> op in r.value || !Overlap(op.path, Destination(d, x))
  {
    StepThere(d, x);
    P.ItemsGood(d);
    hide P.Items, P.GoodDeclaration, P.TakenAll, P.ItemOperations, StepFor;
    P.OwnOperations(d.applicable, t, P.Progress([], []), P.Items(d), StepFor(d, x));
  }

  lemma {:induction false} SavedIdle(d: Declaration, t: Tree, i: nat)
    requires i < |d.saved| && d.saved[i].seed && Lookup(t, d.saved[i].path).File?
    ensures !StepFor(d, SavedAt(i)).Gate?
    ensures var r := P.ItemOperations(d.applicable, t, StepFor(d, SavedAt(i))); r.Ok? ==> r.value == []
  {
  }

  /** Nor does any file of a seed tree. */
  lemma {:induction false} TreeSeedKept(d: Declaration, t: Tree, i: nat, q: Path)
    requires WellFormed(t) && P.GoodDeclaration(d) && P.Prepared(d, t).Ok? && i < |d.seeds|
    requires Lookup(t, d.seeds[i].destination + q).File?
    requires Lookup(d.seeds[i].source.content, q).File?
    ensures forall op :: op in P.Prepared(d, t).value.operations ==> !Overlap(op.path, d.seeds[i].destination + q)
  {
    var x, p := SeedAt(i), d.seeds[i].destination;
    PlaceOperations(d, t, x);
    assert d.seeds[i] in d.seeds;
    P.SeededUnderOne(t, p, d.seeds[i].source.content);
    var mine := P.ItemOperations(d.applicable, t, StepFor(d, x)).value;
    forall op | op in P.Prepared(d, t).value.operations ensures !Overlap(op.path, p + q) {
      if op in mine {
        P.SeededSeeds(t, p, d.seeds[i].source.content);
        FileApart(t, op.path, p + q);
      } else {
        P.UnderApart(p, p + q, op.path);
      }
    }
  }

  /** A free place that can be reached is apart from every file. */
  lemma {:induction false} FileApart(t: Tree, r: Path, q: Path)
    requires Lookup(t, r) == Missing && !Blocked(t, r) && Lookup(t, q).File?
    ensures !Overlap(r, q)
  {
    if r <= q {
      var s := q[|r|..];
      assert r + s == q;
      LookupConcat(t, r, s);
      LookupMissing<Content>(s);
      assert false;
    }
    if q < r {
      NoFileOnWay(t, r, q);
    }
  }

  lemma {:induction false} NoFileOnWay(t: Tree, r: Path, q: Path)
    requires !Blocked(t, r) && q < r
    ensures !Lookup(t, q).File?
  {
    BlockedMeans(t, r);
    assert r[..|q|] == q;
  }
}
