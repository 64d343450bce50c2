/** The oracle's pair aggregates: the table that every ingest updates in place
    (crates/modde-oracle/src/postgres.rs), and the recomputation from all events
    (crates/modde-oracle/src/aggregate.rs) that it has to agree with. Counts and
    time windows only: no rates, no noise. */
module Aggregates {
  import opened Ordering
  import opened Results
  import opened Sequences

  /** A stored event. A pair listed twice counts twice. */
  datatype Event = Event(game: string, pairs: seq<string>, crash: bool, at: int)

  /** A game and a pair. */
  type Key = (string, string)

  /** One event as seen by one group. */
  datatype Sighting = Sighting(crash: bool, at: int)

  datatype Counts = Counts(total: int, crashes: int, start: int, end: int)

  datatype Row = Row(pair: Counts, baseline: int, baselineCrashes: int)

  lemma {:induction false} SameTable<K, V>(a: map<K, V>, b: map<K, V>)
    requires forall k: K :: Get(a, k) == Get(b, k)
    ensures a == b
  {
    forall k: K ensures (k in a <==> k in b) && (k in a ==> a[k] == b[k]) {
      assert Get(a, k) == Get(b, k);
    }
  }

  // ---------- what there is to count ----------

  function Seen(e: Event): Sighting {
    Sighting(e.crash, e.at)
  }

  function Repeated(pairs: seq<string>, pair: string, s: Sighting): seq<Sighting> {
    if pairs == [] then []
    else Repeated(pairs[..|pairs| - 1], pair, s) + if pairs[|pairs| - 1] == pair then [s] else []
  }

  function SightingsIn(e: Event, k: Key): seq<Sighting> {
    if e.game == k.0 then Repeated(e.pairs, k.1, Seen(e)) else []
  }

  /** The rows of `compat_events` with its pairs unnested that fall into one group. */
  function Sightings(events: seq<Event>, k: Key): seq<Sighting> {
    if events == [] then []
    else Sightings(events[..|events| - 1], k) + SightingsIn(events[|events| - 1], k)
  }

  function SeenIn(e: Event, game: string): seq<Sighting> {
    if e.game == game then [Seen(e)] else []
  }

  /** The rows of `compat_events` of one game. */
  function OfGame(events: seq<Event>, game: string): seq<Sighting> {
    if events == [] then []
    else OfGame(events[..|events| - 1], game) + SeenIn(events[|events| - 1], game)
  }

  function Crashes(s: seq<Sighting>): nat {
    if s == [] then 0 else Crashes(s[..|s| - 1]) + if s[|s| - 1].crash then 1 else 0
  }

  function Earliest(s: seq<Sighting>): int
    requires s != []
  {
    var last := s[|s| - 1].at;
    if |s| == 1 then last else if last < Earliest(s[..|s| - 1]) then last else Earliest(s[..|s| - 1])
  }

  function Latest(s: seq<Sighting>): int
    requires s != []
  {
    var last := s[|s| - 1].at;
    if |s| == 1 then last else if last > Latest(s[..|s| - 1]) then last else Latest(s[..|s| - 1])
  }

  function CountsOf(s: seq<Sighting>): Counts
    requires s != []
  {
    Counts(|s|, Crashes(s), Earliest(s), Latest(s))
  }

  /** The columns mean what they are called. */
  lemma {:induction false} CountsMean(s: seq<Sighting>)
    requires s != []
    ensures CountsOf(s).crashes == |set i | 0 <= i < |s| && s[i].crash|
    ensures forall i :: 0 <= i < |s| ==> CountsOf(s).start <= s[i].at <= CountsOf(s).end
    ensures exists i, j :: 0 <= i < |s| && 0 <= j < |s| && CountsOf(s).start == s[i].at && CountsOf(s).end == s[j].at
  {
    CrashesMean(s);
    WindowMeans(s);
  }

  lemma {:induction false} CrashesMean(s: seq<Sighting>)
    ensures Crashes(s) == |set i | 0 <= i < |s| && s[i].crash|
  {
    var all := set i | 0 <= i < |s| && s[i].crash;
    if s == [] {
      assert all == {};
    } else {
      var n := |s| - 1;
      var t := s[..n];
      CrashesMean(t);
      var crashed := set i | 0 <= i < |t| && t[i].crash;
      assert n !in crashed && all == if s[n].crash then crashed + {n} else crashed;
    }
  }

  lemma {:induction false} WindowMeans(s: seq<Sighting>)
    requires s != []
    ensures forall i :: 0 <= i < |s| ==> Earliest(s) <= s[i].at <= Latest(s)
    ensures exists i, j :: 0 <= i < |s| && 0 <= j < |s| && Earliest(s) == s[i].at && Latest(s) == s[j].at
  {
    var n := |s| - 1;
    var t := s[..n];
    if n == 0 {
      assert Earliest(s) == s[0].at && Latest(s) == s[0].at;
    } else {
      WindowMeans(t);
      var i, j :| 0 <= i < n && 0 <= j < n && Earliest(t) == t[i].at && Latest(t) == t[j].at;
      var a, b := if s[n].at < t[i].at then n else i, if s[n].at > t[j].at then n else j;
      assert Earliest(s) == s[a].at && Latest(s) == s[b].at;
      assert forall l :: 0 <= l < n ==> s[l] == t[l];
    }
  }

  function KeysIn(e: Event): set<Key> {
    set p | p in e.pairs :: (e.game, p)
  }

  function Keys(events: seq<Event>): set<Key> {
    if events == [] then {} else Keys(events[..|events| - 1]) + KeysIn(events[|events| - 1])
  }

  function Games(events: seq<Event>): set<string> {
    set e | e in events :: e.game
  }

  /** The row of a pair: its own counts beside those of its game. */
  function RowOf(events: seq<Event>, k: Key): Row
    requires Sightings(events, k) != []
  {
    var game := OfGame(events, k.0);
    Row(CountsOf(Sightings(events, k)), |game|, Crashes(game))
  }

  /** The recomputation: the row of each pair seen often enough. */
  function Aggregated(events: seq<Event>, min: int): map<Key, Row> {
    map k | k in Keys(events) && SeenKey(events, k) && |Sightings(events, k)| >= min :: RowOf(events, k)
  }

  /** The group of a key is there. */
  predicate SeenKey(events: seq<Event>, k: Key) {
    Sightings(events, k) != []
  }

  lemma {:induction false} RepeatedSeen(pairs: seq<string>, pair: string, s: Sighting)
    ensures Repeated(pairs, pair, s) != [] <==> pair in pairs
  {
    if pairs != [] {
      RepeatedSeen(pairs[..|pairs| - 1], pair, s);
      assert pairs == pairs[..|pairs| - 1] + [pairs[|pairs| - 1]];
    }
  }

  /** A key is there exactly when it was sighted. */
  lemma {:induction false} KeysSeen(events: seq<Event>, k: Key)
    ensures k in Keys(events) <==> SeenKey(events, k)
  {
    if events != [] {
      var e := events[|events| - 1];
      KeysSeen(events[..|events| - 1], k);
      RepeatedSeen(e.pairs, k.1, Seen(e));
      assert k in KeysIn(e) <==> k.0 == e.game && k.1 in e.pairs;
    }
  }

  /** One more event. */
  lemma {:induction false} OneEvent(events: seq<Event>, e: Event, k: Key)
    ensures Sightings(events + [e], k) == Sightings(events, k) + SightingsIn(e, k)
    ensures OfGame(events + [e], k.0) == OfGame(events, k.0) + SeenIn(e, k.0)
    ensures Keys(events + [e]) == Keys(events) + KeysIn(e)
    ensures Games(events + [e]) == Games(events) + {e.game}
  {
    assert (events + [e])[..|events|] == events;
  }

  lemma {:induction false} EventsConcat(a: seq<Event>, b: seq<Event>, k: Key)
    ensures Sightings(a + b, k) == Sightings(a, k) + Sightings(b, k)
    ensures OfGame(a + b, k.0) == OfGame(a, k.0) + OfGame(b, k.0)
    ensures Keys(a + b) == Keys(a) + Keys(b)
    decreases |b|
  {
    if b == [] {
      AppendNothing(a);
      AppendNothing(Sightings(a, k));
      AppendNothing(OfGame(a, k.0));
    } else {
      var c, e := b[..|b| - 1], b[|b| - 1];
      assert b == c + [e];
      EventsConcat(a, c, k);
      EventsSnoc(a, c, e, k);
    }
  }

  lemma {:induction false} EventsSnoc(a: seq<Event>, c: seq<Event>, e: Event, k: Key)
    requires Sightings(a + c, k) == Sightings(a, k) + Sightings(c, k)
    requires OfGame(a + c, k.0) == OfGame(a, k.0) + OfGame(c, k.0)
    requires Keys(a + c) == Keys(a) + Keys(c)
    ensures Sightings(a + (c + [e]), k) == Sightings(a, k) + Sightings(c + [e], k)
    ensures OfGame(a + (c + [e]), k.0) == OfGame(a, k.0) + OfGame(c + [e], k.0)
    ensures Keys(a + (c + [e])) == Keys(a) + Keys(c + [e])
  {
    hide Sightings, OfGame, Keys, SightingsIn, SeenIn, KeysIn, Games;
    Associate(a, c, [e]);
    OneEvent(a + c, e, k);
    OneEvent(c, e, k);
    Associate(Sightings(a, k), Sightings(c, k), SightingsIn(e, k));
    Associate(OfGame(a, k.0), OfGame(c, k.0), SeenIn(e, k.0));
  }

  lemma {:induction false} OfGameSeen(events: seq<Event>, game: string)
    ensures OfGame(events, game) != [] <==> game in Games(events)
    ensures forall k: Key :: k in Keys(events) ==> k.0 in Games(events)
  {
    if events != [] {
      var front, e := events[..|events| - 1], events[|events| - 1];
      OfGameSeen(front, game);
      assert events == front + [e];
      assert Games(events) == Games(front) + {e.game};
    }
  }

  // ---------- the recomputation ----------

  function Updated(c: Counts, s: Sighting): Counts {
    Counts(c.total + 1, c.crashes + (if s.crash then 1 else 0),
           if s.at < c.start then s.at else c.start, if s.at > c.end then s.at else c.end)
  }

  method UpdateCounts(counts: Counts, s: Sighting) returns (r: Counts)
    ensures r == Updated(counts, s)
  {
    r := counts.(total := counts.total + 1);
    if s.crash {
      r := r.(crashes := r.crashes + 1);
    }
    if s.at < r.start {
      r := r.(start := s.at);
    }
    if s.at > r.end {
      r := r.(end := s.at);
    }
  }

  /** The entry of a key, made on first use. */
  function Entry(found: Option<Counts>, s: Sighting): Counts {
    if found.Some? then found.value else Counts(0, 0, s.at, s.at)
  }

  function Tally(s: seq<Sighting>): Option<Counts> {
    if s == [] then None else Some(CountsOf(s))
  }

  /** Updating the entry of a group adds a sighting to the group. */
  lemma {:induction false} UpdatedTally(s: seq<Sighting>, x: Sighting)
    ensures Tally(s + [x]) == Some(Updated(Entry(Tally(s), x), x))
  {
    var t := s + [x];
    assert t[..|t| - 1] == s && t[|t| - 1] == x;
    assert Crashes(t) == Crashes(s) + if x.crash then 1 else 0;
    if s != [] {
      assert Earliest(t) == if x.at < Earliest(s) then x.at else Earliest(s);
    } else {
      assert Earliest(t) == x.at && Latest(t) == x.at && Crashes(s) == 0;
    }
  }

  /** The groups by key, and by game. */
  function PairCounts(events: seq<Event>): map<Key, Counts> {
    map k | k in Keys(events) && SeenKey(events, k) :: CountsOf(Sightings(events, k))
  }

  function GameCounts(events: seq<Event>): map<string, Counts> {
    map g | g in Games(events) && OfGame(events, g) != [] :: CountsOf(OfGame(events, g))
  }

  lemma {:induction false} CountsAt(events: seq<Event>, k: Key)
    ensures Get(PairCounts(events), k) == Tally(Sightings(events, k))
    ensures Get(GameCounts(events), k.0) == Tally(OfGame(events, k.0))
  {
    KeysSeen(events, k);
    OfGameSeen(events, k.0);
  }

  /** One more pair of the last event. */
  lemma {:induction false} OnePair(events: seq<Event>, e: Event, p: string)
    ensures var before, after := PairCounts(events + [e]), PairCounts(events + [e.(pairs := e.pairs + [p])]);
            var k := (e.game, p);
            after == before[k := Updated(Entry(Get(before, k), Seen(e)), Seen(e))]
  {
    var f, k := e.(pairs := e.pairs + [p]), (e.game, p);
    var before, after := PairCounts(events + [e]), PairCounts(events + [f]);
    var now := before[k := Updated(Entry(Get(before, k), Seen(e)), Seen(e))];
    forall x: Key ensures Get(after, x) == Get(now, x) {
      CountsAt(events + [e], x);
      CountsAt(events + [f], x);
      OneMorePair(events, e, p, x);
      UpdatedTally(Sightings(events + [e], k), Seen(e));
    }
    SameTable(after, now);
  }

  lemma {:induction false} OneMorePair(events: seq<Event>, e: Event, p: string, k: Key)
    ensures Sightings(events + [e.(pairs := e.pairs + [p])], k)
         == if k == (e.game, p) then Sightings(events + [e], k) + [Seen(e)] else Sightings(events + [e], k)
  {
    var f := e.(pairs := e.pairs + [p]);
    assert f.pairs[..|f.pairs| - 1] == e.pairs;
    OneEvent(events, e, k);
    OneEvent(events, f, k);
    if k == (e.game, p) {
      Associate(Sightings(events, k), SightingsIn(e, k), [Seen(e)]);
    } else {
      assert Repeated(e.pairs, k.1, Seen(e)) + [] == Repeated(e.pairs, k.1, Seen(e));
    }
  }

  lemma {:induction false} NoPair(events: seq<Event>, e: Event)
    requires e.pairs == []
    ensures PairCounts(events + [e]) == PairCounts(events)
  {
    forall x: Key ensures Get(PairCounts(events + [e]), x) == Get(PairCounts(events), x) {
      CountsAt(events, x);
      CountsAt(events + [e], x);
      OneEvent(events, e, x);
      assert Sightings(events, x) + [] == Sightings(events, x);
    }
    SameTable(PairCounts(events + [e]), PairCounts(events));
  }

  /** One more event of its game. */
  lemma {:induction false} OneGame(events: seq<Event>, e: Event)
    ensures var before := GameCounts(events);
            GameCounts(events + [e]) == before[e.game := Updated(Entry(Get(before, e.game), Seen(e)), Seen(e))]
  {
    hide GameCounts, OfGame, PairCounts, Sightings, Tally, Games, Keys;
    var before, after := GameCounts(events), GameCounts(events + [e]);
    var now := before[e.game := Updated(Entry(Get(before, e.game), Seen(e)), Seen(e))];
    forall g: string ensures Get(after, g) == Get(now, g) {
      var k := (g, "");
      CountsAt(events, k);
      CountsAt(events + [e], k);
      OneEvent(events, e, k);
      UpdatedTally(OfGame(events, e.game), Seen(e));
      assert OfGame(events, g) + [] == OfGame(events, g);
    }
    SameTable(after, now);
  }

  /** Selecting the groups that are large enough. */
  lemma {:induction false} SelectedAt(events: seq<Event>, min: int, k: Key)
    ensures Get(Aggregated(events, min), k)
         == if SeenKey(events, k) && |Sightings(events, k)| >= min then Some(RowOf(events, k)) else None
    ensures SeenKey(events, k) ==>
              k.0 in GameCounts(events) && GameCounts(events)[k.0] == CountsOf(OfGame(events, k.0))
  {
    KeysSeen(events, k);
    CountsAt(events, k);
    OfGameSeen(events, k.0);
  }

  /** `aggregate_events`: one pass over all events, filling the groups. */
  method AggregateEvents(events: seq<Event>, min: int) returns (stats: map<Key, Row>)
    ensures stats == Aggregated(events, min)
  {
    hide PairCounts, GameCounts, Aggregated, OfGame, Sightings, Keys, Games;
    var games: map<string, Counts> := map[];
    var pairs: map<Key, Counts> := map[];
    var i := 0;
    NoCounts(events[..i]);
    while i < |events|
      invariant 0 <= i <= |events|
      invariant games == GameCounts(events[..i]) && pairs == PairCounts(events[..i])
    {
      var e := events[i];
      ghost var front := events[..i];
      OneGame(front, e);
      var base := UpdateCounts(Entry(Get(games, e.game), Seen(e)), Seen(e));
      games := games[e.game := base];
      pairs := CountPairs(front, e, pairs);
      assert front + [e] == events[..i + 1];
      i := i + 1;
    }
    assert events[..i] == events;
    stats := LargeGroups(events, min, games, pairs);
  }

  lemma {:induction false} NoCounts(events: seq<Event>)
    requires events == []
    ensures PairCounts(events) == map[] && GameCounts(events) == map[]
  {
  }

  method CountPairs(ghost front: seq<Event>, e: Event, before: map<Key, Counts>) returns (pairs: map<Key, Counts>)
    requires before == PairCounts(front)
    ensures pairs == PairCounts(front + [e])
  {
    hide PairCounts, GameCounts, Keys, Sightings;
    pairs := before;
    NoPair(front, e.(pairs := []));
    var j := 0;
    while j < |e.pairs|
      invariant 0 <= j <= |e.pairs|
      invariant pairs == PairCounts(front + [e.(pairs := e.pairs[..j])])
    {
      var k := (e.game, e.pairs[j]);
      OnePair(front, e.(pairs := e.pairs[..j]), e.pairs[j]);
      assert e.pairs[..j] + [e.pairs[j]] == e.pairs[..j + 1];
      var counts := UpdateCounts(Entry(Get(pairs, k), Seen(e)), Seen(e));
      pairs := pairs[k := counts];
      j := j + 1;
    }
    assert e.(pairs := e.pairs[..j]) == e;
  }

  /** The final filter, with the game's counts beside the pair's. */
  method LargeGroups(events: seq<Event>, min: int, games: map<string, Counts>, pairs: map<Key, Counts>)
    returns (stats: map<Key, Row>)
    requires games == GameCounts(events) && pairs == PairCounts(events)
    ensures stats == Aggregated(events, min)
  {
    forall k: Key
      ensures Get(pairs, k) == Tally(Sightings(events, k))
      ensures k in pairs ==> k.0 in games && games[k.0] == CountsOf(OfGame(events, k.0))
    {
      CountsAt(events, k);
      SelectedAt(events, min, k);
    }
    stats := map k | k in pairs && pairs[k].total >= min :: Row(pairs[k], games[k.0].total, games[k.0].crashes);
    forall k: Key ensures Get(stats, k) == Get(Aggregated(events, min), k) {
      assert Get(pairs, k) == Tally(Sightings(events, k));
      SelectedAt(events, min, k);
    }
    SameTable(stats, Aggregated(events, min));
  }

  // ---------- the table ----------

  /** The pairs of a batch by game, each once (`touched_pairs`). */
  ghost predicate Touched(t: map<string, seq<string>>, batch: seq<Event>) {
    && t.Keys == Games(batch)
    && (forall g, p :: g in t ==> (p in t[g] <==> (g, p) in Keys(batch)))
    && forall g :: g in t ==> NoRepeats(t[g])
  }

  method TouchedPairs(batch: seq<Event>) returns (t: map<string, seq<string>>)
    ensures Touched(t, batch)
  {
    t := map[];
    var i := 0;
    assert batch[..0] == [];
    assert Touched(t, batch[..0]);
    hide Touched, Keys, Games, NoRepeats;
    while i < |batch|
      invariant 0 <= i <= |batch|
      invariant Touched(t, batch[..i])
    {
      t := TouchEvent(t, batch[i], batch[..i]);
      assert batch[..i] + [batch[i]] == batch[..i + 1];
      i := i + 1;
    }
    assert batch[..i] == batch;
  }

  method TouchEvent(before: map<string, seq<string>>, e: Event, ghost front: seq<Event>) returns (t: map<string, seq<string>>)
    requires Touched(before, front)
    ensures Touched(t, front + [e])
  {
    hide Touched, Keys, Games, NoRepeats;
    var pairs := if e.game in before then before[e.game] else [];
    NoRepeatsEmpty();
    TouchedHad(before, front, e.game);
    pairs := AddPairs(pairs, e.pairs);
    t := before[e.game := pairs];
    TouchedMore(before, front, e, pairs);
  }

  method AddPairs(had: seq<string>, more: seq<string>) returns (pairs: seq<string>)
    requires NoRepeats(had)
    ensures forall p :: p in pairs <==> p in had || p in more
    ensures NoRepeats(pairs)
  {
    pairs := had;
    var j := 0;
    while j < |more|
      invariant 0 <= j <= |more|
      invariant forall p :: p in pairs <==> p in had || p in more[..j]
      invariant NoRepeats(pairs)
    {
      if more[j] !in pairs {
        pairs := pairs + [more[j]];
      }
      j := j + 1;
    }
    assert more[..j] == more;
  }

  lemma {:induction false} TouchedHad(t: map<string, seq<string>>, batch: seq<Event>, game: string)
    requires Touched(t, batch)
    ensures forall p :: (game, p) in Keys(batch) <==> game in t && p in t[game]
    ensures game in t ==> NoRepeats(t[game])
  {
    OfGameSeen(batch, game);
  }

  lemma {:induction false} NoRepeatsEmpty()
    ensures NoRepeats<string>([])
  {
  }

  lemma {:induction false} TouchedMore(t: map<string, seq<string>>, batch: seq<Event>, e: Event, pairs: seq<string>)
    requires Touched(t, batch)
    requires forall p :: p in pairs <==> (e.game, p) in Keys(batch) || p in e.pairs
    requires NoRepeats(pairs)
    ensures Touched(t[e.game := pairs], batch + [e])
  {
    var after := batch + [e];
    assert after[..|batch|] == batch;
    assert Games(after) == Games(batch) + {e.game};
    assert forall k: Key :: k in KeysIn(e) <==> k.0 == e.game && k.1 in e.pairs;
  }

  /** The insert-select: the rows of the touched pairs of one game. */
  function Selected(events: seq<Event>, game: string, pairs: seq<string>, min: int): map<Key, Row> {
    map k | k in (set p | p in pairs :: (game, p)) && SeenKey(events, k) && |Sightings(events, k)| >= min
      :: RowOf(events, k)
  }

  function Without(rows: map<Key, Row>, game: string, pairs: seq<string>): map<Key, Row> {
    map k | k in rows && !(k.0 == game && k.1 in pairs) :: rows[k]
  }

  function Rebased(rows: map<Key, Row>, events: seq<Event>, game: string): map<Key, Row> {
    map k | k in rows ::
      if k.0 == game then rows[k].(baseline := |OfGame(events, game)|, baselineCrashes := Crashes(OfGame(events, game)))
      else rows[k]
  }

  /** What the three statements for one game do to the table. */
  function GameUpdated(rows: map<Key, Row>, events: seq<Event>, game: string, pairs: seq<string>, min: int): map<Key, Row> {
    Rebased(Without(rows, game, pairs) + Selected(events, game, pairs, min), events, game)
  }

  function AllUpdated(rows: map<Key, Row>, events: seq<Event>, t: map<string, seq<string>>, games: seq<string>, min: int): map<Key, Row>
    requires forall g :: g in games ==> g in t
  {
    if games == [] then rows
    else
      var last := games[|games| - 1];
      GameUpdated(AllUpdated(rows, events, t, games[..|games| - 1], min), events, last, t[last], min)
  }

  /** An ingested batch and the cohort minimum in force. */
  datatype Batch = Batch(events: seq<Event>, min: int)

  function AllEvents(history: seq<Batch>): seq<Event> {
    if history == [] then [] else AllEvents(history[..|history| - 1]) + history[|history| - 1].events
  }

  /** The minimum in force when the key was last seen. */
  function LastMin(history: seq<Batch>, k: Key): int {
    if history == [] then 0
    else if k in Keys(history[|history| - 1].events) then history[|history| - 1].min
    else LastMin(history[..|history| - 1], k)
  }

  /** What the table must hold. */
  function Shown(history: seq<Batch>): map<Key, Row> {
    var events := AllEvents(history);
    map k | k in Keys(events) && SeenKey(events, k) && |Sightings(events, k)| >= LastMin(history, k) :: RowOf(events, k)
  }

  class Database {
    /** `compat_events` and `compat_pair_aggregates`. */
    var events: seq<Event>
    var rows: map<Key, Row>
    ghost var history: seq<Batch>

    ghost predicate Valid()
      reads this
    {
      events == AllEvents(history) && rows == Shown(history)
    }

    constructor ()
      ensures Valid() && history == []
    {
      events, rows, history := [], map[], [];
    }

    method DeleteRows(game: string, pairs: seq<string>)
      modifies this`rows
      ensures rows == Without(old(rows), game, pairs)
    {
      rows := map k | k in rows && !(k.0 == game && k.1 in pairs) :: rows[k];
    }

    /** An insert fails as a whole when a primary key is already taken. */
    method InsertRows(inserted: map<Key, Row>) returns (ok: bool)
      modifies this`rows
      ensures ok <==> inserted.Keys !! old(rows).Keys
      ensures rows == if ok then old(rows) + inserted else old(rows)
    {
      ok := inserted.Keys !! rows.Keys;
      if ok {
        rows := rows + inserted;
      }
    }

    method RefreshBaseline(game: string)
      modifies this`rows
      ensures rows == Rebased(old(rows), events, game)
    {
      rows := Rebased(rows, events, game);
    }

    /** Drop the touched pairs of one game, select them anew, refresh the
        baseline in every row of the game. */
    method UpdateGame(game: string, pairs: seq<string>, min: int) returns (ok: bool)
      modifies this`rows
      ensures ok
      ensures rows == GameUpdated(old(rows), events, game, pairs, min)
    {
      DeleteRows(game, pairs);
      ok := InsertRows(Selected(events, game, pairs, min));
      if !ok {
        return false;
      }
      RefreshBaseline(game);
    }

    /** `update_postgres_aggregates`: game by game in key order. No insert meets
        a key that is taken, whatever the table held. */
    method UpdateAggregates(t: map<string, seq<string>>, min: int) returns (ok: bool)
      modifies this`rows
      ensures ok
      ensures rows == AllUpdated(old(rows), events, t, SortedKeys(t.Keys), min)
    {
      hide GameUpdated, SortedKeys;
      var games := SortedKeys(t.Keys);
      var i := 0;
      while i < |games|
        invariant 0 <= i <= |games|
        invariant rows == AllUpdated(old(rows), events, t, games[..i], min)
      {
        var game := games[i];
        assert games[..i + 1][..i] == games[..i];
        ok := UpdateGame(game, t[game], min);
        if !ok {
          return false;
        }
        i := i + 1;
      }
      assert games[..i] == games;
      ok := true;
    }

    /** `insert_postgres_events`. */
    method Ingest(batch: seq<Event>, min: int) returns (count: nat)
      requires Valid()
      modifies this
      ensures Valid() && history == old(history) + [Batch(batch, min)]
      ensures count == |batch|
    {
      var t := TouchedPairs(batch);
      ghost var was := rows;
      var i := 0;
      while i < |batch|
        invariant 0 <= i <= |batch|
        invariant events == old(events) + batch[..i] && rows == was && history == old(history)
      {
        events := events + [batch[i]];
        i := i + 1;
      }
      assert batch[..i] == batch;
      var ok := UpdateAggregates(t, min);
      history := history + [Batch(batch, min)];
      assert history[..|history| - 1] == old(history);
      IngestedShown(old(history), batch, min, t);
      count := |batch|;
    }
  }

  // ---------- the table shows the recomputation ----------

  function Fresh(events: seq<Event>, k: Key, min: int): Option<Row> {
    if SeenKey(events, k) && |Sightings(events, k)| >= min then Some(RowOf(events, k)) else None
  }

  /** The fate of one key when its game is updated. */
  function Next(c: Option<Row>, events: seq<Event>, k: Key, pairs: seq<string>, min: int): Option<Row> {
    if k.1 in pairs then Fresh(events, k, min)
    else if c.None? then c
    else
      var game := OfGame(events, k.0);
      Some(c.value.(baseline := |game|, baselineCrashes := Crashes(game)))
  }

  lemma {:induction false} GameUpdatedAt(rows: map<Key, Row>, events: seq<Event>, game: string, pairs: seq<string>, min: int, k: Key)
    ensures Get(GameUpdated(rows, events, game, pairs, min), k)
         == if k.0 == game then Next(Get(rows, k), events, k, pairs, min) else Get(rows, k)
  {
    var mid := Without(rows, game, pairs) + Selected(events, game, pairs, min);
    if k.0 == game && k.1 in pairs {
      assert k in (set p | p in pairs :: (game, p));
      assert Get(mid, k) == Fresh(events, k, min);
    } else {
      assert Get(mid, k) == Get(rows, k);
    }
  }

  lemma {:induction false} AllUpdatedAt(rows: map<Key, Row>, events: seq<Event>, t: map<string, seq<string>>, games: seq<string>, min: int, k: Key)
    requires forall g :: g in games ==> g in t
    requires NoRepeats(games)
    ensures Get(AllUpdated(rows, events, t, games, min), k)
         == if k.0 in games then Next(Get(rows, k), events, k, t[k.0], min) else Get(rows, k)
  {
    if games != [] {
      var n := |games| - 1;
      var front := games[..n];
      AllUpdatedAt(rows, events, t, front, min, k);
      GameUpdatedAt(AllUpdated(rows, events, t, front, min), events, games[n], t[games[n]], min, k);
      assert k.0 in games <==> k.0 in front || k.0 == games[n];
      assert games[n] !in front;
    }
  }

  lemma {:induction false} ShownAt(history: seq<Batch>, k: Key)
    ensures Get(Shown(history), k) == Fresh(AllEvents(history), k, LastMin(history, k))
  {
    KeysSeen(AllEvents(history), k);
  }

  /** One key over one ingest. */
  lemma {:induction false} IngestedAt(history: seq<Batch>, batch: seq<Event>, min: int, k: Key)
    ensures var events := AllEvents(history) + batch;
            var was := Fresh(AllEvents(history), k, LastMin(history, k));
            Fresh(events, k, LastMin(history + [Batch(batch, min)], k))
              == if k in Keys(batch) then Fresh(events, k, min)
                 else if k.0 !in Games(batch) || was.None? then was
                 else Some(was.value.(baseline := |OfGame(events, k.0)|, baselineCrashes := Crashes(OfGame(events, k.0))))
  {
    var h := history + [Batch(batch, min)];
    assert h[..|h| - 1] == history;
    EventsConcat(AllEvents(history), batch, k);
    KeysSeen(batch, k);
    OfGameSeen(batch, k.0);
    assert Sightings(AllEvents(history), k) + [] == Sightings(AllEvents(history), k);
    assert OfGame(AllEvents(history), k.0) + [] == OfGame(AllEvents(history), k.0);
  }

  /** Every ingest leaves the table as it must be. */
  lemma {:induction false} IngestedShown(history: seq<Batch>, batch: seq<Event>, min: int, t: map<string, seq<string>>)
    requires Touched(t, batch)
    ensures AllUpdated(Shown(history), AllEvents(history) + batch, t, SortedKeys(t.Keys), min)
         == Shown(history + [Batch(batch, min)])
  {
    var h, events, games := history + [Batch(batch, min)], AllEvents(history) + batch, SortedKeys(t.Keys);
    var after := AllUpdated(Shown(history), events, t, games, min);
    assert h[..|h| - 1] == history;
    SortedKeysOrder(t.Keys);
    forall k: Key ensures Get(after, k) == Get(Shown(h), k) {
      OneKeyShown(history, batch, min, t, k);
    }
    SameTable(after, Shown(h));
  }

  lemma {:induction false} OneKeyShown(history: seq<Batch>, batch: seq<Event>, min: int, t: map<string, seq<string>>, k: Key)
    requires Touched(t, batch)
    ensures Get(AllUpdated(Shown(history), AllEvents(history) + batch, t, SortedKeys(t.Keys), min), k)
         == Get(Shown(history + [Batch(batch, min)]), k)
  {
    var h, events, games := history + [Batch(batch, min)], AllEvents(history) + batch, SortedKeys(t.Keys);
    assert h[..|h| - 1] == history;
    SortedKeysOrder(t.Keys);
    AllUpdatedAt(Shown(history), events, t, games, min, k);
    ShownAt(history, k);
    ShownAt(h, k);
    IngestedAt(history, batch, min, k);
    OfGameSeen(batch, k.0);
    if k.0 in t {
      assert k.1 in t[k.0] <==> (k.0, k.1) in Keys(batch);
    }
  }

  /** With one cohort minimum throughout, the table is the recomputation. */
  lemma {:induction false} ShownIsAggregated(history: seq<Batch>, min: int)
    requires forall b :: b in history ==> b.min == min
    ensures Shown(history) == Aggregated(AllEvents(history), min)
  {
    forall k: Key ensures k in Keys(AllEvents(history)) ==> LastMin(history, k) == min {
      LastMinBound(history, k, min, min);
    }
  }

  lemma {:induction false} LastMinBound(history: seq<Batch>, k: Key, low: int, high: int)
    requires forall b :: b in history ==> low <= b.min <= high
    ensures k in Keys(AllEvents(history)) ==> low <= LastMin(history, k) <= high
  {
    if history != [] {
      var front, last := history[..|history| - 1], history[|history| - 1];
      assert last in history && forall b :: b in front ==> b in history;
      LastMinBound(front, k, low, high);
      EventsConcat(AllEvents(front), last.events, k);
    }
  }

  /** The rows a query at a cohort minimum of its own sees. */
  function Queried(rows: map<Key, Row>, min: int): map<Key, Row> {
    map k | k in rows && rows[k].pair.total >= min :: rows[k]
  }

  /** After a change of the minimum a query sees the recomputation, except for
      the pairs it would show but that were last ingested below a minimum that
      they did not reach. */
  lemma {:induction false} QueriedAt(history: seq<Batch>, min: int, k: Key)
    ensures Get(Queried(Shown(history), min), k) == Get(Aggregated(AllEvents(history), min), k)
       <==> !(SeenKey(AllEvents(history), k) && min <= |Sightings(AllEvents(history), k)| < LastMin(history, k))
  {
    ShownAt(history, k);
    KeysSeen(AllEvents(history), k);
  }

  /** So raising the minimum is safe. */
  lemma {:induction false} QueriedIsAggregated(history: seq<Batch>, min: int)
    requires forall b :: b in history ==> b.min <= min
    ensures Queried(Shown(history), min) == Aggregated(AllEvents(history), min)
  {
    var low := LowestMin(history, min);
    forall k: Key ensures Get(Queried(Shown(history), min), k) == Get(Aggregated(AllEvents(history), min), k) {
      QueriedAt(history, min, k);
      KeysSeen(AllEvents(history), k);
      LastMinBound(history, k, low, min);
    }
    SameTable(Queried(Shown(history), min), Aggregated(AllEvents(history), min));
  }

  function LowestMin(history: seq<Batch>, min: int): (low: int)
    ensures low <= min && forall b :: b in history ==> low <= b.min
  {
    if history == [] then min
    else
      var low := LowestMin(history[1..], min);
      assert forall b :: b in history ==> b == history[0] || b in history[1..];
      if history[0].min < low then history[0].min else low
  }

  /** Lowering it is not: a pair seen once while two sightings were called for
      has no row when one would do. */
  lemma {:induction false} LoweredMinimum()
    ensures var h, k := [Batch([Event("g", ["p"], false, 0)], 2)], ("g", "p");
            Get(Queried(Shown(h), 1), k) == None && Get(Aggregated(AllEvents(h), 1), k).Some?
  {
    var e, k := Event("g", ["p"], false, 0), ("g", "p");
    var h := [Batch([e], 2)];
    assert h[..0] == [] && AllEvents(h) == [] + [e] == [e];
    OneEvent([], e, k);
    assert e.pairs[..0] == [];
    assert SightingsIn(e, k) == [Seen(e)] && Sightings([e], k) == [Seen(e)];
    assert k in KeysIn(e);
    ShownAt(h, k);
    SelectedAt([e], 1, k);
  }

  // ---------- what a row says of the events ----------

  /** Where the events have the pair: each place in each list of pairs. */
  function Positions(events: seq<Event>, k: Key): set<(int, int)> {
    set i, j | 0 <= i < |events| && events[i].game == k.0 && 0 <= j < |events[i].pairs| && events[i].pairs[j] == k.1 :: (i, j)
  }

  function CrashPositions(events: seq<Event>, k: Key): set<(int, int)> {
    set p | p in Positions(events, k) && events[p.0].crash
  }

  function GameEvents(events: seq<Event>, game: string): set<int> {
    set i | 0 <= i < |events| && events[i].game == game
  }

  function GameCrashes(events: seq<Event>, game: string): set<int> {
    set i | 0 <= i < |events| && events[i].game == game && events[i].crash
  }

  /** A row counts the places and the crashes among them, gives the least and the
      greatest time of their events, and counts the events and the crashes of the
      game. */
  ghost predicate Tells(events: seq<Event>, k: Key, row: Row) {
    && row.pair.total == |Positions(events, k)|
    && row.pair.crashes == |CrashPositions(events, k)|
    && (forall p :: p in Positions(events, k) ==> row.pair.start <= events[p.0].at <= row.pair.end)
    && (exists p :: p in Positions(events, k) && row.pair.start == events[p.0].at)
    && (exists p :: p in Positions(events, k) && row.pair.end == events[p.0].at)
    && row.baseline == |GameEvents(events, k.0)|
    && row.baselineCrashes == |GameCrashes(events, k.0)|
  }

  lemma {:induction false} CrashesConcat(a: seq<Sighting>, b: seq<Sighting>)
    ensures Crashes(a + b) == Crashes(a) + Crashes(b)
    decreases |b|
  {
    if b == [] {
      AppendNothing(a);
    } else {
      var c, x := b[..|b| - 1], b[|b| - 1];
      CrashesConcat(a, c);
      assert (a + b)[..|a + b| - 1] == a + c;
    }
  }

  /** The places in one list. */
  function Places(pairs: seq<string>, pair: string): set<int> {
    set j | 0 <= j < |pairs| && pairs[j] == pair
  }

  lemma {:induction false} RepeatedCount(pairs: seq<string>, pair: string, s: Sighting)
    ensures |Repeated(pairs, pair, s)| == |Places(pairs, pair)|
    ensures Crashes(Repeated(pairs, pair, s)) == if s.crash then |Places(pairs, pair)| else 0
    ensures forall x :: x in Repeated(pairs, pair, s) ==> x == s
  {
    if pairs == [] {
      assert Places(pairs, pair) == {};
    } else {
      var n := |pairs| - 1;
      var front := pairs[..n];
      var one := if pairs[n] == pair then [s] else [];
      RepeatedCount(front, pair, s);
      OnePlace(pairs, pair);
      assert Repeated(pairs, pair, s) == Repeated(front, pair, s) + one;
      CrashesConcat(Repeated(front, pair, s), one);
      CrashesOne(s);
      hide Places, Repeated, Crashes;
    }
  }

  lemma {:induction false} CrashesOne(s: Sighting)
    ensures Crashes([s]) == (if s.crash then 1 else 0) && Crashes([]) == 0
  {
    assert [s][..0] == [];
  }

  predicate IsPosition(events: seq<Event>, k: Key, p: (int, int)) {
    0 <= p.0 < |events| && events[p.0].game == k.0 && 0 <= p.1 < |events[p.0].pairs| && events[p.0].pairs[p.1] == k.1
  }

  lemma {:induction false} PositionsMean(events: seq<Event>, k: Key)
    ensures forall p :: p in Positions(events, k) <==> IsPosition(events, k, p)
  {
    forall p ensures p in Positions(events, k) <==> IsPosition(events, k, p) {
      assert p == (p.0, p.1);
    }
  }

  /** The places in the last event. */
  function LastPlaces(n: int, js: set<int>): set<(int, int)> {
    set j | j in js :: (n, j)
  }

  function PlacesIn(e: Event, k: Key): set<int> {
    if e.game == k.0 then Places(e.pairs, k.1) else {}
  }

  lemma {:induction false} Tagged(n: int, pairs: seq<string>, pair: string)
    ensures |LastPlaces(n, Places(pairs, pair))| == |Places(pairs, pair)|
  {
    if pairs == [] {
      assert Places(pairs, pair) == {} && LastPlaces(n, {}) == {};
    } else {
      var m := |pairs| - 1;
      Tagged(n, pairs[..m], pair);
      OnePlace(pairs, pair);
      OneTagged(n, Places(pairs[..m], pair), m);
      hide Places, LastPlaces;
    }
  }

  lemma {:induction false} OnePlace(pairs: seq<string>, pair: string)
    requires pairs != []
    ensures var m := |pairs| - 1;
            var so := Places(pairs[..m], pair);
            m !in so && Places(pairs, pair) == if pairs[m] == pair then so + {m} else so
  {
  }

  lemma {:induction false} OneTagged(n: int, js: set<int>, j: int)
    requires j !in js
    ensures LastPlaces(n, js + {j}) == LastPlaces(n, js) + {(n, j)} && (n, j) !in LastPlaces(n, js)
  {
  }

  lemma {:induction false} OnePosition(events: seq<Event>, e: Event, k: Key, p: (int, int))
    ensures IsPosition(events + [e], k, p) <==> IsPosition(events, k, p) || p in LastPlaces(|events|, PlacesIn(e, k))
    ensures IsPosition(events, k, p) ==> (events + [e])[p.0] == events[p.0]
    ensures p in LastPlaces(|events|, PlacesIn(e, k)) ==> p.0 == |events|
  {
    assert p == (p.0, p.1);
  }

  lemma {:induction false} PositionsMore(events: seq<Event>, e: Event, k: Key)
    ensures var last := LastPlaces(|events|, PlacesIn(e, k));
            && Positions(events + [e], k) == Positions(events, k) + last
            && CrashPositions(events + [e], k) == CrashPositions(events, k) + (if e.crash then last else {})
            && Positions(events, k) !! last
  {
    var last, all := LastPlaces(|events|, PlacesIn(e, k)), events + [e];
    PositionsMean(events, k);
    PositionsMean(all, k);
    hide Positions, IsPosition, LastPlaces, PlacesIn;
    forall p
      ensures p in Positions(all, k) <==> p in Positions(events, k) || p in last
      ensures p in CrashPositions(all, k) <==> p in CrashPositions(events, k) || (e.crash && p in last)
      ensures !(p in Positions(events, k) && p in last)
    {
      OnePosition(events, e, k, p);
      InRange(events, k, p);
    }
  }

  lemma {:induction false} InRange(events: seq<Event>, k: Key, p: (int, int))
    ensures IsPosition(events, k, p) ==> 0 <= p.0 < |events|
  {
  }

  lemma {:induction false} LastColumns(e: Event, k: Key, n: int)
    ensures |SightingsIn(e, k)| == |LastPlaces(n, PlacesIn(e, k))|
    ensures Crashes(SightingsIn(e, k)) == if e.crash then |LastPlaces(n, PlacesIn(e, k))| else 0
    ensures forall s :: s in SightingsIn(e, k) ==> s == Seen(e)
  {
    RepeatedCount(e.pairs, k.1, Seen(e));
    Tagged(n, e.pairs, k.1);
    assert LastPlaces(n, {}) == {};
    CrashesOne(Seen(e));
  }

  lemma {:induction false} PairColumns(events: seq<Event>, k: Key)
    ensures |Sightings(events, k)| == |Positions(events, k)|
    ensures Crashes(Sightings(events, k)) == |CrashPositions(events, k)|
  {
    if events == [] {
      NoPositions(k);
    } else {
      var front, e := events[..|events| - 1], events[|events| - 1];
      var last := LastPlaces(|front|, PlacesIn(e, k));
      PairColumns(front, k);
      assert events == front + [e];
      OneEvent(front, e, k);
      PositionsMore(front, e, k);
      LastColumns(e, k, |front|);
      hide Positions, LastPlaces, PlacesIn, Sightings, SightingsIn, Crashes;
      CrashesConcat(Sightings(front, k), SightingsIn(e, k));
      assert CrashPositions(front, k) <= Positions(front, k);
      Disjoint(Positions(front, k), last);
      Disjoint(CrashPositions(front, k), if e.crash then last else {});
    }
  }

  lemma {:induction false} NoPositions(k: Key)
    ensures Positions([], k) == {} && CrashPositions([], k) == {} && Sightings([], k) == []
  {
  }

  lemma {:induction false} Disjoint<T>(a: set<T>, b: set<T>)
    requires a !! b
    ensures |a + b| == |a| + |b|
  {
  }

  lemma {:induction false} GameMore(events: seq<Event>, e: Event, game: string)
    ensures GameEvents(events + [e], game) == if e.game == game then GameEvents(events, game) + {|events|} else GameEvents(events, game)
    ensures GameCrashes(events + [e], game)
         == if e.game == game && e.crash then GameCrashes(events, game) + {|events|} else GameCrashes(events, game)
  {
    assert forall i :: 0 <= i < |events| ==> (events + [e])[i] == events[i];
  }

  lemma {:induction false} GameColumns(events: seq<Event>, game: string)
    ensures |OfGame(events, game)| == |GameEvents(events, game)|
    ensures Crashes(OfGame(events, game)) == |GameCrashes(events, game)|
  {
    if events == [] {
      assert GameEvents(events, game) == {} && GameCrashes(events, game) == {};
    } else {
      var n := |events| - 1;
      var front, e := events[..n], events[n];
      assert events == front + [e];
      GameColumns(front, game);
      OneEvent(front, e, (game, ""));
      GameMore(front, e, game);
      CrashesConcat(OfGame(front, game), SeenIn(e, game));
      CrashesOne(Seen(e));
      assert n !in GameEvents(front, game) && n !in GameCrashes(front, game);
      hide GameEvents, GameCrashes, Crashes, OfGame;
    }
  }

  /** A sighting of the pair at this time. */
  ghost predicate SightedAt(events: seq<Event>, k: Key, at: int) {
    HasTime(Sightings(events, k), at)
  }

  ghost predicate PlacedAt(events: seq<Event>, k: Key, at: int) {
    exists p :: IsPosition(events, k, p) && events[p.0].at == at
  }

  /** The sightings of a pair have the times of its places, and no others. */
  lemma {:induction false} SightingTimes(events: seq<Event>, k: Key, at: int)
    ensures SightedAt(events, k, at) <==> PlacedAt(events, k, at)
  {
    if events != [] {
      var front, e := events[..|events| - 1], events[|events| - 1];
      assert events == front + [e];
      SightingTimes(front, k, at);
      SightedMore(front, e, k, at);
      PlacedMore(front, e, k, at);
    }
  }

  lemma {:induction false} SightedMore(events: seq<Event>, e: Event, k: Key, at: int)
    ensures SightedAt(events + [e], k, at) <==> SightedAt(events, k, at) || (e.at == at && SightingsIn(e, k) != [])
  {
    OneEvent(events, e, k);
    LastColumns(e, k, 0);
    TimesMore(Sightings(events, k), SightingsIn(e, k), Seen(e), at);
  }

  predicate HasTime(s: seq<Sighting>, at: int) {
    exists i :: 0 <= i < |s| && s[i].at == at
  }

  lemma {:induction false} TimesMore(a: seq<Sighting>, b: seq<Sighting>, x: Sighting, at: int)
    requires forall y :: y in b ==> y == x
    ensures HasTime(a + b, at) <==> HasTime(a, at) || (x.at == at && b != [])
  {
    var all := a + b;
    if i :| 0 <= i < |a| && a[i].at == at {
      assert all[i].at == at;
    }
    if b != [] {
      assert b[0] in b && all[|a|] == b[0];
    }
    if i :| 0 <= i < |all| && all[i].at == at {
      if i < |a| {
        assert a[i].at == at;
      } else {
        assert b[i - |a|] in b;
      }
    }
  }

  lemma {:induction false} PlacedMore(events: seq<Event>, e: Event, k: Key, at: int)
    ensures PlacedAt(events + [e], k, at) <==> PlacedAt(events, k, at) || (e.at == at && SightingsIn(e, k) != [])
  {
    var all := events + [e];
    var last := LastPlaces(|events|, PlacesIn(e, k));
    LastColumns(e, k, |events|);
    assert last != {} <==> SightingsIn(e, k) != [];
    if p :| IsPosition(all, k, p) && all[p.0].at == at {
      OnePosition(events, e, k, p);
      if IsPosition(events, k, p) {
        assert PlacedAt(events, k, at);
      }
    }
    if p :| IsPosition(events, k, p) && events[p.0].at == at {
      OnePosition(events, e, k, p);
      assert IsPosition(all, k, p) && all[p.0].at == at;
    }
    if e.at == at && last != {} {
      var p :| p in last;
      OnePosition(events, e, k, p);
      assert IsPosition(all, k, p) && all[p.0].at == at;
    }
  }

  /** Every row tells of the events. */
  lemma {:induction false} RowTells(events: seq<Event>, k: Key)
    requires Sightings(events, k) != []
    ensures Tells(events, k, RowOf(events, k))
  {
    PairColumns(events, k);
    GameColumns(events, k.0);
    PositionsMean(events, k);
    RowWindow(events, k);
  }

  lemma {:induction false} RowWindow(events: seq<Event>, k: Key)
    requires Sightings(events, k) != []
    ensures var row := RowOf(events, k);
            && (forall p :: IsPosition(events, k, p) ==> row.pair.start <= events[p.0].at <= row.pair.end)
            && PlacedAt(events, k, row.pair.start) && PlacedAt(events, k, row.pair.end)
  {
    var s := Sightings(events, k);
    WindowMeans(s);
    var i, j :| 0 <= i < |s| && 0 <= j < |s| && Earliest(s) == s[i].at && Latest(s) == s[j].at;
    hide Sightings, Earliest, Latest;
    assert SightedAt(events, k, s[i].at) && SightedAt(events, k, s[j].at);
    SightingTimes(events, k, s[i].at);
    SightingTimes(events, k, s[j].at);
    forall p | IsPosition(events, k, p) ensures Earliest(s) <= events[p.0].at <= Latest(s) {
      assert PlacedAt(events, k, events[p.0].at);
      SightingTimes(events, k, events[p.0].at);
      var x :| 0 <= x < |s| && s[x].at == events[p.0].at;
    }
  }

  /** The recomputation in terms of the events: a row for each pair that is there
      often enough, and what it tells. */
  lemma {:induction false} AggregatedTells(events: seq<Event>, min: int, k: Key)
    ensures k in Aggregated(events, min) <==> Positions(events, k) != {} && |Positions(events, k)| >= min
    ensures k in Aggregated(events, min) ==> Tells(events, k, Aggregated(events, min)[k])
  {
    SelectedAt(events, min, k);
    PairColumns(events, k);
    if SeenKey(events, k) {
      RowTells(events, k);
    }
  }

  /** The minimum that counts for a pair is that of the last batch that has it. */
  lemma {:induction false} LastMinMeans(history: seq<Batch>, k: Key, i: nat)
    requires i < |history| && Positions(history[i].events, k) != {}
    requires forall j :: i < j < |history| ==> Positions(history[j].events, k) == {}
    ensures LastMin(history, k) == history[i].min
  {
    var n := |history| - 1;
    KeysSeen(history[n].events, k);
    PairColumns(history[n].events, k);
    if i < n {
      assert forall j :: 0 <= j < n ==> history[..n][j] == history[j];
      LastMinMeans(history[..n], k, i);
    }
  }

  /** The table in terms of the events ingested. */
  lemma {:induction false} ShownTells(history: seq<Batch>, k: Key)
    ensures var events := AllEvents(history);
            && (k in Shown(history) <==> Positions(events, k) != {} && |Positions(events, k)| >= LastMin(history, k))
            && (k in Shown(history) ==> Tells(events, k, Shown(history)[k]))
  {
    var events := AllEvents(history);
    ShownAt(history, k);
    PairColumns(events, k);
    if SeenKey(events, k) {
      RowTells(events, k);
    }
  }
}
