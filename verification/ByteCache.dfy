/** The byte cache of extracted archive entries
    (crates/modde-sources/src/cache.rs): a byte budget over a map of bounded
    capacity, both evicting what was used longest ago. The map's own eviction is
    silent, so the bytes it drops stay counted. */
module ByteCache {
  import opened Bytes
  import opened Results

  datatype Key = Key(archive: nat, inner: string)

  datatype Entry = Entry(key: Key, bytes: Text)

  /** The capacity of the map. */
  const CAPACITY: nat := 1024

  /** The entries from the one used longest ago, and the bytes counted. */
  datatype State = State(entries: seq<Entry>, used: int)

  function Held(es: seq<Entry>): nat {
    if es == [] then 0 else |es[0].bytes| + Held(es[1..])
  }

  predicate Has(es: seq<Entry>, k: Key) {
    exists i :: 0 <= i < |es| && es[i].key == k
  }

  function Find(es: seq<Entry>, k: Key): Option<Text> {
    if es == [] then None else if es[0].key == k then Some(es[0].bytes) else Find(es[1..], k)
  }

  /** The entries of other keys, in their order. */
  function Without(es: seq<Entry>, ks: set<Key>): seq<Entry> {
    if es == [] then []
    else
      var rest := Without(es[1..], ks);
      if es[0].key in ks then rest else [es[0]] + rest
  }

  predicate Distinct(es: seq<Entry>) {
    forall i, j :: 0 <= i < j < |es| ==> es[i].key != es[j].key
  }

  lemma {:induction false} FindMeans(es: seq<Entry>, k: Key)
    ensures Find(es, k).Some? <==> Has(es, k)
    ensures Distinct(es) ==> forall i :: 0 <= i < |es| && es[i].key == k ==> Find(es, k) == Some(es[i].bytes)
    decreases |es|
  {
    if es != [] {
      var rest := es[1..];
      FindMeans(rest, k);
      assert forall i :: 1 <= i < |es| ==> es[i] == rest[i - 1];
      if i :| 0 <= i < |rest| && rest[i].key == k {
        assert es[i + 1].key == k;
      }
    }
  }

  lemma {:induction false} HeldConcat(a: seq<Entry>, b: seq<Entry>)
    ensures Held(a + b) == Held(a) + Held(b)
    decreases |a|
  {
    if a == [] {
      assert a + b == b;
    } else {
      HeldConcat(a[1..], b);
      assert (a + b)[1..] == a[1..] + b;
    }
  }

  lemma {:induction false} WithoutMeans(es: seq<Entry>, ks: set<Key>)
    ensures forall k :: Has(Without(es, ks), k) <==> Has(es, k) && k !in ks
    ensures |Without(es, ks)| <= |es|
    decreases |es|
  {
    if es != [] {
      var rest := es[1..];
      var so := Without(rest, ks);
      WithoutMeans(rest, ks);
      forall k ensures Has(es, k) <==> es[0].key == k || Has(rest, k) {
        HasMore(es[0], rest, k);
        assert es == [es[0]] + rest;
      }
      forall k ensures Has([es[0]] + so, k) <==> es[0].key == k || Has(so, k) {
        HasMore(es[0], so, k);
      }
    }
  }

  lemma {:induction false} HasMore(e: Entry, es: seq<Entry>, k: Key)
    ensures Has([e] + es, k) <==> e.key == k || Has(es, k)
    ensures Has(es + [e], k) <==> e.key == k || Has(es, k)
  {
    var a, b := [e] + es, es + [e];
    assert a[0] == e && b[|es|] == e;
    if i :| 0 <= i < |es| && es[i].key == k {
      assert a[i + 1].key == k && b[i].key == k;
    }
    if i :| 0 <= i < |a| && a[i].key == k {
      if i > 0 {
        assert es[i - 1].key == k;
      }
    }
    if i :| 0 <= i < |b| && b[i].key == k {
      if i < |es| {
        assert es[i].key == k;
      }
    }
  }

  lemma {:induction false} DistinctMore(es: seq<Entry>, e: Entry)
    requires Distinct(es) && !Has(es, e.key)
    ensures Distinct(es + [e]) && Distinct([e] + es)
  {
  }

  lemma {:induction false} WithoutDistinct(es: seq<Entry>, ks: set<Key>)
    requires Distinct(es)
    ensures Distinct(Without(es, ks))
    decreases |es|
  {
    if es != [] {
      var rest := es[1..];
      WithoutDistinct(rest, ks);
      WithoutMeans(rest, ks);
      if es[0].key !in ks {
        assert !Has(rest, es[0].key);
        DistinctMore(Without(rest, ks), es[0]);
      }
    }
  }

  lemma {:induction false} WithoutAbsent(es: seq<Entry>, k: Key)
    requires !Has(es, k)
    ensures Without(es, {k}) == es
    decreases |es|
  {
    if es != [] {
      assert es == [es[0]] + es[1..];
      HasMore(es[0], es[1..], k);
      WithoutAbsent(es[1..], k);
    }
  }

  /** Taking one key out takes out its bytes. */
  lemma {:induction false} WithoutHeld(es: seq<Entry>, k: Key)
    requires Distinct(es)
    ensures Held(Without(es, {k})) == Held(es) - Size(Find(es, k))
    ensures |Without(es, {k})| == |es| - if Has(es, k) then 1 else 0
    decreases |es|
  {
    if es != [] {
      var rest := es[1..];
      assert es == [es[0]] + rest;
      HasMore(es[0], rest, k);
      if es[0].key == k {
        assert !Has(rest, k);
        WithoutAbsent(rest, k);
      } else {
        WithoutHeld(rest, k);
      }
    }
  }

  lemma {:induction false} WithoutTwice(es: seq<Entry>, a: set<Key>, b: set<Key>)
    ensures Without(Without(es, a), b) == Without(es, a + b)
    decreases |es|
  {
    if es != [] {
      WithoutTwice(es[1..], a, b);
      var so := Without(es[1..], a);
      assert ([es[0]] + so)[1..] == so;
    }
  }

  function Size(b: Option<Text>): nat {
    if b.Some? then |b.value| else 0
  }

  // ---------- what the operations do ----------

  /** `LruCache::put`: a new key that finds the map full drops the first entry. */
  function Put(es: seq<Entry>, k: Key, b: Text): seq<Entry> {
    (if Has(es, k) then Without(es, {k}) else if |es| >= CAPACITY then es[1..] else es) + [Entry(k, b)]
  }

  /** The bytes that a put drops without a word. */
  function Dropped(es: seq<Entry>, k: Key): nat {
    if !Has(es, k) && |es| >= CAPACITY then |es[0].bytes| else 0
  }

  /** The eviction loop. */
  function Trimmed(s: State, budget: nat): State
    decreases |s.entries|
  {
    if s.used <= budget || s.entries == [] then s
    else Trimmed(State(s.entries[1..], s.used - |s.entries[0].bytes|), budget)
  }

  function Inserted(s: State, k: Key, b: Text, budget: nat): State {
    if |b| > budget then s
    else Trimmed(State(Put(s.entries, k, b), s.used - Size(Find(s.entries, k)) + |b|), budget)
  }

  function Used(es: seq<Entry>, k: Key): seq<Entry> {
    var found := Find(es, k);
    if found.None? then es else Without(es, {k}) + [Entry(k, found.value)]
  }

  /** A read takes the entry from its place and puts it last; a put leaves the
      entry of the key last, and the others as they were but for the first one
      when the key is new and 1024 are there. */
  lemma {:induction false} UsedMoves(es: seq<Entry>, i: nat, k: Key, b: Text)
    requires Distinct(es) && i <= |es|
    ensures i < |es| && es[i].key == k ==> Used(es, k) == es[..i] + es[i + 1..] + [es[i]]
    ensures i < |es| && es[i].key == k ==> Put(es, k, b) == es[..i] + es[i + 1..] + [Entry(k, b)]
    ensures (forall j :: 0 <= j < |es| ==> es[j].key != k) ==> Used(es, k) == es
    ensures (forall j :: 0 <= j < |es| ==> es[j].key != k)
        ==> Put(es, k, b) == (if |es| < 1024 then es else es[1..]) + [Entry(k, b)]
  {
    FindMeans(es, k);
    if i < |es| && es[i].key == k {
      WithoutAt(es, i);
    }
  }

  lemma {:induction false} WithoutAt(es: seq<Entry>, i: nat)
    requires Distinct(es) && i < |es|
    ensures Without(es, {es[i].key}) == es[..i] + es[i + 1..]
    decreases |es|
  {
    var rest, k := es[1..], es[i].key;
    assert es == [es[0]] + rest;
    if i == 0 {
      WithoutAbsent(rest, k);
    } else {
      assert rest[i - 1] == es[i];
      WithoutAt(rest, i - 1);
      assert es[..i] == [es[0]] + rest[..i - 1] && es[i + 1..] == rest[i..];
    }
  }

  function OfArchive(es: seq<Entry>, archive: nat): set<Key> {
    set e | e in es && e.key.archive == archive :: e.key
  }

  function Invalidated(s: State, archive: nat): State {
    var kept := Without(s.entries, OfArchive(s.entries, archive));
    State(kept, s.used - Held(s.entries) + Held(kept))
  }

  class ByteLruCache {
    const budget: nat
    var entries: seq<Entry>
    var used: int

    function Now(): State
      reads this
    {
      State(entries, used)
    }

    ghost predicate Valid()
      reads this
    {
      Sound(Now(), budget)
    }

    constructor (budget: nat)
      ensures Valid() && Now() == State([], 0) && this.budget == budget
    {
      this.budget := budget;
      entries, used := [], 0;
    }

    method PutEntry(k: Key, b: Text) returns (replaced: Option<Text>)
      modifies this`entries
      ensures entries == Put(old(entries), k, b) && replaced == Find(old(entries), k)
    {
      replaced := Find(entries, k);
      FindMeans(entries, k);
      if replaced.Some? {
        entries := Without(entries, {k});
      } else if |entries| >= CAPACITY {
        entries := entries[1..];
      }
      entries := entries + [Entry(k, b)];
    }

    method PopLru() returns (e: Option<Entry>)
      modifies this`entries
      ensures e == if old(entries) == [] then None else Some(old(entries)[0])
      ensures entries == if old(entries) == [] then [] else old(entries)[1..]
    {
      if entries == [] {
        return None;
      }
      e := Some(entries[0]);
      entries := entries[1..];
    }

    method Pop(k: Key) returns (b: Option<Text>)
      modifies this`entries
      ensures b == Find(old(entries), k) && entries == Without(old(entries), {k})
    {
      b := Find(entries, k);
      entries := Without(entries, {k});
    }

    method Get(k: Key) returns (b: Option<Text>)
      requires Valid()
      modifies this`entries
      ensures Valid() && b == Find(old(entries), k)
      ensures entries == Used(old(entries), k)
    {
      UsedKeeps(entries, k);
      b := Find(entries, k);
      if b.Some? {
        entries := Without(entries, {k}) + [Entry(k, b.value)];
      }
    }

    method Insert(k: Key, b: Text) returns (same: Text)
      requires Valid()
      modifies this
      ensures Valid() && Now() == Inserted(old(Now()), k, b, budget)
      ensures same == b
    {
      same := b;
      InsertedKeeps(Now(), k, b, budget);
      if |b| > budget {
        return;
      }
      var was := PutEntry(k, b);
      if was.Some? {
        used := used - |was.value|;
      }
      used := used + |b|;
      ghost var put := Now();
      while used > budget
        invariant Trimmed(Now(), budget) == Trimmed(put, budget)
        decreases |entries|
      {
        var evicted := PopLru();
        if evicted.None? {
          break;
        }
        used := used - |evicted.value.bytes|;
      }
    }

    method InvalidateArchive(archive: nat)
      requires Valid()
      modifies this
      ensures Valid() && Now() == Invalidated(old(Now()), archive)
    {
      var keys := KeysOf(entries, archive);
      ghost var start := Now();
      ghost var gone: set<Key> := {};
      var i := 0;
      InvalidatedKeeps(start, archive, budget);
      WithoutNone(entries);
      while i < |keys|
        invariant 0 <= i <= |keys|
        invariant forall k :: k in gone <==> k in keys[..i]
        invariant entries == Without(start.entries, gone)
        invariant used - Held(entries) == start.used - Held(start.entries)
      {
        WithoutDistinct(start.entries, gone);
        WithoutHeld(entries, keys[i]);
        WithoutTwice(start.entries, gone, {keys[i]});
        gone := gone + {keys[i]};
        var value := Pop(keys[i]);
        if value.Some? {
          used := used - |value.value|;
        }
        i := i + 1;
      }
      assert keys[..i] == keys;
      assert gone == OfArchive(start.entries, archive);
    }
  }

  /** From the one used last. */
  method KeysOf(es: seq<Entry>, archive: nat) returns (keys: seq<Key>)
    ensures forall k :: k in keys <==> k in OfArchive(es, archive)
  {
    keys := [];
    var i := |es|;
    while i > 0
      invariant 0 <= i <= |es|
      invariant forall k :: k in keys <==> k in OfArchive(es[i..], archive)
    {
      i := i - 1;
      assert es[i..] == [es[i]] + es[i + 1..];
      if es[i].key.archive == archive {
        keys := keys + [es[i].key];
      }
    }
  }

  lemma {:induction false} WithoutNone(es: seq<Entry>)
    ensures Without(es, {}) == es
    decreases |es|
  {
    if es != [] {
      WithoutNone(es[1..]);
    }
  }

  // ---------- accounting ----------

  /** Bytes counted that are not held. */
  function Leak(s: State): int {
    s.used - Held(s.entries)
  }

  /** The bytes held never exceed those counted, nor those the budget. */
  ghost predicate Sound(s: State, budget: nat) {
    && Distinct(s.entries) && |s.entries| <= CAPACITY
    && 0 <= Leak(s) && s.used <= budget
  }

  lemma {:induction false} UsedKeeps(es: seq<Entry>, k: Key)
    requires Distinct(es)
    ensures Distinct(Used(es, k)) && |Used(es, k)| == |es| && Held(Used(es, k)) == Held(es)
    ensures Find(Used(es, k), k) == Find(es, k)
    ensures forall x :: Has(Used(es, k), x) <==> Has(es, x)
  {
    FindMeans(es, k);
    var found, rest := Find(es, k), Without(es, {k});
    if found.Some? {
      var e := Entry(k, found.value);
      WithoutMeans(es, {k});
      WithoutDistinct(es, {k});
      WithoutHeld(es, k);
      HeldConcat(rest, [e]);
      DistinctMore(rest, e);
      FindMeans(rest + [e], k);
      assert (rest + [e])[|rest|] == e;
      forall x ensures Has(rest + [e], x) <==> x == k || Has(rest, x) {
        HasMore(e, rest, x);
      }
    }
  }

  /** What a put does to the bytes held. */
  lemma {:induction false} PutKeeps(es: seq<Entry>, k: Key, b: Text)
    requires Distinct(es) && |es| <= CAPACITY
    ensures var put := Put(es, k, b);
            && Distinct(put) && |put| <= CAPACITY
            && Held(put) == Held(es) - Size(Find(es, k)) + |b| - Dropped(es, k)
  {
    FindMeans(es, k);
    var e := Entry(k, b);
    if Has(es, k) {
      WithoutMeans(es, {k});
      WithoutDistinct(es, {k});
      WithoutHeld(es, k);
      HeldConcat(Without(es, {k}), [e]);
      DistinctMore(Without(es, {k}), e);
    } else if |es| >= CAPACITY {
      HeldConcat(es[1..], [e]);
      DistinctMore(es[1..], e);
    } else {
      HeldConcat(es, [e]);
      DistinctMore(es, e);
    }
  }

  /** The loop takes entries off the front, no more than it has to, and the
      leak stays what it is. */
  lemma {:induction false} TrimmedMeans(s: State, budget: nat) returns (n: nat)
    ensures n <= |s.entries| && Trimmed(s, budget) == State(s.entries[n..], s.used - Held(s.entries[..n]))
    ensures Leak(Trimmed(s, budget)) == Leak(s)
    ensures Trimmed(s, budget).used <= budget || n == |s.entries|
    ensures n > 0 ==> s.used - Held(s.entries[..n - 1]) > budget
    decreases |s.entries|
  {
    if s.used <= budget || s.entries == [] {
      n := 0;
    } else {
      var e, rest := s.entries[0], s.entries[1..];
      var m := TrimmedMeans(State(rest, s.used - |e.bytes|), budget);
      n := m + 1;
      assert s.entries[..n][1..] == rest[..m];
      if m > 0 {
        assert s.entries[..m][1..] == rest[..m - 1];
      }
    }
  }

  /** An insertion keeps the accounts. It leaks exactly what the map drops. */
  lemma {:induction false} InsertedKeeps(s: State, k: Key, b: Text, budget: nat)
    requires Sound(s, budget)
    ensures Sound(Inserted(s, k, b, budget), budget)
    ensures Leak(Inserted(s, k, b, budget)) == Leak(s) + if |b| <= budget then Dropped(s.entries, k) else 0
  {
    if |b| <= budget {
      var put := State(Put(s.entries, k, b), s.used - Size(Find(s.entries, k)) + |b|);
      PutKeeps(s.entries, k, b);
      var n := TrimmedMeans(put, budget);
      DroppedFits(s, k);
    }
  }

  lemma {:induction false} DroppedFits(s: State, k: Key)
    requires |s.entries| <= CAPACITY
    ensures Dropped(s.entries, k) <= Held(s.entries)
  {
  }

  lemma {:induction false} HasLast(es: seq<Entry>, e: Entry, n: nat)
    requires Distinct(es) && es != [] && es[|es| - 1] == e && n <= |es|
    ensures Has(es[n..], e.key) <==> n < |es|
    ensures n < |es| ==> Find(es[n..], e.key) == Some(e.bytes)
  {
    if n < |es| {
      var rest := es[n..];
      assert rest[|rest| - 1] == e;
      FindMeans(rest, e.key);
    }
  }

  /** What was just inserted is there, with its bytes, exactly when it fits the
      budget beside what has leaked by then: before the call, and by the entry
      that a full map drops for it. */
  lemma {:induction false} InsertedPresent(s: State, k: Key, b: Text, budget: nat)
    requires Sound(s, budget) && |b| <= budget
    ensures var so := Inserted(s, k, b, budget);
            && (Has(so.entries, k) <==> |b| + Leak(s) + Dropped(s.entries, k) <= budget)
            && (Has(so.entries, k) ==> Find(so.entries, k) == Some(b))
  {
    var es := Put(s.entries, k, b);
    var put := State(es, s.used - Size(Find(s.entries, k)) + |b|);
    PutKeeps(s.entries, k, b);
    InsertedKeeps(s, k, b, budget);
    var n := TrimmedMeans(put, budget);
    HasLast(es, Entry(k, b), n);
    LastHeld(es, n);
  }

  lemma {:induction false} LastHeld(es: seq<Entry>, n: nat)
    requires es != [] && n <= |es|
    ensures Held(es) == Held(es[..|es| - 1]) + |es[|es| - 1].bytes|
    ensures Held(es) == Held(es[..n]) + Held(es[n..])
    ensures n < |es| ==> Held(es[n..]) >= |es[|es| - 1].bytes|
  {
    var last := |es| - 1;
    assert es == es[..n] + es[n..] && es == es[..last] + [es[last]];
    HeldConcat(es[..n], es[n..]);
    HeldConcat(es[..last], [es[last]]);
    if n < |es| {
      assert es[n..] == es[n..last] + [es[last]];
      HeldConcat(es[n..last], [es[last]]);
    }
  }

  lemma {:induction false} WithoutLess(es: seq<Entry>, ks: set<Key>)
    ensures Held(Without(es, ks)) <= Held(es)
    decreases |es|
  {
    if es != [] {
      WithoutLess(es[1..], ks);
    }
  }

  lemma {:induction false} InvalidatedKeeps(s: State, archive: nat, budget: nat)
    requires Sound(s, budget)
    ensures Sound(Invalidated(s, archive), budget) && Leak(Invalidated(s, archive)) == Leak(s)
    ensures forall k :: Has(Invalidated(s, archive).entries, k) <==> Has(s.entries, k) && k.archive != archive
  {
    var ks := OfArchive(s.entries, archive);
    WithoutMeans(s.entries, ks);
    WithoutDistinct(s.entries, ks);
    WithoutLess(s.entries, ks);
    forall k | Has(s.entries, k) ensures k in ks <==> k.archive == archive {
      var i :| 0 <= i < |s.entries| && s.entries[i].key == k;
      assert s.entries[i] in s.entries;
    }
  }

  // ---------- runs ----------

  datatype Op = Get(key: Key) | Insert(key: Key, bytes: Text) | Invalidate(archive: nat)

  function Next(s: State, op: Op, budget: nat): State {
    match op
    case Get(k) => State(Used(s.entries, k), s.used)
    case Insert(k, b) => Inserted(s, k, b, budget)
    case Invalidate(a) => Invalidated(s, a)
  }

  function After(ops: seq<Op>, budget: nat): State {
    if ops == [] then State([], 0) else Next(After(ops[..|ops| - 1], budget), ops[|ops| - 1], budget)
  }

  lemma {:induction false} OneOp(ops: seq<Op>, op: Op, budget: nat)
    ensures After(ops + [op], budget) == Next(After(ops, budget), op, budget)
  {
    assert (ops + [op])[..|ops|] == ops;
  }

  /** The bytes an operation drops from the map but not from the count: those of
      the first entry, when a fresh key that fits the budget finds the map full. */
  function Silent(s: State, op: Op, budget: nat): nat {
    if op.Insert? && |op.bytes| <= budget then Dropped(s.entries, op.key) else 0
  }

  lemma {:induction false} NextKeeps(s: State, op: Op, budget: nat)
    requires Sound(s, budget)
    ensures Sound(Next(s, op, budget), budget)
    ensures Leak(Next(s, op, budget))
         == Leak(s) + Silent(s, op, budget)
  {
    match op
    case Get(k) => UsedKeeps(s.entries, k);
    case Insert(k, b) => InsertedKeeps(s, k, b, budget);
    case Invalidate(a) => InvalidatedKeeps(s, a, budget);
  }

  /** In every state that can be reached the accounts are sound. */
  lemma {:induction false} AlwaysSound(ops: seq<Op>, budget: nat)
    ensures Sound(After(ops, budget), budget)
  {
    if ops != [] {
      AlwaysSound(ops[..|ops| - 1], budget);
      NextKeeps(After(ops[..|ops| - 1], budget), ops[|ops| - 1], budget);
    }
  }

  /** The operation `i` of a run drops nothing silently. */
  predicate Counted(ops: seq<Op>, budget: nat, i: nat)
    requires i < |ops|
  {
    Silent(After(ops[..i], budget), ops[i], budget) == 0
  }

  /** The bytes counted are the bytes held exactly when no operation so far has
      dropped any silently. */
  lemma {:induction false} NoLeakExactly(ops: seq<Op>, budget: nat)
    ensures Leak(After(ops, budget)) == 0 <==> forall i :: 0 <= i < |ops| ==> Counted(ops, budget, i)
  {
    if ops != [] {
      var n := |ops| - 1;
      var front, op := ops[..n], ops[n];
      NoLeakExactly(front, budget);
      AlwaysSound(front, budget);
      NextKeeps(After(front, budget), op, budget);
      forall i | 0 <= i < n ensures Counted(front, budget, i) == Counted(ops, budget, i) {
        assert front[..i] == ops[..i];
      }
      assert Counted(ops, budget, n) <==> Silent(After(front, budget), op, budget) == 0;
    }
  }

  /** A fresh key that fits the budget finds room in the map. */
  predicate FindsRoom(ops: seq<Op>, budget: nat, i: nat)
    requires i < |ops|
  {
    var es := After(ops[..i], budget).entries;
    ops[i].Insert? && |ops[i].bytes| <= budget && !Has(es, ops[i].key) ==> |es| < CAPACITY
  }

  /** So nothing leaks while the map is never full when a fresh key comes,
      however many keys come and go. */
  lemma {:induction false} RoomyNoLeak(ops: seq<Op>, budget: nat)
    requires forall i :: 0 <= i < |ops| ==> FindsRoom(ops, budget, i)
    ensures Leak(After(ops, budget)) == 0
  {
    forall i | 0 <= i < |ops| ensures Counted(ops, budget, i) {
      assert FindsRoom(ops, budget, i);
    }
    NoLeakExactly(ops, budget);
  }

  /** After any run: what is inserted and fits the budget is there, with its
      bytes, if neither this nor any earlier operation dropped bytes silently. */
  lemma {:induction false} InsertedIsThere(ops: seq<Op>, k: Key, b: Text, budget: nat)
    requires |b| <= budget
    requires var all := ops + [Insert(k, b)]; forall i :: 0 <= i < |all| ==> Counted(all, budget, i)
    ensures Find(After(ops + [Insert(k, b)], budget).entries, k) == Some(b)
  {
    hide Counted;
    OneOp(ops, Insert(k, b), budget);
    AlwaysSound(ops, budget);
    NextKeeps(After(ops, budget), Insert(k, b), budget);
    NoLeakExactly(ops + [Insert(k, b)], budget);
    InsertedPresent(After(ops, budget), k, b, budget);
  }

  lemma {:induction false} PutOnly(es: seq<Entry>, k: Key, b: Text, x: Key)
    requires Has(Put(es, k, b), x)
    ensures x == k || Has(es, x)
  {
    WithoutMeans(es, {k});
    var front := if Has(es, k) then Without(es, {k}) else if |es| >= CAPACITY then es[1..] else es;
    HasMore(Entry(k, b), front, x);
    if x != k && front == es[1..] {
      var i :| 0 <= i < |front| && front[i].key == x;
      assert es[i + 1].key == x;
    }
  }

  lemma {:induction false} NextOnly(s: State, op: Op, budget: nat, x: Key)
    requires Sound(s, budget) && Has(Next(s, op, budget).entries, x)
    ensures Has(s.entries, x) || (op.Insert? && |op.bytes| <= budget && op.key == x)
  {
    match op
    case Get(k) => UsedKeeps(s.entries, k);
    case Insert(k, b) =>
      if |b| <= budget {
        var put := State(Put(s.entries, k, b), s.used - Size(Find(s.entries, k)) + |b|);
        var n := TrimmedMeans(put, budget);
        var i :| 0 <= i < |put.entries[n..]| && put.entries[n..][i].key == x;
        assert put.entries[n + i].key == x;
        PutOnly(s.entries, k, b, x);
      }
    case Invalidate(a) => InvalidatedKeeps(s, a, budget);
  }

  /** Only keys that were inserted are held. */
  lemma {:induction false} HeldKeys(ops: seq<Op>, budget: nat, x: Key)
    requires Has(After(ops, budget).entries, x)
    ensures x in InsertedKeys(ops, budget)
  {
    if ops != [] {
      var front, op := ops[..|ops| - 1], ops[|ops| - 1];
      AlwaysSound(front, budget);
      NextOnly(After(front, budget), op, budget, x);
      assert op in ops && forall o :: o in front ==> o in ops;
      if Has(After(front, budget).entries, x) {
        HeldKeys(front, budget, x);
      }
    }
  }

  /** As many keys as entries. */
  function KeySet(es: seq<Entry>): set<Key> {
    if es == [] then {} else {es[0].key} + KeySet(es[1..])
  }

  lemma {:induction false} KeySetMeans(es: seq<Entry>)
    requires Distinct(es)
    ensures |KeySet(es)| == |es| && forall k :: k in KeySet(es) <==> Has(es, k)
    decreases |es|
  {
    if es != [] {
      var rest := es[1..];
      KeySetMeans(rest);
      assert es == [es[0]] + rest;
      forall k ensures Has(es, k) <==> k == es[0].key || Has(rest, k) {
        HasMore(es[0], rest, k);
      }
      assert !Has(rest, es[0].key);
    }
  }

  /** A full map and one more key are more keys than the capacity. */
  lemma {:induction false} FullMap(es: seq<Entry>, k: Key, keys: set<Key>)
    requires Distinct(es) && !Has(es, k) && |es| >= CAPACITY
    requires k in keys && forall x :: Has(es, x) ==> x in keys
    ensures |keys| > CAPACITY
  {
    KeySetMeans(es);
    Subset(KeySet(es) + {k}, keys);
  }

  lemma {:induction false} Subset<T>(a: set<T>, b: set<T>)
    requires a <= b
    ensures |a| <= |b|
  {
    if a != {} {
      var x :| x in a;
      Subset(a - {x}, b - {x});
    }
  }

  /** The keys inserted with bytes that fit the budget. */
  function InsertedKeys(ops: seq<Op>, budget: nat): set<Key> {
    set op | op in ops && op.Insert? && |op.bytes| <= budget :: op.key
  }

  /** In particular nothing leaks while no more keys than the capacity were ever
      inserted. */
  lemma {:induction false} FewKeysNoLeak(ops: seq<Op>, budget: nat)
    requires |InsertedKeys(ops, budget)| <= CAPACITY
    ensures Leak(After(ops, budget)) == 0
  {
    if ops != [] {
      var front, op := ops[..|ops| - 1], ops[|ops| - 1];
      var s, keys := After(front, budget), InsertedKeys(ops, budget);
      assert op in ops && forall o :: o in front ==> o in ops;
      Subset(InsertedKeys(front, budget), keys);
      FewKeysNoLeak(front, budget);
      AlwaysSound(front, budget);
      NextKeeps(s, op, budget);
      if op.Insert? && |op.bytes| <= budget && !Has(s.entries, op.key) && |s.entries| >= CAPACITY {
        forall x | Has(s.entries, x) ensures x in keys {
          HeldKeys(front, budget, x);
        }
        FullMap(s.entries, op.key, keys);
        assert false;
      }
    }
  }

  // ---------- the leak ----------

  /** What has leaked never comes back. */
  lemma {:induction false} LeakStays(ops: seq<Op>, more: seq<Op>, budget: nat)
    ensures Leak(After(ops, budget)) <= Leak(After(ops + more, budget))
    decreases |more|
  {
    hide After, Next, Sound;
    if more == [] {
      assert ops + more == ops;
    } else {
      var front, op := more[..|more| - 1], more[|more| - 1];
      LeakStays(ops, front, budget);
      assert ops + more == ops + front + [op];
      OneOp(ops + front, op, budget);
      AlwaysSound(ops + front, budget);
      NextKeeps(After(ops + front, budget), op, budget);
    }
  }

  /** One full-size entry, then empty ones under new keys. */
  function Crowd(big: Text, n: nat): seq<Op> {
    if n == 0 then [Insert(Key(0, ""), big)] else Crowd(big, n - 1) + [Insert(Key(n, ""), [])]
  }

  function Empties(n: nat): seq<Entry> {
    if n == 0 then [] else Empties(n - 1) + [Entry(Key(n, ""), [])]
  }

  lemma {:induction false} EmptiesMean(n: nat)
    ensures |Empties(n)| == n && Held(Empties(n)) == 0
    ensures forall i :: 0 <= i < n ==> Empties(n)[i].key == Key(i + 1, "")
  {
    if n > 0 {
      EmptiesMean(n - 1);
      HeldConcat(Empties(n - 1), [Entry(Key(n, ""), [])]);
    }
  }

  lemma {:induction false} Crowded(big: Text, n: nat)
    requires n < CAPACITY
    ensures After(Crowd(big, n), |big|) == State([Entry(Key(0, ""), big)] + Empties(n), |big|)
  {
    hide After, Empties, Crowd;
    if n == 0 {
      OneBig(big);
    } else {
      Crowded(big, n - 1);
      CrowdedMore(big, n);
    }
  }

  lemma {:induction false} CrowdedMore(big: Text, n: nat)
    requires 0 < n < CAPACITY
    requires After(Crowd(big, n - 1), |big|) == State([Entry(Key(0, ""), big)] + Empties(n - 1), |big|)
    ensures After(Crowd(big, n), |big|) == State([Entry(Key(0, ""), big)] + Empties(n), |big|)
  {
    hide After, Put, Inserted, Empties, Held, Has, Used, Invalidated;
    OneOp(Crowd(big, n - 1), Insert(Key(n, ""), []), |big|);
    OneMoreEmpty(big, n);
  }

  lemma {:induction false} OneBig(big: Text)
    ensures After(Crowd(big, 0), |big|) == State([Entry(Key(0, ""), big)] + Empties(0), |big|)
  {
    var first := Entry(Key(0, ""), big);
    var ops := Crowd(big, 0);
    assert ops[..0] == [];
    assert Put([], first.key, big) == [first];
    assert [first] + Empties(0) == [first];
  }

  lemma {:induction false} OneMoreEmpty(big: Text, n: nat)
    requires 0 < n <= CAPACITY
    ensures var first, k := Entry(Key(0, ""), big), Key(n, "");
            var before := [first] + Empties(n - 1);
            && Inserted(State(before, |big|), k, [], |big|) == State(Put(before, k, []), |big|)
            && Put(before, k, []) == if n < CAPACITY then [first] + Empties(n) else Empties(n)
  {
    var before, k := [Entry(Key(0, ""), big)] + Empties(n - 1), Key(n, "");
    EmptiesMean(n - 1);
    FindMeans(before, k);
    assert !Has(before, k);
    assert before[1..] == Empties(n - 1);
  }

  /** Entries without bytes can push out one that fills the budget: then all of
      the budget has leaked, though nothing is held. */
  lemma {:induction false} AllLeaked(big: Text)
    ensures After(Crowd(big, CAPACITY), |big|) == State(Empties(CAPACITY), |big|)
    ensures Leak(After(Crowd(big, CAPACITY), |big|)) == |big|
  {
    var n := CAPACITY - 1;
    Crowded(big, n);
    EmptiesMean(CAPACITY);
    OneOp(Crowd(big, n), Insert(Key(CAPACITY, ""), []), |big|);
    OneMoreEmpty(big, CAPACITY);
  }

  /** From then on no entry that has bytes is ever kept. */
  lemma {:induction false} DeadForGood(big: Text, more: seq<Op>, k: Key, b: Text)
    requires 0 < |b| <= |big|
    ensures !Has(After(Crowd(big, CAPACITY) + more + [Insert(k, b)], |big|).entries, k)
  {
    var ops := Crowd(big, CAPACITY) + more;
    OneOp(ops, Insert(k, b), |big|);
    AllLeaked(big);
    LeakStays(Crowd(big, CAPACITY), more, |big|);
    LeakStays(ops, [Insert(k, b)], |big|);
    AlwaysSound(ops, |big|);
    InsertedPresent(After(ops, |big|), k, b, |big|);
  }
}
