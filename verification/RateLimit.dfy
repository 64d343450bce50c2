/** The oracle's rate limiter: a fixed window for each key
    (crates/modde-oracle/src/rate_limit.rs). Times are instants of one monotonic
    clock, which is read once for each call. */
module RateLimit {
  import opened Results

  datatype Entry = Entry(start: int, count: nat)

  type Entries = map<string, Entry>

  datatype Limits = Limits(burst: nat, window: nat)

  /** At least one call goes through. */
  function NewLimits(burst: nat, window: nat): (l: Limits)
    ensures l.burst >= 1 && (burst > 0 ==> l.burst == burst) && (burst == 0 ==> l.burst == 1)
    ensures l.window == window
  {
    Limits(if burst < 1 then 1 else burst, window)
  }

  /** `duration_since` is zero for a later instant. */
  function Since(now: int, start: int): nat {
    if now < start then 0 else now - start
  }

  /** The entry a call finds: its own, made or reset. */
  function Current(l: Limits, found: Option<Entry>, now: int): Entry {
    if found.None? || Since(now, found.value.start) >= l.window then Entry(now, 0) else found.value
  }

  function Checked(l: Limits, found: Option<Entry>, now: int): (Entry, bool) {
    var e := Current(l, found, now);
    if e.count >= l.burst then (e, false) else (e.(count := e.count + 1), true)
  }

  /** A call read before the window began, and made after, counts in the window
      without moving it. */
  lemma {:induction false} LateCall(l: Limits, e: Entry, now: int)
    requires now < e.start && l.window > 0
    ensures Checked(l, Some(e), now) == if e.count < l.burst then (Entry(e.start, e.count + 1), true) else (e, false)
  {
  }

  // ---------- traces ----------

  datatype Call = Call(key: string, now: int)

  function After(l: Limits, trace: seq<Call>): Entries {
    if trace == [] then map[]
    else
      var c, so := trace[|trace| - 1], After(l, trace[..|trace| - 1]);
      so[c.key := Checked(l, Get(so, c.key), c.now).0]
  }

  predicate Accepts(l: Limits, trace: seq<Call>, i: nat)
    requires i < |trace|
  {
    Checked(l, Get(After(l, trace[..i]), trace[i].key), trace[i].now).1
  }

  lemma {:induction false} OneCall(l: Limits, trace: seq<Call>, c: Call)
    ensures var so := After(l, trace);
            After(l, trace + [c]) == so[c.key := Checked(l, Get(so, c.key), c.now).0]
    ensures Accepts(l, trace + [c], |trace|) == Checked(l, Get(After(l, trace), c.key), c.now).1
  {
    assert (trace + [c])[..|trace|] == trace;
  }

  class RateLimiter {
    const limits: Limits
    var entries: Entries
    ghost var trace: seq<Call>

    ghost predicate Valid()
      reads this
    {
      entries == After(limits, trace)
    }

    constructor (burst: nat, window: nat)
      ensures Valid() && trace == [] && limits == NewLimits(burst, window)
    {
      limits := NewLimits(burst, window);
      entries, trace := map[], [];
    }

    method Check(key: string, now: int) returns (ok: bool)
      requires Valid()
      modifies this
      ensures Valid() && trace == old(trace) + [Call(key, now)]
      ensures ok == Accepts(limits, trace, |old(trace)|)
    {
      var entry := if key in entries then entries[key] else Entry(now, 0);
      if Since(now, entry.start) >= limits.window {
        entry := Entry(now, 0);
      }
      ok := entry.count < limits.burst;
      if ok {
        entry := entry.(count := entry.count + 1);
      }
      entries := entries[key := entry];
      OneCall(limits, trace, Call(key, now));
      trace := trace + [Call(key, now)];
    }
  }

  // ---------- keys are independent ----------

  function Of(trace: seq<Call>, key: string): seq<Call> {
    if trace == [] then []
    else
      var so, c := Of(trace[..|trace| - 1], key), trace[|trace| - 1];
      if c.key == key then so + [c] else so
  }

  /** What a key has come to depends on its own calls alone. */
  lemma {:induction false} OwnCallsOnly(l: Limits, trace: seq<Call>, key: string)
    ensures Get(After(l, trace), key) == Get(After(l, Of(trace, key)), key)
  {
    if trace != [] {
      var front, c := trace[..|trace| - 1], trace[|trace| - 1];
      OwnCallsOnly(l, front, key);
      var own := Of(front, key);
      assert (own + [c])[..|own|] == own;
    }
  }

  /** So does each answer. */
  lemma {:induction false} OwnAnswersOnly(l: Limits, trace: seq<Call>, c: Call)
    ensures Accepts(l, trace + [c], |trace|) == Accepts(l, Of(trace, c.key) + [c], |Of(trace, c.key)|)
  {
    OwnCallsOnly(l, trace, c.key);
    assert (trace + [c])[..|trace|] == trace;
    assert (Of(trace, c.key) + [c])[..|Of(trace, c.key)|] == Of(trace, c.key);
  }

  // ---------- how much goes through ----------

  predicate Ordered(trace: seq<Call>) {
    forall i, j :: 0 <= i < j < |trace| ==> trace[i].now <= trace[j].now
  }

  /** How many calls of a key went through at times from `low` to `high`. */
  function Accepted(l: Limits, trace: seq<Call>, key: string, low: int, high: int): nat {
    if trace == [] then 0
    else
      var n := |trace| - 1;
      var c := trace[n];
      Accepted(l, trace[..n], key, low, high)
        + if c.key == key && low <= c.now <= high && Checked(l, Get(After(l, trace[..n]), key), c.now).1 then 1 else 0
  }

  /** The count of an accepted call is that of the calls that were accepted. */
  lemma {:induction false} AcceptedMeans(l: Limits, trace: seq<Call>, key: string, low: int, high: int)
    ensures Accepted(l, trace, key, low, high) == |AcceptedCalls(l, trace, key, low, high)|
  {
    var all := AcceptedCalls(l, trace, key, low, high);
    if trace == [] {
      assert all == {};
    } else {
      var n := |trace| - 1;
      var front := trace[..n];
      AcceptedMeans(l, front, key, low, high);
      assert front + [trace[n]] == trace;
      OneMore(l, front, trace[n], key, low, high);
      FrontCalls(l, front, trace[n], key, low, high);
    }
  }

  lemma {:induction false} FrontCalls(l: Limits, front: seq<Call>, c: Call, key: string, low: int, high: int)
    ensures |AcceptedCalls(l, front + [c], key, low, high)|
         == |AcceptedCalls(l, front, key, low, high)| + if IsAccepted(l, front + [c], key, low, high, |front|) then 1 else 0
  {
    var trace := front + [c];
    hide IsAccepted;
    forall i | 0 <= i < |front| ensures IsAccepted(l, front, key, low, high, i) == IsAccepted(l, trace, key, low, high, i) {
      SameCall(l, front, c, key, low, high, i);
    }
    var before := AcceptedCalls(l, front, key, low, high);
    assert AcceptedCalls(l, trace, key, low, high)
        == if IsAccepted(l, trace, key, low, high, |front|) then before + {|front|} else before;
  }

  lemma {:induction false} SameCall(l: Limits, front: seq<Call>, c: Call, key: string, low: int, high: int, i: nat)
    requires i < |front|
    ensures IsAccepted(l, front, key, low, high, i) == IsAccepted(l, front + [c], key, low, high, i)
  {
    assert front[..i] == (front + [c])[..i];
  }

  function AcceptedCalls(l: Limits, trace: seq<Call>, key: string, low: int, high: int): set<int> {
    set i | 0 <= i < |trace| && IsAccepted(l, trace, key, low, high, i)
  }

  predicate IsAccepted(l: Limits, trace: seq<Call>, key: string, low: int, high: int, i: int)
    requires 0 <= i < |trace|
  {
    trace[i].key == key && low <= trace[i].now <= high && Accepts(l, trace, i)
  }

  lemma {:induction false} OneMore(l: Limits, trace: seq<Call>, c: Call, key: string, low: int, high: int)
    ensures Accepted(l, trace + [c], key, low, high)
         == Accepted(l, trace, key, low, high) + if IsAccepted(l, trace + [c], key, low, high, |trace|) then 1 else 0
  {
    OneCall(l, trace, c);
    assert (trace + [c])[..|trace|] == trace;
  }

  /** What holds of a key at any time, with respect to one interval no longer
      than the window. */
  ghost predicate Within(l: Limits, trace: seq<Call>, key: string, low: int, high: int) {
    var c, e := Accepted(l, trace, key, low, high), Get(After(l, trace), key);
    if e.None? then c == 0
    else
      && e.value.count <= l.burst
      && (c > 0 ==> low < e.value.start + l.window)
      && c <= (if e.value.start <= low then e.value.count
               else if e.value.start <= high then l.burst + e.value.count
               else 2 * l.burst)
  }

  /** The last call is not before the start of any window. */
  lemma {:induction false} StartsPast(l: Limits, trace: seq<Call>, key: string, now: int)
    requires forall i :: 0 <= i < |trace| ==> trace[i].now <= now
    ensures Get(After(l, trace), key).Some? ==> Get(After(l, trace), key).value.start <= now
  {
    if trace != [] {
      var n := |trace| - 1;
      assert trace[n].now <= now;
      StartsPast(l, trace[..n], key, now);
    }
  }

  lemma {:induction false} WithinNext(l: Limits, found: Option<Entry>, now: int, c: nat, low: int, high: int)
    requires l.window > 0 && high - low <= l.window
    requires found.Some? ==> found.value.start <= now && found.value.count <= l.burst
    requires found.None? ==> c == 0
    requires found.Some? ==> (c > 0 ==> low < found.value.start + l.window)
    requires found.Some? ==> c <= if found.value.start <= low then found.value.count
                                  else if found.value.start <= high then l.burst + found.value.count
                                  else 2 * l.burst
    ensures var (e, ok) := Checked(l, found, now);
            var d := c + if ok && low <= now <= high then 1 else 0;
            && e.count <= l.burst && (d > 0 ==> low < e.start + l.window)
            && d <= if e.start <= low then e.count else if e.start <= high then l.burst + e.count else 2 * l.burst
  {
  }

  lemma {:induction false} AlwaysWithin(l: Limits, trace: seq<Call>, key: string, low: int, high: int)
    requires Ordered(trace) && l.window > 0 && high - low <= l.window
    ensures Within(l, trace, key, low, high)
  {
    if trace != [] {
      var n := |trace| - 1;
      var front, call := trace[..n], trace[n];
      AlwaysWithin(l, front, key, low, high);
      if call.key == key {
        StartsPast(l, front, key, call.now);
        WithinNext(l, Get(After(l, front), key), call.now, Accepted(l, front, key, low, high), low, high);
      }
    }
  }

  /** In no interval of time up to a window long do more than twice `burst` calls
      of one key go through. */
  lemma {:induction false} AtMostTwiceBurst(l: Limits, trace: seq<Call>, key: string, low: int, high: int)
    requires Ordered(trace) && l.window > 0 && high - low <= l.window
    ensures Accepted(l, trace, key, low, high) <= 2 * l.burst
  {
    AlwaysWithin(l, trace, key, low, high);
  }

  /** Since a window was started, as many calls went through as its entry says,
      so never more than `burst`; those before came before its start. */
  lemma {:induction false} WindowCount(l: Limits, trace: seq<Call>, key: string, high: int)
    requires Ordered(trace) && l.window > 0 && forall i :: 0 <= i < |trace| ==> trace[i].now <= high
    ensures var e := Get(After(l, trace), key);
            e.Some? ==> e.value.count == Accepted(l, trace, key, e.value.start, high) && e.value.count <= l.burst
    ensures var e := Get(After(l, trace), key);
            forall low :: (e.Some? ==> e.value.start + l.window <= low) ==> Accepted(l, trace, key, low, high) == 0
  {
    if trace != [] {
      var n := |trace| - 1;
      var front, call := trace[..n], trace[n];
      WindowCount(l, front, key, high);
      StartsPast(l, front, key, call.now);
      assert call.now <= high;
    }
  }

  /** A call is refused only when `burst` calls of its key already went through
      less than a window before it. */
  lemma {:induction false} RefusedOnlyAfterBurst(l: Limits, trace: seq<Call>, c: Call)
    requires Ordered(trace + [c]) && l.window > 0 && l.burst > 0
    requires !Accepts(l, trace + [c], |trace|)
    ensures Accepted(l, trace, c.key, c.now - l.window + 1, c.now) >= l.burst
  {
    var t := trace + [c];
    assert t[..|trace|] == trace;
    forall i | 0 <= i < |trace| ensures trace[i].now <= c.now {
      assert t[i].now <= t[|trace|].now;
    }
    assert Ordered(trace) by {
      assert forall i :: 0 <= i < |trace| ==> trace[i] == t[i];
    }
    WindowCount(l, trace, c.key, c.now);
    var e := Get(After(l, trace), c.key).value;
    AcceptedMore(l, trace, c.key, e.start, c.now - l.window + 1, c.now);
  }

  lemma {:induction false} AcceptedMore(l: Limits, trace: seq<Call>, key: string, low: int, lower: int, high: int)
    requires lower <= low
    ensures Accepted(l, trace, key, low, high) <= Accepted(l, trace, key, lower, high)
  {
    if trace != [] {
      AcceptedMore(l, trace[..|trace| - 1], key, low, lower, high);
    }
  }

  // ---------- the bound is sharp ----------

  function Repeat(c: Call, n: nat): seq<Call> {
    if n == 0 then [] else Repeat(c, n - 1) + [c]
  }

  /** `burst` calls at one instant, and as many a window later, all go through. */
  lemma {:induction false} TwiceBurst(l: Limits, key: string, start: int)
    requires l.burst >= 1 && l.window > 0
    ensures var trace := Repeat(Call(key, start), l.burst) + Repeat(Call(key, start + l.window), l.burst);
            Ordered(trace) && Accepted(l, trace, key, start, start + l.window) == 2 * l.burst
  {
    hide Repeat, After, Accepted;
    var a, b := Call(key, start), Call(key, start + l.window);
    var first := Repeat(a, l.burst);
    RepeatsOrdered(a, b, l.burst);
    NoCalls(l, key, start, start + l.window);
    assert [] + first == first;
    Fill(l, key, [], start, l.burst, start, start + l.window);
    Fill(l, key, first, start + l.window, l.burst, start, start + l.window);
  }

  lemma {:induction false} NoCalls(l: Limits, key: string, low: int, high: int)
    ensures Get(After(l, []), key) == None && Accepted(l, [], key, low, high) == 0
  {
  }

  lemma {:induction false} RepeatsOrdered(a: Call, b: Call, n: nat)
    requires a.now <= b.now
    ensures Ordered(Repeat(a, n) + Repeat(b, n))
  {
    hide Repeat;
    RepeatAll(a, n);
    RepeatAll(b, n);
  }

  lemma {:induction false} RepeatAll(c: Call, n: nat)
    ensures |Repeat(c, n)| == n && forall i :: 0 <= i < n ==> Repeat(c, n)[i] == c
  {
    if n > 0 {
      RepeatAll(c, n - 1);
    }
  }

  lemma {:induction false} Fill(l: Limits, key: string, before: seq<Call>, now: int, n: nat, low: int, high: int)
    requires l.window > 0 && n <= l.burst && low <= now <= high
    requires var e := Get(After(l, before), key); e.None? || e.value.start + l.window == now
    ensures var trace := before + Repeat(Call(key, now), n);
            && Accepted(l, trace, key, low, high) == Accepted(l, before, key, low, high) + n
            && Get(After(l, trace), key) == if n == 0 then Get(After(l, before), key) else Some(Entry(now, n))
  {
    hide After, Accepted;
    if n == 0 {
      assert before + [] == before;
    } else {
      Fill(l, key, before, now, n - 1, low, high);
      var c, done := Call(key, now), before + Repeat(Call(key, now), n - 1);
      assert before + Repeat(c, n) == done + [c];
      FillOne(l, done, c, n, low, high);
    }
  }

  lemma {:induction false} FillOne(l: Limits, done: seq<Call>, c: Call, n: nat, low: int, high: int)
    requires l.window > 0 && 0 < n <= l.burst && low <= c.now <= high
    requires var e := Get(After(l, done), c.key);
             if n == 1 then e.None? || e.value.start + l.window == c.now else e == Some(Entry(c.now, n - 1))
    ensures Accepted(l, done + [c], c.key, low, high) == Accepted(l, done, c.key, low, high) + 1
    ensures Get(After(l, done + [c]), c.key) == Some(Entry(c.now, n))
  {
    hide After, Accepted;
    assert Checked(l, Get(After(l, done), c.key), c.now) == (Entry(c.now, n), true);
    OneCall(l, done, c);
    OneMore(l, done, c, c.key, low, high);
    assert (done + [c])[|done|] == c;
  }
}
