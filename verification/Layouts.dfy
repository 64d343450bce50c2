/** What the scanner of top-level members takes: the texts of every kind, not
    only those of RFC 8259, in which it finds a member or finds none
    (crates/modde-manager/src/wiring.rs, `json_top_level_string_span`). */
module Layouts {
  import opened Bytes
  import opened Json
  import opened Results

  /** A member: where it starts, its name, its colon, where its value starts and
      ends, and the comma or brace behind it. */
  datatype Place = Place(at: nat, name: Span, colon: nat, value: nat, end: nat, next: nat)

  predicate Blank(b: Text, low: nat, high: nat) {
    low <= high <= |b| && forall i :: low <= i < high ==> b[i] == 9 || b[i] == 10 || b[i] == 12 || b[i] == 13 || b[i] == 32
  }

  /** The byte at `p`, which is not a blank. */
  predicate Shows(b: Text, p: nat, c: byte) {
    p < |b| && b[p] == c
  }

  /** A name in quotes, a colon, and a value, which ends where skipping one ends. */
  predicate IsMember(b: Text, m: Place) {
    && Shows(b, m.at, 34) && m.name.start == m.at + 1 && StringEnd(b, m.at + 1) == Ok(m.name.end)
    && Blank(b, m.name.end + 1, m.colon) && Shows(b, m.colon, 58)
    && Blank(b, m.colon + 1, m.value) && m.value < |b| && !Blank(b, m.value, m.value + 1)
    && ValueEnd(b, m.value) == Ok(m.end)
    && Blank(b, m.end, m.next) && (Shows(b, m.next, 44) || Shows(b, m.next, 125))
  }

  /** From `p` on: members, each with a comma behind it but for the last, where it
      may be missing; the brace at `close`; nothing more. */
  predicate Laid(b: Text, p: nat, ms: seq<Place>, close: nat)
    decreases |ms|
  {
    if ms == [] then Blank(b, p, close) && Shows(b, close, 125) && Blank(b, close + 1, |b|)
    else
      var m := ms[0];
      Blank(b, p, m.at) && IsMember(b, m) && Laid(b, Behind(b, m), ms[1..], close)
  }

  predicate LaidOut(b: Text, open: nat, ms: seq<Place>, close: nat) {
    Blank(b, 0, open) && Shows(b, open, 123) && Laid(b, open + 1, ms, close)
  }

  predicate Bears(b: Text, m: Place, key: Text) {
    m.name.start <= m.name.end <= |b| && b[m.name.start..m.name.end] == key
  }

  predicate NoneBears(b: Text, ms: seq<Place>, key: Text) {
    forall i :: 0 <= i < |ms| ==> !Bears(b, ms[i], key)
  }

  /** The one member of the name is a string, and the span is what lies between
      its quotes. */
  predicate OneBears(b: Text, ms: seq<Place>, key: Text, i: int, span: Span) {
    && 0 <= i < |ms| && Bears(b, ms[i], key)
    && (forall j :: 0 <= j < |ms| && Bears(b, ms[j], key) ==> j == i)
    && Shows(b, ms[i].value, 34)
    && span.start == ms[i].value + 1 && span.end + 1 == ms[i].end
  }

  ghost predicate SomeBears(b: Text, ms: seq<Place>, key: Text, span: Span) {
    exists i :: OneBears(b, ms, key, i, span)
  }

  /** No member of the name: what was found before; or one, and none before. */
  ghost predicate Gives(b: Text, ms: seq<Place>, key: Text, found: Option<Span>, r: Option<Span>) {
    || (NoneBears(b, ms, key) && r == found)
    || (found.None? && r.Some? && SomeBears(b, ms, key, r.value))
  }

  // ---------- blanks ----------

  lemma {:induction false} SkipSpaceMeans(b: Text, p: nat, q: nat)
    requires p <= |b|
    ensures SkipSpace(b, p) == q <==> Blank(b, p, q) && (q < |b| ==> !Blank(b, q, q + 1))
    decreases |b| - p
  {
    if p < |b| && Space(b[p]) {
      SkipSpaceMeans(b, p + 1, q);
    }
  }

  // ---------- strings ----------

  /** How many backslashes stand right before `i`, from `p` on. */
  function Run(b: Text, p: nat, i: nat): nat
    requires i <= |b|
    decreases i
  {
    if i <= p || b[i - 1] != 92 then 0 else 1 + Run(b, p, i - 1)
  }

  /** After an odd number of backslashes. */
  predicate Escaped(b: Text, p: nat, i: nat)
    requires i <= |b|
  {
    Run(b, p, i) % 2 == 1
  }

  predicate Hex(c: byte) {
    '0' as int <= c <= '9' as int || 'a' as int <= c <= 'f' as int || 'A' as int <= c <= 'F' as int
  }

  predicate FourHex(b: Text, i: nat) {
    i + 4 < |b| && Hex(b[i + 1]) && Hex(b[i + 2]) && Hex(b[i + 3]) && Hex(b[i + 4])
  }

  /** What stands at `i` may stand in a string: a quote only if escaped, an
      escaped `u` only with four digits behind it. */
  predicate Inner(b: Text, p: nat, i: nat)
    requires i < |b|
  {
    (b[i] == 34 ==> Escaped(b, p, i)) && (b[i] == 117 && Escaped(b, p, i) ==> FourHex(b, i))
  }

  predicate EndsAt(b: Text, p: nat, q: nat) {
    && p <= q < |b| && b[q] == 34 && !Escaped(b, p, q)
    && forall i :: p <= i < q ==> Inner(b, p, i)
  }

  /** Behind a whole character or escape it does not matter where one started. */
  lemma {:induction false} UnitRun(b: Text, p: nat, i: nat)
    requires p < |b| && StringUnit(b, p).Ok? && p + StringUnit(b, p).value <= i <= |b|
    ensures Escaped(b, p, i) <==> Escaped(b, p + StringUnit(b, p).value, i)
    decreases i
  {
    var n := StringUnit(b, p).value;
    if i > p + n {
      if b[i - 1] == 92 {
        UnitRun(b, p, i - 1);
      }
    } else {
      UnitEnd(b, p, n);
    }
  }

  lemma {:induction false} UnitEnd(b: Text, p: nat, n: nat)
    requires p < |b| && StringUnit(b, p) == Ok(n)
    ensures !Escaped(b, p, p + n)
  {
    if n == 2 {
      assert Run(b, p, p + 1) == 1 + Run(b, p, p);
    } else if n == 6 {
      assert HexDigit(b[p + 5]);
    }
  }

  lemma {:induction false} UnitInner(b: Text, p: nat, i: nat)
    requires p < |b| && b[p] != 34 && StringUnit(b, p).Ok? && p <= i < p + StringUnit(b, p).value
    ensures Inner(b, p, i)
  {
    assert Run(b, p, p) == 0;
    if i > p {
      assert Run(b, p, p + 1) == 1;
      if i > p + 1 {
        assert HexDigit(b[i]);
      } else if b[i] == 117 {
        assert forall j :: p + 2 <= j < p + 6 ==> HexDigit(b[j]);
      }
    }
  }

  /** No quote and no bad escape can end a string sooner than its first whole
      character or escape. */
  lemma {:induction false} UnitBefore(b: Text, p: nat, q: nat)
    requires EndsAt(b, p, q) && b[p] != 34
    ensures StringUnit(b, p).Ok? && p + StringUnit(b, p).value <= q
  {
    assert Run(b, p, p) == 0;
    if b[p] == 92 {
      assert Run(b, p, p + 1) == 1;
      assert Escaped(b, p, p + 1) && q > p + 1;
      assert Inner(b, p, p + 1);
      if b[p + 1] == 117 {
        assert FourHex(b, p + 1);
        assert forall j :: p + 2 <= j < p + 6 ==> HexDigit(b[j]);
      }
    }
  }

  /** A string ends at the first quote that is not escaped, if every escaped `u`
      before it has its four digits, and nowhere else. */
  lemma {:induction false} StringEndMeans(b: Text, p: nat, q: nat)
    requires p <= |b|
    ensures StringEnd(b, p) == Ok(q) <==> EndsAt(b, p, q)
    decreases |b| - p
  {
    if p < |b| && b[p] == 34 {
      assert Run(b, p, p) == 0;
      if q > p {
        assert !Inner(b, p, p);
      }
    } else if p < |b| {
      if StringUnit(b, p).Ok? {
        var n := StringUnit(b, p).value;
        StringEndMeans(b, p + n, q);
        StringMore(b, p, q);
      } else if EndsAt(b, p, q) {
        UnitBefore(b, p, q);
      }
    }
  }

  lemma {:induction false} StringMore(b: Text, p: nat, q: nat)
    requires p < |b| && b[p] != 34 && StringUnit(b, p).Ok?
    ensures EndsAt(b, p, q) <==> EndsAt(b, p + StringUnit(b, p).value, q)
  {
    var n := StringUnit(b, p).value;
    hide StringUnit;
    forall i | p + n <= i <= |b| ensures Escaped(b, p, i) <==> Escaped(b, p + n, i) {
      UnitRun(b, p, i);
    }
    forall i | p <= i < p + n ensures Inner(b, p, i) {
      UnitInner(b, p, i);
    }
    hide Escaped;
    forall i | p + n <= i < |b| ensures Inner(b, p, i) <==> Inner(b, p + n, i) {
    }
    if EndsAt(b, p, q) {
      UnitBefore(b, p, q);
      var next := p + n;
      forall i | next <= i < q ensures Inner(b, next, i) {
        assert Inner(b, p, i);
      }
    }
    if EndsAt(b, p + n, q) {
      forall i | p <= i < q ensures Inner(b, p, i) {
        assert i >= p + n ==> Inner(b, p + n, i);
      }
    }
  }

  // ---------- one member ----------

  lemma {:induction false} QuotedValue(b: Text, v: nat)
    requires Shows(b, v, 34)
    ensures ValueEnd(b, v) == match StringEnd(b, v + 1) case Err(e) => Err(e) case Ok(q) => Ok(q + 1)
  {
    SkipSpaceMeans(b, v, v);
  }

  /** What one turn of the scanning loop finds of a member. */
  predicate Turns(b: Text, m: Place, key: Text, found: Option<Span>, r: Option<Span>) {
    if Bears(b, m, key)
    then found.None? && Shows(b, m.value, 34) && m.value < m.end && r == Some(Span(m.value + 1, m.end - 1))
    else r == found
  }

  function Behind(b: Text, m: Place): nat {
    if Shows(b, m.next, 44) then m.next + 1 else m.next
  }

  /** A name and its colon. */
  predicate IsHeader(b: Text, m: Place) {
    && Shows(b, m.at, 34) && m.name.start == m.at + 1 && StringEnd(b, m.at + 1) == Ok(m.name.end)
    && Blank(b, m.name.end + 1, m.colon) && Shows(b, m.colon, 58)
    && Blank(b, m.colon + 1, m.value) && (m.value < |b| ==> !Blank(b, m.value, m.value + 1))
  }

  lemma {:induction false} HeaderMeans(b: Text, p: nat) returns (colon: nat)
    requires Shows(b, p, 34) && Header(b, p).Ok?
    ensures var h := Header(b, p).value; IsHeader(b, Place(p, h.0, colon, h.1, 0, 0))
  {
    var end := StringEnd(b, p + 1).value;
    colon := SkipSpace(b, end + 1);
    SkipSpaceMeans(b, end + 1, colon);
    SkipSpaceMeans(b, colon + 1, SkipSpace(b, colon + 1));
  }

  lemma {:induction false} HeaderScanned(b: Text, m: Place)
    requires IsHeader(b, m)
    ensures Header(b, m.at) == Ok((m.name, m.value))
  {
    SkipSpaceMeans(b, m.name.end + 1, m.colon);
    SkipSpaceMeans(b, m.colon + 1, m.value);
  }

  lemma {:induction false} BodyMeans(b: Text, m: Place, key: Text, found: Option<Span>, r: Option<Span>)
    requires m.value <= |b| && m.name.start <= m.name.end <= |b|
    ensures Body(b, m.value, Bears(b, m, key), found) == Ok(Json.Scanned(r, m.end)) <==>
            m.value < |b| && ValueEnd(b, m.value) == Ok(m.end) && Turns(b, m, key, found, r)
  {
    if Shows(b, m.value, 34) {
      QuotedValue(b, m.value);
    }
    ValueInside(b, m.value);
  }

  lemma {:induction false} SeparatedMeans(b: Text, p: nat, key: Text, found: Option<Span>) returns (m: Place)
    requires Shows(b, p, 34) && Separated(b, p, key, found).Ok?
    ensures m.at == p && IsMember(b, m) && Behind(b, m) == Separated(b, p, key, found).value.next
    ensures Turns(b, m, key, found, Separated(b, p, key, found).value.found)
  {
    hide Header, Body, SkipSpace, Blank;
    var header, scanned := Header(b, p).value, Member(b, p, key, found).value;
    var next := SkipSpace(b, scanned.next);
    var colon := HeaderMeans(b, p);
    SkipSpaceMeans(b, scanned.next, next);
    m := Place(p, header.0, colon, header.1, scanned.next, next);
    BodyMeans(b, m, key, found, scanned.found);
  }

  /** There is no value at the end of the text. */
  lemma {:induction false} ValueInside(b: Text, v: nat)
    requires v <= |b|
    ensures ValueEnd(b, v).Ok? ==> v < |b|
  {
  }

  lemma {:induction false} MemberSeparated(b: Text, m: Place, key: Text, found: Option<Span>, r: Option<Span>)
    requires IsMember(b, m) && Turns(b, m, key, found, r)
    ensures Separated(b, m.at, key, found) == Ok(Json.Scanned(r, Behind(b, m)))
  {
    HeaderScanned(b, m);
    BodyMeans(b, m, key, found, r);
    NotBlank(b, m.next);
    SkipSpaceMeans(b, m.end, m.next);
    hide Header, Body, SkipSpace, Blank, ValueEnd, StringEnd, Turns;
    assert Member(b, m.at, key, found) == Ok(Json.Scanned(r, m.end));
  }

  lemma {:induction false} NotBlank(b: Text, p: nat)
    requires p < |b| && (b[p] == 34 || b[p] == 44 || b[p] == 123 || b[p] == 125)
    ensures !Blank(b, p, p + 1)
  {
  }

  // ---------- all members ----------

  lemma {:induction false} NoneMore(b: Text, m: Place, rest: seq<Place>, key: Text)
    ensures NoneBears(b, [m] + rest, key) <==> !Bears(b, m, key) && NoneBears(b, rest, key)
  {
    var ms := [m] + rest;
    assert ms[0] == m && forall i :: 0 <= i < |rest| ==> ms[i + 1] == rest[i];
    hide Bears;
    if NoneBears(b, ms, key) {
      forall i | 0 <= i < |rest| ensures !Bears(b, rest[i], key) {
        assert !Bears(b, ms[i + 1], key);
      }
    }
  }

  lemma {:induction false} OneMore(b: Text, m: Place, rest: seq<Place>, key: Text, i: int, span: Span)
    requires i >= 0
    ensures OneBears(b, [m] + rest, key, i + 1, span) <==> !Bears(b, m, key) && OneBears(b, rest, key, i, span)
    ensures OneBears(b, [m] + rest, key, 0, span) <==>
            Bears(b, m, key) && NoneBears(b, rest, key) && Shows(b, m.value, 34) &&
            span.start == m.value + 1 && span.end + 1 == m.end
  {
    var ms := [m] + rest;
    hide Bears, Shows;
    assert ms[0] == m && forall j :: 0 <= j < |rest| ==> ms[j + 1] == rest[j];
    if OneBears(b, ms, key, i + 1, span) {
      forall j | 0 <= j < |rest| && Bears(b, rest[j], key) ensures j == i {
        assert Bears(b, ms[j + 1], key);
      }
    }
    if OneBears(b, ms, key, 0, span) {
      forall j | 0 <= j < |rest| ensures !Bears(b, rest[j], key) {
        assert Bears(b, ms[j + 1], key) ==> j + 1 == 0;
      }
    }
  }

  lemma {:induction false} SomeMore(b: Text, m: Place, rest: seq<Place>, key: Text, span: Span)
    ensures SomeBears(b, [m] + rest, key, span) <==>
            if Bears(b, m, key)
            then NoneBears(b, rest, key) && Shows(b, m.value, 34) && span.start == m.value + 1 && span.end + 1 == m.end
            else SomeBears(b, rest, key, span)
  {
    var ms := [m] + rest;
    hide Bears, NoneBears, OneBears, Shows;
    OneMore(b, m, rest, key, 0, span);
    if i :| OneBears(b, ms, key, i, span) {
      OneInside(b, ms, key, i, span);
      if i > 0 {
        OneMore(b, m, rest, key, i - 1, span);
        assert OneBears(b, ms, key, i - 1 + 1, span);
      }
    }
    if i :| OneBears(b, rest, key, i, span) {
      OneInside(b, rest, key, i, span);
      OneMore(b, m, rest, key, i, span);
    }
  }

  lemma {:induction false} GivesMore(b: Text, m: Place, rest: seq<Place>, key: Text, found: Option<Span>, f: Option<Span>, r: Option<Span>)
    requires Turns(b, m, key, found, f)
    ensures Gives(b, [m] + rest, key, found, r) <==> Gives(b, rest, key, f, r)
  {
    hide Bears, NoneBears, OneBears, SomeBears, Shows;
    NoneMore(b, m, rest, key);
    if r.Some? {
      SomeMore(b, m, rest, key, r.value);
    }
  }

  lemma {:induction false} GivenTurn(b: Text, m: Place, rest: seq<Place>, key: Text, found: Option<Span>, r: Option<Span>)
    requires IsMember(b, m) && Gives(b, [m] + rest, key, found, r)
    ensures Bears(b, m, key) ==> m.value < m.end
    ensures Turns(b, m, key, found, if Bears(b, m, key) then Some(Span(m.value + 1, m.end - 1)) else found)
  {
    assert ([m] + rest)[0] == m;
  }

  lemma {:induction false} OneInside(b: Text, ms: seq<Place>, key: Text, i: int, span: Span)
    requires OneBears(b, ms, key, i, span)
    ensures 0 <= i < |ms|
  {
  }

  lemma {:induction false} MembersMean(b: Text, p: nat, key: Text, found: Option<Span>) returns (ms: seq<Place>, close: nat)
    requires p <= |b| && Members(b, p, key, found).Ok?
    ensures Laid(b, p, ms, close) && Gives(b, ms, key, found, Members(b, p, key, found).value)
    decreases |b| - p
  {
    var s := SkipSpace(b, p);
    SkipSpaceMeans(b, p, s);
    if b[s] == CLOSE_BRACE {
      SkipSpaceMeans(b, s + 1, |b|);
      ms, close := [], s;
    } else {
      var m := SeparatedMeans(b, s, key, found);
      var t := Separated(b, s, key, found).value;
      var rest, c := MembersMean(b, t.next, key, t.found);
      ms, close := [m] + rest, c;
      GivesMore(b, m, rest, key, found, t.found, Members(b, p, key, found).value);
    }
  }

  lemma {:induction false} LaidScanned(b: Text, p: nat, key: Text, found: Option<Span>, ms: seq<Place>, close: nat, r: Option<Span>)
    requires p <= |b| && Laid(b, p, ms, close) && Gives(b, ms, key, found, r)
    ensures Members(b, p, key, found) == Ok(r)
    decreases |ms|
  {
    hide SkipSpace, Blank, Bears, Separated, StringEnd, ValueEnd;
    if ms == [] {
      NotBlank(b, close);
      SkipSpaceMeans(b, p, close);
      SkipSpaceMeans(b, close + 1, |b|);
    } else {
      var m := ms[0];
      var f := if Bears(b, m, key) then Some(Span(m.value + 1, m.end - 1)) else found;
      assert ms == [m] + ms[1..];
      GivenTurn(b, m, ms[1..], key, found, r);
      GivesMore(b, m, ms[1..], key, found, f, r);
      NotBlank(b, m.at);
      SkipSpaceMeans(b, p, m.at);
      MemberSeparated(b, m, key, found, f);
      LaidScanned(b, Behind(b, m), key, f, ms[1..], close, r);
    }
  }

  lemma {:induction false} Taken(b: Text, key: Text) returns (open: nat, ms: seq<Place>, close: nat)
    requires TopLevelSpan(b, key).Ok?
    ensures LaidOut(b, open, ms, close) && Gives(b, ms, key, None, TopLevelSpan(b, key).value)
  {
    hide Laid, Gives, Members;
    open := SkipSpace(b, 0);
    SkipSpaceMeans(b, 0, open);
    ms, close := MembersMean(b, open + 1, key, None);
  }

  lemma {:induction false} Takes(b: Text, key: Text, open: nat, ms: seq<Place>, close: nat, r: Option<Span>)
    requires LaidOut(b, open, ms, close) && Gives(b, ms, key, None, r)
    ensures TopLevelSpan(b, key) == Ok(r)
  {
    hide Laid, Gives, Members;
    NotBlank(b, open);
    SkipSpaceMeans(b, 0, open);
    LaidScanned(b, open + 1, key, None, ms, close, r);
  }

  /** The scanner takes a text exactly when it is an object of members so laid out
      that at most one has the name, and that one a string; and it gives just
      that one's text. */
  lemma {:induction false} ScannerTakes(b: Text, key: Text, r: Option<Span>)
    ensures TopLevelSpan(b, key) == Ok(r) <==>
            exists open: nat, ms, close: nat :: LaidOut(b, open, ms, close) && Gives(b, ms, key, None, r)
  {
    if TopLevelSpan(b, key) == Ok(r) {
      var open, ms, close := Taken(b, key);
      assert LaidOut(b, open, ms, close);
    }
    hide LaidOut;
    if open: nat, ms, close: nat :| LaidOut(b, open, ms, close) && Gives(b, ms, key, None, r) {
      Takes(b, key, open, ms, close, r);
    }
  }
}
