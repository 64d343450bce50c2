/** Reconciling the client directories in the launcher's settings document
    (crates/modde-manager/src/wiring.rs, `splice_json_string` and
    `set_launcher_client_dirs`), and what the edited document means. */
module LauncherSettings {
  import opened Bytes
  import opened Results
  import opened Json
  import opened Documents

  // ---------- string literals ----------

  function HexLower(n: nat): byte
    requires n < 16
  {
    if n < 10 then 48 + n else 87 + n
  }

  /** How one byte is serialised in a string literal. */
  function EscapeByte(c: byte): Text {
    if c == QUOTE then [BACKSLASH, QUOTE]
    else if c == BACKSLASH then [BACKSLASH, BACKSLASH]
    else if c == 8 then [BACKSLASH, 98]
    else if c == 9 then [BACKSLASH, 116]
    else if c == 10 then [BACKSLASH, 110]
    else if c == 12 then [BACKSLASH, 102]
    else if c == 13 then [BACKSLASH, 114]
    else if c < 32 then [BACKSLASH, LOWER_U, 48, 48, HexLower(c / 16), HexLower(c % 16)]
    else [c]
  }

  /** The text of the literal for a string: `serde_json::to_string` without its quotes. */
  function Escape(s: Text): Text {
    if s == [] then [] else EscapeByte(s[0]) + Escape(s[1..])
  }

  function HexValue(c: byte): nat
    requires HexDigit(c)
  {
    if c <= 57 then c - 48 else if c <= 70 then c - 55 else c - 87
  }

  function Hex4(s: Text): nat
    requires UnicodeEscape(s)
  {
    ((HexValue(s[2]) * 16 + HexValue(s[3])) * 16 + HexValue(s[4])) * 16 + HexValue(s[5])
  }

  lemma {:induction false} Hex4Bound(s: Text)
    requires UnicodeEscape(s)
    ensures Hex4(s) < 0x10000
  {
  }

  /** UTF-8 (section 3 of RFC 3629). */
  function Utf8(cp: nat): Text
    requires cp < 0x110000
  {
    if cp < 0x80 then [cp]
    else if cp < 0x800 then [0xC0 + cp / 64, 0x80 + cp % 64]
    else if cp < 0x10000 then [0xE0 + cp / 4096, 0x80 + cp / 64 % 64, 0x80 + cp % 64]
    else [0xF0 + cp / 262144, 0x80 + cp / 4096 % 64, 0x80 + cp / 64 % 64, 0x80 + cp % 64]
  }

  /** The number in a lead byte over its mark and six bits of each further byte. */
  function Bits(u: Text, mark: int): int
    requires u != []
  {
    if |u| == 1 then u[0] as int - mark else Bits(u[..|u| - 1], mark) * 64 + (u[|u| - 1] as int - 0x80)
  }

  /** The numbers that `n` bytes are for, and the mark of their lead byte. */
  function Length(cp: nat): nat {
    if cp < 0x80 then 1 else if cp < 0x800 then 2 else if cp < 0x10000 then 3 else 4
  }

  function Mark(n: nat): int {
    if n == 1 then 0 else if n == 2 then 0xC0 else if n == 3 then 0xE0 else 0xF0
  }

  /** One to four bytes: a lead byte that says how many, and further ones; they
      hold the number. */
  lemma {:induction false} Utf8Means(cp: nat)
    requires cp < 0x110000
    ensures var u := Utf8(cp);
            && |u| == Length(cp) && Bits(u, Mark(|u|)) == cp
            && Mark(|u|) <= u[0] as int < (if |u| == 1 then 0x80 else Mark(|u| + 1) + (if |u| == 4 then 8 else 0))
            && forall i :: 1 <= i < |u| ==> 0x80 <= u[i] as int < 0xC0
  {
    var u := Utf8(cp);
    var a, b, c := cp / 64, cp / 4096, cp / 262144;
    Sixes(cp);
    if |u| == 2 {
      assert u[..1] == [u[0]];
    } else if |u| == 3 {
      assert u[..2][..1] == [u[0]];
      assert Bits(u[..2], 0xE0) == a;
    } else if |u| == 4 {
      assert u[..3][..2][..1] == [u[0]];
      assert Bits(u[..3][..2], 0xF0) == b;
      assert Bits(u[..3], 0xF0) == a;
    }
  }

  lemma {:induction false} Sixes(n: nat)
    ensures n / 4096 == n / 64 / 64 && n / 262144 == n / 4096 / 64
    ensures n == n / 64 * 64 + n % 64
    ensures n / 64 == n / 4096 * 64 + n / 64 % 64
    ensures n / 4096 == n / 262144 * 64 + n / 4096 % 64
  {
  }

  function Short(c: byte): byte {
    if c == 98 then 8 else if c == 102 then 12 else if c == 110 then 10
    else if c == 114 then 13 else if c == 116 then 9 else c
  }

  function Prepend(a: Text, rest: Option<Text>): Option<Text> {
    if rest.None? then None else Some(a + rest.value)
  }

  /** What the first character or escape of a literal's text stands for, and its
      length; none for an unpaired surrogate. */
  function DecodeUnit(s: Text): (r: Option<(Text, nat)>)
    requires s != []
    ensures r.Some? ==> 0 < r.value.1 <= |s|
  {
    var n := UnitLength(s);
    if n == 0 then None
    else if n == 1 then Some(([s[0]], 1))
    else if n == 2 then Some(([Short(s[1])], 2))
    else
      var cp := Hex4(s);
      Hex4Bound(s);
      if cp < 0xD800 || cp >= 0xE000 then Some((Utf8(cp), 6))
      else if cp < 0xDC00 && UnicodeEscape(s[6..]) && 0xDC00 <= Hex4(s[6..]) < 0xE000 then
        Some((Utf8(0x10000 + (cp - 0xD800) * 1024 + (Hex4(s[6..]) - 0xDC00)), 12))
      else None
  }

  /** The string that the text of a literal stands for (section 7 of RFC 8259). */
  function Decode(s: Text): Option<Text>
    decreases |s|
  {
    if s == [] then Some([])
    else if DecodeUnit(s).None? then None
    else Prepend(DecodeUnit(s).value.0, Decode(s[DecodeUnit(s).value.1..]))
  }

  lemma {:induction false} EscapeByteUnit(c: byte, rest: Text)
    ensures var e := EscapeByte(c);
            UnitLength(e + rest) == |e| && (e + rest)[|e|..] == rest && DecodeUnit(e + rest) == Some(([c], |e|))
  {
    var e := EscapeByte(c);
    var t := e + rest;
    assert t[|e|..] == rest;
    if c < 32 && c != 8 && c != 9 && c != 10 && c != 12 && c != 13 {
      assert t[0] == BACKSLASH && t[1] == LOWER_U && t[2] == 48 && t[3] == 48;
      assert t[4] == HexLower(c / 16) && t[5] == HexLower(c % 16);
      assert UnicodeEscape(t);
      assert Hex4(t) == c;
      assert Utf8(c) == [c];
    } else if |e| == 2 {
      assert t[0] == BACKSLASH && t[1] == e[1];
      assert Escapable(t[1]) && t[1] != LOWER_U;
    } else {
      assert t[0] == c;
    }
  }

  /** A serialised string is the text of a literal, and reads back as itself. */
  lemma {:induction false} EscapeRoundTrip(s: Text)
    ensures StringText(Escape(s)) && Decode(Escape(s)) == Some(s)
    decreases |s|
  {
    if s != [] {
      EscapeRoundTrip(s[1..]);
      EscapeByteUnit(s[0], Escape(s[1..]));
      assert s == [s[0]] + s[1..];
    }
  }

  /** `c` is the digit of `d`, in either case. */
  predicate Digit(c: byte, d: int) {
    || (0 <= d < 10 && c == '0' as int + d)
    || (10 <= d < 16 && (c == 'a' as int + (d - 10) || c == 'A' as int + (d - 10)))
  }

  /** `e` is the escape of the number in four digits. */
  predicate Escapes(e: Text, n: nat) {
    && |e| == 6 && e[0] == '\\' as int && e[1] == 'u' as int
    && Digit(e[2], n / 4096) && Digit(e[3], n / 256 % 16) && Digit(e[4], n / 16 % 16) && Digit(e[5], n % 16)
  }

  lemma {:induction false} DigitRead(c: byte, d: int)
    requires Digit(c, d)
    ensures HexDigit(c) && HexValue(c) == d
  {
  }

  lemma {:induction false} FourDigits(n: nat)
    ensures ((n / 4096 * 16 + n / 256 % 16) * 16 + n / 16 % 16) * 16 + n % 16 == n
  {
    assert n / 16 == n / 256 * 16 + n / 16 % 16;
    assert n / 256 == n / 4096 * 16 + n / 256 % 16;
  }

  lemma {:induction false} EscapeRead(e: Text, n: nat, rest: Text)
    requires Escapes(e, n)
    ensures UnicodeEscape(e + rest) && Hex4(e + rest) == n && (e + rest)[6..] == rest
  {
    var s := e + rest;
    assert forall i :: 0 <= i < 6 ==> s[i] == e[i];
    FourDigits(n);
    DigitRead(e[2], n / 4096);
    DigitRead(e[3], n / 256 % 16);
    DigitRead(e[4], n / 16 % 16);
    DigitRead(e[5], n % 16);
    hide Digit, HexDigit, HexValue;
  }

  /** An escape in four digits stands for the number in UTF-8; two of surrogates,
      the high one first, for the number beyond; a surrogate alone for nothing. */
  lemma {:induction false} EscapedNumber(e: Text, n: nat, rest: Text)
    requires Escapes(e, n)
    ensures !(0xD800 <= n < 0xE000) ==> Decode(e + rest) == Prepend(Utf8(n), Decode(rest))
    ensures 0xDC00 <= n < 0xE000 ==> Decode(e + rest) == None
    ensures 0xD800 <= n < 0xDC00 && !UnicodeEscape(rest) ==> Decode(e + rest) == None
  {
    EscapeRead(e, n, rest);
    hide Utf8, Hex4, Escapes;
    assert UnitLength(e + rest) == 6;
  }

  lemma {:induction false} EscapedPair(e: Text, f: Text, high: nat, low: nat, rest: Text)
    requires Escapes(e, high) && Escapes(f, low) && 0xD800 <= high < 0xDC00
    ensures 0xDC00 <= low < 0xE000 ==>
              Decode(e + f + rest) == Prepend(Utf8(0x10000 + (high - 0xD800) * 1024 + (low - 0xDC00)), Decode(rest))
    ensures !(0xDC00 <= low < 0xE000) ==> Decode(e + f + rest) == None
  {
    var s := e + f + rest;
    assert s == e + (f + rest);
    EscapeRead(e, high, f + rest);
    EscapeRead(f, low, rest);
    hide Utf8, Hex4, Escapes;
    assert UnitLength(s) == 6;
    assert s[12..] == (f + rest)[6..];
  }

  /** No letter is written that was not there. */
  lemma {:induction false} EscapeLetters(s: Text)
    ensures forall c :: 'A' as int <= c <= 'Z' as int && c in Escape(s) ==> c in s
    decreases |s|
  {
    if s != [] {
      EscapeLetters(s[1..]);
      assert s == [s[0]] + s[1..];
    }
  }

  // ---------- editing ----------

  /** `clientDir` and `activeClientDir`. */
  const CLIENT: Text := [99, 108, 105, 101, 110, 116, 68, 105, 114]
  const ACTIVE: Text := [97, 99, 116, 105, 118, 101, 67, 108, 105, 101, 110, 116, 68, 105, 114]

  datatype EditError = Unscannable(fault: Fault) | NoClientDir | Unreadable

  /** The edited body, whether it changed, and the foreign value noted, if any. */
  datatype Edited = Edited(body: Text, changed: bool, note: Option<Text>)

  /** `splice_json_string`. */
  function Spliced(e: Edited, span: Span, want: Text): Edited
    requires span.start <= span.end <= |e.body|
  {
    if e.body[span.start..span.end] == Escape(want) then e
    else e.(body := e.body[..span.start] + Escape(want) + e.body[span.end..], changed := true)
  }

  /** The span, when the scanner found one within the body. */
  function SpanIn(b: Text, key: Text): (r: Result<Option<Span>, Fault>)
    ensures r.Ok? && r.value.Some? ==> r.value.value.start <= r.value.value.end <= |b|
  {
    var r := TopLevelSpan(b, key);
    SpanInside(b, key);
    r
  }

  lemma {:induction false} SpanInside(b: Text, key: Text)
    ensures var r := TopLevelSpan(b, key);
            r.Ok? && r.value.Some? ==> r.value.value.start <= r.value.value.end <= |b|
  {
    var s := SkipSpace(b, 0);
    if s < |b| && b[s] == OPEN_BRACE {
      MembersInside(b, s + 1, key, None);
    }
  }

  lemma {:induction false} MembersInside(b: Text, p: nat, key: Text, found: Option<Span>)
    requires p <= |b| && (found.Some? ==> found.value.start <= found.value.end <= |b|)
    ensures var r := Members(b, p, key, found);
            r.Ok? && r.value.Some? ==> r.value.value.start <= r.value.value.end <= |b|
    decreases |b| - p
  {
    var s := SkipSpace(b, p);
    if s < |b| && b[s] == QUOTE {
      var m := Separated(b, s, key, found);
      if m.Ok? {
        MembersInside(b, m.value.next, key, m.value.found);
      }
    }
  }

  predicate Follows(want: Text, clientOld: Text, activeOld: Option<Text>) {
    activeOld.Some? && (activeOld.value == clientOld || activeOld.value == want)
  }

  /** `set_launcher_client_dirs`. */
  function SetDirs(body: Text, want: Text, clientOld: Text, activeOld: Option<Text>): Result<Edited, EditError> {
    match SpanIn(body, CLIENT)
    case Err(f) => Err(Unscannable(f))
    case Ok(None) => Err(NoClientDir)
    case Ok(Some(span)) =>
      var e := Spliced(Edited(body, false, None), span, want);
      if Follows(want, clientOld, activeOld) then
        match SpanIn(e.body, ACTIVE)
        case Err(f) => Err(Unscannable(f))
        case Ok(None) => Ok(e)
        case Ok(Some(active)) => Ok(Spliced(e, active, want))
      else Ok(e.(note := activeOld))
  }

  /** The procedure: the body is replaced in place, with a flag and a note. */
  method SetLauncherClientDirs(body: Text, want: Text, clientOld: Text, activeOld: Option<Text>)
    returns (r: Result<Edited, EditError>)
    ensures r == SetDirs(body, want, clientOld, activeOld)
  {
    var out, changed, note := body, false, None;
    var span := ScanTopLevel(out, CLIENT);
    SpanInside(out, CLIENT);
    if span.Err? {
      return Err(Unscannable(span.error));
    }
    if span.value.None? {
      return Err(NoClientDir);
    }
    out, changed := Splice(out, span.value.value, want, changed);
    if activeOld.Some? {
      if activeOld.value == clientOld || activeOld.value == want {
        span := ScanTopLevel(out, ACTIVE);
        SpanInside(out, ACTIVE);
        if span.Err? {
          return Err(Unscannable(span.error));
        }
        if span.value.Some? {
          out, changed := Splice(out, span.value.value, want, changed);
        }
      } else {
        note := activeOld;
      }
    }
    return Ok(Edited(out, changed, note));
  }

  method Splice(out: Text, span: Span, want: Text, changed: bool) returns (edited: Text, now: bool)
    requires span.start <= span.end <= |out|
    ensures forall note :: Edited(edited, now, note) == Spliced(Edited(out, changed, note), span, want)
  {
    edited, now := out, changed;
    var inner := Escape(want);
    if out[span.start..span.end] != inner {
      edited := out[..span.start] + inner + out[span.end..];
      now := true;
    }
  }

  // ---------- what the edit does to a document ----------

  /** One edit: the string member of this name gets the wanted text, and no byte
      outside that text changes. */
  lemma {:induction false} SpliceMember(d: Document, key: Text, inner: Text, want: Text, changed: bool, note: Option<Text>)
    requires Good(d) && NamedIn(d, key) == [Str(inner)]
    ensures var r := SpanIn(Print(d), key);
            r.Ok? && r.value.Some? &&
            Spliced(Edited(Print(d), changed, note), r.value.value, want)
              == Edited(Print(WithMember(d, key, Escape(want))), changed || inner != Escape(want), note)
  {
    ScannerCorrect(d, key, Escape(want));
    ScannerCorrect(d, key, inner);
    var span, b := SpanIn(Print(d), key).value.value, Print(d);
    if inner == Escape(want) {
      WithSame(d.members.value, key, inner);
    }
  }

  /** Writing the text that is there changes nothing. */
  lemma {:induction false} WithSame(es: Entries, key: Text, inner: Text)
    requires forall v :: v in Named(es, key) ==> v == Str(inner)
    ensures WithText(es, key, inner) == es
    decreases es
  {
    if es.entry.name == key {
      assert es.entry.value in Named(es, key);
    }
    if es.MoreEntries? {
      assert forall v :: v in Named(es.rest, key) ==> v in Named(es, key);
      WithSame(es.rest, key, inner);
    }
  }

  lemma {:induction false} WithNamed(es: Entries, key: Text, text: Text, other: Text)
    requires GoodEntries(es) && StringText(text)
    ensures GoodEntries(WithText(es, key, text))
    ensures other != key ==> Named(WithText(es, key, text), other) == Named(es, other)
    ensures |Named(WithText(es, key, text), key)| == |Named(es, key)|
    ensures forall v :: v in Named(WithText(es, key, text), key) ==> v == Str(text)
    decreases es
  {
    if es.MoreEntries? {
      WithNamed(es.rest, key, text, other);
    }
  }

  /** An edited document is a document with the same names; only the values of
      the edited name are new. */
  lemma {:induction false} WithMemberGood(d: Document, key: Text, want: Text, other: Text)
    requires Good(d) && |NamedIn(d, key)| == 1
    ensures Good(WithMember(d, key, Escape(want)))
    ensures NamedIn(WithMember(d, key, Escape(want)), key) == [Str(Escape(want))]
    ensures other != key ==> NamedIn(WithMember(d, key, Escape(want)), other) == NamedIn(d, other)
  {
    EscapeRoundTrip(want);
    WithNamed(d.members.value, key, Escape(want), other);
    var named := NamedIn(WithMember(d, key, Escape(want)), key);
    assert named[0] in named;
  }

  /** The document that reconciling one comes to. */
  function Reconciled(d: Document, want: Text, follow: bool): Document {
    var e := WithMember(d, CLIENT, Escape(want));
    if follow then WithMember(e, ACTIVE, Escape(want)) else e
  }

  predicate Single(d: Document, key: Text) {
    |NamedIn(d, key)| == 1 && NamedIn(d, key)[0].Str?
  }

  /** Reconciling a document: an error unless `clientDir` is there once, as a
      string, and so is `activeClientDir` if it has to follow and is there at
      all; otherwise the document with just those texts replaced, reported as
      changed exactly when one of them was different. */
  lemma {:induction false} SetDirsCorrect(d: Document, want: Text, clientOld: Text, activeOld: Option<Text>)
    requires Good(d)
    ensures var follow := activeOld == Some(clientOld) || activeOld == Some(want);
            var r := SetDirs(Print(d), want, clientOld, activeOld);
            if !Single(d, CLIENT) || (follow && NamedIn(d, ACTIVE) != [] && !Single(d, ACTIVE)) then r.Err?
            else
              && r.Ok? && r.value.body == Print(Reconciled(d, want, follow))
              && (r.value.changed <==> NamedIn(d, CLIENT)[0] != Str(Escape(want)) ||
                                       (follow && NamedIn(d, ACTIVE) != [] && NamedIn(d, ACTIVE)[0] != Str(Escape(want))))
              && r.value.note == if follow then None else activeOld
  {
    ScannerCorrect(d, CLIENT, []);
    assert CLIENT != ACTIVE by {
      assert |CLIENT| != |ACTIVE|;
    }
    if Single(d, CLIENT) {
      var inner := NamedIn(d, CLIENT)[0].inner;
      assert NamedIn(d, CLIENT) == [Str(inner)];
      SpliceMember(d, CLIENT, inner, want, false, None);
      if Follows(want, clientOld, activeOld) {
        var e := WithMember(d, CLIENT, Escape(want));
        WithMemberGood(d, CLIENT, want, ACTIVE);
        ScannerCorrect(e, ACTIVE, []);
        if NamedIn(d, ACTIVE) == [] {
          WithTextAbsent(e.members.value, ACTIVE, Escape(want));
        } else if Single(d, ACTIVE) {
          var active := NamedIn(d, ACTIVE)[0].inner;
          assert NamedIn(d, ACTIVE) == [Str(active)];
          SpliceMember(e, ACTIVE, active, want, inner != Escape(want), None);
        }
      }
    }
  }

  /** What a reconciled document has under the two names. */
  lemma {:induction false} ReconciledNames(d: Document, want: Text, follow: bool)
    requires Good(d) && Single(d, CLIENT) && (follow ==> NamedIn(d, ACTIVE) == [] || Single(d, ACTIVE))
    ensures var e := Reconciled(d, want, follow);
            && Good(e) && NamedIn(e, CLIENT) == [Str(Escape(want))]
            && NamedIn(e, ACTIVE) == if follow && NamedIn(d, ACTIVE) != [] then [Str(Escape(want))] else NamedIn(d, ACTIVE)
  {
    var c := WithMember(d, CLIENT, Escape(want));
    assert CLIENT != ACTIVE by {
      assert |CLIENT| != |ACTIVE|;
    }
    WithMemberGood(d, CLIENT, want, ACTIVE);
    if follow {
      if NamedIn(d, ACTIVE) == [] {
        WithTextAbsent(c.members.value, ACTIVE, Escape(want));
      } else {
        WithMemberGood(c, ACTIVE, want, CLIENT);
      }
    }
  }

  /** Reconciling again, with `activeClientDir` following at most if it did. */
  lemma {:induction false} ReconciledTwice(d: Document, want: Text, follow: bool, again: bool)
    requires Good(d) && Single(d, CLIENT) && (follow ==> NamedIn(d, ACTIVE) == [] || Single(d, ACTIVE))
    requires again ==> follow
    ensures Reconciled(Reconciled(d, want, follow), want, again) == Reconciled(d, want, follow)
  {
    var t, e := Escape(want), Reconciled(d, want, follow);
    ReconciledNames(d, want, follow);
    WithSame(e.members.value, CLIENT, t);
    if again {
      if NamedIn(e, ACTIVE) == [] {
        WithTextAbsent(e.members.value, ACTIVE, t);
      } else {
        WithSame(e.members.value, ACTIVE, t);
      }
    }
  }

  /** A second edit, handed what the first one wrote, changes nothing. */
  lemma {:induction false} SetDirsSettles(d: Document, want: Text, clientOld: Text, activeOld: Option<Text>)
    requires Good(d) && SetDirs(Print(d), want, clientOld, activeOld).Ok?
    ensures var r := SetDirs(Print(d), want, clientOld, activeOld).value;
            var activeNow := if activeOld == Some(clientOld) || activeOld == Some(want) then Some(want) else activeOld;
            SetDirs(r.body, want, want, activeNow) == Ok(Edited(r.body, false, r.note))
  {
    var follow := Follows(want, clientOld, activeOld);
    SetDirsCorrect(d, want, clientOld, activeOld);
    ReconciledNames(d, want, follow);
    SetDirsCorrect(Reconciled(d, want, follow), want, want, if follow then Some(want) else activeOld);
    ReconciledTwice(d, want, follow, follow);
  }

  // ---------- what the edit means ----------

  /** What a member's value means to a reader of the document: a string, or
      something this edit does not look into. */
  datatype Meaning = Text(decoded: Option<Bytes.Text>) | Opaque(value: Value)

  function MeaningOf(v: Value): Meaning {
    if v.Str? then Text(Decode(v.inner)) else Opaque(v)
  }

  /** The object a document denotes: names are decoded, and the last member of a
      name counts. */
  function Denoted(es: Entries): map<Option<Bytes.Text>, Meaning> {
    var first := map[Decode(es.entry.name) := MeaningOf(es.entry.value)];
    if es.LastEntry? then first else first + Denoted(es.rest)
  }

  function DenotedBy(d: Document): map<Option<Bytes.Text>, Meaning> {
    if d.members.None? then map[] else Denoted(d.members.value)
  }

  /** A member that has this name only once its escapes are decoded. */
  predicate Alias(e: Entry, key: Bytes.Text) {
    e.name != key && Decode(e.name) == Some(key)
  }

  predicate HasAlias(es: Entries, key: Bytes.Text) {
    Alias(es.entry, key) || (es.MoreEntries? && HasAlias(es.rest, key))
  }

  /** Some member after the first of this name is an alias of it. */
  predicate AliasAfter(es: Entries, key: Bytes.Text) {
    if es.entry.name == key then es.MoreEntries? && HasAlias(es.rest, key)
    else es.MoreEntries? && AliasAfter(es.rest, key)
  }

  /** A name written without escapes. */
  predicate Plain(key: Bytes.Text) {
    forall i :: 0 <= i < |key| ==> key[i] >= 32 && key[i] != QUOTE && key[i] != BACKSLASH
  }

  lemma {:induction false} PlainDecodes(key: Bytes.Text)
    requires Plain(key)
    ensures Decode(key) == Some(key)
    decreases |key|
  {
    if key != [] {
      PlainDecodes(key[1..]);
      assert key == [key[0]] + key[1..];
    }
  }

  lemma {:induction false} AbsentDenoted(es: Entries, key: Bytes.Text)
    requires Named(es, key) == [] && !HasAlias(es, key)
    ensures Some(key) !in Denoted(es)
    decreases es
  {
    if es.MoreEntries? {
      AbsentDenoted(es.rest, key);
    }
  }

  lemma {:induction false} AliasDenoted(es: Entries, key: Bytes.Text)
    requires HasAlias(es, key)
    ensures Some(key) in Denoted(es)
    decreases es
  {
    if es.MoreEntries? && HasAlias(es.rest, key) {
      AliasDenoted(es.rest, key);
    }
  }

  lemma {:induction false} Covered<K, V>(m: map<K, V>, k: K, v: V, w: V)
    ensures k in m ==> map[k := v] + m == map[k := w] + m
    ensures k !in m ==> map[k := v] + m == (map[k := w] + m)[k := v]
  {
  }

  lemma {:induction false} Shifted<K, V>(first: map<K, V>, m: map<K, V>, k: K, v: V)
    ensures first + m[k := v] == (first + m)[k := v]
  {
  }

  /** The edit at the member itself. */
  lemma {:induction false} EditDenotesHere(es: Entries, key: Bytes.Text, inner: Bytes.Text, want: Bytes.Text)
    requires Plain(key) && Named(es, key) == [Str(inner)] && es.entry.name == key
    ensures Denoted(WithText(es, key, Escape(want)))
         == if AliasAfter(es, key) then Denoted(es) else Denoted(es)[Some(key) := Text(Some(want))]
  {
    EscapeRoundTrip(want);
    PlainDecodes(key);
    assert MeaningOf(Str(Escape(want))) == Text(Some(want));
    if es.MoreEntries? {
      assert Named(es.rest, key) == Named(es, key)[1..];
      WithTextAbsent(es.rest, key, Escape(want));
      Covered(Denoted(es.rest), Some(key), Text(Some(want)), MeaningOf(es.entry.value));
      if HasAlias(es.rest, key) {
        AliasDenoted(es.rest, key);
      } else {
        AbsentDenoted(es.rest, key);
      }
    }
  }

  /** The edit sets the member in the denoted object, exactly when no alias comes
      after it; otherwise the alias counts and the edit changes nothing there. */
  lemma {:induction false} EditDenotes(es: Entries, key: Bytes.Text, inner: Bytes.Text, want: Bytes.Text)
    requires Plain(key) && Named(es, key) == [Str(inner)]
    ensures Denoted(WithText(es, key, Escape(want)))
         == if AliasAfter(es, key) then Denoted(es) else Denoted(es)[Some(key) := Text(Some(want))]
    decreases es
  {
    if es.entry.name == key {
      EditDenotesHere(es, key, inner, want);
    } else {
      EditDenotes(es.rest, key, inner, want);
      var first := map[Decode(es.entry.name) := MeaningOf(es.entry.value)];
      Shifted(first, Denoted(es.rest), Some(key), Text(Some(want)));
    }
  }

  lemma {:induction false} KeysPlain()
    ensures Plain(CLIENT) && Plain(ACTIVE) && CLIENT != ACTIVE
  {
    assert |CLIENT| != |ACTIVE|;
  }

  lemma {:induction false} AliasKept(es: Entries, key: Bytes.Text, text: Bytes.Text, other: Bytes.Text)
    ensures HasAlias(WithText(es, key, text), other) == HasAlias(es, other)
    ensures AliasAfter(WithText(es, key, text), other) == AliasAfter(es, other)
    decreases es
  {
    if es.MoreEntries? {
      AliasKept(es.rest, key, text, other);
    }
  }

  /** The denoted object once this member is written: set, unless an alias after
      it is what counts. */
  function Wrote(m: map<Option<Bytes.Text>, Meaning>, es: Entries, key: Bytes.Text, want: Bytes.Text): map<Option<Bytes.Text>, Meaning> {
    if AliasAfter(es, key) then m else m[Some(key) := Text(Some(want))]
  }

  /** What reconciling means, wherever `SetDirsCorrect` says it succeeds: the
      denoted object with `clientDir` set to the wanted directory, and
      `activeClientDir` too, if it is there, exactly when it follows. Nothing
      else changes. Only a member that an alias after it hides is not set. */
  lemma {:induction false} ReconciledMeans(d: Document, want: Bytes.Text, follow: bool)
    requires Good(d) && Single(d, CLIENT) && (follow ==> NamedIn(d, ACTIVE) == [] || Single(d, ACTIVE))
    ensures var client := Wrote(DenotedBy(d), d.members.value, CLIENT, want);
            DenotedBy(Reconciled(d, want, follow)) ==
              if follow && NamedIn(d, ACTIVE) != [] then Wrote(client, d.members.value, ACTIVE, want) else client
  {
    KeysPlain();
    OneMeans(d, CLIENT, want);
    if follow {
      var e := WithMember(d, CLIENT, Escape(want));
      WithMemberGood(d, CLIENT, want, ACTIVE);
      AliasKept(d.members.value, CLIENT, Escape(want), ACTIVE);
      if NamedIn(d, ACTIVE) == [] {
        WithTextAbsent(e.members.value, ACTIVE, Escape(want));
      } else {
        OneMeans(e, ACTIVE, want);
      }
    }
  }

  lemma {:induction false} OneMeans(d: Document, key: Bytes.Text, want: Bytes.Text)
    requires d.members.Some? && Single(d, key) && Plain(key)
    ensures DenotedBy(WithMember(d, key, Escape(want))) == Wrote(DenotedBy(d), d.members.value, key, want)
  {
    assert NamedIn(d, key) == [Str(NamedIn(d, key)[0].inner)];
    EditDenotes(d.members.value, key, NamedIn(d, key)[0].inner, want);
  }

  /** Without aliases, a string member that is there once is what is read. */
  lemma {:induction false} SingleDenoted(es: Entries, key: Bytes.Text, inner: Bytes.Text)
    requires Plain(key) && Named(es, key) == [Str(inner)] && !HasAlias(es, key)
    ensures Some(key) in Denoted(es) && Denoted(es)[Some(key)] == Text(Decode(inner))
    decreases es
  {
    PlainDecodes(key);
    if es.entry.name == key {
      assert Named(es, key)[0] == es.entry.value;
      assert MeaningOf(es.entry.value) == Text(Decode(inner));
      if es.MoreEntries? {
        assert Named(es.rest, key) == Named(es, key)[1..];
        AbsentDenoted(es.rest, key);
      }
    } else {
      SingleDenoted(es.rest, key, inner);
    }
  }

  /** The bytes of an ASCII text. */
  function Ascii(s: string): Bytes.Text
    requires forall i :: 0 <= i < |s| ==> s[i] as int < 128
  {
    seq(|s|, i requires 0 <= i < |s| => s[i] as int)
  }

  lemma {:induction false} KeysSpelt()
    ensures CLIENT == Ascii("clientDir") && ACTIVE == Ascii("activeClientDir")
  {
  }

  /** A text without quotes, backslashes and control characters is written as it
      is. */
  lemma {:induction false} EscapePlain(s: Bytes.Text)
    requires Plain(s)
    ensures Escape(s) == s
    decreases |s|
  {
    if s != [] {
      EscapePlain(s[1..]);
      assert s == [s[0]] + s[1..];
    }
  }

  // ---------- reading, then editing ----------

  /** `read_launcher_client_dirs`, of one key. */
  function ReadKey(d: Document, key: Bytes.Text): Result<Option<Bytes.Text>, EditError> {
    var m := DenotedBy(d);
    if Some(key) !in m then Ok(None)
    else
      match m[Some(key)]
      case Text(Some(v)) => Ok(Some(v))
      case _ => Err(Unreadable)
  }

  /** Reconciling a settings file: the two directories are those it holds. */
  function Reconcile(d: Document, want: Bytes.Text): Result<Edited, EditError> {
    match (ReadKey(d, CLIENT), ReadKey(d, ACTIVE))
    case (Ok(Some(client)), Ok(active)) =>
      if client == want && active == Some(want) then Ok(Edited(Print(d), false, None))
      else SetDirs(Print(d), want, client, active)
    case (Ok(None), Ok(_)) => Err(NoClientDir)
    case _ => Err(Unreadable)
  }

  /** Whether `activeClientDir` follows: what it holds is the directory held or
      the one wanted. */
  predicate Tracks(d: Document, want: Bytes.Text)
    requires ReadKey(d, CLIENT).Ok? && ReadKey(d, CLIENT).value.Some? && ReadKey(d, ACTIVE).Ok?
  {
    Follows(want, ReadKey(d, CLIENT).value.value, ReadKey(d, ACTIVE).value)
  }

  /** Nothing is left to do: both directories are the one wanted. */
  predicate Done(d: Document, want: Bytes.Text) {
    ReadKey(d, CLIENT) == Ok(Some(want)) && ReadKey(d, ACTIVE) == Ok(Some(want))
  }

  /** The document a reconciled file is of. */
  function Outcome(d: Document, want: Bytes.Text): Document
    requires Reconcile(d, want).Ok?
  {
    if Done(d, want) then d else Reconciled(d, want, Tracks(d, want))
  }

  /** When reconciling succeeds, and with what. */
  lemma {:induction false} ReconcileExact(d: Document, want: Bytes.Text)
    requires Good(d)
    ensures Reconcile(d, want).Ok? <==>
              && ReadKey(d, CLIENT).Ok? && ReadKey(d, CLIENT).value.Some? && ReadKey(d, ACTIVE).Ok?
              && ((ReadKey(d, CLIENT) == Ok(Some(want)) && ReadKey(d, ACTIVE) == Ok(Some(want))) ||
                   (Single(d, CLIENT) && ((ReadKey(d, ACTIVE) == ReadKey(d, CLIENT) || ReadKey(d, ACTIVE) == Ok(Some(want))) ==> NamedIn(d, ACTIVE) == [] || Single(d, ACTIVE))))
    ensures Reconcile(d, want).Ok? ==> Reconcile(d, want).value.body == Print(Outcome(d, want))
    ensures Reconcile(d, want).Ok? && Done(d, want) ==>
              !Reconcile(d, want).value.changed && Reconcile(d, want).value.note == None
    ensures Reconcile(d, want).Ok? && !Done(d, want) ==>
              Reconcile(d, want).value.note ==
                if ReadKey(d, ACTIVE) == ReadKey(d, CLIENT) || ReadKey(d, ACTIVE) == Ok(Some(want)) then None
                else ReadKey(d, ACTIVE).value
  {
    if ReadKey(d, CLIENT).Ok? && ReadKey(d, CLIENT).value.Some? && ReadKey(d, ACTIVE).Ok? {
      SetDirsCorrect(d, want, ReadKey(d, CLIENT).value.value, ReadKey(d, ACTIVE).value);
    }
  }

  /** A key reads as it was written, or, if an alias hides the edit, as before. */
  lemma {:induction false} ReconciledReads(d: Document, want: Bytes.Text)
    requires Good(d) && Reconcile(d, want).Ok? && !Done(d, want)
    ensures var e := Outcome(d, want);
            && ReadKey(e, CLIENT) == (if AliasAfter(d.members.value, CLIENT) then ReadKey(d, CLIENT) else Ok(Some(want)))
            && ReadKey(e, ACTIVE) ==
                 if (ReadKey(d, ACTIVE) == ReadKey(d, CLIENT) || ReadKey(d, ACTIVE) == Ok(Some(want)))
                    && NamedIn(d, ACTIVE) != [] && !AliasAfter(d.members.value, ACTIVE) then Ok(Some(want))
                 else ReadKey(d, ACTIVE)
  {
    hide Denoted, Named, SetDirs, Print, Good, AliasAfter, Reconciled;
    ReconcileExact(d, want);
    KeysPlain();
    ReconciledMeans(d, want, Tracks(d, want));
  }

  /** Reconciling again, from what the edited file then holds, changes nothing. */
  lemma {:induction false} ReconcileSettles(d: Document, want: Bytes.Text)
    requires Good(d) && Reconcile(d, want).Ok?
    ensures var again := Reconcile(Outcome(d, want), want);
            again.Ok? && again.value.body == Reconcile(d, want).value.body && !again.value.changed
    ensures Good(Outcome(d, want))
  {
    var e := Outcome(d, want);
    ReconcileExact(d, want);
    if !Done(d, want) {
      ReconciledReads(d, want);
      ReconciledNames(d, want, Tracks(d, want));
      SettledAgain(d, want);
    }
  }

  lemma {:induction false} SettledAgain(d: Document, want: Bytes.Text)
    requires Good(d) && Reconcile(d, want).Ok? && !Done(d, want)
    requires Good(Outcome(d, want))
    ensures var again := Reconcile(Outcome(d, want), want);
            again.Ok? && again.value.body == Print(Outcome(d, want)) && !again.value.changed
  {
    hide Denoted, Named, Print, Good, AliasAfter;
    var e := Outcome(d, want);
    ReconcileExact(d, want);
    ReconciledReads(d, want);
    ReconciledNames(d, want, Tracks(d, want));
    ReconcileExact(e, want);
    if !Done(e, want) {
      assert Tracks(e, want) ==> Tracks(d, want);
      ReconciledTwice(d, want, Tracks(d, want), Tracks(e, want));
      SetDirsCorrect(e, want, ReadKey(e, CLIENT).value.value, ReadKey(e, ACTIVE).value);
    }
  }

  predicate NoAlias(d: Document) {
    d.members.Some? ==> !HasAlias(d.members.value, CLIENT) && !HasAlias(d.members.value, ACTIVE)
  }

  /** Where no member is an alias of either key: the edited file denotes the old
      object with `clientDir` set to the wanted directory, and `activeClientDir`
      exactly when it held the old or the wanted one. */
  lemma {:induction false} ReconcileMeans(d: Document, want: Bytes.Text)
    requires Good(d) && Reconcile(d, want).Ok? && NoAlias(d)
    ensures var m, wanted := DenotedBy(d)[Some(CLIENT) := Text(Some(want))], Text(Some(want));
            DenotedBy(Outcome(d, want)) ==
              if ReadKey(d, ACTIVE) == ReadKey(d, CLIENT) || ReadKey(d, ACTIVE) == Ok(Some(want)) then m[Some(ACTIVE) := wanted]
              else m
  {
    ReconcileExact(d, want);
    if Done(d, want) {
      DoneDenotes(d, want);
    } else {
      NoAliasAfter(d.members.value, CLIENT);
      NoAliasAfter(d.members.value, ACTIVE);
      if NamedIn(d, ACTIVE) == [] {
        AbsentDenoted(d.members.value, ACTIVE);
      }
      hide Denoted, Named, SetDirs;
      ReconciledMeans(d, want, Tracks(d, want));
    }
  }

  lemma {:induction false} DoneDenotes(d: Document, want: Bytes.Text)
    requires Done(d, want)
    ensures DenotedBy(d) == DenotedBy(d)[Some(CLIENT) := Text(Some(want))]
    ensures DenotedBy(d) == DenotedBy(d)[Some(ACTIVE) := Text(Some(want))]
  {
    hide DenotedBy;
  }

  /** And reconciling again comes to the same note. */
  lemma {:induction false} ReconcileNote(d: Document, want: Bytes.Text)
    requires Good(d) && Reconcile(d, want).Ok? && NoAlias(d)
    ensures Reconcile(Outcome(d, want), want) == Ok(Reconcile(d, want).value.(changed := false))
  {
    HasMembers(d, want);
    hide Reconcile, ReadKey, Reconciled, Print, SetDirs, Denoted, Named, Good, AliasAfter, HasAlias;
    ReconcileExact(d, want);
    ReconcileSettles(d, want);
    if !Done(d, want) {
      NoAliasAfter(d.members.value, CLIENT);
      NoAliasAfter(d.members.value, ACTIVE);
      AbsentRead(d, ACTIVE);
      NoteAgain(d, want);
    }
  }

  lemma {:induction false} HasMembers(d: Document, want: Bytes.Text)
    requires Reconcile(d, want).Ok?
    ensures d.members.Some?
  {
  }

  lemma {:induction false} AbsentRead(d: Document, key: Bytes.Text)
    requires d.members.Some? && !HasAlias(d.members.value, key)
    ensures NamedIn(d, key) == [] ==> ReadKey(d, key) == Ok(None)
  {
    if NamedIn(d, key) == [] {
      AbsentDenoted(d.members.value, key);
    }
  }

  lemma {:induction false} NoteAgain(d: Document, want: Bytes.Text)
    requires Good(d) && Reconcile(d, want).Ok? && !Done(d, want)
    requires !AliasAfter(d.members.value, CLIENT) && !AliasAfter(d.members.value, ACTIVE)
    requires NamedIn(d, ACTIVE) == [] ==> ReadKey(d, ACTIVE) == Ok(None)
    requires Reconcile(Outcome(d, want), want).Ok? && Good(Outcome(d, want))
    ensures Reconcile(Outcome(d, want), want).value.note == Reconcile(d, want).value.note
  {
    hide Reconcile, ReadKey, Outcome, Reconciled, Print, SetDirs, Denoted, Named, Good, AliasAfter;
    ReconcileExact(d, want);
    ReconciledReads(d, want);
    ReconcileExact(Outcome(d, want), want);
  }

  lemma {:induction false} NoAliasAfter(es: Entries, key: Bytes.Text)
    requires !HasAlias(es, key)
    ensures !AliasAfter(es, key)
    decreases es
  {
    if es.MoreEntries? {
      NoAliasAfter(es.rest, key);
    }
  }

  /** Such an alias does hide the edit: after `{"clientDir":"","clientDi\u0072":""}`
      is reconciled, a reader still sees what it saw. */
  lemma {:induction false} AliasHidesEdit(want: Bytes.Text)
    ensures var d := AliasExample(); var r := SetDirs(Print(d), want, [], None);
            && Good(d) && r.Ok? && r.value.body == Print(Reconciled(d, want, false))
            && DenotedBy(Reconciled(d, want, false)) == DenotedBy(d)
  {
    var d := AliasExample();
    AliasExampleGood();
    SetDirsCorrect(d, want, [], None);
    ReconciledMeans(d, want, false);
  }

  lemma {:induction false} AliasExampleGood()
    ensures var d := AliasExample();
            Good(d) && NamedIn(d, CLIENT) == [Str([])] && AliasAfter(d.members.value, CLIENT)
  {
    KeysPlain();
    EscapedName();
    PlainPrefix(CLIENT, []);
    assert CLIENT + [] == CLIENT;
    TwoEmptyGood(CLIENT, ESCAPED);
  }

  lemma {:induction false} TwoEmptyGood(a: Bytes.Text, b: Bytes.Text)
    requires StringText(a) && StringText(b) && a != b && Decode(b) == Some(a)
    ensures var d := TwoEmpty(a, b);
            Good(d) && NamedIn(d, a) == [Str([])] && AliasAfter(d.members.value, a)
  {
    var es := TwoEmpty(a, b).members.value;
    assert Named(es.rest, a) == [];
    assert Alias(es.rest.entry, a);
  }

  /** `clientDi\u0072` */
  const ESCAPED: Bytes.Text := [99, 108, 105, 101, 110, 116, 68, 105, BACKSLASH, LOWER_U, 48, 48, 55, 50]

  /** Two members whose value is the empty string. */
  function TwoEmpty(a: Bytes.Text, b: Bytes.Text): Document {
    Document([], [], Some(MoreEntries(Entry([], a, [], [], Str([]), []), LastEntry(Entry([], b, [], [], Str([]), [])))), [])
  }

  function AliasExample(): Document {
    TwoEmpty(CLIENT, ESCAPED)
  }

  lemma {:induction false} EscapedName()
    ensures StringText(ESCAPED) && Decode(ESCAPED) == Some(CLIENT) && ESCAPED != CLIENT
  {
    var plain: Bytes.Text, tail: Bytes.Text := CLIENT[..8], [BACKSLASH, LOWER_U, 48, 48, 55, 50];
    EscapedTail(tail);
    PlainPrefix(plain, tail);
    assert plain + [114] == CLIENT;
    assert plain + tail == ESCAPED;
    assert |ESCAPED| != |CLIENT|;
  }

  lemma {:induction false} EscapedTail(tail: Bytes.Text)
    requires tail == [BACKSLASH, LOWER_U, 48, 48, 55, 50]
    ensures StringText(tail) && Decode(tail) == Some([114])
  {
    assert UnicodeEscape(tail) && UnitLength(tail) == 6;
    assert Hex4(tail) == 0x72 && Utf8(0x72) == [114];
    assert DecodeUnit(tail) == Some(([114], 6));
    var rest := tail[6..];
    assert rest == [];
    assert StringText(rest) && Decode(rest) == Some([]);
    assert Decode(tail) == Prepend([114], Decode(rest));
    PrependTwice([114], [], Some([]));
    assert [114] + [] == [114];
  }

  lemma {:induction false} PlainPrefix(a: Bytes.Text, tail: Bytes.Text)
    requires Plain(a)
    ensures StringText(a + tail) == StringText(tail) && Decode(a + tail) == Prepend(a, Decode(tail))
    decreases |a|
  {
    if a == [] {
      assert a + tail == tail;
      PrependTwice([], [], Decode(tail));
    } else {
      var rest := a[1..] + tail;
      PlainPrefix(a[1..], tail);
      PlainFirst(a[0], rest);
      assert a + tail == [a[0]] + rest;
      PrependTwice([a[0]], a[1..], Decode(tail));
      assert a == [a[0]] + a[1..];
    }
  }

  lemma {:induction false} PrependTwice(a: Bytes.Text, b: Bytes.Text, x: Option<Bytes.Text>)
    ensures Prepend(a, Prepend(b, x)) == Prepend(a + b, x) && (a == [] ==> Prepend(a, x) == x)
  {
    if x.Some? {
      assert a + (b + x.value) == a + b + x.value;
      assert [] + x.value == x.value;
    }
  }

  lemma {:induction false} PlainFirst(c: byte, rest: Bytes.Text)
    requires c >= 32 && c != QUOTE && c != BACKSLASH
    ensures StringText([c] + rest) == StringText(rest) && Decode([c] + rest) == Prepend([c], Decode(rest))
  {
    assert ([c] + rest)[1..] == rest;
  }
}
