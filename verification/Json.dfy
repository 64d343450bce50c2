/** The hand-written scanner that finds a top-level string member of a JSON
    object (crates/modde-manager/src/wiring.rs, `json_top_level_string_span`),
    the documents of RFC 8259 with their exact bytes, and the proof that the
    scanner finds the right span in every one of them. */
module Json {
  import opened Bytes
  import opened Results

  const QUOTE: byte := 34
  const COMMA: byte := 44
  const COLON: byte := 58
  const OPEN_BRACKET: byte := 91
  const BACKSLASH: byte := 92
  const CLOSE_BRACKET: byte := 93
  const LOWER_U: byte := 117
  const OPEN_BRACE: byte := 123
  const CLOSE_BRACE: byte := 125

  /** `is_ascii_whitespace`: one more byte, the form feed, than JSON has. */
  predicate Space(c: byte) {
    c == 32 || c == 9 || c == 10 || c == 12 || c == 13
  }

  predicate HexDigit(c: byte) {
    48 <= c <= 57 || 65 <= c <= 70 || 97 <= c <= 102
  }

  predicate Opens(c: byte) {
    c == OPEN_BRACE || c == OPEN_BRACKET
  }

  predicate Closes(c: byte) {
    c == CLOSE_BRACE || c == CLOSE_BRACKET
  }

  datatype Fault =
    | MalformedEscape
    | UnterminatedString
    | EndsMidValue
    | Unbalanced
    | NotAnObject
    | EndsInObject
    | TrailingData
    | MalformedMember
    | DuplicateKey
    | NotAString
    | MalformedSeparator

  datatype Span = Span(start: nat, end: nat)

  // ---------- what the scanning loops compute ----------

  function SkipSpace(b: Text, p: nat): (q: nat)
    requires p <= |b|
    ensures p <= q <= |b|
    decreases |b| - p
  {
    if p < |b| && Space(b[p]) then SkipSpace(b, p + 1) else p
  }

  /** How far the character or escape at `p` of a string reaches. */
  function StringUnit(b: Text, p: nat): (r: Result<nat, Fault>)
    requires p < |b|
    ensures r.Ok? ==> 0 < r.value && p + r.value <= |b|
  {
    if b[p] != BACKSLASH then Ok(1)
    else if p + 1 == |b| then Err(UnterminatedString)
    else if b[p + 1] != LOWER_U then Ok(2)
    else if p + 6 <= |b| && (forall i :: p + 2 <= i < p + 6 ==> HexDigit(b[i])) then Ok(6)
    else Err(MalformedEscape)
  }

  /** The position of the quote that ends the string whose text starts at `p`. */
  function StringEnd(b: Text, p: nat): (r: Result<nat, Fault>)
    requires p <= |b|
    ensures r.Ok? ==> p <= r.value < |b|
    decreases |b| - p
  {
    if p == |b| then Err(UnterminatedString)
    else if b[p] == QUOTE then Ok(p)
    else
      match StringUnit(b, p)
      case Err(e) => Err(e)
      case Ok(n) => StringEnd(b, p + n)
  }

  /** The position past the bracket that closes the `depth` brackets open at `p`. */
  function NestedEnd(b: Text, p: nat, depth: nat): (r: Result<nat, Fault>)
    requires p <= |b| && depth > 0
    ensures r.Ok? ==> p < r.value <= |b|
    decreases |b| - p
  {
    if p == |b| then Err(Unbalanced)
    else if b[p] == QUOTE then
      match StringEnd(b, p + 1)
      case Err(e) => Err(e)
      case Ok(q) => NestedEnd(b, q + 1, depth)
    else if Opens(b[p]) then NestedEnd(b, p + 1, depth + 1)
    else if Closes(b[p]) then if depth == 1 then Ok(p + 1) else NestedEnd(b, p + 1, depth - 1)
    else NestedEnd(b, p + 1, depth)
  }

  function AtomEnd(b: Text, p: nat): (q: nat)
    requires p <= |b|
    ensures p <= q <= |b|
    decreases |b| - p
  {
    if p < |b| && b[p] != COMMA && !Closes(b[p]) then AtomEnd(b, p + 1) else p
  }

  function ValueEnd(b: Text, p: nat): (r: Result<nat, Fault>)
    requires p <= |b|
    ensures r.Ok? ==> p <= r.value <= |b|
  {
    var s := SkipSpace(b, p);
    if s == |b| then Err(EndsMidValue)
    else if b[s] == QUOTE then
      match StringEnd(b, s + 1)
      case Err(e) => Err(e)
      case Ok(q) => Ok(q + 1)
    else if Opens(b[s]) then NestedEnd(b, s + 1, 1)
    else Ok(AtomEnd(b, s))
  }

  /** What one member leaves: the span found so far, and where to go on. */
  datatype Scanned = Scanned(found: Option<Span>, next: nat)

  /** A member from its opening quote to its value: the name, and where that is. */
  function Header(b: Text, p: nat): (r: Result<(Span, nat), Fault>)
    requires p < |b|
    ensures r.Ok? ==> r.value.0.start <= r.value.0.end < |b| && p < r.value.1 <= |b|
  {
    match StringEnd(b, p + 1)
    case Err(e) => Err(e)
    case Ok(q) =>
      var colon := SkipSpace(b, q + 1);
      if colon == |b| || b[colon] != COLON then Err(MalformedMember)
      else Ok((Span(p + 1, q), SkipSpace(b, colon + 1)))
  }

  /** The value of a member at `v`; `named` when it is the one looked for. */
  function Body(b: Text, v: nat, named: bool, found: Option<Span>): (r: Result<Scanned, Fault>)
    requires v <= |b|
    ensures r.Ok? ==> v <= r.value.next <= |b|
  {
    if named then
      if found.Some? then Err(DuplicateKey)
      else if v == |b| || b[v] != QUOTE then Err(NotAString)
      else
        match StringEnd(b, v + 1)
        case Err(e) => Err(e)
        case Ok(end) => Ok(Scanned(Some(Span(v + 1, end)), end + 1))
    else
      match ValueEnd(b, v)
      case Err(e) => Err(e)
      case Ok(end) => Ok(Scanned(found, end))
  }

  /** One member from its opening quote at `p` to past its value. */
  function Member(b: Text, p: nat, key: Text, found: Option<Span>): (r: Result<Scanned, Fault>)
    requires p < |b|
    ensures r.Ok? ==> p < r.value.next <= |b|
  {
    match Header(b, p)
    case Err(e) => Err(e)
    case Ok(h) => Body(b, h.1, b[h.0.start..h.0.end] == key, found)
  }

  /** A member and what separates it from the next or ends the object. */
  function Separated(b: Text, p: nat, key: Text, found: Option<Span>): (r: Result<Scanned, Fault>)
    requires p < |b|
    ensures r.Ok? ==> p < r.value.next <= |b|
  {
    match Member(b, p, key, found)
    case Err(e) => Err(e)
    case Ok(m) =>
      var c := SkipSpace(b, m.next);
      if c == |b| || (b[c] != COMMA && b[c] != CLOSE_BRACE) then Err(MalformedSeparator)
      else Ok(Scanned(m.found, if b[c] == COMMA then c + 1 else c))
  }

  /** The members from `p` on, to the end of the document. */
  function Members(b: Text, p: nat, key: Text, found: Option<Span>): Result<Option<Span>, Fault>
    requires p <= |b|
    decreases |b| - p
  {
    var s := SkipSpace(b, p);
    if s == |b| then Err(EndsInObject)
    else if b[s] == CLOSE_BRACE then
      if SkipSpace(b, s + 1) == |b| then Ok(found) else Err(TrailingData)
    else if b[s] != QUOTE then Err(MalformedMember)
    else
      match Separated(b, s, key, found)
      case Err(e) => Err(e)
      case Ok(m) => Members(b, m.next, key, m.found)
  }

  function TopLevelSpan(b: Text, key: Text): Result<Option<Span>, Fault> {
    var s := SkipSpace(b, 0);
    if s == |b| || b[s] != OPEN_BRACE then Err(NotAnObject) else Members(b, s + 1, key, None)
  }

  // ---------- the scanner ----------

  method ScanSpace(b: Text, p: nat) returns (q: nat)
    requires p <= |b|
    ensures q == SkipSpace(b, p)
  {
    q := p;
    while q < |b| && Space(b[q])
      invariant p <= q <= |b| && SkipSpace(b, q) == SkipSpace(b, p)
    {
      q := q + 1;
    }
  }

  /** `string_at`: from the opening quote at `p` to past the closing one. */
  method ScanString(b: Text, p: nat) returns (r: Result<(Span, nat), Fault>)
    requires p < |b|
    ensures r == match StringEnd(b, p + 1)
                 case Err(e) => Err(e)
                 case Ok(q) => Ok((Span(p + 1, q), q + 1))
  {
    var pos := p + 1;
    while pos < |b|
      invariant p < pos <= |b| && StringEnd(b, pos) == StringEnd(b, p + 1)
    {
      if b[pos] == BACKSLASH {
        if pos + 1 == |b| {
          break;
        }
        if b[pos + 1] == LOWER_U {
          var hex := ScanHex(b, pos + 2);
          if !hex {
            return Err(MalformedEscape);
          }
          pos := pos + 6;
        } else {
          pos := pos + 2;
        }
      } else if b[pos] == QUOTE {
        return Ok((Span(p + 1, pos), pos + 1));
      } else {
        pos := pos + 1;
      }
    }
    return Err(UnterminatedString);
  }

  /** The four hexadecimal digits of an escape. */
  method ScanHex(b: Text, p: nat) returns (ok: bool)
    requires p <= |b|
    ensures ok <==> p + 4 <= |b| && forall i :: p <= i < p + 4 ==> HexDigit(b[i])
  {
    var pos := p;
    for n := 0 to 4
      invariant pos == p + n <= |b| && forall i :: p <= i < pos ==> HexDigit(b[i])
    {
      if pos < |b| && HexDigit(b[pos]) {
        pos := pos + 1;
      } else {
        return false;
      }
    }
    ok := true;
  }

  /** `skip_value`. The depth never goes below zero, whatever the input. */
  method ScanValue(b: Text, p: nat) returns (r: Result<nat, Fault>)
    requires p <= |b|
    ensures r == ValueEnd(b, p)
  {
    var pos := ScanSpace(b, p);
    if pos == |b| {
      return Err(EndsMidValue);
    }
    if b[pos] == QUOTE {
      var s := ScanString(b, pos);
      return if s.Err? then Err(s.error) else Ok(s.value.1);
    }
    if !Opens(b[pos]) {
      ghost var start := pos;
      while pos < |b| && b[pos] != COMMA && !Closes(b[pos])
        invariant start <= pos <= |b| && AtomEnd(b, pos) == AtomEnd(b, start)
      {
        pos := pos + 1;
      }
      return Ok(pos);
    }
    r := ScanNested(b, pos);
  }

  method ScanNested(b: Text, p: nat) returns (r: Result<nat, Fault>)
    requires p < |b| && Opens(b[p])
    ensures r == NestedEnd(b, p + 1, 1)
  {
    var pos, depth: nat := p, 0;
    while pos < |b|
      invariant p <= pos <= |b|
      invariant if pos == p then depth == 0 else depth > 0 && NestedEnd(b, pos, depth) == NestedEnd(b, p + 1, 1)
      decreases |b| - pos
    {
      if b[pos] == QUOTE {
        var s := ScanString(b, pos);
        if s.Err? {
          return Err(s.error);
        }
        pos := s.value.1;
      } else if Opens(b[pos]) {
        depth, pos := depth + 1, pos + 1;
      } else if Closes(b[pos]) {
        depth, pos := depth - 1, pos + 1;
        if depth == 0 {
          return Ok(pos);
        }
      } else {
        pos := pos + 1;
      }
    }
    return Err(Unbalanced);
  }

  method ScanMember(b: Text, p: nat, key: Text, found: Option<Span>) returns (r: Result<Scanned, Fault>)
    requires p < |b|
    ensures r == Member(b, p, key, found)
  {
    var name := ScanString(b, p);
    if name.Err? {
      return Err(name.error);
    }
    var pos := ScanSpace(b, name.value.1);
    if pos == |b| || b[pos] != COLON {
      return Err(MalformedMember);
    }
    pos := ScanSpace(b, pos + 1);
    if b[name.value.0.start..name.value.0.end] == key {
      if found.Some? {
        return Err(DuplicateKey);
      }
      if pos == |b| || b[pos] != QUOTE {
        return Err(NotAString);
      }
      var text := ScanString(b, pos);
      return if text.Err? then Err(text.error) else Ok(Scanned(Some(text.value.0), text.value.1));
    }
    var end := ScanValue(b, pos);
    return if end.Err? then Err(end.error) else Ok(Scanned(found, end.value));
  }

  method ScanSeparated(b: Text, p: nat, key: Text, found: Option<Span>) returns (r: Result<Scanned, Fault>)
    requires p < |b|
    ensures r == Separated(b, p, key, found)
  {
    r := ScanMember(b, p, key, found);
    if r.Err? {
      return;
    }
    var pos := ScanSpace(b, r.value.next);
    if pos < |b| && b[pos] == COMMA {
      pos := pos + 1;
    } else if pos == |b| || b[pos] != CLOSE_BRACE {
      return Err(MalformedSeparator);
    }
    r := Ok(Scanned(r.value.found, pos));
  }

  method ScanTopLevel(b: Text, key: Text) returns (r: Result<Option<Span>, Fault>)
    ensures r == TopLevelSpan(b, key)
  {
    var pos := ScanSpace(b, 0);
    if pos == |b| || b[pos] != OPEN_BRACE {
      return Err(NotAnObject);
    }
    pos := pos + 1;
    var found := None;
    while true
      invariant pos <= |b| && Members(b, pos, key, found) == TopLevelSpan(b, key)
      decreases |b| - pos
    {
      pos := ScanSpace(b, pos);
      if pos == |b| {
        return Err(EndsInObject);
      }
      if b[pos] == CLOSE_BRACE {
        pos := ScanSpace(b, pos + 1);
        return if pos == |b| then Ok(found) else Err(TrailingData);
      }
      if b[pos] != QUOTE {
        return Err(MalformedMember);
      }
      var m := ScanSeparated(b, pos, key, found);
      if m.Err? {
        return Err(m.error);
      }
      found, pos := m.value.found, m.value.next;
    }
  }
}
