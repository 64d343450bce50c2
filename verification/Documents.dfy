/** JSON object documents with their exact bytes (RFC 8259, sections 2 to 7), and
    the correctness of the scanner of `Json` on every one of them. */
module Documents {
  import opened Bytes
  import opened Results
  import opened Json

  /** A value as it is written. `Atom` covers numbers and the three literals. */
  datatype Value =
    | Atom(text: Text)
    | Str(inner: Text)
    | EmptyArray(blank: Text)
    | EmptyObject(blank: Text)
    | Array(items: Items)
    | Object(entries: Entries)

  datatype Item = Item(before: Text, value: Value, after: Text)

  datatype Items = LastItem(item: Item) | MoreItems(item: Item, others: Items)

  datatype Entry = Entry(before: Text, name: Text, afterName: Text, beforeValue: Text, value: Value, after: Text)

  datatype Entries = LastEntry(entry: Entry) | MoreEntries(entry: Entry, rest: Entries)

  /** An object document: white space, members if any, white space. */
  datatype Document = Document(before: Text, blank: Text, members: Option<Entries>, after: Text)

  // ---------- printing ----------

  function Quoted(inner: Text): Text {
    [QUOTE] + inner + [QUOTE]
  }

  function PrintValue(v: Value): Text {
    match v
    case Atom(text) => text
    case Str(inner) => Quoted(inner)
    case EmptyArray(blank) => [OPEN_BRACKET] + blank + [CLOSE_BRACKET]
    case EmptyObject(blank) => [OPEN_BRACE] + blank + [CLOSE_BRACE]
    case Array(items) => [OPEN_BRACKET] + PrintItems(items) + [CLOSE_BRACKET]
    case Object(entries) => [OPEN_BRACE] + PrintEntries(entries) + [CLOSE_BRACE]
  }

  function PrintItem(i: Item): Text {
    i.before + PrintValue(i.value) + i.after
  }

  function PrintItems(items: Items): Text {
    match items
    case LastItem(i) => PrintItem(i)
    case MoreItems(i, others) => PrintItem(i) + [COMMA] + PrintItems(others)
  }

  /** What stands between a member's name and its value. */
  function Gap(e: Entry): Text {
    e.afterName + [COLON] + e.beforeValue
  }

  /** A member up to its value. */
  function PrintName(e: Entry): Text {
    e.before + Quoted(e.name) + Gap(e)
  }

  function PrintEntry(e: Entry): Text {
    PrintName(e) + PrintValue(e.value) + e.after
  }

  function PrintEntries(es: Entries): Text {
    match es
    case LastEntry(e) => PrintEntry(e)
    case MoreEntries(e, rest) => PrintEntry(e) + [COMMA] + PrintEntries(rest)
  }

  function PrintBody(d: Document): Text {
    if d.members.None? then d.blank else PrintEntries(d.members.value)
  }

  function Print(d: Document): Text {
    d.before + [OPEN_BRACE] + PrintBody(d) + [CLOSE_BRACE] + d.after
  }

  // ---------- well-formed documents ----------

  predicate WhiteSpace(s: Text) {
    forall i :: 0 <= i < |s| ==> s[i] == 32 || s[i] == 9 || s[i] == 10 || s[i] == 13
  }

  /** The bytes of numbers and of `true`, `false` and `null`. */
  predicate AtomText(s: Text) {
    s != [] && forall i :: 0 <= i < |s| ==>
      48 <= s[i] <= 57 || 97 <= s[i] <= 122 || s[i] == 69 || s[i] == 43 || s[i] == 45 || s[i] == 46
  }

  /** What may follow a backslash, other than a `u`. */
  predicate Escapable(c: byte) {
    c == QUOTE || c == BACKSLASH || c == 47 || c == 98 || c == 102 || c == 110 || c == 114 || c == 116
  }

  predicate UnicodeEscape(s: Text) {
    |s| >= 6 && s[0] == BACKSLASH && s[1] == LOWER_U && forall i :: 2 <= i < 6 ==> HexDigit(s[i])
  }

  /** The length of the character or escape a string's text begins with. */
  function UnitLength(s: Text): (n: nat)
    requires s != []
    ensures n <= |s|
  {
    if s[0] != BACKSLASH then if s[0] >= 32 && s[0] != QUOTE then 1 else 0
    else if UnicodeEscape(s) then 6
    else if |s| >= 2 && Escapable(s[1]) then 2
    else 0
  }

  /** The text of a string between its quotes. */
  predicate StringText(s: Text) {
    s == [] || (UnitLength(s) > 0 && StringText(s[UnitLength(s)..]))
  }

  predicate GoodValue(v: Value) {
    match v
    case Atom(text) => AtomText(text)
    case Str(inner) => StringText(inner)
    case EmptyArray(blank) => WhiteSpace(blank)
    case EmptyObject(blank) => WhiteSpace(blank)
    case Array(items) => GoodItems(items)
    case Object(entries) => GoodEntries(entries)
  }

  predicate GoodItem(i: Item) {
    WhiteSpace(i.before) && GoodValue(i.value) && WhiteSpace(i.after)
  }

  predicate GoodItems(items: Items) {
    match items
    case LastItem(i) => GoodItem(i)
    case MoreItems(i, others) => GoodItem(i) && GoodItems(others)
  }

  predicate GoodEntry(e: Entry) {
    && WhiteSpace(e.before) && StringText(e.name) && WhiteSpace(e.afterName)
    && WhiteSpace(e.beforeValue) && GoodValue(e.value) && WhiteSpace(e.after)
  }

  predicate GoodEntries(es: Entries) {
    match es
    case LastEntry(e) => GoodEntry(e)
    case MoreEntries(e, rest) => GoodEntry(e) && GoodEntries(rest)
  }

  predicate Good(d: Document) {
    WhiteSpace(d.before) && WhiteSpace(d.blank) && WhiteSpace(d.after) && (d.members.Some? ==> GoodEntries(d.members.value))
  }

  // ---------- scanning one construct ----------

  lemma {:induction false} SpaceOver(b: Text, p: nat, s: Text)
    requires At(b, p, s) && WhiteSpace(s)
    ensures SkipSpace(b, p) == SkipSpace(b, p + |s|)
    decreases |s|
  {
    if s != [] {
      AtTail(b, p, s);
      assert Space(b[p]);
      SpaceOver(b, p + 1, s[1..]);
    }
  }

  lemma {:induction false} UnitOver(b: Text, p: nat, inner: Text)
    requires At(b, p, inner) && inner != [] && UnitLength(inner) > 0
    ensures b[p] != QUOTE && StringUnit(b, p) == Ok(UnitLength(inner))
  {
    AtIndex(b, p, inner, 0);
    if inner[0] == BACKSLASH {
      AtIndex(b, p, inner, 1);
      if UnicodeEscape(inner) {
        forall i | p + 2 <= i < p + 6 ensures HexDigit(b[i]) {
          AtIndex(b, p, inner, i - p);
        }
      }
    }
  }

  lemma {:induction false} StringOver(b: Text, p: nat, inner: Text)
    requires At(b, p, inner) && StringText(inner) && p + |inner| < |b| && b[p + |inner|] == QUOTE
    ensures StringEnd(b, p) == Ok(p + |inner|)
    decreases |inner|
  {
    if inner != [] {
      var n := UnitLength(inner);
      UnitOver(b, p, inner);
      AtSuffix(b, p, inner, n);
      StringOver(b, p + n, inner[n..]);
    }
  }

  /** Bytes that change nothing about the nesting. */
  predicate Neutral(s: Text) {
    forall i :: 0 <= i < |s| ==> s[i] != QUOTE && !Opens(s[i]) && !Closes(s[i])
  }

  lemma {:induction false} NestedOver(b: Text, p: nat, s: Text, depth: nat)
    requires At(b, p, s) && Neutral(s) && depth > 0
    ensures NestedEnd(b, p, depth) == NestedEnd(b, p + |s|, depth)
    decreases |s|
  {
    if s != [] {
      AtTail(b, p, s);
      NestedOver(b, p + 1, s[1..], depth);
    }
  }

  lemma {:induction false} QuotedParts(b: Text, p: nat, inner: Text)
    requires At(b, p, Quoted(inner))
    ensures p + 1 + |inner| < |b| && b[p] == QUOTE && At(b, p + 1, inner) && b[p + 1 + |inner|] == QUOTE
  {
    AtConcat(b, p, [QUOTE] + inner, [QUOTE]);
    AtConcat(b, p, [QUOTE], inner);
    AtIndex(b, p, [QUOTE], 0);
    AtIndex(b, p + 1 + |inner|, [QUOTE], 0);
  }

  lemma {:induction false} NestedString(b: Text, p: nat, inner: Text, depth: nat)
    requires At(b, p, Quoted(inner)) && StringText(inner) && depth > 0
    ensures NestedEnd(b, p, depth) == NestedEnd(b, p + |Quoted(inner)|, depth)
  {
    QuotedParts(b, p, inner);
    StringOver(b, p + 1, inner);
  }

  lemma {:induction false} BracketParts(b: Text, p: nat, open: byte, s: Text, close: byte)
    requires At(b, p, [open] + s + [close])
    ensures b[p] == open && At(b, p + 1, s) && p + 1 + |s| < |b| && b[p + 1 + |s|] == close
    ensures |[open] + s + [close]| == |s| + 2
  {
    AtConcat(b, p, [open] + s, [close]);
    AtConcat(b, p, [open], s);
    AtIndex(b, p, [open], 0);
    AtIndex(b, p + 1 + |s|, [close], 0);
  }

  lemma {:induction false} NestedGroup(b: Text, p: nat, open: byte, s: Text, close: byte, depth: nat)
    requires At(b, p, [open] + s + [close]) && Opens(open) && Closes(close) && depth > 0
    requires p + 1 + |s| <= |b| ==> NestedEnd(b, p + 1, depth + 1) == NestedEnd(b, p + 1 + |s|, depth + 1)
    ensures NestedEnd(b, p, depth) == NestedEnd(b, p + |[open] + s + [close]|, depth)
  {
    BracketParts(b, p, open, s, close);
  }

  lemma {:induction false} NestedBlank(b: Text, p: nat, open: byte, blank: Text, close: byte, depth: nat)
    requires At(b, p, [open] + blank + [close]) && Opens(open) && Closes(close) && WhiteSpace(blank) && depth > 0
    ensures NestedEnd(b, p, depth) == NestedEnd(b, p + |[open] + blank + [close]|, depth)
  {
    BracketParts(b, p, open, blank, close);
    NestedOver(b, p + 1, blank, depth + 1);
    NestedGroup(b, p, open, blank, close, depth);
  }

  /** Inside brackets, a whole value is passed over at the same depth. */
  lemma {:induction false} NestedValue(b: Text, p: nat, v: Value, depth: nat)
    requires At(b, p, PrintValue(v)) && GoodValue(v) && depth > 0
    ensures NestedEnd(b, p, depth) == NestedEnd(b, p + |PrintValue(v)|, depth)
    decreases v
  {
    match v
    case Atom(text) => NestedOver(b, p, text, depth);
    case Str(inner) => NestedString(b, p, inner, depth);
    case EmptyArray(blank) => NestedBlank(b, p, OPEN_BRACKET, blank, CLOSE_BRACKET, depth);
    case EmptyObject(blank) => NestedBlank(b, p, OPEN_BRACE, blank, CLOSE_BRACE, depth);
    case Array(items) =>
      BracketParts(b, p, OPEN_BRACKET, PrintItems(items), CLOSE_BRACKET);
      NestedItems(b, p + 1, items, depth + 1);
      NestedGroup(b, p, OPEN_BRACKET, PrintItems(items), CLOSE_BRACKET, depth);
    case Object(entries) =>
      BracketParts(b, p, OPEN_BRACE, PrintEntries(entries), CLOSE_BRACE);
      NestedEntries(b, p + 1, entries, depth + 1);
      NestedGroup(b, p, OPEN_BRACE, PrintEntries(entries), CLOSE_BRACE, depth);
  }

  lemma {:induction false} NestedItem(b: Text, p: nat, i: Item, depth: nat)
    requires At(b, p, PrintItem(i)) && GoodItem(i) && depth > 0
    ensures NestedEnd(b, p, depth) == NestedEnd(b, p + |PrintItem(i)|, depth)
    decreases i
  {
    AtConcat(b, p, i.before + PrintValue(i.value), i.after);
    AtConcat(b, p, i.before, PrintValue(i.value));
    NestedOver(b, p, i.before, depth);
    NestedValue(b, p + |i.before|, i.value, depth);
    NestedOver(b, p + |i.before + PrintValue(i.value)|, i.after, depth);
  }

  lemma {:induction false} ItemsParts(b: Text, p: nat, items: Items)
    requires At(b, p, PrintItems(items))
    ensures At(b, p, PrintItem(items.item))
    ensures items.MoreItems? ==>
              At(b, p + |PrintItem(items.item)|, [COMMA]) && At(b, p + |PrintItem(items.item)| + 1, PrintItems(items.others))
  {
    if items.MoreItems? {
      AtConcat(b, p, PrintItem(items.item) + [COMMA], PrintItems(items.others));
      AtConcat(b, p, PrintItem(items.item), [COMMA]);
    }
  }

  lemma {:induction false} NestedItems(b: Text, p: nat, items: Items, depth: nat)
    requires At(b, p, PrintItems(items)) && GoodItems(items) && depth > 0
    ensures NestedEnd(b, p, depth) == NestedEnd(b, p + |PrintItems(items)|, depth)
    decreases items
  {
    ItemsParts(b, p, items);
    NestedItem(b, p, items.item, depth);
    if items.MoreItems? {
      NestedOver(b, p + |PrintItem(items.item)|, [COMMA], depth);
      NestedItems(b, p + |PrintItem(items.item)| + 1, items.others, depth);
    }
  }

  lemma {:induction false} NestedName(b: Text, p: nat, e: Entry, depth: nat)
    requires At(b, p, PrintName(e)) && GoodEntry(e) && depth > 0
    ensures NestedEnd(b, p, depth) == NestedEnd(b, p + |PrintName(e)|, depth)
  {
    NameParts(b, p, e);
    NestedOver(b, p, e.before, depth);
    NestedString(b, p + |e.before|, e.name, depth);
    GapNeutral(e);
    NestedOver(b, p + |e.before| + |Quoted(e.name)|, Gap(e), depth);
  }

  lemma {:induction false} GapNeutral(e: Entry)
    requires GoodEntry(e)
    ensures Neutral(Gap(e))
  {
  }

  lemma {:induction false} NestedEntry(b: Text, p: nat, e: Entry, depth: nat)
    requires At(b, p, PrintEntry(e)) && GoodEntry(e) && depth > 0
    ensures NestedEnd(b, p, depth) == NestedEnd(b, p + |PrintEntry(e)|, depth)
    decreases e
  {
    EntryParts(b, p, e);
    NestedName(b, p, e, depth);
    NestedValue(b, p + |PrintName(e)|, e.value, depth);
    NestedOver(b, p + |PrintName(e)| + |PrintValue(e.value)|, e.after, depth);
  }

  lemma {:induction false} NameParts(b: Text, p: nat, e: Entry)
    requires At(b, p, PrintName(e))
    ensures At(b, p, e.before) && At(b, p + |e.before|, Quoted(e.name))
    ensures At(b, p + |e.before| + |Quoted(e.name)|, Gap(e))
  {
    AtConcat(b, p, e.before + Quoted(e.name), Gap(e));
    AtConcat(b, p, e.before, Quoted(e.name));
  }

  lemma {:induction false} EntryParts(b: Text, p: nat, e: Entry)
    requires At(b, p, PrintEntry(e))
    ensures At(b, p, PrintName(e)) && At(b, p + |PrintName(e)|, PrintValue(e.value))
    ensures At(b, p + |PrintName(e)| + |PrintValue(e.value)|, e.after)
  {
    AtConcat(b, p, PrintName(e) + PrintValue(e.value), e.after);
    AtConcat(b, p, PrintName(e), PrintValue(e.value));
  }

  lemma {:induction false} EntriesParts(b: Text, p: nat, es: Entries)
    requires At(b, p, PrintEntries(es))
    ensures At(b, p, PrintEntry(es.entry))
    ensures es.MoreEntries? ==>
              At(b, p + |PrintEntry(es.entry)|, [COMMA]) && At(b, p + |PrintEntry(es.entry)| + 1, PrintEntries(es.rest))
  {
    if es.MoreEntries? {
      AtConcat(b, p, PrintEntry(es.entry) + [COMMA], PrintEntries(es.rest));
      AtConcat(b, p, PrintEntry(es.entry), [COMMA]);
    }
  }

  lemma {:induction false} NestedEntries(b: Text, p: nat, es: Entries, depth: nat)
    requires At(b, p, PrintEntries(es)) && GoodEntries(es) && depth > 0
    ensures NestedEnd(b, p, depth) == NestedEnd(b, p + |PrintEntries(es)|, depth)
    decreases es
  {
    EntriesParts(b, p, es);
    NestedEntry(b, p, es.entry, depth);
    if es.MoreEntries? {
      NestedOver(b, p + |PrintEntry(es.entry)|, [COMMA], depth);
      NestedEntries(b, p + |PrintEntry(es.entry)| + 1, es.rest, depth);
    }
  }

  // ---------- scanning a member ----------

  lemma {:induction false} AtomOver(b: Text, p: nat, s: Text)
    requires At(b, p, s) && forall i :: 0 <= i < |s| ==> s[i] != COMMA && !Closes(s[i])
    ensures AtomEnd(b, p) == AtomEnd(b, p + |s|)
    decreases |s|
  {
    if s != [] {
      AtTail(b, p, s);
      AtomOver(b, p + 1, s[1..]);
    }
  }

  predicate Delimiter(c: byte) {
    c == COMMA || c == CLOSE_BRACE
  }

  lemma {:induction false} ValueStart(b: Text, p: nat, v: Value)
    requires At(b, p, PrintValue(v)) && GoodValue(v)
    ensures p < |b| && SkipSpace(b, p) == p && (b[p] == QUOTE <==> v.Str?)
    ensures Opens(b[p]) <==> !v.Str? && !v.Atom?
  {
    AtIndex(b, p, PrintValue(v), 0);
  }

  lemma {:induction false} StringValue(b: Text, p: nat, inner: Text)
    requires At(b, p, Quoted(inner)) && StringText(inner)
    ensures p < |b| && b[p] == QUOTE && StringEnd(b, p + 1) == Ok(p + 1 + |inner|)
    ensures At(b, p + 1, inner)
  {
    QuotedParts(b, p, inner);
    StringOver(b, p + 1, inner);
  }

  lemma {:induction false} GroupValue(b: Text, p: nat, open: byte, s: Text, close: byte)
    requires At(b, p, [open] + s + [close]) && Opens(open) && Closes(close)
    requires p + 1 + |s| <= |b| ==> NestedEnd(b, p + 1, 1) == NestedEnd(b, p + 1 + |s|, 1)
    ensures NestedEnd(b, p + 1, 1) == Ok(p + |[open] + s + [close]|)
  {
    BracketParts(b, p, open, s, close);
  }

  lemma {:induction false} BracketValue(b: Text, p: nat, v: Value)
    requires At(b, p, PrintValue(v)) && GoodValue(v) && !v.Str? && !v.Atom?
    ensures NestedEnd(b, p + 1, 1) == Ok(p + |PrintValue(v)|)
  {
    match v
    case EmptyArray(blank) =>
      BracketParts(b, p, OPEN_BRACKET, blank, CLOSE_BRACKET);
      NestedOver(b, p + 1, blank, 1);
      GroupValue(b, p, OPEN_BRACKET, blank, CLOSE_BRACKET);
    case EmptyObject(blank) =>
      BracketParts(b, p, OPEN_BRACE, blank, CLOSE_BRACE);
      NestedOver(b, p + 1, blank, 1);
      GroupValue(b, p, OPEN_BRACE, blank, CLOSE_BRACE);
    case Array(items) =>
      BracketParts(b, p, OPEN_BRACKET, PrintItems(items), CLOSE_BRACKET);
      NestedItems(b, p + 1, items, 1);
      GroupValue(b, p, OPEN_BRACKET, PrintItems(items), CLOSE_BRACKET);
    case Object(entries) =>
      BracketParts(b, p, OPEN_BRACE, PrintEntries(entries), CLOSE_BRACE);
      NestedEntries(b, p + 1, entries, 1);
      GroupValue(b, p, OPEN_BRACE, PrintEntries(entries), CLOSE_BRACE);
  }

  lemma {:induction false} SpaceTo(b: Text, p: nat, s: Text)
    requires At(b, p, s) && WhiteSpace(s) && p + |s| < |b| && !Space(b[p + |s|])
    ensures SkipSpace(b, p) == p + |s|
  {
    SpaceOver(b, p, s);
  }

  /** Skipping a value, and then white space, gets to the delimiter after it. */
  lemma {:induction false} ValueOver(b: Text, p: nat, v: Value, after: Text)
    requires At(b, p, PrintValue(v)) && GoodValue(v)
    requires At(b, p + |PrintValue(v)|, after) && WhiteSpace(after)
    requires var end := p + |PrintValue(v)| + |after|; end < |b| && Delimiter(b[end])
    ensures ValueEnd(b, p).Ok? && SkipSpace(b, ValueEnd(b, p).value) == p + |PrintValue(v)| + |after|
  {
    var q := p + |PrintValue(v)|;
    ValueStart(b, p, v);
    SpaceTo(b, q, after);
    match v
    case Str(inner) => StringValue(b, p, inner);
    case Atom(text) =>
      AtomOver(b, p, text);
      AtomOver(b, q, after);
    case _ => BracketValue(b, p, v);
  }

  /** What a member does to the span found so far, its value being at `p`. */
  function Found(e: Entry, key: Text, p: nat, found: Option<Span>): Result<Option<Span>, Fault> {
    if e.name != key then Ok(found)
    else if found.Some? then Err(DuplicateKey)
    else if !e.value.Str? then Err(NotAString)
    else Ok(Some(Span(p + 1, p + 1 + |e.value.inner|)))
  }

  /** The bytes from a member's name on stand at `p`, and a delimiter after them. */
  predicate MemberAt(b: Text, p: nat, e: Entry) {
    var v := p + |Quoted(e.name)| + |Gap(e)|;
    var end := v + |PrintValue(e.value)| + |e.after|;
    && At(b, p, Quoted(e.name)) && At(b, p + |Quoted(e.name)|, Gap(e))
    && At(b, v, PrintValue(e.value)) && At(b, v + |PrintValue(e.value)|, e.after)
    && end < |b| && Delimiter(b[end])
  }

  lemma {:induction false} GapParts(b: Text, q: nat, e: Entry)
    requires At(b, q, Gap(e))
    ensures At(b, q, e.afterName) && At(b, q + |e.afterName| + 1, e.beforeValue)
    ensures q + |e.afterName| < |b| && b[q + |e.afterName|] == COLON
  {
    AtConcat(b, q, e.afterName + [COLON], e.beforeValue);
    AtConcat(b, q, e.afterName, [COLON]);
    AtIndex(b, q + |e.afterName|, [COLON], 0);
  }

  lemma {:induction false} GapOver(b: Text, q: nat, e: Entry)
    requires GoodEntry(e) && At(b, q, Gap(e)) && At(b, q + |Gap(e)|, PrintValue(e.value))
    ensures var colon := SkipSpace(b, q);
            colon < |b| && b[colon] == COLON && SkipSpace(b, colon + 1) == q + |Gap(e)|
  {
    GapParts(b, q, e);
    SpaceTo(b, q, e.afterName);
    ValueStart(b, q + |Gap(e)|, e.value);
    SpaceOver(b, q + |e.afterName| + 1, e.beforeValue);
  }

  lemma {:induction false} HeaderOver(b: Text, p: nat, e: Entry)
    requires GoodEntry(e) && MemberAt(b, p, e)
    ensures Header(b, p) == Ok((Span(p + 1, p + 1 + |e.name|), p + |Quoted(e.name)| + |Gap(e)|))
    ensures p + 1 + |e.name| <= |b| && b[p + 1..p + 1 + |e.name|] == e.name
  {
    StringValue(b, p, e.name);
    AtSlice(b, p + 1, e.name);
    GapOver(b, p + |Quoted(e.name)|, e);
  }

  lemma {:induction false} BodyOver(b: Text, p: nat, e: Entry, key: Text, found: Option<Span>)
    requires GoodEntry(e) && MemberAt(b, p, e)
    ensures var v := p + |Quoted(e.name)| + |Gap(e)|;
            var r := Body(b, v, e.name == key, found);
            match Found(e, key, v, found)
            case Err(f) => r == Err(f)
            case Ok(s) => r.Ok? && r.value.found == s && SkipSpace(b, r.value.next) == v + |PrintValue(e.value)| + |e.after|
  {
    var v := p + |Quoted(e.name)| + |Gap(e)|;
    ValueStart(b, v, e.value);
    if e.name != key {
      ValueOver(b, v, e.value, e.after);
    } else if e.value.Str? {
      StringValue(b, v, e.value.inner);
      SpaceTo(b, v + |PrintValue(e.value)|, e.after);
    }
  }

  lemma {:induction false} SeparatedOver(b: Text, p: nat, e: Entry, key: Text, found: Option<Span>)
    requires GoodEntry(e) && MemberAt(b, p, e)
    ensures var v := p + |Quoted(e.name)| + |Gap(e)|;
            var end := v + |PrintValue(e.value)| + |e.after|;
            Separated(b, p, key, found) ==
              match Found(e, key, v, found)
              case Err(f) => Err(f)
              case Ok(s) => Ok(Scanned(s, if b[end] == COMMA then end + 1 else end))
  {
    hide SkipSpace;
    HeaderOver(b, p, e);
    BodyOver(b, p, e, key, found);
  }

  // ---------- scanning a document ----------

  /** What the members do to the span found, their text being at `p`. */
  function Find(es: Entries, key: Text, p: nat, found: Option<Span>): Result<Option<Span>, Fault>
    decreases es
  {
    match Found(es.entry, key, p + |PrintName(es.entry)|, found)
    case Err(f) => Err(f)
    case Ok(s) => if es.LastEntry? then Ok(s) else Find(es.rest, key, p + |PrintEntry(es.entry)| + 1, s)
  }

  lemma {:induction false} FirstMemberAt(b: Text, p: nat, es: Entries)
    requires At(b, p, PrintEntries(es)) && GoodEntries(es)
    requires p + |PrintEntries(es)| < |b| && b[p + |PrintEntries(es)|] == CLOSE_BRACE
    ensures SkipSpace(b, p) == p + |es.entry.before| && MemberAt(b, p + |es.entry.before|, es.entry)
    ensures p + |PrintEntry(es.entry)| < |b|
    ensures b[p + |PrintEntry(es.entry)|] == if es.MoreEntries? then COMMA else CLOSE_BRACE
    ensures b[p + |es.entry.before|] == QUOTE
  {
    var e := es.entry;
    EntriesParts(b, p, es);
    EntryParts(b, p, e);
    NameParts(b, p, e);
    AtIndex(b, p + |e.before|, Quoted(e.name), 0);
    if es.MoreEntries? {
      AtIndex(b, p + |PrintEntry(e)|, [COMMA], 0);
    }
    SpaceTo(b, p, e.before);
  }

  lemma {:induction false} MembersEnd(b: Text, p: nat, s: nat, key: Text, found: Option<Span>)
    requires p <= |b| && SkipSpace(b, p) == s < |b| && b[s] == CLOSE_BRACE && SkipSpace(b, s + 1) == |b|
    ensures Members(b, p, key, found) == Ok(found)
  {
  }

  lemma {:induction false} MembersStep(b: Text, p: nat, s: nat, key: Text, found: Option<Span>)
    requires p <= |b| && SkipSpace(b, p) == s < |b| && b[s] == QUOTE
    ensures Members(b, p, key, found) ==
              match Separated(b, s, key, found)
              case Err(e) => Err(e)
              case Ok(m) => Members(b, m.next, key, m.found)
  {
  }

  lemma {:induction false} MembersOver(b: Text, p: nat, es: Entries, key: Text, found: Option<Span>)
    requires At(b, p, PrintEntries(es)) && GoodEntries(es)
    requires p + |PrintEntries(es)| < |b| && b[p + |PrintEntries(es)|] == CLOSE_BRACE
    requires SkipSpace(b, p + |PrintEntries(es)| + 1) == |b|
    ensures Members(b, p, key, found) == Find(es, key, p, found)
    decreases es
  {
    hide Members, Separated, At;
    var e := es.entry;
    FirstMemberAt(b, p, es);
    SeparatedOver(b, p + |e.before|, e, key, found);
    MembersStep(b, p, p + |e.before|, key, found);
    var f := Found(e, key, p + |PrintName(e)|, found);
    if f.Ok? {
      if es.MoreEntries? {
        EntriesParts(b, p, es);
        MembersOver(b, p + |PrintEntry(e)| + 1, es.rest, key, f.value);
      } else {
        MembersEnd(b, p + |PrintEntry(e)|, p + |PrintEntry(e)|, key, f.value);
      }
    }
  }

  /** What the scanner is to find in a document. */
  function FindIn(d: Document, key: Text): Result<Option<Span>, Fault> {
    if d.members.None? then Ok(None) else Find(d.members.value, key, |d.before| + 1, None)
  }

  lemma {:induction false} BodyAt(d: Document)
    ensures var b := Print(d);
            && At(b, 0, d.before) && At(b, |d.before| + 1, PrintBody(d)) && At(b, |d.before| + |PrintBody(d)| + 2, d.after)
            && b[|d.before|] == OPEN_BRACE && b[|d.before| + 1 + |PrintBody(d)|] == CLOSE_BRACE
            && |b| == |d.before| + |PrintBody(d)| + 2 + |d.after|
  {
    var b := Print(d);
    assert At(b, 0, b);
    AtConcat(b, 0, d.before + [OPEN_BRACE] + PrintBody(d) + [CLOSE_BRACE], d.after);
    AtConcat(b, 0, d.before + [OPEN_BRACE] + PrintBody(d), [CLOSE_BRACE]);
    AtConcat(b, 0, d.before + [OPEN_BRACE], PrintBody(d));
    AtConcat(b, 0, d.before, [OPEN_BRACE]);
    AtIndex(b, |d.before|, [OPEN_BRACE], 0);
    AtIndex(b, |d.before| + 1 + |PrintBody(d)|, [CLOSE_BRACE], 0);
  }

  /** The scanner finds just that in every document. */
  lemma {:induction false} ScannerFinds(d: Document, key: Text)
    requires Good(d)
    ensures TopLevelSpan(Print(d), key) == FindIn(d, key)
  {
    hide Members, At, SkipSpace, Find, Print;
    var b, p := Print(d), |d.before| + 1;
    BodyAt(d);
    SpaceTo(b, 0, d.before);
    SpaceOver(b, p + |PrintBody(d)| + 1, d.after);
    if d.members.None? {
      SpaceTo(b, p, d.blank);
      MembersEnd(b, p, p + |d.blank|, key, None);
    } else {
      MembersOver(b, p, d.members.value, key, None);
    }
  }

  // ---------- members by name ----------

  /** The values of the members with this name, as written, in order. */
  function Named(es: Entries, key: Text): seq<Value> {
    (if es.entry.name == key then [es.entry.value] else []) + (if es.LastEntry? then [] else Named(es.rest, key))
  }

  function NamedIn(d: Document, key: Text): seq<Value> {
    if d.members.None? then [] else Named(d.members.value, key)
  }

  /** The members with the text of the string members of this name replaced. */
  function WithText(es: Entries, key: Text, text: Text): Entries {
    var e := if es.entry.name == key then es.entry.(value := Str(text)) else es.entry;
    if es.LastEntry? then LastEntry(e) else MoreEntries(e, WithText(es.rest, key, text))
  }

  function WithMember(d: Document, key: Text, text: Text): Document {
    if d.members.None? then d else d.(members := Some(WithText(d.members.value, key, text)))
  }

  /** The bytes before and after the text of the first member of this name. */
  function Prefix(es: Entries, key: Text): Text {
    if es.entry.name == key then PrintName(es.entry) + [QUOTE]
    else PrintEntry(es.entry) + [COMMA] + (if es.LastEntry? then [] else Prefix(es.rest, key))
  }

  function Suffix(es: Entries, key: Text): Text {
    if es.entry.name == key then [QUOTE] + es.entry.after + (if es.LastEntry? then [] else [COMMA] + PrintEntries(es.rest))
    else if es.LastEntry? then []
    else Suffix(es.rest, key)
  }

  lemma {:induction false} WithTextAbsent(es: Entries, key: Text, text: Text)
    requires Named(es, key) == []
    ensures WithText(es, key, text) == es
    decreases es
  {
    if es.MoreEntries? {
      WithTextAbsent(es.rest, key, text);
    }
  }

  /** Replacing the text of the one string member of a name changes those bytes
      and no others. */
  lemma {:induction false} EntriesAround(es: Entries, key: Text, inner: Text, text: Text)
    requires Named(es, key) == [Str(inner)]
    ensures PrintEntries(es) == Prefix(es, key) + inner + Suffix(es, key)
    ensures PrintEntries(WithText(es, key, text)) == Prefix(es, key) + text + Suffix(es, key)
    decreases es
  {
    var e := es.entry;
    if e.name == key {
      assert e.value == Named(es, key)[0];
      if es.MoreEntries? {
        assert Named(es.rest, key) == Named(es, key)[1..];
        WithTextAbsent(es.rest, key, text);
      }
      FirstAround(es, inner);
      FirstAround(if es.LastEntry? then LastEntry(e.(value := Str(text))) else MoreEntries(e.(value := Str(text)), es.rest), text);
    } else {
      EntriesAround(es.rest, key, inner, text);
      var head := PrintEntry(e) + [COMMA];
      Shift(head, Prefix(es.rest, key), inner, Suffix(es.rest, key));
      Shift(head, Prefix(es.rest, key), text, Suffix(es.rest, key));
    }
  }

  /** The bytes around the text of the first member. */
  lemma {:induction false} FirstAround(es: Entries, inner: Text)
    requires es.entry.value == Str(inner)
    ensures PrintEntries(es) == PrintName(es.entry) + [QUOTE] + inner
              + ([QUOTE] + es.entry.after + (if es.LastEntry? then [] else [COMMA] + PrintEntries(es.rest)))
  {
    var e := es.entry;
    assert PrintValue(e.value) == Quoted(inner);
    assert PrintEntry(e) == PrintName(e) + Quoted(inner) + e.after;
    if es.LastEntry? {
      Regroup(PrintName(es.entry), inner, es.entry.after, [], []);
    } else {
      assert PrintEntries(es) == PrintName(es.entry) + Quoted(inner) + es.entry.after + [COMMA] + PrintEntries(es.rest);
      Regroup(PrintName(es.entry), inner, es.entry.after, [COMMA], PrintEntries(es.rest));
    }
  }

  lemma {:induction false} Regroup(name: Text, inner: Text, after: Text, comma: Text, rest: Text)
    ensures name + Quoted(inner) + after + comma + rest == name + [QUOTE] + inner + ([QUOTE] + after + (comma + rest))
    ensures comma == rest == [] ==> name + Quoted(inner) + after == name + [QUOTE] + inner + ([QUOTE] + after + [])
  {
  }

  lemma {:induction false} Shift(head: Text, a: Text, b: Text, c: Text)
    ensures head + (a + b + c) == head + a + b + c
  {
  }

  function Before(d: Document, key: Text): Text
    requires d.members.Some?
  {
    d.before + [OPEN_BRACE] + Prefix(d.members.value, key)
  }

  function After(d: Document, key: Text): Text
    requires d.members.Some?
  {
    Suffix(d.members.value, key) + [CLOSE_BRACE] + d.after
  }

  lemma {:induction false} DocumentAround(d: Document, key: Text, inner: Text, text: Text)
    requires NamedIn(d, key) == [Str(inner)]
    ensures Print(d) == Before(d, key) + inner + After(d, key)
    ensures Print(WithMember(d, key, text)) == Before(d, key) + text + After(d, key)
  {
    var es := d.members.value;
    EntriesAround(es, key, inner, text);
    Wrap(d.before + [OPEN_BRACE], Prefix(es, key), inner, Suffix(es, key), [CLOSE_BRACE], d.after);
    Wrap(d.before + [OPEN_BRACE], Prefix(es, key), text, Suffix(es, key), [CLOSE_BRACE], d.after);
  }

  lemma {:induction false} Wrap(open: Text, a: Text, b: Text, c: Text, close: Text, after: Text)
    ensures open + (a + b + c) + close + after == open + a + b + (c + close + after)
  {
  }

  lemma {:induction false} FindAbsent(es: Entries, key: Text, p: nat, found: Option<Span>)
    requires Named(es, key) == []
    ensures Find(es, key, p, found) == Ok(found)
    decreases es
  {
    if es.MoreEntries? {
      FindAbsent(es.rest, key, p + |PrintEntry(es.entry)| + 1, found);
    }
  }

  /** With a span already found, any further member of the name is an error. */
  lemma {:induction false} FindAgain(es: Entries, key: Text, p: nat, found: Option<Span>)
    requires Named(es, key) != [] && found.Some?
    ensures Find(es, key, p, found).Err?
    decreases es
  {
    if es.entry.name != key {
      FindAgain(es.rest, key, p + |PrintEntry(es.entry)| + 1, found);
    }
  }

  lemma {:induction false} FindOne(es: Entries, key: Text, p: nat)
    requires Named(es, key) != []
    ensures if |Named(es, key)| == 1 && Named(es, key)[0].Str?
            then Find(es, key, p, None) == Ok(Some(Span(p + |Prefix(es, key)|, p + |Prefix(es, key)| + |Named(es, key)[0].inner|)))
            else Find(es, key, p, None).Err?
    decreases es
  {
    var e, q := es.entry, p + |PrintEntry(es.entry)| + 1;
    if e.name == key {
      if e.value.Str? && es.MoreEntries? {
        var span := Some(Span(p + |PrintName(e)| + 1, p + |PrintName(e)| + 1 + |e.value.inner|));
        if Named(es.rest, key) == [] {
          FindAbsent(es.rest, key, q, span);
        } else {
          FindAgain(es.rest, key, q, span);
        }
      }
    } else {
      FindOne(es.rest, key, q);
    }
  }

  /** The scanner is correct on every document. An absent name gives `None`. A
      name that occurs once, as a string, gives the span of that string's text:
      replacing those bytes gives the document with that member's text replaced.
      Anything else, a repeated name or another kind of value, is an error. */
  lemma {:induction false} ScannerCorrect(d: Document, key: Text, text: Text)
    requires Good(d)
    ensures var named, r, b := NamedIn(d, key), TopLevelSpan(Print(d), key), Print(d);
            if named == [] then r == Ok(None)
            else if |named| == 1 && named[0].Str? then
              && r.Ok? && r.value.Some?
              && var span := r.value.value;
                 && span.start <= span.end <= |b| && b[span.start..span.end] == named[0].inner
                 && Print(WithMember(d, key, text)) == b[..span.start] + text + b[span.end..]
            else r.Err?
  {
    var named := NamedIn(d, key);
    ScannerFinds(d, key);
    if named == [] {
      if d.members.Some? {
        FindAbsent(d.members.value, key, |d.before| + 1, None);
      }
    } else {
      FindOne(d.members.value, key, |d.before| + 1);
      if |named| == 1 && named[0].Str? {
        var inner := named[0].inner;
        assert named == [Str(inner)];
        DocumentAround(d, key, inner, text);
        Around(Before(d, key), inner, After(d, key));
      }
    }
  }

  lemma {:induction false} Around(a: Text, b: Text, c: Text)
    ensures (a + b + c)[..|a|] == a && (a + b + c)[|a|..|a| + |b|] == b && (a + b + c)[|a| + |b|..] == c
  {
  }
}
