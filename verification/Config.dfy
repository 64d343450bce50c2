/** Sparse rendering of client configuration files
    (crates/modde-manager/src/main.rs, `render_config` and `wow_value`): only the
    `SET` lines of managed keys are rewritten. */
module Config {
  import opened Results
  import opened Ordering
  import opened Sequences

  /** Unicode White_Space, which `split_whitespace` splits at. */
  predicate Whitespace(c: char) {
    var n := c as int;
    9 <= n <= 13 || n == 32 || n == 0x85 || n == 0xA0 || n == 0x1680 || 0x2000 <= n <= 0x200A ||
    n == 0x2028 || n == 0x2029 || n == 0x202F || n == 0x205F || n == 0x3000
  }

  /** Unicode general category Cc. */
  predicate Control(c: char) {
    c as int < 32 || 127 <= c as int < 160
  }

  predicate Alphabetic(c: char) {
    'a' <= c <= 'z' || 'A' <= c <= 'Z'
  }

  predicate Digit(c: char) {
    '0' <= c <= '9'
  }

  // ---------- values ----------

  /** How a JSON number is displayed. */
  type NumberText = s: string | forall c :: c in s ==> Digit(c) || c in "+-.eE"

  datatype Setting = Str(text: string) | Bool(flag: bool) | Number(digits: NumberText) | Other

  datatype Error = InvalidKey(key: string) | ControlCharacter | NotScalar

  /** `str::replace` of one character. */
  function ReplaceChar(s: string, c: char, to: string): string {
    if s == [] then [] else (if s[0] == c then to else [s[0]]) + ReplaceChar(s[1..], c, to)
  }

  function Escape(s: string): string {
    ReplaceChar(ReplaceChar(s, '\\', "\\\\"), '"', "\\\"")
  }

  function WowValue(v: Setting): Result<string, Error> {
    match v
    case Str(s) => if exists c :: c in s && Control(c) then Err(ControlCharacter) else Ok("\"" + Escape(s) + "\"")
    case Bool(b) => Ok(if b then "\"1\"" else "\"0\"")
    case Number(d) => Ok("\"" + d + "\"")
    case Other => Err(NotScalar)
  }

  /** What a client reads: backslash escapes the next character, and an
      unescaped quote ends the value. */
  function Unescape(s: string): Option<string> {
    if s == [] then Some([])
    else if s[0] == '"' then None
    else if s[0] == '\\' then
      if |s| == 1 then None else Prepend(s[1], Unescape(s[2..]))
    else Prepend(s[0], Unescape(s[1..]))
  }

  function Prepend(c: char, rest: Option<string>): Option<string> {
    if rest.None? then None else Some([c] + rest.value)
  }

  function Unquote(value: string): Option<string> {
    if |value| >= 2 && value[0] == '"' && value[|value| - 1] == '"' then Unescape(value[1..|value| - 1]) else None
  }

  /** The string a setting declares. */
  function Declared(v: Setting): string
    requires !v.Other?
  {
    match v
    case Str(s) => s
    case Bool(b) => if b then "1" else "0"
    case Number(d) => d
  }

  lemma {:induction false} ReplaceCharConcat(s: string, t: string, c: char, to: string)
    ensures ReplaceChar(s + t, c, to) == ReplaceChar(s, c, to) + ReplaceChar(t, c, to)
    decreases |s|
  {
    if s == [] {
      assert s + t == t;
    } else {
      ReplaceCharConcat(s[1..], t, c, to);
      assert (s + t)[1..] == s[1..] + t;
      Associate(if s[0] == c then to else [s[0]], ReplaceChar(s[1..], c, to), ReplaceChar(t, c, to));
    }
  }

  /** The two replacement passes come to escaping each character by itself. */
  lemma {:induction false} EscapeOne(c: char, s: string)
    ensures Escape([c] + s) == (if c == '\\' then "\\\\" else if c == '"' then "\\\"" else [c]) + Escape(s)
  {
    var one := if c == '\\' then "\\\\" else [c];
    assert ([c] + s)[1..] == s;
    assert ReplaceChar([c] + s, '\\', "\\\\") == one + ReplaceChar(s, '\\', "\\\\");
    ReplaceCharConcat(one, ReplaceChar(s, '\\', "\\\\"), '"', "\\\"");
    if c == '\\' {
      assert one[1..] == "\\" && one[1..][1..] == "";
      assert ReplaceChar(one, '"', "\\\"") == ['\\'] + (['\\'] + []);
    } else {
      assert one[1..] == "";
      assert ReplaceChar(one, '"', "\\\"") == (if c == '"' then "\\\"" else [c]) + [];
    }
  }

  lemma {:induction false} UnescapeEscape(s: string)
    ensures Unescape(Escape(s)) == Some(s)
    decreases |s|
  {
    if s != [] {
      var c, rest := s[0], s[1..];
      assert s == [c] + rest;
      EscapeOne(c, rest);
      UnescapeEscape(rest);
      var e := Escape(s);
      if c == '\\' || c == '"' {
        assert e[2..] == Escape(rest);
      } else {
        assert e[1..] == Escape(rest);
      }
    }
  }

  lemma {:induction false} UnescapePlain(s: string)
    requires forall c :: c in s ==> c != '"' && c != '\\'
    ensures Unescape(s) == Some(s)
    decreases |s|
  {
    if s != [] {
      assert s[0] in s && forall c :: c in s[1..] ==> c in s;
      UnescapePlain(s[1..]);
      assert s == [s[0]] + s[1..];
    }
  }

  /** Rendering a value and reading it back gives the declared string. */
  lemma {:induction false} ValueRoundTrip(v: Setting)
    requires WowValue(v).Ok?
    ensures Unquote(WowValue(v).value) == Some(Declared(v))
    ensures v.Bool? ==> WowValue(v).value == if v.flag then "\"1\"" else "\"0\""
    ensures v.Number? ==> WowValue(v).value == "\"" + v.digits + "\""
    ensures v.Str? ==> Unquote(WowValue(v).value) == Some(v.text)
  {
    var w := WowValue(v).value;
    match v
    case Str(s) =>
      UnescapeEscape(s);
      assert w[1..|w| - 1] == Escape(s);
    case Bool(b) =>
      var d := if b then "1" else "0";
      UnescapePlain(d);
      assert w[1..|w| - 1] == d;
    case Number(d) =>
      UnescapePlain(d);
      assert w[1..|w| - 1] == d;
  }

  lemma {:induction false} ReplaceCharClean(s: string, c: char, to: string)
    requires forall x :: x in s ==> !Control(x)
    requires forall x :: x in to ==> !Control(x)
    ensures forall x :: x in ReplaceChar(s, c, to) ==> !Control(x)
    decreases |s|
  {
    if s != [] {
      ReplaceCharClean(s[1..], c, to);
    }
  }

  /** A rendered value holds no control character and ends in its quote. */
  lemma {:induction false} ValueClean(v: Setting)
    requires WowValue(v).Ok?
    ensures forall i :: 0 <= i < |WowValue(v).value| ==> !Control(WowValue(v).value[i])
    ensures WowValue(v).value != [] && WowValue(v).value[|WowValue(v).value| - 1] == '"'
  {
    if v.Str? {
      ReplaceCharClean(v.text, '\\', "\\\\");
      ReplaceCharClean(ReplaceChar(v.text, '\\', "\\\\"), '"', "\\\"");
      var e := Escape(v.text);
      assert forall i :: 0 <= i < |e| ==> e[i] in e;
    }
  }

  // ---------- lines and fields ----------

  /** Where the first line ends, its newline included. */
  function LineEnd(t: string): (k: nat)
    requires t != []
    ensures 0 < k <= |t|
    ensures forall i :: 0 <= i < k - 1 ==> t[i] != '\n'
    ensures k < |t| ==> t[k - 1] == '\n'
  {
    if t[0] == '\n' || |t| == 1 then 1 else 1 + LineEnd(t[1..])
  }

  /** `split_inclusive('\n')`. */
  function Lines(t: string): seq<string>
    decreases |t|
  {
    if t == [] then [] else [t[..LineEnd(t)]] + Lines(t[LineEnd(t)..])
  }

  function Concat(ls: seq<string>): string {
    if ls == [] then [] else ls[0] + Concat(ls[1..])
  }

  predicate NoNewline(s: string) {
    forall i :: 0 <= i < |s| ==> s[i] != '\n'
  }

  predicate Terminated(line: string) {
    line != [] && line[|line| - 1] == '\n'
  }

  /** One line: not empty, and no newline except at its end. */
  predicate IsLine(line: string) {
    line != [] && forall i :: 0 <= i < |line| - 1 ==> line[i] != '\n'
  }

  /** A list of lines: only the last may lack its newline. */
  predicate IsSplit(ls: seq<string>) {
    (forall i :: 0 <= i < |ls| ==> IsLine(ls[i])) && (forall i :: 0 <= i < |ls| - 1 ==> Terminated(ls[i]))
  }

  lemma {:induction false} SplitCons(line: string, rest: seq<string>)
    requires IsLine(line) && IsSplit(rest) && (rest != [] ==> Terminated(line))
    ensures IsSplit([line] + rest) && Concat([line] + rest) == line + Concat(rest)
  {
    assert ([line] + rest)[1..] == rest;
  }

  lemma {:induction false} FirstLine(t: string)
    requires t != []
    ensures IsLine(t[..LineEnd(t)]) && (t[LineEnd(t)..] != [] ==> Terminated(t[..LineEnd(t)]))
  {
  }

  lemma {:induction false} LinesSplit(t: string)
    ensures IsSplit(Lines(t)) && Concat(Lines(t)) == t
    decreases |t|
  {
    hide LineEnd;
    if t != [] {
      var k := LineEnd(t);
      var line, rest := t[..k], t[k..];
      LinesSplit(rest);
      FirstLine(t);
      SplitCons(line, Lines(rest));
      assert line + rest == t;
    }
  }

  lemma {:induction false} LineEndOf(line: string, rest: string)
    requires IsLine(line) && (rest == [] || Terminated(line))
    ensures LineEnd(line + rest) == |line|
    decreases |line|
  {
    var t := line + rest;
    if |line| > 1 {
      assert line[0] != '\n';
      LineEndOf(line[1..], rest);
      assert t[1..] == line[1..] + rest;
    }
  }

  lemma {:induction false} LinesConcat(ls: seq<string>)
    requires IsSplit(ls)
    ensures Lines(Concat(ls)) == ls
    decreases |ls|
  {
    hide LineEnd, Lines;
    if ls == [] {
      NoLines();
    } else {
      var rest := Concat(ls[1..]);
      SplitRest(ls);
      LinesConcat(ls[1..]);
      LinesCons(ls[0], rest);
      assert ls == [ls[0]] + ls[1..];
    }
  }

  lemma {:induction false} NoLines()
    ensures Lines([]) == []
  {
  }

  lemma {:induction false} SplitRest(ls: seq<string>)
    requires IsSplit(ls) && ls != []
    ensures IsSplit(ls[1..]) && IsLine(ls[0]) && (Concat(ls[1..]) == [] || Terminated(ls[0]))
  {
    if |ls| > 1 {
      assert Terminated(ls[0]);
    }
  }

  /** The first line of a text. */
  lemma {:induction false} LinesCons(line: string, rest: string)
    requires IsLine(line) && (rest == [] || Terminated(line))
    ensures Lines(line + rest) == [line] + Lines(rest)
  {
    LineEndOf(line, rest);
    assert (line + rest)[..|line|] == line && (line + rest)[|line|..] == rest;
  }

  lemma {:induction false} ConcatAppend(a: seq<string>, b: seq<string>)
    ensures Concat(a + b) == Concat(a) + Concat(b)
    decreases |a|
  {
    if a == [] {
      assert a + b == b;
    } else {
      ConcatAppend(a[1..], b);
      assert (a + b)[1..] == a[1..] + b;
    }
  }

  function SkipSpace(s: string): string {
    if s != [] && Whitespace(s[0]) then SkipSpace(s[1..]) else s
  }

  function Word(s: string): (w: string)
    ensures w <= s
  {
    if s == [] || Whitespace(s[0]) then [] else [s[0]] + Word(s[1..])
  }

  /** The second field of a line whose first is `SET`. */
  function SetKey(line: string): Option<string> {
    var first := SkipSpace(line);
    var command := Word(first);
    if command != "SET" then None
    else
      var key := Word(SkipSpace(first[|command|..]));
      if key == [] then None else Some(key)
  }

  function Assignment(key: string, value: string): string {
    "SET " + key + " " + value
  }

  function Terminator(line: string): string {
    if |line| >= 2 && line[|line| - 2..] == "\r\n" then "\r\n" else if Terminated(line) then "\n" else ""
  }

  // ---------- rendering ----------

  predicate ValidKey(key: string) {
    key != [] && Alphabetic(key[0]) && forall c :: c in key ==> Alphabetic(c) || Digit(c) || c == '_'
  }

  /** The managed keys with their rendered values, or the first fault in key order. */
  function Desired(settings: map<string, Setting>, keys: seq<string>): (r: Result<map<string, string>, Error>)
    requires forall k :: k in keys ==> k in settings
  {
    if keys == [] then Ok(map[])
    else if !ValidKey(keys[0]) then Err(InvalidKey(keys[0]))
    else
      match WowValue(settings[keys[0]])
      case Err(e) => Err(e)
      case Ok(v) =>
        match Desired(settings, keys[1..])
        case Err(e) => Err(e)
        case Ok(m) => Ok(m[keys[0] := v])
  }

  predicate Managed(line: string, desired: map<string, string>) {
    SetKey(line).Some? && SetKey(line).value in desired
  }

  /** The lines that survive, managed ones rewritten and repeats dropped. */
  function Kept(ls: seq<string>, desired: map<string, string>, seen: set<string>): seq<string> {
    if ls == [] then []
    else if !Managed(ls[0], desired) then [ls[0]] + Kept(ls[1..], desired, seen)
    else
      var key := SetKey(ls[0]).value;
      if key in seen then Kept(ls[1..], desired, seen)
      else [Assignment(key, desired[key]) + Terminator(ls[0])] + Kept(ls[1..], desired, seen + {key})
  }

  function Seen(ls: seq<string>, desired: map<string, string>): set<string> {
    if ls == [] then {}
    else (if Managed(ls[0], desired) then {SetKey(ls[0]).value} else {}) + Seen(ls[1..], desired)
  }

  /** The lines appended for the keys not seen, in key order. */
  function Appended(keys: seq<string>, desired: map<string, string>, seen: set<string>): seq<string>
    requires forall k :: k in keys ==> k in desired
  {
    if keys == [] then []
    else (if keys[0] in seen then [] else [Assignment(keys[0], desired[keys[0]]) + "\n"]) + Appended(keys[1..], desired, seen)
  }

  /** The same lines with the last one terminated. */
  function Terminate(ls: seq<string>): seq<string> {
    if ls == [] || Terminated(ls[|ls| - 1]) then ls else ls[..|ls| - 1] + [ls[|ls| - 1] + "\n"]
  }

  /** The lines of the rendered file. */
  function RenderedLines(ls: seq<string>, desired: map<string, string>): seq<string> {
    var kept, added := Kept(ls, desired, {}), Appended(SortedKeys(desired.Keys), desired, Seen(ls, desired));
    if added == [] then kept else Terminate(kept) + added
  }

  function Rendered(original: string, settings: map<string, Setting>): Result<string, Error> {
    if settings == map[] then Ok(original)
    else
      match Desired(settings, SortedKeys(settings.Keys))
      case Err(e) => Err(e)
      case Ok(desired) => Ok(Concat(RenderedLines(Lines(original), desired)))
  }

  predicate EndsLine(t: string) {
    t != [] && t[|t| - 1] == '\n'
  }

  lemma {:induction false} ConcatOne(ls: seq<string>, line: string)
    ensures Concat(ls + [line]) == Concat(ls) + line
  {
    ConcatAppend(ls, [line]);
    assert Concat([line]) == line + [];
  }

  /** What one line adds to the surviving lines, and to the keys seen. */
  function KeptOne(line: string, desired: map<string, string>, seen: set<string>): seq<string> {
    if !Managed(line, desired) then [line]
    else if SetKey(line).value in seen then []
    else [Assignment(SetKey(line).value, desired[SetKey(line).value]) + Terminator(line)]
  }

  function SeenOne(line: string, desired: map<string, string>): set<string> {
    if Managed(line, desired) then {SetKey(line).value} else {}
  }

  lemma {:induction false} KeptStep(out: seq<string>, ls: seq<string>, i: nat, desired: map<string, string>, seen: set<string>)
    requires i < |ls|
    ensures out + KeptOne(ls[i], desired, seen) + Kept(ls[i + 1..], desired, seen + SeenOne(ls[i], desired))
         == out + Kept(ls[i..], desired, seen)
    ensures SeenOne(ls[i], desired) + Seen(ls[i + 1..], desired) == Seen(ls[i..], desired)
  {
    var rest := ls[i..];
    assert rest[0] == ls[i] && rest[1..] == ls[i + 1..];
    if !Managed(ls[i], desired) || SetKey(ls[i]).value in seen {
      assert seen + SeenOne(ls[i], desired) == seen;
    }
    assert Kept(rest, desired, seen)
        == KeptOne(rest[0], desired, seen) + Kept(rest[1..], desired, seen + SeenOne(rest[0], desired));
    Associate(out, KeptOne(ls[i], desired, seen), Kept(ls[i + 1..], desired, seen + SeenOne(ls[i], desired)));
  }

  /** The first pass of `render_config`: over the lines, noting the keys seen. */
  method RewriteLines(ls: seq<string>, desired: map<string, string>) returns (rendered: string, seen: set<string>)
    ensures rendered == Concat(Kept(ls, desired, {}))
    ensures seen == Seen(ls, desired)
  {
    rendered, seen := "", {};
    ghost var out: seq<string> := [];
    for i := 0 to |ls|
      invariant rendered == Concat(out)
      invariant out + Kept(ls[i..], desired, seen) == Kept(ls, desired, {})
      invariant seen + Seen(ls[i..], desired) == Seen(ls, desired)
    {
      KeptStep(out, ls, i, desired, seen);
      ghost var added := KeptOne(ls[i], desired, seen);
      rendered, seen := RewriteLine(rendered, seen, ls[i], desired, out);
      out := out + added;
    }
    assert ls[|ls|..] == [];
    assert out == Kept(ls, desired, {});
  }

  /** One line of the first pass. */
  method RewriteLine(text: string, keys: set<string>, line: string, desired: map<string, string>, ghost out: seq<string>)
    returns (rendered: string, seen: set<string>)
    requires text == Concat(out)
    ensures rendered == Concat(out + KeptOne(line, desired, keys))
    ensures seen == keys + SeenOne(line, desired)
  {
    rendered, seen := text, keys;
    if Managed(line, desired) {
      var key := SetKey(line).value;
      if key !in seen {
        seen := seen + {key};
        ConcatOne(out, Assignment(key, desired[key]) + Terminator(line));
        rendered := rendered + (Assignment(key, desired[key]) + Terminator(line));
      } else {
        assert out + [] == out;
      }
    } else {
      ConcatOne(out, line);
      rendered := rendered + line;
    }
  }

  /** What goes between a text and lines appended to it. */
  function Break(t: string): string {
    if t == [] || EndsLine(t) then "" else "\n"
  }

  function WithLines(t: string, added: seq<string>): string {
    if added == [] then t else t + Break(t) + Concat(added)
  }

  lemma {:induction false} NoBreak(u: string, line: string)
    requires Terminated(line)
    ensures Break(u + line) == ""
  {
    assert (u + line)[|u + line| - 1] == line[|line| - 1];
  }

  /** Lines added to a text that needs no break. */
  lemma {:induction false} WithLinesJoined(t: string, added: seq<string>)
    requires Break(t) == ""
    ensures WithLines(t, added) == t + Concat(added)
  {
    assert t + "" == t;
  }

  lemma {:induction false} ConcatCons(line: string, added: seq<string>)
    ensures Concat([line] + added) == line + Concat(added)
  {
    assert ([line] + added)[1..] == added;
  }

  lemma {:induction false} WithLinesStep(t: string, line: string, added: seq<string>)
    requires Terminated(line)
    ensures WithLines(t + Break(t) + line, added) == WithLines(t, [line] + added)
  {
    var u := t + Break(t);
    NoBreak(u, line);
    WithLinesJoined(u + line, added);
    ConcatCons(line, added);
    hide Break, Concat;
    Associate(u, line, Concat(added));
  }

  lemma {:induction false} AppendedStep(t: string, keys: seq<string>, i: nat, desired: map<string, string>, seen: set<string>)
    requires i < |keys| && forall k :: k in keys ==> k in desired
    ensures WithLines(if keys[i] in seen then t else t + Break(t) + (Assignment(keys[i], desired[keys[i]]) + "\n"),
                      Appended(keys[i + 1..], desired, seen))
         == WithLines(t, Appended(keys[i..], desired, seen))
  {
    assert keys[i..][0] == keys[i] && keys[i..][1..] == keys[i + 1..];
    var rest := Appended(keys[i + 1..], desired, seen);
    if keys[i] in seen {
      assert Appended(keys[i..], desired, seen) == rest;
    } else {
      var line := Assignment(keys[i], desired[keys[i]]) + "\n";
      assert Terminated(line);
      assert Appended(keys[i..], desired, seen) == [line] + rest;
      WithLinesStep(t, line, rest);
    }
  }

  /** The second pass: over the managed keys, appending those not seen. */
  method AppendMissing(kept: string, keys: seq<string>, desired: map<string, string>, seen: set<string>) returns (rendered: string)
    requires forall k :: k in keys ==> k in desired
    ensures rendered == WithLines(kept, Appended(keys, desired, seen))
  {
    rendered := kept;
    for i := 0 to |keys|
      invariant WithLines(rendered, Appended(keys[i..], desired, seen)) == WithLines(kept, Appended(keys, desired, seen))
    {
      AppendedStep(rendered, keys, i, desired, seen);
      if keys[i] !in seen {
        rendered := AppendLine(rendered, Assignment(keys[i], desired[keys[i]]) + "\n");
      }
    }
    assert keys[|keys|..] == [];
  }

  method AppendLine(t: string, line: string) returns (rendered: string)
    ensures rendered == t + Break(t) + line
  {
    rendered := t;
    if rendered != [] && !EndsLine(rendered) {
      rendered := rendered + "\n";
    }
    rendered := rendered + line;
  }

  lemma {:induction false} LinesNonempty(ls: seq<string>, desired: map<string, string>, seen: set<string>)
    requires forall l :: l in ls ==> l != []
    ensures forall l :: l in Kept(ls, desired, seen) ==> l != []
    decreases |ls|
  {
    if ls != [] {
      assert forall l :: l in ls[1..] ==> l in ls;
      assert ls[0] in ls;
      LinesNonempty(ls[1..], desired, seen);
      if Managed(ls[0], desired) && SetKey(ls[0]).value !in seen {
        LinesNonempty(ls[1..], desired, seen + {SetKey(ls[0]).value});
      }
    }
  }

  lemma {:induction false} ConcatEnds(ls: seq<string>)
    requires forall l :: l in ls ==> l != []
    ensures Concat(ls) == [] <==> ls == []
    ensures ls != [] ==> EndsLine(Concat(ls)) == Terminated(ls[|ls| - 1])
    decreases |ls|
  {
    if ls != [] {
      assert ls[0] in ls && forall l :: l in ls[1..] ==> l in ls;
      ConcatEnds(ls[1..]);
    }
  }

  lemma {:induction false} TerminateConcat(kept: seq<string>, added: seq<string>)
    requires forall l :: l in kept ==> l != []
    ensures Concat(Terminate(kept) + added) == Concat(kept) + Break(Concat(kept)) + Concat(added)
  {
    ConcatAppend(Terminate(kept), added);
    ConcatEnds(kept);
    if kept != [] && !Terminated(kept[|kept| - 1]) {
      var front, last := kept[..|kept| - 1], kept[|kept| - 1];
      assert kept == front + [last];
      ConcatAppend(front, [last]);
      ConcatAppend(front, [last + "\n"]);
      assert Concat([last]) == last + [] && Concat([last + "\n"]) == last + "\n" + [];
      assert Concat(Terminate(kept)) == Concat(front) + (last + "\n") == Concat(kept) + "\n";
    }
  }

  /** `render_config` is `Rendered`. */
  method RenderConfig(original: string, settings: map<string, Setting>) returns (r: Result<string, Error>)
    ensures r == Rendered(original, settings)
  {
    if settings == map[] {
      return Ok(original);
    }
    var d := Desired(settings, SortedKeys(settings.Keys));
    if d.Err? {
      return Err(d.error);
    }
    var rendered, seen := RewriteLines(Lines(original), d.value);
    rendered := AppendMissing(rendered, SortedKeys(d.value.Keys), d.value, seen);
    r := Ok(rendered);
    LinesSplit(original);
    LinesNonempty(Lines(original), d.value, {});
    TerminateConcat(Kept(Lines(original), d.value, {}), Appended(SortedKeys(d.value.Keys), d.value, seen));
  }

  // ---------- what a rendered file says ----------

  /** Keys and values as `render_config` manages them: nothing in them ends a line. */
  predicate Clean(desired: map<string, string>) {
    forall k :: k in desired ==>
      ValidKey(k) && NoNewline(desired[k]) && desired[k] != [] && desired[k][|desired[k]| - 1] == '"'
  }

  lemma {:induction false} DesiredClean(settings: map<string, Setting>, keys: seq<string>)
    requires forall k :: k in keys ==> k in settings
    requires Desired(settings, keys).Ok?
    ensures Clean(Desired(settings, keys).value)
    ensures forall k :: k in keys <==> k in Desired(settings, keys).value
    ensures forall k :: k in keys ==> WowValue(settings[k]) == Ok(Desired(settings, keys).value[k])
    decreases |keys|
  {
    if keys != [] {
      DesiredClean(settings, keys[1..]);
      ValueClean(settings[keys[0]]);
    }
  }

  lemma {:induction false} SkipSpaceNone(s: string)
    requires s != [] && !Whitespace(s[0])
    ensures SkipSpace(s) == s
  {
  }

  lemma {:induction false} WordOf(w: string, rest: string)
    requires forall c :: c in w ==> !Whitespace(c)
    requires rest != [] ==> Whitespace(rest[0])
    ensures Word(w + rest) == w
    decreases |w|
  {
    hide Whitespace;
    if w == [] {
      assert w + rest == rest;
    } else {
      assert w[0] in w && forall c :: c in w[1..] ==> c in w;
      WordOf(w[1..], rest);
      assert (w + rest)[1..] == w[1..] + rest;
      assert w == [w[0]] + w[1..];
    }
  }

  /** A written assignment is read back as one of its key. */
  lemma {:induction false} AssignmentKey(key: string, value: string, end: string)
    requires ValidKey(key)
    ensures SetKey(Assignment(key, value) + end) == Some(key)
  {
    var line := Assignment(key, value) + end;
    var rest := " " + value + end;
    assert line == "SET" + (" " + key + rest);
    assert line[0] == 'S';
    SkipSpaceNone(line);
    WordOf("SET", " " + key + rest);
    var second := line[|"SET"|..];
    assert second == " " + key + rest;
    assert second[1..] == key + rest;
    SkipSpaceNone(key + rest);
    assert SkipSpace(second) == key + rest;
    WordOf(key, rest);
  }

  lemma {:induction false} AssignmentLine(key: string, value: string, end: string)
    requires ValidKey(key) && NoNewline(value) && value != [] && value[|value| - 1] == '"'
    requires end == "" || end == "\n" || end == "\r\n"
    ensures IsLine(Assignment(key, value) + end)
    ensures Terminator(Assignment(key, value) + end) == end
    ensures Terminated(Assignment(key, value) + end) <==> end != ""
  {
    var a := Assignment(key, value);
    var line := a + end;
    assert a[|a| - 1] == '"';
    assert NoNewline(key) by {
      assert forall i :: 0 <= i < |key| ==> key[i] in key;
    }
    assert a == "SET " + (key + " " + value);
    assert NoNewline(key + " " + value);
    assert NoNewline(a);
    assert forall i :: 0 <= i < |line| - 1 ==> line[i] != '\n';
    if end == "\n" {
      assert line[|line| - 2..][0] == '"';
    } else if end == "\r\n" {
      assert line[|line| - 2..] == end;
    } else {
      assert line[|line| - 1] == '"' && line[|line| - 2..][1] == '"';
    }
  }

  /** The keys of the managed lines, in order. */
  function Keys(ls: seq<string>, desired: map<string, string>): seq<string> {
    if ls == [] then []
    else (if Managed(ls[0], desired) then [SetKey(ls[0]).value] else []) + Keys(ls[1..], desired)
  }

  /** The other lines, in order. */
  function Unmanaged(ls: seq<string>, desired: map<string, string>): seq<string> {
    if ls == [] then []
    else (if Managed(ls[0], desired) then [] else [ls[0]]) + Unmanaged(ls[1..], desired)
  }

  /** A managed line that says just what is declared for its key. */
  predicate Faithful(line: string, desired: map<string, string>) {
    Managed(line, desired) ==> line == Assignment(SetKey(line).value, desired[SetKey(line).value]) + Terminator(line)
  }

  predicate AllFaithful(ls: seq<string>, desired: map<string, string>) {
    forall i :: 0 <= i < |ls| ==> Faithful(ls[i], desired)
  }

  lemma {:induction false} KeysConcat(a: seq<string>, b: seq<string>, desired: map<string, string>)
    ensures Keys(a + b, desired) == Keys(a, desired) + Keys(b, desired)
    ensures Unmanaged(a + b, desired) == Unmanaged(a, desired) + Unmanaged(b, desired)
    decreases |a|
  {
    if a == [] {
      assert a + b == b;
    } else {
      KeysConcat(a[1..], b, desired);
      assert (a + b)[1..] == a[1..] + b;
      Associate(if Managed(a[0], desired) then [SetKey(a[0]).value] else [], Keys(a[1..], desired), Keys(b, desired));
      Associate(if Managed(a[0], desired) then [] else [a[0]], Unmanaged(a[1..], desired), Unmanaged(b, desired));
    }
  }

  lemma {:induction false} RewrittenLine(line: string, desired: map<string, string>)
    requires Clean(desired) && Managed(line, desired)
    ensures var key := SetKey(line).value;
            var l := Assignment(key, desired[key]) + Terminator(line);
            SetKey(l) == Some(key) && Faithful(l, desired) && IsLine(l) && (Terminated(l) <==> Terminated(line))
  {
    var key := SetKey(line).value;
    AssignmentKey(key, desired[key], Terminator(line));
    AssignmentLine(key, desired[key], Terminator(line));
  }

  lemma {:induction false} KeysCons(line: string, ls: seq<string>, desired: map<string, string>)
    ensures Keys([line] + ls, desired) == (if Managed(line, desired) then [SetKey(line).value] else []) + Keys(ls, desired)
    ensures Unmanaged([line] + ls, desired) == (if Managed(line, desired) then [] else [line]) + Unmanaged(ls, desired)
  {
    assert ([line] + ls)[1..] == ls;
  }

  /** Rewriting keeps the unmanaged lines and makes the managed ones faithful. */
  lemma {:induction false} KeptLines(ls: seq<string>, desired: map<string, string>, seen: set<string>)
    requires Clean(desired)
    ensures Unmanaged(Kept(ls, desired, seen), desired) == Unmanaged(ls, desired)
    ensures AllFaithful(Kept(ls, desired, seen), desired)
    decreases |ls|
  {
    if ls != [] {
      KeptLines(ls[1..], desired, seen);
      if !Managed(ls[0], desired) {
        KeysCons(ls[0], Kept(ls[1..], desired, seen), desired);
      } else if SetKey(ls[0]).value !in seen {
        var key := SetKey(ls[0]).value;
        KeptLines(ls[1..], desired, seen + {key});
        RewrittenLine(ls[0], desired);
        KeysCons(Assignment(key, desired[key]) + Terminator(ls[0]), Kept(ls[1..], desired, seen + {key}), desired);
      }
    }
  }

  /** It leaves one line for each key that had any. */
  lemma {:induction false} KeptKeys(ls: seq<string>, desired: map<string, string>, seen: set<string>)
    requires Clean(desired)
    ensures NoRepeats(Keys(Kept(ls, desired, seen), desired))
    ensures forall k :: k in Keys(Kept(ls, desired, seen), desired) <==> k in Seen(ls, desired) && k !in seen
    decreases |ls|
  {
    if ls != [] {
      KeptKeys(ls[1..], desired, seen);
      if !Managed(ls[0], desired) {
        KeysCons(ls[0], Kept(ls[1..], desired, seen), desired);
      } else if SetKey(ls[0]).value !in seen {
        var key := SetKey(ls[0]).value;
        KeptKeys(ls[1..], desired, seen + {key});
        RewrittenLine(ls[0], desired);
        KeysCons(Assignment(key, desired[key]) + Terminator(ls[0]), Kept(ls[1..], desired, seen + {key}), desired);
        assert key !in Keys(Kept(ls[1..], desired, seen + {key}), desired);
      }
    }
  }

  lemma {:induction false} KeptSplit(ls: seq<string>, desired: map<string, string>, seen: set<string>)
    requires Clean(desired) && IsSplit(ls)
    ensures IsSplit(Kept(ls, desired, seen))
    ensures ls == [] ==> Kept(ls, desired, seen) == []
    decreases |ls|
  {
    if ls != [] {
      var rest := ls[1..];
      assert IsSplit(rest) && IsLine(ls[0]);
      assert rest != [] ==> Terminated(ls[0]);
      KeptSplit(rest, desired, seen);
      if !Managed(ls[0], desired) {
        SplitCons(ls[0], Kept(rest, desired, seen));
      } else if SetKey(ls[0]).value !in seen {
        var key := SetKey(ls[0]).value;
        KeptSplit(rest, desired, seen + {key});
        RewrittenLine(ls[0], desired);
        SplitCons(Assignment(key, desired[key]) + Terminator(ls[0]), Kept(rest, desired, seen + {key}));
      }
    }
  }

  /** A file that already says what is declared is not rewritten. */
  lemma {:induction false} KeptFixed(ls: seq<string>, desired: map<string, string>, seen: set<string>)
    requires AllFaithful(ls, desired) && NoRepeats(Keys(ls, desired))
    requires forall k :: k in Keys(ls, desired) ==> k !in seen
    ensures Kept(ls, desired, seen) == ls
    ensures forall k :: k in Seen(ls, desired) <==> k in Keys(ls, desired)
    decreases |ls|
  {
    if ls != [] {
      var keys := Keys(ls, desired);
      assert AllFaithful(ls[1..], desired);
      assert Faithful(ls[0], desired);
      if Managed(ls[0], desired) {
        var key := SetKey(ls[0]).value;
        assert keys[0] == key && keys[1..] == Keys(ls[1..], desired);
        assert key in keys;
        KeptFixed(ls[1..], desired, seen + {key});
      } else {
        assert keys == Keys(ls[1..], desired);
        KeptFixed(ls[1..], desired, seen);
      }
      assert ls == [ls[0]] + ls[1..];
    }
  }

  lemma {:induction false} SkipSpaceNewline(s: string)
    ensures SkipSpace(s + "\n") == if SkipSpace(s) == [] then [] else SkipSpace(s) + "\n"
    decreases |s|
  {
    if s == [] {
      assert s + "\n" == "\n" && "\n"[1..] == [];
    } else {
      assert (s + "\n")[1..] == s[1..] + "\n";
      if Whitespace(s[0]) {
        SkipSpaceNewline(s[1..]);
      }
    }
  }

  lemma {:induction false} WordNewline(s: string)
    ensures Word(s + "\n") == Word(s)
    decreases |s|
  {
    if s == [] {
      assert s + "\n" == "\n";
    } else {
      assert (s + "\n")[1..] == s[1..] + "\n";
      WordNewline(s[1..]);
    }
  }

  /** Terminating a line does not change which key it sets. */
  lemma {:induction false} SetKeyNewline(line: string)
    ensures SetKey(line + "\n") == SetKey(line)
  {
    SkipSpaceNewline(line);
    var first := SkipSpace(line);
    if first != [] {
      WordNewline(first);
      var after := first[|Word(first)|..];
      assert (first + "\n")[|Word(first)|..] == after + "\n";
      SkipSpaceNewline(after);
      WordNewline(SkipSpace(after));
    }
  }

  lemma {:induction false} TerminatedLine(line: string, desired: map<string, string>)
    requires Clean(desired) && Faithful(line, desired) && IsLine(line) && !Terminated(line)
    ensures Faithful(line + "\n", desired) && IsLine(line + "\n") && Terminated(line + "\n")
    ensures SetKey(line + "\n") == SetKey(line)
  {
    SetKeyNewline(line);
    if Managed(line, desired) {
      var key := SetKey(line).value;
      AssignmentLine(key, desired[key], Terminator(line));
      AssignmentLine(key, desired[key], "\n");
      assert Terminator(line) == "";
      assert line + "\n" == Assignment(key, desired[key]) + "\n";
    }
  }

  lemma {:induction false} KeysOne(line: string, desired: map<string, string>)
    ensures Keys([line], desired) == if Managed(line, desired) then [SetKey(line).value] else []
    ensures Unmanaged([line], desired) == if Managed(line, desired) then [] else [line]
  {
    assert [line][1..] == [];
  }

  lemma {:induction false} TerminateLines(ls: seq<string>, desired: map<string, string>)
    requires Clean(desired) && AllFaithful(ls, desired) && IsSplit(ls)
    ensures AllFaithful(Terminate(ls), desired) && IsSplit(Terminate(ls))
    ensures forall i :: 0 <= i < |Terminate(ls)| ==> Terminated(Terminate(ls)[i])
  {
    if ls != [] && !Terminated(ls[|ls| - 1]) {
      TerminatedLine(ls[|ls| - 1], desired);
    }
  }

  lemma {:induction false} TerminateKeys(ls: seq<string>, desired: map<string, string>)
    requires Clean(desired)
    ensures Keys(Terminate(ls), desired) == Keys(ls, desired)
    ensures Unmanaged(Terminate(ls), desired) == Unmanaged(ls, desired) ||
            Unmanaged(Terminate(ls), desired) == Terminate(Unmanaged(ls, desired))
  {
    if ls != [] && !Terminated(ls[|ls| - 1]) {
      var front, last := ls[..|ls| - 1], ls[|ls| - 1];
      assert ls == front + [last];
      KeysConcat(front, [last], desired);
      KeysConcat(front, [last + "\n"], desired);
      SetKeyNewline(last);
      KeysOne(last, desired);
      KeysOne(last + "\n", desired);
      if !Managed(last, desired) {
        TerminateEnd(Unmanaged(front, desired), last);
      }
    }
  }

  lemma {:induction false} TerminateEnd(front: seq<string>, last: string)
    requires !Terminated(last)
    ensures Terminate(front + [last]) == front + [last + "\n"]
  {
    assert (front + [last])[..|front + [last]| - 1] == front;
  }

  lemma {:induction false} AppendedLine(key: string, desired: map<string, string>)
    requires Clean(desired) && key in desired
    ensures var line := Assignment(key, desired[key]) + "\n";
            SetKey(line) == Some(key) && Faithful(line, desired) && IsLine(line) && Terminated(line)
  {
    AssignmentKey(key, desired[key], "\n");
    AssignmentLine(key, desired[key], "\n");
  }

  predicate GoodLine(line: string, desired: map<string, string>) {
    Faithful(line, desired) && IsLine(line) && Terminated(line)
  }

  /** Each key not seen gets one faithful line, and no other line is appended. */
  lemma {:induction false} AppendedLines(keys: seq<string>, desired: map<string, string>, seen: set<string>)
    requires Clean(desired) && forall k :: k in keys ==> k in desired
    ensures forall l :: l in Appended(keys, desired, seen) ==> GoodLine(l, desired)
    decreases |keys|
  {
    if keys != [] {
      AppendedLines(keys[1..], desired, seen);
      AppendedLine(keys[0], desired);
    }
  }

  lemma {:induction false} AppendedKeys(keys: seq<string>, desired: map<string, string>, seen: set<string>)
    requires Clean(desired) && forall k :: k in keys ==> k in desired
    ensures Keys(Appended(keys, desired, seen), desired) == Absent(keys, seen)
    ensures Unmanaged(Appended(keys, desired, seen), desired) == []
    decreases |keys|
  {
    if keys != [] {
      AppendedKeys(keys[1..], desired, seen);
      if keys[0] in seen {
        assert Appended(keys, desired, seen) == Appended(keys[1..], desired, seen);
      } else {
        AppendedLine(keys[0], desired);
        assert Appended(keys, desired, seen)[1..] == Appended(keys[1..], desired, seen);
      }
    }
  }

  function Absent(keys: seq<string>, seen: set<string>): seq<string> {
    if keys == [] then [] else (if keys[0] in seen then [] else [keys[0]]) + Absent(keys[1..], seen)
  }

  lemma {:induction false} AbsentKeys(keys: seq<string>, seen: set<string>)
    requires NoRepeats(keys)
    ensures NoRepeats(Absent(keys, seen))
    ensures forall k :: k in Absent(keys, seen) <==> k in keys && k !in seen
    decreases |keys|
  {
    if keys != [] {
      AbsentKeys(keys[1..], seen);
      assert keys[0] !in keys[1..];
    }
  }

  /** The rendered lines are lines, and the managed ones are faithful. */
  lemma {:induction false} RenderedGood(ls: seq<string>, desired: map<string, string>)
    requires Clean(desired) && IsSplit(ls)
    ensures IsSplit(RenderedLines(ls, desired)) && AllFaithful(RenderedLines(ls, desired), desired)
  {
    var kept, added := Kept(ls, desired, {}), Appended(SortedKeys(desired.Keys), desired, Seen(ls, desired));
    KeptLines(ls, desired, {});
    KeptSplit(ls, desired, {});
    if added != [] {
      TerminateLines(kept, desired);
      AppendedLines(SortedKeys(desired.Keys), desired, Seen(ls, desired));
      GoodConcat(Terminate(kept), added, desired);
    }
  }

  lemma {:induction false} GoodConcat(a: seq<string>, b: seq<string>, desired: map<string, string>)
    requires IsSplit(a) && AllFaithful(a, desired) && forall i :: 0 <= i < |a| ==> Terminated(a[i])
    requires forall l :: l in b ==> GoodLine(l, desired)
    ensures IsSplit(a + b) && AllFaithful(a + b, desired)
  {
    forall i | 0 <= i < |b| ensures GoodLine(b[i], desired) {
      assert b[i] in b;
    }
  }

  lemma {:induction false} JoinKeys(a: seq<string>, b: seq<string>, all: set<string>, seen: set<string>)
    requires NoRepeats(a) && NoRepeats(b)
    requires forall k :: k in a <==> k in seen
    requires forall k :: k in b <==> k in all && k !in seen
    requires seen <= all
    ensures NoRepeats(a + b) && forall k :: k in a + b <==> k in all
  {
    forall i, j | 0 <= i < j < |a + b| ensures (a + b)[i] != (a + b)[j] {
      if i < |a| <= j {
        assert a[i] in a && b[j - |a|] in b;
      }
    }
  }

  /** There is one line for each managed key. */
  lemma {:induction false} RenderedKeys(ls: seq<string>, desired: map<string, string>)
    requires Clean(desired)
    ensures NoRepeats(Keys(RenderedLines(ls, desired), desired))
    ensures forall k :: k in Keys(RenderedLines(ls, desired), desired) <==> k in desired.Keys
  {
    var kept, keys, seen := Kept(ls, desired, {}), SortedKeys(desired.Keys), Seen(ls, desired);
    var added := Appended(keys, desired, seen);
    KeptKeys(ls, desired, {});
    SeenManaged(ls, desired);
    SortedKeysOrder(desired.Keys);
    AppendedKeys(keys, desired, seen);
    AbsentKeys(keys, seen);
    JoinKeys(Keys(kept, desired), Absent(keys, seen), desired.Keys, seen);
    if added == [] {
      assert Keys(kept, desired) + Absent(keys, seen) == Keys(kept, desired);
    } else {
      TerminateKeys(kept, desired);
      KeysConcat(Terminate(kept), added, desired);
    }
  }

  /** The other lines are those there were, the last one terminated if need be. */
  lemma {:induction false} RenderedUnmanaged(ls: seq<string>, desired: map<string, string>)
    requires Clean(desired)
    ensures Unmanaged(RenderedLines(ls, desired), desired) == Unmanaged(ls, desired) ||
            Unmanaged(RenderedLines(ls, desired), desired) == Terminate(Unmanaged(ls, desired))
  {
    var kept, keys, seen := Kept(ls, desired, {}), SortedKeys(desired.Keys), Seen(ls, desired);
    KeptLines(ls, desired, {});
    AppendedKeys(keys, desired, seen);
    TerminateKeys(kept, desired);
    KeysConcat(Terminate(kept), Appended(keys, desired, seen), desired);
  }

  lemma {:induction false} SeenManaged(ls: seq<string>, desired: map<string, string>)
    ensures Seen(ls, desired) <= desired.Keys
    decreases |ls|
  {
    if ls != [] {
      SeenManaged(ls[1..], desired);
    }
  }

  /** Rendering rewritten lines again changes nothing. */
  lemma {:induction false} RenderedFixed(ls: seq<string>, desired: map<string, string>)
    requires Clean(desired) && IsSplit(ls)
    ensures var out := RenderedLines(ls, desired); RenderedLines(out, desired) == out
  {
    var out := RenderedLines(ls, desired);
    RenderedGood(ls, desired);
    RenderedKeys(ls, desired);
    KeptFixed(out, desired, {});
    AppendedNone(SortedKeys(desired.Keys), desired, Seen(out, desired));
  }

  lemma {:induction false} AppendedNone(keys: seq<string>, desired: map<string, string>, seen: set<string>)
    requires (forall k :: k in keys ==> k in desired) && (forall k :: k in keys ==> k in seen)
    ensures Appended(keys, desired, seen) == []
    decreases |keys|
  {
    if keys != [] {
      assert keys[0] in keys;
      AppendedNone(keys[1..], desired, seen);
    }
  }

  // ---------- the theorems ----------

  /** An ASCII letter, then ASCII letters, digits and underscores. */
  predicate SettingName(k: string) {
    && |k| > 0 && ('a' <= k[0] <= 'z' || 'A' <= k[0] <= 'Z')
    && forall i :: 0 <= i < |k| ==> 'a' <= k[i] <= 'z' || 'A' <= k[i] <= 'Z' || '0' <= k[i] <= '9' || k[i] == '_'
  }

  /** A string without control characters, a boolean, or a number. */
  predicate Renderable(v: Setting) {
    match v
    case Str(s) => forall i :: 0 <= i < |s| ==> !(s[i] as int < 32 || 127 <= s[i] as int < 160)
    case Bool(_) => true
    case Number(_) => true
    case Other => false
  }

  lemma {:induction false} RenderableMeans(v: Setting)
    ensures Renderable(v) <==> WowValue(v).Ok?
  {
    if v.Str? {
      assert (exists c :: c in v.text && Control(c)) <==> exists i :: 0 <= i < |v.text| && Control(v.text[i]);
    }
  }

  lemma {:induction false} SettingNameMeans(k: string)
    ensures SettingName(k) <==> ValidKey(k)
  {
    assert (forall c :: c in k ==> Alphabetic(c) || Digit(c) || c == '_') <==>
           forall i :: 0 <= i < |k| ==> Alphabetic(k[i]) || Digit(k[i]) || k[i] == '_';
  }

  /** The error cases: rendering fails exactly when some managed key is not a
      setting name or some value has no rendering. */
  lemma {:induction false} DesiredFails(settings: map<string, Setting>, keys: seq<string>)
    requires forall k :: k in keys ==> k in settings
    ensures Desired(settings, keys).Err? <==> exists k :: k in keys && !(ValidKey(k) && WowValue(settings[k]).Ok?)
    decreases |keys|
  {
    if keys != [] {
      assert keys[0] in keys && forall k :: k in keys[1..] ==> k in keys;
      DesiredFails(settings, keys[1..]);
    }
  }

  lemma {:induction false} RenderFails(original: string, settings: map<string, Setting>)
    ensures Rendered(original, settings).Err? <==> exists k :: k in settings && !(SettingName(k) && Renderable(settings[k]))
  {
    var keys := SortedKeys(settings.Keys);
    DesiredFails(settings, keys);
    forall k | k in settings ensures SettingName(k) && Renderable(settings[k]) <==> ValidKey(k) && WowValue(settings[k]).Ok? {
      SettingNameMeans(k);
      RenderableMeans(settings[k]);
    }
    if k :| k in settings && !(ValidKey(k) && WowValue(settings[k]).Ok?) {
      assert k in keys;
    }
  }

  /** The value a managed key is given reads as the string declared for it. */
  lemma {:induction false} DesiredReadsBack(settings: map<string, Setting>, k: string)
    requires Desired(settings, SortedKeys(settings.Keys)).Ok? && k in settings
    ensures var desired := Desired(settings, SortedKeys(settings.Keys)).value;
            k in desired && !settings[k].Other? && Unquote(desired[k]) == Some(Declared(settings[k]))
  {
    DesiredClean(settings, SortedKeys(settings.Keys));
    assert k in SortedKeys(settings.Keys);
    ValueRoundTrip(settings[k]);
  }

  lemma {:induction false} DesiredOfAll(settings: map<string, Setting>)
    requires Desired(settings, SortedKeys(settings.Keys)).Ok?
    ensures Desired(settings, SortedKeys(settings.Keys)).value.Keys == settings.Keys
  {
    var desired := Desired(settings, SortedKeys(settings.Keys)).value;
    DesiredClean(settings, SortedKeys(settings.Keys));
    assert forall k :: k in settings <==> k in desired;
  }

  /** Reading a rendered file back: the lines that set a managed key set each of
      them once, to its rendered value; all other lines are the other lines
      there were, in their order, up to one newline added to an unterminated
      last one. */
  lemma {:induction false} RenderReadsBack(original: string, settings: map<string, Setting>)
    requires Rendered(original, settings).Ok? && settings != map[]
    ensures var desired := Desired(settings, SortedKeys(settings.Keys)).value;
            var before, after := Lines(original), Lines(Rendered(original, settings).value);
            && NoRepeats(Keys(after, desired)) && (forall k :: k in Keys(after, desired) <==> k in settings)
            && AllFaithful(after, desired)
            && (Unmanaged(after, desired) == Unmanaged(before, desired) ||
                Unmanaged(after, desired) == Terminate(Unmanaged(before, desired)))
  {
    var desired := Desired(settings, SortedKeys(settings.Keys)).value;
    DesiredClean(settings, SortedKeys(settings.Keys));
    DesiredOfAll(settings);
    LinesSplit(original);
    RenderedGood(Lines(original), desired);
    RenderedKeys(Lines(original), desired);
    RenderedUnmanaged(Lines(original), desired);
    LinesConcat(RenderedLines(Lines(original), desired));
  }

  /** Rendering twice is rendering once. */
  lemma {:induction false} RenderIdempotent(original: string, settings: map<string, Setting>)
    requires Rendered(original, settings).Ok?
    ensures Rendered(Rendered(original, settings).value, settings) == Rendered(original, settings)
  {
    if settings != map[] {
      var desired := Desired(settings, SortedKeys(settings.Keys)).value;
      DesiredClean(settings, SortedKeys(settings.Keys));
      LinesSplit(original);
      RenderedGood(Lines(original), desired);
      RenderedFixed(Lines(original), desired);
      LinesConcat(RenderedLines(Lines(original), desired));
    }
  }

  // ---------- which lines are managed, and where they stay ----------

  predicate Blank(s: string) {
    forall i :: 0 <= i < |s| ==> Whitespace(s[i])
  }

  predicate Field(s: string) {
    s != "" && forall i :: 0 <= i < |s| ==> !Whitespace(s[i])
  }

  /** The line's first two fields are `SET` and the key. */
  ghost predicate SetsKey(line: string, key: string) {
    exists a, b, c :: SetsKeyAs(line, key, a, b, c)
  }

  predicate SetsKeyAs(line: string, key: string, a: string, b: string, c: string) {
    && line == a + "SET" + b + key + c
    && Blank(a) && Blank(b) && b != "" && Field(key) && (c == "" || Whitespace(c[0]))
  }

  lemma {:induction false} SkipSpaceSplit(s: string) returns (a: string)
    ensures s == a + SkipSpace(s) && Blank(a)
    ensures SkipSpace(s) == "" || !Whitespace(SkipSpace(s)[0])
    decreases |s|
  {
    hide Whitespace;
    if s != [] && Whitespace(s[0]) {
      var rest := SkipSpaceSplit(s[1..]);
      a := [s[0]] + rest;
      assert s == [s[0]] + s[1..];
    } else {
      a := "";
    }
  }

  lemma {:induction false} SkipSpaceOver(a: string, s: string)
    requires Blank(a) && (s == "" || !Whitespace(s[0]))
    ensures SkipSpace(a + s) == s
    decreases |a|
  {
    hide Whitespace;
    if a == "" {
      assert a + s == s;
    } else {
      assert (a + s)[1..] == a[1..] + s;
      SkipSpaceOver(a[1..], s);
    }
  }

  lemma {:induction false} WordSplit(s: string) returns (rest: string)
    ensures s == Word(s) + rest && (rest == "" || Whitespace(rest[0]))
    ensures forall i :: 0 <= i < |Word(s)| ==> !Whitespace(Word(s)[i])
    decreases |s|
  {
    hide Whitespace;
    if s == [] || Whitespace(s[0]) {
      rest := s;
    } else {
      rest := WordSplit(s[1..]);
      assert s == [s[0]] + s[1..];
    }
  }

  /** The key that a line sets is its second field, if `SET` is its first. */
  lemma {:induction false} SetKeyMeans(line: string, key: string)
    ensures SetKey(line) == Some(key) <==> SetsKey(line, key)
  {
    if SetKey(line) == Some(key) {
      SetKeyFound(line, key);
    }
    if a, b, c :| SetsKeyAs(line, key, a, b, c) {
      SetsKeyRead(line, key, a, b, c);
    }
  }

  lemma {:induction false} SetKeyFound(line: string, key: string)
    requires SetKey(line) == Some(key)
    ensures SetsKey(line, key)
  {
    var first := SkipSpace(line);
    var a := SkipSpaceSplit(line);
    var rest := WordSplit(first);
    assert first[|Word(first)|..] == rest;
    var b := SkipSpaceSplit(rest);
    var c := WordSplit(SkipSpace(rest));
    hide SkipSpace, Word, Whitespace;
    assert first == "SET" + rest && rest == b + (key + c);
    Joined(line, a, b, key, c, first, rest);
    assert b != "";
    assert SetsKeyAs(line, key, a, b, c);
  }

  lemma {:induction false} Joined(line: string, a: string, b: string, key: string, c: string, first: string, rest: string)
    requires line == a + first && first == "SET" + rest && rest == b + (key + c)
    ensures line == a + "SET" + b + key + c
  {
    assert a + ("SET" + (b + (key + c))) == a + "SET" + b + key + c;
  }

  lemma {:induction false} SetsKeyRead(line: string, key: string, a: string, b: string, c: string)
    requires SetsKeyAs(line, key, a, b, c)
    ensures SetKey(line) == Some(key)
  {
    var second := b + (key + c);
    var first := "SET" + second;
    assert line == a + first;
    SkipSpaceOver(a, first);
    WordOf("SET", second);
    assert first[|"SET"|..] == second;
    SkipSpaceOver(b, key + c);
    WordOf(key, c);
  }

  /** How a line ends. */
  predicate EndsWith(line: string, end: string) {
    end == if |line| >= 2 && line[|line| - 2] == '\r' && line[|line| - 1] == '\n' then "\r\n"
           else if |line| >= 1 && line[|line| - 1] == '\n' then "\n"
           else ""
  }

  lemma {:induction false} TerminatorMeans(line: string)
    ensures EndsWith(line, Terminator(line))
  {
  }

  /** The line that stands for `l` afterwards: itself, or the assignment of its
      key, ending as it did. */
  predicate StandsFor(m: string, l: string, desired: map<string, string>) {
    if !Managed(l, desired) then m == l
    else
      var key := SetKey(l).value;
      var head := "SET " + key + " " + desired[key];
      head <= m && EndsWith(l, m[|head|..])
  }

  /** Whether a line survives: it is not managed, or is the first of its key. */
  ghost predicate Survives(ls: seq<string>, desired: map<string, string>, seen: set<string>, i: nat)
    requires i < |ls|
  {
    !Managed(ls[i], desired) ||
    (SetKey(ls[i]).value !in seen && forall h :: 0 <= h < i ==> SetKey(ls[h]) != SetKey(ls[i]))
  }

  predicate Aligned(ls: seq<string>, kept: seq<string>, desired: map<string, string>, at: seq<nat>) {
    |at| == |kept| && forall j :: 0 <= j < |at| ==> at[j] < |ls| && StandsFor(kept[j], ls[at[j]], desired)
  }

  predicate Increasing(at: seq<nat>) {
    forall j, k :: 0 <= j < k < |at| ==> at[j] < at[k]
  }

  ghost predicate Selects(ls: seq<string>, desired: map<string, string>, seen: set<string>, at: seq<nat>) {
    forall i :: 0 <= i < |ls| ==> (i in at <==> Survives(ls, desired, seen, i))
  }

  /** `kept` are the lines that survive, each standing where its line was. */
  ghost predicate InPlace(ls: seq<string>, kept: seq<string>, desired: map<string, string>, seen: set<string>, at: seq<nat>) {
    Aligned(ls, kept, desired, at) && Increasing(at) && Selects(ls, desired, seen, at)
  }

  /** Rewriting happens in place: the surviving lines keep their order, and each
      stands where the line was that it stands for. */
  lemma {:induction false} KeptInPlace(ls: seq<string>, desired: map<string, string>, seen: set<string>) returns (at: seq<nat>)
    ensures InPlace(ls, Kept(ls, desired, seen), desired, seen, at)
    decreases |ls|
  {
    hide Kept, Survives, StandsFor, KeptOne;
    if ls == [] {
      NoneKept(desired, seen);
      at := [];
    } else {
      var next := if Managed(ls[0], desired) then seen + {SetKey(ls[0]).value} else seen;
      var rest := KeptInPlace(ls[1..], desired, next);
      var shifted := seq(|rest|, j requires 0 <= j < |rest| => rest[j] + 1);
      var more := Kept(ls[1..], desired, next);
      KeptHead(ls, desired, seen);
      SelectsShift(ls, desired, seen, next, rest, shifted);
      AlignedShift(ls, more, desired, rest, shifted);
      if Survives(ls, desired, seen, 0) {
        at := [0] + shifted;
        AlignedHead(ls, KeptOne(ls[0], desired, seen)[0], more, desired, shifted);
        assert KeptOne(ls[0], desired, seen) == [KeptOne(ls[0], desired, seen)[0]];
      } else {
        at := shifted;
        assert [] + more == more;
      }
    }
  }

  lemma {:induction false} NoneKept(desired: map<string, string>, seen: set<string>)
    ensures Kept([], desired, seen) == []
  {
  }

  lemma {:induction false} AlignedShift(ls: seq<string>, more: seq<string>, desired: map<string, string>, rest: seq<nat>, shifted: seq<nat>)
    requires ls != [] && Aligned(ls[1..], more, desired, rest) && Increasing(rest)
    requires |shifted| == |rest| && forall j :: 0 <= j < |rest| ==> shifted[j] == rest[j] + 1
    ensures Aligned(ls, more, desired, shifted) && Increasing(shifted)
  {
    hide StandsFor;
    assert forall j :: 0 <= j < |rest| ==> ls[1..][rest[j]] == ls[shifted[j]];
  }

  lemma {:induction false} AlignedHead(ls: seq<string>, first: string, more: seq<string>, desired: map<string, string>, shifted: seq<nat>)
    requires ls != [] && StandsFor(first, ls[0], desired) && Aligned(ls, more, desired, shifted) && Increasing(shifted)
    requires forall j :: 0 <= j < |shifted| ==> shifted[j] > 0
    ensures Aligned(ls, [first] + more, desired, [0] + shifted) && Increasing([0] + shifted)
  {
    hide StandsFor;
  }

  lemma {:induction false} KeptHead(ls: seq<string>, desired: map<string, string>, seen: set<string>)
    requires ls != []
    ensures var next := if Managed(ls[0], desired) then seen + {SetKey(ls[0]).value} else seen;
            Kept(ls, desired, seen) == KeptOne(ls[0], desired, seen) + Kept(ls[1..], desired, next)
    ensures if Survives(ls, desired, seen, 0) then |KeptOne(ls[0], desired, seen)| == 1 && StandsFor(KeptOne(ls[0], desired, seen)[0], ls[0], desired)
            else KeptOne(ls[0], desired, seen) == []
  {
    if Managed(ls[0], desired) && SetKey(ls[0]).value in seen {
      assert seen + {SetKey(ls[0]).value} == seen;
    }
    TerminatorMeans(ls[0]);
  }

  lemma {:induction false} SelectsShift(ls: seq<string>, desired: map<string, string>, seen: set<string>, next: set<string>,
                                        rest: seq<nat>, shifted: seq<nat>)
    requires ls != [] && next == if Managed(ls[0], desired) then seen + {SetKey(ls[0]).value} else seen
    requires Selects(ls[1..], desired, next, rest)
    requires |shifted| == |rest| && forall j :: 0 <= j < |rest| ==> shifted[j] == rest[j] + 1
    ensures Selects(ls, desired, seen, if Survives(ls, desired, seen, 0) then [0] + shifted else shifted)
  {
    hide Survives;
    ShiftedHas(rest, shifted, 0);
    forall i | 0 < i < |ls| ensures i in shifted <==> Survives(ls, desired, seen, i) {
      SurvivesRest(ls, desired, seen, next, i);
      ShiftedHas(rest, shifted, i);
      assert i - 1 in rest <==> Survives(ls[1..], desired, next, i - 1);
    }
  }

  lemma {:induction false} ShiftedHas(rest: seq<nat>, shifted: seq<nat>, i: nat)
    requires |shifted| == |rest| && forall j :: 0 <= j < |rest| ==> shifted[j] == rest[j] + 1
    ensures i in shifted <==> i > 0 && i - 1 in rest
  {
    if j :| 0 <= j < |rest| && rest[j] == i - 1 {
      assert shifted[j] == i;
    }
  }

  lemma {:induction false} SurvivesRest(ls: seq<string>, desired: map<string, string>, seen: set<string>, next: set<string>, i: nat)
    requires 0 < i < |ls| && next == if Managed(ls[0], desired) then seen + {SetKey(ls[0]).value} else seen
    ensures Survives(ls, desired, seen, i) <==> Survives(ls[1..], desired, next, i - 1)
  {
    var rest := ls[1..];
    assert rest[i - 1] == ls[i];
    assert (forall h :: 0 <= h < i ==> SetKey(ls[h]) != SetKey(ls[i])) <==>
           SetKey(ls[0]) != SetKey(ls[i]) && forall h :: 0 <= h < i - 1 ==> SetKey(rest[h]) != SetKey(ls[i]) by {
      forall h | 1 <= h < i ensures ls[h] == rest[h - 1] {
      }
      if forall h :: 0 <= h < i ==> SetKey(ls[h]) != SetKey(ls[i]) {
        forall h | 0 <= h < i - 1 ensures SetKey(rest[h]) != SetKey(ls[i]) {
          assert SetKey(ls[h + 1]) != SetKey(ls[i]);
        }
      }
    }
  }

  /** An assignment on a line of its own. */
  ghost predicate IsAssignment(line: string, desired: map<string, string>) {
    exists k :: k in desired && line == "SET " + k + " " + desired[k] + "\n"
  }

  /** The same line, or, at the end of what was there, the same line terminated. */
  predicate SameLine(after: seq<string>, kept: seq<string>, j: nat)
    requires j < |kept| && j < |after|
  {
    after[j] == kept[j] || (j == |kept| - 1 && after[j] == kept[j] + "\n")
  }

  /** The whole file afterwards: the lines that survive, in place, the last of
      them terminated if lines follow; then assignments. */
  lemma {:induction false} RenderedInPlace(original: string, settings: map<string, Setting>) returns (at: seq<nat>)
    requires Rendered(original, settings).Ok? && settings != map[]
    ensures var desired := Desired(settings, SortedKeys(settings.Keys)).value;
            var before, after := Lines(original), Lines(Rendered(original, settings).value);
            var kept := Kept(before, desired, {});
            && InPlace(before, kept, desired, {}, at) && |kept| <= |after|
            && (forall j :: 0 <= j < |kept| ==> SameLine(after, kept, j))
            && (forall j :: |kept| <= j < |after| ==> IsAssignment(after[j], desired))
  {
    var desired := Desired(settings, SortedKeys(settings.Keys)).value;
    var before := Lines(original);
    DesiredClean(settings, SortedKeys(settings.Keys));
    LinesSplit(original);
    RenderedGood(before, desired);
    LinesConcat(RenderedLines(before, desired));
    at := KeptInPlace(before, desired, {});
    RenderedShape(before, desired);
  }

  lemma {:induction false} RenderedShape(before: seq<string>, desired: map<string, string>)
    ensures var kept, after := Kept(before, desired, {}), RenderedLines(before, desired);
            && |kept| <= |after|
            && (forall j :: 0 <= j < |kept| ==> SameLine(after, kept, j))
            && (forall j :: |kept| <= j < |after| ==> IsAssignment(after[j], desired))
  {
    var kept, added := Kept(before, desired, {}), Appended(SortedKeys(desired.Keys), desired, Seen(before, desired));
    AppendedAre(SortedKeys(desired.Keys), desired, Seen(before, desired));
    JoinedShape(kept, added, desired);
  }

  lemma {:induction false} JoinedShape(kept: seq<string>, added: seq<string>, desired: map<string, string>)
    requires forall l :: l in added ==> IsAssignment(l, desired)
    ensures var after := if added == [] then kept else Terminate(kept) + added;
            && |kept| <= |after|
            && (forall j :: 0 <= j < |kept| ==> SameLine(after, kept, j))
            && (forall j :: |kept| <= j < |after| ==> IsAssignment(after[j], desired))
  {
    hide IsAssignment;
    var ended := Terminate(kept);
    assert |ended| == |kept| && forall j :: 0 <= j < |kept| ==> SameLine(ended, kept, j);
    var after := ended + added;
    assert forall j :: 0 <= j < |kept| ==> after[j] == ended[j];
    assert forall j :: |kept| <= j < |after| ==> after[j] == added[j - |kept|];
  }

  lemma {:induction false} AppendedAre(keys: seq<string>, desired: map<string, string>, seen: set<string>)
    requires forall k :: k in keys ==> k in desired
    ensures forall l :: l in Appended(keys, desired, seen) ==> IsAssignment(l, desired)
    decreases |keys|
  {
    if keys != [] {
      AppendedAre(keys[1..], desired, seen);
      assert keys[0] in desired;
      assert IsAssignment(Assignment(keys[0], desired[keys[0]]) + "\n", desired);
    }
  }
}
