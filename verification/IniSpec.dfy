// What probes/pfmcounters/inih/ini.c computes, as functions on strings: the text of a line
// is the C string in the line buffer, without its terminator.

module IniSpec {

  const MAX_LINE: nat := 200
  const MAX_SECTION: nat := 50
  const MAX_NAME: nat := 50

  predicate IsSpace(c: char) {
    c == ' ' || '\t' <= c <= '\r'
  }

  /** rstrip: without trailing whitespace. */
  function RStrip(s: string): (r: string)
    ensures r <= s
    ensures r == "" || !IsSpace(r[|r| - 1])
    ensures forall k :: |r| <= k < |s| ==> IsSpace(s[k])
  {
    if s != "" && IsSpace(s[|s| - 1]) then RStrip(s[..|s| - 1]) else s
  }

  /** lskip: how many whitespace characters lead. */
  function Lead(s: string): (n: nat)
    ensures n <= |s|
    ensures n < |s| ==> !IsSpace(s[n])
    ensures forall k :: 0 <= k < n ==> IsSpace(s[k])
  {
    if s != "" && IsSpace(s[0]) then 1 + Lead(s[1..]) else 0
  }

  // Position k ends the search of find_char_or_comment for c.
  predicate StopsAt(s: string, c: char, k: nat)
    requires k < |s|
  {
    s[k] == c || (s[k] == ';' && k > 0 && IsSpace(s[k - 1]))
  }

  /** find_char_or_comment from position i on: the first stop, or the end. */
  function Find(s: string, c: char, i: nat): (e: nat)
    requires i <= |s|
    ensures i <= e <= |s|
    ensures e < |s| ==> StopsAt(s, c, e)
    ensures forall k :: i <= k < e ==> !StopsAt(s, c, k)
    decreases |s| - i
  {
    if i == |s| || StopsAt(s, c, i) then i else Find(s, c, i + 1)
  }

  /** strncpy0: as much as fits into size bytes. */
  function Fit(s: string, size: nat): string
    requires size > 0
  {
    if |s| < size then s else s[..size - 1]
  }

  datatype Call = Call(section: string, name: string, value: string)

  // What a handler answers to its latest call may depend on all calls so far.
  type Handler = seq<Call> -> bool

  datatype Ini = Ini(section: string, prev: string, lineno: nat, error: nat, calls: seq<Call>)

  const START := Ini("", "", 0, 0, [])

  // What a line asks for, given the current section and the previous name.
  datatype Action =
    | Nothing
    | Header(section: string)
    | Continue(value: string)
    | Pair(name: string, value: string)
    | Malformed

  // Value part of a pair: up to a comment, stripped on both sides.
  function ValueOf(s: string): string {
    var v := s[Lead(s)..];
    RStrip(v[..Find(v, '\0', 0)])
  }

  function PairAt(t: string, e: nat): Action
    requires e < |t|
  {
    Pair(RStrip(t[..e]), ValueOf(t[e + 1..]))
  }

  // A "[section]" line.
  function HeaderLine(t: string): Action
    requires t != ""
  {
    var e := Find(t[1..], ']', 0);
    if e < |t| - 1 && t[1..][e] == ']' then Header(t[1..][..e]) else Malformed
  }

  // Where the search of a pair line ends: first for '=', then for ':'.
  function Separator(t: string): (e: nat)
    ensures e <= |t|
  {
    var e := Find(t, '=', 0);
    if e < |t| && t[e] == '=' then e else Find(t, ':', 0)
  }

  predicate IsPair(t: string) {
    Separator(t) < |t| && (t[Separator(t)] == '=' || t[Separator(t)] == ':')
  }

  // A "name=value" or "name:value" line.
  function PairLine(t: string): Action {
    if IsPair(t) then PairAt(t, Separator(t)) else Malformed
  }

  // What a stripped line asks for; indented lines continue the previous value.
  function Choose(prev: string, indented: bool, t: string): Action {
    if prev != "" && t != "" && indented then Continue(t)
    else if t == "" || t[0] == ';' || t[0] == '#' then Nothing
    else if t[0] == '[' then HeaderLine(t)
    else PairLine(t)
  }

  function Classify(prev: string, text: string): Action {
    var r := RStrip(text);
    Choose(prev, Lead(r) > 0, r[Lead(r)..])
  }

  function Emit(h: Handler, s: Ini, c: Call): Ini {
    s.(calls := s.calls + [c],
       error := if !h(s.calls + [c]) && s.error == 0 then s.lineno else s.error)
  }

  // What an action does to the state, which already carries the number of its line.
  function Act(h: Handler, s: Ini, a: Action): Ini {
    match a
    case Nothing => s
    case Header(section) => s.(section := Fit(section, MAX_SECTION), prev := "")
    case Continue(value) => Emit(h, s, Call(s.section, s.prev, value))
    case Pair(name, value) => Emit(h, s.(prev := Fit(name, MAX_NAME)), Call(s.section, name, value))
    case Malformed => s.(error := if s.error == 0 then s.lineno else s.error)
  }

  /** One turn of the loop of ini_parse_file on a line with this text. */
  function Line(h: Handler, s: Ini, text: string): Ini {
    Act(h, s.(lineno := s.lineno + 1), Classify(s.prev, text))
  }

  function Lines(h: Handler, s: Ini, texts: seq<string>): Ini
    decreases |texts|
  {
    if texts == [] then s else Lines(h, Line(h, s, texts[0]), texts[1..])
  }

  // ---------- the file ----------

  /** How many characters fgets takes: through the first newline, at most MAX_LINE - 1. */
  function Chunk(file: string): (n: nat)
    requires file != ""
    ensures 1 <= n <= |file| && n < MAX_LINE
    ensures forall k :: 0 <= k < n - 1 ==> file[k] != '\n'
    ensures n < |file| && n < MAX_LINE - 1 ==> file[n - 1] == '\n'
  {
    ChunkFrom(file, 0)
  }

  function ChunkFrom(file: string, i: nat): (n: nat)
    requires i < |file| && i < MAX_LINE - 1
    ensures i < n <= |file| && n < MAX_LINE
    ensures forall k :: i <= k < n - 1 ==> file[k] != '\n'
    ensures n < |file| && n < MAX_LINE - 1 ==> file[n - 1] == '\n'
    decreases |file| - i
  {
    if file[i] == '\n' || i + 1 == |file| || i + 1 == MAX_LINE - 1 then i + 1 else ChunkFrom(file, i + 1)
  }

  // The C string in a buffer that holds s and a terminator.
  function CText(s: string): (r: string)
    ensures r <= s && '\0' !in r
    ensures |r| < |s| ==> s[|r|] == '\0'
  {
    if s == "" || s[0] == '\0' then "" else [s[0]] + CText(s[1..])
  }

  function Texts(file: string): seq<string>
    decreases |file|
  {
    if file == "" then [] else [CText(file[..Chunk(file)])] + Texts(file[Chunk(file)..])
  }

  function ParseSpec(h: Handler, file: string): Ini {
    Lines(h, START, Texts(file))
  }

  // ---------- errors do not stop the parser, and the first one is reported ----------

  // Line i of a run fails: no '=' , ':' or ']' where one is needed, or the handler refuses.
  predicate Fails(h: Handler, s: Ini, text: string) {
    var a := Classify(s.prev, text);
    a.Malformed? || ((a.Pair? || a.Continue?) && !h(Line(h, s, text).calls))
  }

  predicate SomeLineFails(h: Handler, s: Ini, texts: seq<string>, i: nat)
    requires i < |texts|
  {
    Fails(h, Lines(h, s, texts[..i]), texts[i])
  }

  lemma {:induction false} LinesSnoc(h: Handler, s: Ini, texts: seq<string>, text: string)
    ensures Lines(h, s, texts + [text]) == Line(h, Lines(h, s, texts), text)
    decreases |texts|
  {
    if texts == [] {
      assert (texts + [text])[1..] == [];
    } else {
      assert (texts + [text])[1..] == texts[1..] + [text];
      LinesSnoc(h, Line(h, s, texts[0]), texts[1..], text);
    }
  }

  lemma LineError(h: Handler, s: Ini, text: string)
    ensures var s' := Line(h, s, text);
            && s'.lineno == s.lineno + 1
            && s'.error == if s.error != 0 then s.error else if Fails(h, s, text) then s'.lineno else 0
  {
  }

  /** The result is the number of the first failing line, or 0 when no line fails. */
  lemma {:induction false} ErrorIsFirstFailure(h: Handler, texts: seq<string>)
    ensures var e := Lines(h, START, texts).error;
            && Lines(h, START, texts).lineno == |texts|
            && (e == 0 ==> forall i: nat :: i < |texts| ==> !SomeLineFails(h, START, texts, i))
            && (e != 0 ==> e <= |texts| && SomeLineFails(h, START, texts, e - 1)
                           && forall i: nat :: i < e - 1 ==> !SomeLineFails(h, START, texts, i))
    decreases |texts|
  {
    if texts != [] {
      var n := |texts| - 1;
      var before := texts[..n];
      ErrorIsFirstFailure(h, before);
      assert texts == before + [texts[n]];
      LinesSnoc(h, START, before, texts[n]);
      LineError(h, Lines(h, START, before), texts[n]);
      forall i: nat | i < n ensures SomeLineFails(h, START, texts, i) == SomeLineFails(h, START, before, i) {
        assert texts[..i] == before[..i];
      }
    }
  }

  // Two states that agree on everything but the error.
  predicate SameButError(a: Ini, b: Ini) {
    a.(error := 0) == b.(error := 0)
  }

  /** An earlier error, or a handler that refuses, changes nothing but the result: the same
      calls are made and the same sections entered. */
  lemma {:induction false} ErrorsDoNotStop(h: Handler, h': Handler, a: Ini, b: Ini, texts: seq<string>)
    requires SameButError(a, b)
    ensures SameButError(Lines(h, a, texts), Lines(h', b, texts))
    decreases |texts|
  {
    if texts != [] {
      assert SameButError(Line(h, a, texts[0]), Line(h', b, texts[0]));
      ErrorsDoNotStop(h, h', Line(h, a, texts[0]), Line(h', b, texts[0]), texts[1..]);
    }
  }
}
