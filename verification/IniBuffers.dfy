// The parser of ini.c on its buffers.
//
// Strings are terminated in place inside the line array, and the section and previous-name
// buffers have fixed sizes. Each method is proved against the function of IniSpec that it
// computes; ghost parameters name the C string that a pointer denotes, and say what a write
// leaves of the strings around it.

module IniBuffers {
  import opened IniSpec

  // The C string at index p of a is s.
  predicate Holds(a: seq<char>, p: nat, s: string) {
    p + |s| < |a| && a[p..p + |s|] == s && a[p + |s|] == '\0' && '\0' !in s
  }

  lemma HoldsAt(a: seq<char>, p: nat, s: string, k: nat)
    requires Holds(a, p, s) && k <= |s|
    ensures a[p + k] == if k < |s| then s[k] else '\0'
    ensures a[p + k] == '\0' <==> k == |s|
    ensures Holds(a, p + k, s[k..])
  {
    if k < |s| {
      assert a[p..p + |s|][k] == s[k];
    }
    assert a[p + k..p + |s|] == a[p..p + |s|][k..];
  }

  method StrLen(a: array<char>, p: nat, ghost s: string) returns (n: nat)
    requires Holds(a[..], p, s)
    ensures n == |s|
  {
    n := 0;
    HoldsAt(a[..], p, s, 0);
    while a[p + n] != '\0'
      invariant n <= |s| && a[p + n] == a[..][p + n]
      invariant a[p + n] == '\0' <==> n == |s|
      decreases |s| - n
    {
      HoldsAt(a[..], p, s, n + 1);
      n := n + 1;
    }
  }

  // Writing the terminator at position k cuts the string in two.
  lemma CutAt(a: seq<char>, p: nat, s: string, k: nat)
    requires Holds(a, p, s) && k < |s|
    ensures Holds(a[p + k := '\0'], p, s[..k])
    ensures Holds(a[p + k := '\0'], p + k + 1, s[k + 1..])
  {
    HoldsAt(a, p, s, k + 1);
    var b := a[p + k := '\0'];
    assert b[p..p + k] == a[p..p + |s|][..k];
    assert b[p + k + 1..p + |s|] == a[p + k + 1..p + |s|];
  }

  lemma HoldsFrame(a: seq<char>, b: seq<char>, p: nat, s: string)
    requires Holds(a, p, s) && |b| == |a|
    requires forall k :: p <= k <= p + |s| ==> b[k] == a[k]
    ensures Holds(b, p, s)
  {
    assert b[p..p + |s|] == a[p..p + |s|];
  }

  // *q = '\0'
  method Terminate(a: array<char>, p: nat, q: nat, ghost s: string)
    requires Holds(a[..], p, s) && p <= q < p + |s|
    modifies a
    ensures Holds(a[..], p, s[..q - p]) && Holds(a[..], q + 1, s[q - p + 1..])
    ensures forall k :: 0 <= k < a.Length && k != q ==> a[k] == old(a[k])
  {
    CutAt(a[..], p, s, q - p);
    ghost var b := a[..][p + (q - p) := '\0'];
    a[q] := '\0';
    assert a[..] == b;
  }

  lemma RStripStops(s: string)
    requires s == "" || !IsSpace(s[|s| - 1])
    ensures RStrip(s) == s
  {
  }

  // x and y agree outside the positions from lo to hi.
  predicate Outside(x: seq<char>, y: seq<char>, lo: int, hi: int) {
    |x| == |y| && forall k :: 0 <= k < |x| && !(lo <= k < hi) ==> x[k] == y[k]
  }

  lemma OutsideStep(x: seq<char>, y: seq<char>, z: seq<char>, lo: int, hi: int)
    requires Outside(y, z, lo, hi) && lo <= hi
    requires |x| == |y| && forall k :: 0 <= k < |x| && k != lo - 1 ==> x[k] == y[k]
    ensures Outside(x, z, lo - 1, hi)
  {
  }

  // One turn of rstrip: *--p = '\0'.
  method DropLast(a: array<char>, p: nat, q: nat, ghost t: string, ghost was: seq<char>, ghost hi: int)
    requires Holds(a[..], p, t) && t != "" && IsSpace(t[|t| - 1])
    requires q == p + |t| <= hi && Outside(a[..], was, q, hi)
    modifies a
    ensures Holds(a[..], p, t[..|t| - 1]) && Outside(a[..], was, q - 1, hi) && RStrip(t[..|t| - 1]) == RStrip(t)
    ensures LastIs(a[..], p, t[..|t| - 1])
  {
    ghost var now := a[..];
    Terminate(a, p, q - 1, t);
    OutsideStep(a[..], now, was, q, hi);
    LastOf(a[..], p, t[..|t| - 1]);
  }

  // The character before the terminator.
  predicate LastIs(a: seq<char>, p: nat, t: string) {
    t != "" ==> p + |t| <= |a| && a[p + |t| - 1] == t[|t| - 1]
  }

  lemma LastOf(a: seq<char>, p: nat, t: string)
    requires Holds(a, p, t)
    ensures LastIs(a, p, t)
  {
    if t != "" { HoldsAt(a, p, t, |t| - 1); }
  }

  method RStripAt(a: array<char>, p: nat, ghost s: string)
    requires Holds(a[..], p, s)
    modifies a
    ensures Holds(a[..], p, RStrip(s))
    ensures Outside(a[..], old(a[..]), p + |RStrip(s)|, p + |s|)
  {
    var n := StrLen(a, p, s);
    var q := p + n;
    ghost var t, was := s, a[..];
    LastOf(a[..], p, s);
    while q > p && IsSpace(a[q - 1])
      invariant |t| <= |s| && q == p + |t| && Holds(a[..], p, t) && LastIs(a[..], p, t) && RStrip(t) == RStrip(s)
      invariant Outside(a[..], was, q, p + |s|)
    {
      DropLast(a, p, q, t, was, p + |s|);
      t, q := t[..|t| - 1], q - 1;
    }
    RStripStops(t);
  }

  lemma LeadIs(s: string, n: nat)
    requires n <= |s| && forall k :: 0 <= k < n ==> IsSpace(s[k])
    requires n < |s| ==> !IsSpace(s[n])
    ensures Lead(s) == n
  {
  }

  method SkipAt(a: array<char>, p: nat, ghost s: string) returns (q: nat)
    requires Holds(a[..], p, s)
    ensures p <= q <= p + |s|
    ensures forall k :: 0 <= k < q - p ==> IsSpace(s[k])
    ensures q - p < |s| ==> !IsSpace(s[q - p])
  {
    q := p;
    HoldsAt(a[..], p, s, 0);
    while a[q] != '\0' && IsSpace(a[q])
      invariant p <= q <= p + |s|
      invariant a[q] == if q - p < |s| then s[q - p] else '\0'
      invariant a[q] == '\0' <==> q - p == |s|
      invariant forall k :: 0 <= k < q - p ==> IsSpace(s[k])
      decreases p + |s| - q
    {
      HoldsAt(a[..], p, s, q - p + 1);
      q := q + 1;
    }
  }

  method LSkipAt(a: array<char>, p: nat, ghost s: string) returns (q: nat)
    requires Holds(a[..], p, s)
    ensures q == p + Lead(s) && Holds(a[..], q, s[Lead(s)..])
  {
    q := SkipAt(a, p, s);
    LeadIs(s, q - p);
    HoldsAt(a[..], p, s, q - p);
  }

  method FindAt(a: array<char>, p: nat, c: char, ghost s: string) returns (e: nat)
    requires Holds(a[..], p, s)
    ensures e == p + Find(s, c, 0)
    ensures a[e] == '\0' <==> Find(s, c, 0) == |s|
    ensures Find(s, c, 0) < |s| ==> a[e] == s[Find(s, c, 0)]
  {
    var wasWhitespace := false;
    e := p;
    HoldsAt(a[..], p, s, 0);
    while a[e] != '\0' && a[e] != c && !(wasWhitespace && a[e] == ';')
      invariant p <= e <= p + |s| && a[e] == a[..][e]
      invariant a[e] == if e - p < |s| then s[e - p] else '\0'
      invariant a[e] == '\0' <==> e - p == |s|
      invariant wasWhitespace <==> e > p && IsSpace(s[e - p - 1])
      invariant Find(s, c, 0) == Find(s, c, e - p)
      decreases p + |s| - e
    {
      HoldsAt(a[..], p, s, e - p + 1);
      wasWhitespace := IsSpace(a[e]);
      e := e + 1;
    }
  }

  // strncpy0
  method CopyFit(dest: array<char>, a: array<char>, p: nat, ghost s: string)
    requires Holds(a[..], p, s) && dest.Length > 0 && dest != a
    modifies dest
    ensures Holds(dest[..], 0, Fit(s, dest.Length))
  {
    var i := 0;
    HoldsAt(a[..], p, s, 0);
    while i < dest.Length && a[p + i] != '\0'
      invariant 0 <= i <= dest.Length && i <= |s|
      invariant i < dest.Length ==> a[p + i] == a[..][p + i]
      invariant a[p + i] == '\0' <==> i == |s|
      invariant forall k :: 0 <= k < i ==> dest[k] == s[k]
      invariant Holds(a[..], p, s)
    {
      HoldsAt(a[..], p, s, i);
      HoldsAt(a[..], p, s, i + 1);
      dest[i] := a[p + i];
      i := i + 1;
    }
    var n := i;
    while i < dest.Length
      invariant n <= i <= dest.Length
      invariant forall k :: 0 <= k < n ==> dest[k] == s[k]
      invariant forall k :: n <= k < i ==> dest[k] == '\0'
    {
      dest[i] := '\0';
      i := i + 1;
    }
    dest[dest.Length - 1] := '\0';
    var fit := Fit(s, dest.Length);
    assert dest[..][0..|fit|] == fit;
  }

  // What the handler sees through a pointer.
  method Text(a: array<char>, p: nat, ghost s: string) returns (r: string)
    requires Holds(a[..], p, s)
    ensures r == s
  {
    var n := StrLen(a, p, s);
    r := a[p..p + n];
  }

  // The value part of a pair, from just behind the separator.
  method ValueAt(a: array<char>, p: nat, ghost s: string) returns (v: nat)
    requires Holds(a[..], p, s)
    modifies a
    ensures p <= v && Holds(a[..], v, ValueOf(s))
    ensures forall k :: 0 <= k < p && k < a.Length ==> a[k] == old(a[k])
  {
    v := LSkipAt(a, p, s);
    ghost var t := s[Lead(s)..];
    ghost var n := Find(t, '\0', 0);
    var e := FindAt(a, v, '\0', t);
    if a[e] == ';' {
      Terminate(a, v, e, t);
    } else {
      FindEndsAtEnd(t);
    }
    RStripAt(a, v, t[..n]);
  }

  // Looking for the terminator itself, the search ends at a comment or at the end.
  lemma FindEndsAtEnd(t: string)
    requires '\0' !in t
    ensures var n := Find(t, '\0', 0); n < |t| ==> t[n] == ';'
    ensures Find(t, '\0', 0) == |t| ==> t[..Find(t, '\0', 0)] == t
  {
  }

  // find_char_or_comment for '=', then for ':'
  method SeparatorAt(a: array<char>, p: nat, ghost t: string) returns (e: nat)
    requires Holds(a[..], p, t)
    ensures e == p + Separator(t) && e < a.Length
    ensures a[e] == '=' || a[e] == ':' <==> IsPair(t)
  {
    e := FindAt(a, p, '=', t);
    if a[e] != '=' {
      e := FindAt(a, p, ':', t);
    }
  }

  // The name part of a pair: cut at the separator and stripped; the rest stays as it is.
  method NameAt(a: array<char>, p: nat, e: nat, ghost t: string)
    requires Holds(a[..], p, t) && p <= e < p + |t|
    modifies a
    ensures Holds(a[..], p, RStrip(t[..e - p])) && Holds(a[..], e + 1, t[e - p + 1..])
  {
    Terminate(a, p, e, t);
    ghost var b := a[..];
    RStripAt(a, p, t[..e - p]);
    HoldsFrame(b, a[..], e + 1, t[e - p + 1..]);
  }

  // A pair line whose separator is at e, up to the call of the handler.
  method SplitPair(a: array<char>, p: nat, e: nat, prev: array<char>, ghost t: string)
    returns (name: string, value: string)
    requires Holds(a[..], p, t) && p <= e < p + |t| && prev.Length == MAX_NAME && a != prev
    modifies a, prev
    ensures name == RStrip(t[..e - p]) && value == ValueOf(t[e - p + 1..])
    ensures Holds(prev[..], 0, Fit(name, MAX_NAME))
  {
    NameAt(a, p, e, t);
    ghost var b := a[..];
    ghost var n := RStrip(t[..e - p]);
    var v := ValueAt(a, e + 1, t[e - p + 1..]);
    HoldsFrame(b, a[..], p, n);
    CopyFit(prev, a, p, n);
    name := Text(a, p, n);
    value := Text(a, v, ValueOf(t[e - p + 1..]));
  }

  // The two buffers and the variables of ini_parse_file agree with s.
  predicate Agrees(section: seq<char>, prev: seq<char>, lineno: nat, error: nat, calls: seq<Call>, s: Ini) {
    && Holds(section, 0, s.section) && Holds(prev, 0, s.prev)
    && lineno == s.lineno && error == s.error && calls == s.calls
  }

  // handler(user, section, name, value), keeping the first error
  method Report(h: Handler, section: array<char>, name: string, value: string,
                lineno: nat, error: nat, calls: seq<Call>, ghost s: Ini)
    returns (error': nat, calls': seq<Call>)
    requires Holds(section[..], 0, s.section) && lineno == s.lineno && error == s.error && calls == s.calls
    ensures var s' := Emit(h, s, Call(s.section, name, value)); error' == s'.error && calls' == s'.calls
  {
    var sec := Text(section, 0, s.section);
    calls' := calls + [Call(sec, name, value)];
    error' := if !h(calls') && error == 0 then lineno else error;
  }

  method ContinueAtBuffer(h: Handler, line: array<char>, p: nat, section: array<char>, prev: array<char>,
                          lineno: nat, error: nat, calls: seq<Call>, ghost s: Ini, ghost t: string)
    returns (error': nat, calls': seq<Call>)
    requires Holds(line[..], p, t) && Agrees(section[..], prev[..], lineno, error, calls, s)
    ensures Agrees(section[..], prev[..], lineno, error', calls', Act(h, s, Continue(t)))
  {
    var name := Text(prev, 0, s.prev);
    var value := Text(line, p, t);
    error', calls' := Report(h, section, name, value, lineno, error, calls, s);
  }

  // A "[section]" line.
  method HeaderAtBuffer(h: Handler, line: array<char>, p: nat, section: array<char>, prev: array<char>,
                        lineno: nat, error: nat, calls: seq<Call>, ghost s: Ini, ghost t: string)
    returns (error': nat)
    requires Holds(line[..], p, t) && t != "" && section.Length == MAX_SECTION && prev.Length == MAX_NAME
    requires line != section && line != prev && section != prev
    requires Agrees(section[..], prev[..], lineno, error, calls, s)
    modifies line, section, prev
    ensures Agrees(section[..], prev[..], lineno, error', calls, Act(h, s, HeaderLine(t)))
  {
    error' := error;
    HoldsAt(line[..], p, t, 1);
    var e := FindAt(line, p + 1, ']', t[1..]);
    if line[e] == ']' {
      Terminate(line, p + 1, e, t[1..]);
      CopyFit(section, line, p + 1, t[1..][..e - p - 1]);
      prev[0] := '\0';
    } else if error == 0 {
      error' := lineno;
    }
  }

  // A "name=value" or "name:value" line.
  method PairAtBuffer(h: Handler, line: array<char>, p: nat, section: array<char>, prev: array<char>,
                      lineno: nat, error: nat, calls: seq<Call>, ghost s: Ini, ghost t: string)
    returns (error': nat, calls': seq<Call>)
    requires Holds(line[..], p, t) && prev.Length == MAX_NAME
    requires line != section && line != prev && section != prev
    requires Agrees(section[..], prev[..], lineno, error, calls, s)
    modifies line, prev
    ensures Agrees(section[..], prev[..], lineno, error', calls', Act(h, s, PairLine(t)))
  {
    var e := SeparatorAt(line, p, t);
    if line[e] == '=' || line[e] == ':' {
      var name, value := SplitPair(line, p, e, prev, t);
      error', calls' := Report(h, section, name, value, lineno, error, calls, s);
      PairActs(h, s, t, name, value);
    } else {
      error', calls' := if error == 0 then lineno else error, calls;
      assert PairLine(t) == Malformed;
    }
  }

  lemma PairActs(h: Handler, s: Ini, t: string, name: string, value: string)
    requires IsPair(t) && name == RStrip(t[..Separator(t)]) && value == ValueOf(t[Separator(t) + 1..])
    ensures var s' := Act(h, s, PairLine(t));
            && s'.section == s.section && s'.prev == Fit(name, MAX_NAME) && s'.lineno == s.lineno
            && s'.error == Emit(h, s, Call(s.section, name, value)).error
            && s'.calls == Emit(h, s, Call(s.section, name, value)).calls
  {
  }

  // lskip(rstrip(line))
  method StripLine(line: array<char>, ghost text: string) returns (start: nat, ghost t: string)
    requires Holds(line[..], 0, text)
    modifies line
    ensures start == Lead(RStrip(text)) && t == RStrip(text)[start..] && Holds(line[..], start, t)
  {
    RStripAt(line, 0, text);
    start := LSkipAt(line, 0, RStrip(text));
    t := RStrip(text)[start..];
  }

  // A stripped line that begins at start.
  method Dispatch(h: Handler, line: array<char>, start: nat, section: array<char>, prev: array<char>,
                  lineno: nat, error: nat, calls: seq<Call>, ghost s: Ini, ghost t: string)
    returns (error': nat, calls': seq<Call>)
    requires section.Length == MAX_SECTION && prev.Length == MAX_NAME
    requires line != section && line != prev && section != prev
    requires Holds(line[..], start, t) && Agrees(section[..], prev[..], lineno, error, calls, s)
    modifies line, section, prev
    ensures Agrees(section[..], prev[..], lineno, error', calls', Act(h, s, Choose(s.prev, start > 0, t)))
  {
    error', calls' := error, calls;
    HoldsAt(line[..], start, t, 0);
    HoldsAt(prev[..], 0, s.prev, 0);
    if prev[0] != '\0' && line[start] != '\0' && start > 0 {
      error', calls' := ContinueAtBuffer(h, line, start, section, prev, lineno, error, calls, s, t);
    } else if line[start] == ';' || line[start] == '#' {
    } else if line[start] == '[' {
      error' := HeaderAtBuffer(h, line, start, section, prev, lineno, error, calls, s, t);
    } else if line[start] != '\0' {
      error', calls' := PairAtBuffer(h, line, start, section, prev, lineno, error, calls, s, t);
    }
  }

  // step is the effect of one line. The trigger keeps the definition of Line out of proofs
  // that only pass states along.
  ghost predicate IsStep(h: Handler, step: (Ini, string) -> Ini) {
    forall s, text {:trigger Line(h, s, text)} :: step(s, text) == Line(h, s, text)
  }

  lemma StepOfParts(h: Handler, step: (Ini, string) -> Ini, s: Ini, text: string, start: nat, t: string)
    requires IsStep(h, step) && start == Lead(RStrip(text)) && t == RStrip(text)[start..]
    ensures step(s, text) == Act(h, s.(lineno := s.lineno + 1), Choose(s.prev, start > 0, t))
  {
    assert step(s, text) == Line(h, s, text);
  }

  /** One line of the file, already in the line buffer; lineno is its number. */
  method LineAtBuffer(h: Handler, line: array<char>, section: array<char>, prev: array<char>,
                      lineno: nat, error: nat, calls: seq<Call>,
                      ghost s: Ini, ghost text: string, ghost step: (Ini, string) -> Ini)
    returns (error': nat, calls': seq<Call>)
    requires section.Length == MAX_SECTION && prev.Length == MAX_NAME && IsStep(h, step)
    requires line != section && line != prev && section != prev
    requires Holds(line[..], 0, text)
    requires lineno == s.lineno + 1 && Agrees(section[..], prev[..], s.lineno, error, calls, s)
    modifies line, section, prev
    ensures Agrees(section[..], prev[..], lineno, error', calls', step(s, text))
  {
    var start;
    ghost var t;
    start, t := StripLine(line, text);
    error', calls' := Dispatch(h, line, start, section, prev, lineno, error, calls, s.(lineno := lineno), t);
    StepOfParts(h, step, s, text, start, t);
  }

  /** fgets: the next chunk of the file goes into the line buffer. */
  method Fgets(file: string, pos: nat, line: array<char>) returns (n: nat)
    requires pos < |file| && line.Length == MAX_LINE
    modifies line
    ensures n == Chunk(file[pos..]) && Holds(line[..], 0, CText(file[pos..pos + n]))
  {
    ghost var rest := file[pos..];
    n := 0;
    while true
      invariant n < |rest| && n < MAX_LINE - 1
      invariant Chunk(rest) == ChunkFrom(rest, n)
      invariant forall k :: 0 <= k < n ==> line[k] == rest[k]
      decreases |rest| - n
    {
      line[n] := file[pos + n];
      n := n + 1;
      if file[pos + n - 1] == '\n' || pos + n == |file| || n == MAX_LINE - 1 { break; }
    }
    line[n] := '\0';
    assert line[..][0..n] == file[pos..pos + n];
    CTextHolds(line[..], file[pos..pos + n]);
  }

  lemma CTextHolds(a: seq<char>, s: string)
    requires |s| < |a| && a[0..|s|] == s && a[|s|] == '\0'
    ensures Holds(a, 0, CText(s))
  {
    var c := CText(s);
    assert a[0..|c|] == s[..|c|] == c;
    if |c| < |s| { assert a[|c|] == a[0..|s|][|c|]; }
  }

  // char buffer[size] = ""
  method EmptyBuffer(size: nat) returns (b: array<char>)
    requires size > 0
    ensures fresh(b) && b.Length == size && Holds(b[..], 0, "")
  {
    b := new char[size](_ => '\0');
  }

  function Fold(step: (Ini, string) -> Ini, s: Ini, texts: seq<string>): Ini
    decreases |texts|
  {
    if texts == [] then s else Fold(step, step(s, texts[0]), texts[1..])
  }

  lemma {:induction false} FoldIsLines(h: Handler, step: (Ini, string) -> Ini, s: Ini, texts: seq<string>)
    requires IsStep(h, step)
    ensures Fold(step, s, texts) == Lines(h, s, texts)
    decreases |texts|
  {
    if texts != [] {
      assert step(s, texts[0]) == Line(h, s, texts[0]);
      FoldIsLines(h, step, step(s, texts[0]), texts[1..]);
    }
  }

  // The lines of the file from pos on take s to the final state.
  ghost predicate Remains(step: (Ini, string) -> Ini, s: Ini, file: string, pos: nat, final: Ini) {
    pos <= |file| && Fold(step, s, Texts(file[pos..])) == final
  }

  lemma LineRemains(step: (Ini, string) -> Ini, s: Ini, file: string, pos: nat, n: nat, final: Ini)
    requires pos < |file| && n == Chunk(file[pos..]) && Remains(step, s, file, pos, final)
    ensures Remains(step, step(s, CText(file[pos..pos + n])), file, pos + n, final)
  {
    TextsStep(file, pos, n);
    var texts := Texts(file[pos..]);
    assert texts[0] == CText(file[pos..pos + n]) && texts[1..] == Texts(file[pos + n..]);
  }

  lemma NothingRemains(step: (Ini, string) -> Ini, s: Ini, file: string, final: Ini)
    requires Remains(step, s, file, |file|, final)
    ensures s == final
  {
    assert file[|file|..] == "";
  }

  lemma AllRemains(h: Handler, step: (Ini, string) -> Ini, file: string)
    requires IsStep(h, step)
    ensures Remains(step, START, file, 0, ParseSpec(h, file))
  {
    assert file[0..] == file;
    FoldIsLines(h, step, START, Texts(file));
  }

  // The loop of ini_parse_file.
  method ParseLines(h: Handler, file: string, line: array<char>, section: array<char>, prev: array<char>,
                    ghost step: (Ini, string) -> Ini, ghost final: Ini)
    returns (error: nat, calls: seq<Call>)
    requires IsStep(h, step) && Remains(step, START, file, 0, final)
    requires line.Length == MAX_LINE && section.Length == MAX_SECTION && prev.Length == MAX_NAME
    requires line != section && line != prev && section != prev
    requires Holds(section[..], 0, "") && Holds(prev[..], 0, "")
    modifies line, section, prev
    ensures error == final.error && calls == final.calls
  {
    var lineno, pos := 0, 0;
    error, calls := 0, [];
    ghost var s := START;
    while pos < |file|
      invariant Remains(step, s, file, pos, final)
      invariant Agrees(section[..], prev[..], lineno, error, calls, s)
    {
      var n := Fgets(file, pos, line);
      ghost var text := CText(file[pos..pos + n]);
      LineRemains(step, s, file, pos, n, final);
      lineno := lineno + 1;
      error, calls := LineAtBuffer(h, line, section, prev, lineno, error, calls, s, text, step);
      s := step(s, text);
      pos := pos + n;
    }
    NothingRemains(step, s, file, final);
  }

  /** ini_parse_file computes what IniSpec says, with every access inside its buffer. */
  method ParseFile(h: Handler, file: string) returns (error: nat, calls: seq<Call>)
    ensures error == ParseSpec(h, file).error && calls == ParseSpec(h, file).calls
  {
    var line := new char[MAX_LINE];
    var section := EmptyBuffer(MAX_SECTION);
    var prev := EmptyBuffer(MAX_NAME);
    ghost var step := (s: Ini, text: string) => Line(h, s, text);
    AllRemains(h, step, file);
    error, calls := ParseLines(h, file, line, section, prev, step, ParseSpec(h, file));
  }

  lemma TextsStep(file: string, pos: nat, n: nat)
    requires pos < |file| && n == Chunk(file[pos..])
    ensures Texts(file[pos..]) == [CText(file[pos..pos + n])] + Texts(file[pos + n..])
  {
    assert file[pos..][..n] == file[pos..pos + n];
    assert file[pos..][n..] == file[pos + n..];
  }
}
