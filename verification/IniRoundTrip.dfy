// What a printed file of sections, pairs, comments, continuations and bad lines is parsed to.

module IniRoundTrip {
  import opened IniSpec

  // ---------- what a file may hold ----------

  // Whitespace within a line.
  predicate Blank(c: char) { c in {' ', '\t', '\U{B}', '\U{C}', '\r'} }

  predicate Blanks(s: string) { forall k :: 0 <= k < |s| ==> Blank(s[k]) }

  // No newline or terminator.
  predicate OneLine(s: string) { '\n' !in s && '\0' !in s }

  // No ';' that follows whitespace.
  predicate NoRemark(s: string) { forall k :: 0 < k < |s| && s[k] == ';' ==> !Blank(s[k - 1]) }

  predicate Trimmed(s: string) { s != "" ==> !Blank(s[0]) && !Blank(s[|s| - 1]) }

  predicate Word(s: string) { OneLine(s) && NoRemark(s) && Trimmed(s) }

  // Whitespace between the parts of a pair: before and behind the separator and behind the value.
  datatype Gaps = Gaps(before: string, behind: string, last: string)

  // "[name]tail"; "name = value" or "name : value", perhaps with a comment; an indented line
  // that continues the pair before it; a comment line; a line of whitespace; and two lines that
  // are not allowed: one without a separator, and a section without its ']'.
  datatype Item =
    | Section(name: string, tail: string)
    | Entry(name: string, sep: char, value: string, gaps: Gaps)
    | Remarked(name: string, sep: char, value: string, gaps: Gaps, remark: string)
    | Continuation(indent: string, text: string, trail: string)
    | Comment(mark: char, text: string)
    | Empty(blanks: string)
    | Junk(text: string)
    | Unclosed(name: string)

  function PrintItem(x: Item): string {
    match x
    case Section(name, tail) => "[" + name + "]" + tail + "\n"
    case Entry(name, sep, value, g) => name + g.before + [sep] + g.behind + value + g.last + "\n"
    case Remarked(name, sep, value, g, remark) =>
      name + g.before + [sep] + g.behind + value + g.last + ";" + remark + "\n"
    case Continuation(indent, text, trail) => indent + text + trail + "\n"
    case Comment(mark, text) => [mark] + text + "\n"
    case Empty(blanks) => blanks + "\n"
    case Junk(text) => text + "\n"
    case Unclosed(name) => "[" + name + "\n"
  }

  function Print(xs: seq<Item>): string {
    if xs == [] then "" else PrintItem(xs[0]) + Print(xs[1..])
  }

  function PrintedLines(xs: seq<Item>): seq<string> {
    if xs == [] then [] else [PrintItem(xs[0])] + PrintedLines(xs[1..])
  }

  // A name does not look like a section or a comment and does not hold its separator; before a
  // ':' there is no '=' either, and none in the value behind it.
  predicate PairParts(name: string, sep: char, value: string, g: Gaps) {
    && name != "" && Word(name) && name[0] != '[' && name[0] != ';' && name[0] != '#'
    && (sep == '=' || sep == ':') && sep !in name && (sep == ':' ==> '=' !in name && '=' !in value)
    && Word(value) && Blanks(g.before) && Blanks(g.behind) && Blanks(g.last)
  }

  // Every line fits the line buffer.
  predicate WellFormed(x: Item) {
    && |PrintItem(x)| < 200
    && (match x
        case Section(name, tail) => OneLine(name) && NoRemark(name) && ']' !in name && OneLine(tail)
        case Entry(name, sep, value, g) => PairParts(name, sep, value, g)
        case Remarked(name, sep, value, g, remark) =>
          PairParts(name, sep, value, g) && value != "" && g.last != "" && OneLine(remark)
        case Continuation(indent, text, trail) =>
          indent != "" && Blanks(indent) && Blanks(trail) && text != "" && OneLine(text) && Trimmed(text)
        case Comment(mark, text) => (mark == ';' || mark == '#') && OneLine(text)
        case Empty(blanks) => Blanks(blanks)
        case Junk(text) =>
          && text != "" && OneLine(text) && Trimmed(text) && '=' !in text && ':' !in text
          && text[0] != '[' && text[0] != ';' && text[0] != '#'
        case Unclosed(name) => OneLine(name) && Trimmed("[" + name) && ']' !in name)
  }

  // ---------- what its parse must do ----------

  // The section and the name that a continuation belongs to; both are kept in 50 bytes.
  datatype Place = Place(section: string, prev: string)

  function Cut(s: string): string { if |s| < 50 then s else s[..49] }

  function NextPlace(p: Place, x: Item): Place {
    match x
    case Section(name, _) => Place(Cut(name), "")
    case Entry(name, _, _, _) => p.(prev := Cut(name))
    case Remarked(name, _, _, _, _) => p.(prev := Cut(name))
    case _ => p
  }

  function CallOf(p: Place, x: Item): seq<Call> {
    match x
    case Entry(name, _, value, _) => [Call(p.section, name, value)]
    case Remarked(name, _, value, _, _) => [Call(p.section, name, value)]
    case Continuation(_, text, _) => [Call(p.section, p.prev, text)]
    case _ => []
  }

  function CallsOf(p: Place, xs: seq<Item>): seq<Call>
    decreases |xs|
  {
    if xs == [] then [] else CallOf(p, xs[0]) + CallsOf(NextPlace(p, xs[0]), xs[1..])
  }

  // Continuations have something to continue.
  predicate Follows(p: Place, xs: seq<Item>)
    decreases |xs|
  {
    xs == [] || ((xs[0].Continuation? ==> p.prev != "") && Follows(NextPlace(p, xs[0]), xs[1..]))
  }

  predicate Bad(x: Item) { x.Junk? || x.Unclosed? }

  // A bad line, or one whose call the handler refuses.
  predicate FailsAt(h: Handler, calls: seq<Call>, p: Place, x: Item) {
    Bad(x) || (CallOf(p, x) != [] && !h(calls + CallOf(p, x)))
  }

  // The number of the first such line, or 0, behind n lines and these calls.
  function FirstFailure(h: Handler, calls: seq<Call>, p: Place, xs: seq<Item>, n: nat): nat
    decreases |xs|
  {
    if xs == [] then 0
    else if FailsAt(h, calls, p, xs[0]) then n + 1
    else FirstFailure(h, calls + CallOf(p, xs[0]), NextPlace(p, xs[0]), xs[1..], n + 1)
  }

  // ---------- the line functions on printed text ----------

  lemma SpaceIs(c: char)
    ensures IsSpace(c) <==> Blank(c) || c == '\n'
  {
  }

  predicate White(s: string) { forall k :: 0 <= k < |s| ==> IsSpace(s[k]) }

  lemma BlanksAreWhite(s: string)
    requires Blanks(s)
    ensures White(s) && White(s + "\n") && OneLine(s) && ';' !in s && '=' !in s && ':' !in s
  {
    forall k | 0 <= k < |s| ensures IsSpace(s[k]) { SpaceIs(s[k]); }
  }

  // No whitespace at the ends.
  predicate Solid(s: string) { s != "" ==> !IsSpace(s[0]) && !IsSpace(s[|s| - 1]) }

  lemma TrimmedIsSolid(s: string)
    requires Trimmed(s) && OneLine(s)
    ensures Solid(s)
  {
    if s != "" {
      SpaceIs(s[0]);
      SpaceIs(s[|s| - 1]);
    }
  }

  lemma Characters(a: string, b: string)
    ensures forall k :: 0 <= k < |a| ==> (a + b)[k] == a[k]
    ensures forall k :: |a| <= k < |a + b| ==> (a + b)[k] == b[k - |a|]
    ensures b != "" ==> (a + b)[|a|] == b[0]
  {
  }

  // Trailing whitespace goes, and what ends in something else stays.
  lemma RStripIs(s: string, w: string)
    requires (s == "" || !IsSpace(s[|s| - 1])) && White(w)
    ensures RStrip(s + w) == s
  {
    Characters(s, w);
  }

  lemma {:induction false} RStripBehind(a: string, b: string)
    requires a != "" && !IsSpace(a[|a| - 1])
    ensures RStrip(a + b) == a + RStrip(b)
  {
    var r := RStrip(b);
    assert b == r + b[|r|..];
    assert a + b == (a + r) + b[|r|..];
    RStripIs(a + r, b[|r|..]);
  }

  lemma LeadIs(w: string, s: string)
    requires White(w) && (s == "" || !IsSpace(s[0]))
    ensures Lead(w + s) == |w| && (w + s)[Lead(w + s)..] == s
  {
    Characters(w, s);
  }

  // The first stop ends the search.
  lemma FindIs(s: string, c: char, e: nat)
    requires e <= |s| && (e < |s| ==> StopsAt(s, c, e)) && forall k :: 0 <= k < e ==> !StopsAt(s, c, k)
    ensures Find(s, c, 0) == e
  {
  }

  // A stripped line that is not indented.
  lemma ClassifyLine(prev: string, line: string, t: string)
    requires RStrip(line) == t && (t == "" || !IsSpace(t[0]))
    ensures Classify(prev, line) == Choose(prev, false, t)
  {
    LeadIs("", t);
    assert "" + t == t;
  }

  // No comment begins in s, nor at a character behind it that is no ';'.
  lemma NoStopIn(s: string, c: char, rest: string, k: nat)
    requires NoRemark(s) && OneLine(s) && c !in s && k < |s|
    ensures !StopsAt(s + rest, c, k)
  {
    assert (s + rest)[k] == s[k] && s[k] in s;
    if k > 0 {
      assert (s + rest)[k - 1] == s[k - 1] && s[k - 1] in s;
      SpaceIs(s[k - 1]);
    }
  }

  lemma NoRemarkAppend(s: string, g: string)
    requires NoRemark(s) && Blanks(g) && OneLine(s)
    ensures NoRemark(s + g) && OneLine(s + g)
  {
    BlanksAreWhite(g);
    NoneAt(g, ';');
    Characters(s, g);
  }

  // ---------- sections ----------

  lemma HeaderLineOf(name: string, tail: string)
    requires OneLine(name) && NoRemark(name) && ']' !in name
    ensures HeaderLine("[" + name + "]" + tail) == Header(name)
  {
    var t := "[" + name + "]" + tail;
    var u := name + ("]" + tail);
    assert t[1..] == u;
    forall k | 0 <= k < |name| ensures !StopsAt(u, ']', k) { NoStopIn(name, ']', "]" + tail, k); }
    FindIs(u, ']', |name|);
    assert u[..|name|] == name;
  }

  lemma ClassifySection(prev: string, name: string, tail: string)
    requires WellFormed(Section(name, tail))
    ensures Classify(prev, PrintItem(Section(name, tail))) == Header(name)
  {
    var front := "[" + name + "]";
    var end := RStrip(tail + "\n");
    assert PrintItem(Section(name, tail)) == front + (tail + "\n");
    RStripBehind(front, tail + "\n");
    HeaderLineOf(name, end);
    ClassifyLine(prev, PrintItem(Section(name, tail)), front + end);
  }

  // ---------- pairs ----------

  // The search for the separator, in a stripped line name + gap + sep + rest, when every '=' in
  // the rest of a ':' line stands behind a comment.
  lemma SeparatorIs(a: string, sep: char, rest: string)
    requires OneLine(a) && NoRemark(a) && sep !in a && (sep == '=' || sep == ':')
    requires sep == ':' ==> '=' !in a && forall k :: 0 <= k < |rest| && rest[k] == '=' ==> Hidden(rest, k)
    ensures Separator(a + [sep] + rest) == |a| && IsPair(a + [sep] + rest)
  {
    var t, behind := a + [sep] + rest, [sep] + rest;
    assert t == a + behind;
    forall k | 0 <= k < |a| ensures !StopsAt(t, sep, k) { NoStopIn(a, sep, behind, k); }
    FindIs(t, sep, |a|);
    if sep == ':' { NoEquals(a, rest); }
  }

  // A comment begins before position k.
  ghost predicate Hidden(s: string, k: nat) {
    exists j :: 0 < j < |s| && j < k && s[j] == ';' && IsSpace(s[j - 1])
  }

  lemma NoEquals(a: string, rest: string)
    requires OneLine(a) && NoRemark(a) && '=' !in a
    requires forall k :: 0 <= k < |rest| && rest[k] == '=' ==> Hidden(rest, k)
    ensures var t := a + [':'] + rest; Find(t, '=', 0) < |t| ==> t[Find(t, '=', 0)] != '='
  {
    var t := a + [':'] + rest;
    var e, n := Find(t, '=', 0), |a| + 1;
    NoneAt(a, '=');
    if n <= e < |t| && t[e] == '=' {
      assert t[e] == rest[e - n];
      var j :| 0 < j < |rest| && j < e - n && rest[j] == ';' && IsSpace(rest[j - 1]);
      assert t[n + j] == rest[j] && t[n + j - 1] == rest[j - 1];
      assert StopsAt(t, '=', n + j);
    }
  }

  lemma NoneAt(s: string, c: char)
    requires c !in s
    ensures forall k :: 0 <= k < |s| ==> s[k] != c
  {
    forall k | 0 <= k < |s| ensures s[k] != c { assert s[k] in s; }
  }

  // What a pair line with these parts gives; rest is what stands behind the separator, stripped.
  lemma PairIs(name: string, sep: char, value: string, g: Gaps, rest: string)
    requires PairParts(name, sep, value, g) && ValueOf(rest) == value
    requires sep == ':' ==> forall k :: 0 <= k < |rest| && rest[k] == '=' ==> Hidden(rest, k)
    ensures PairLine(name + g.before + [sep] + rest) == Pair(name, value)
  {
    var a := name + g.before;
    var t := a + [sep] + rest;
    NoRemarkAppend(name, g.before);
    BlanksAreWhite(g.before);
    SeparatorIs(a, sep, rest);
    assert t[..|a|] == a && t[|a| + 1..] == rest;
    TrimmedIsSolid(name);
    RStripIs(name, g.before);
  }

  lemma ClassifyPair(prev: string, name: string, sep: char, value: string, g: Gaps, behind: string)
    requires PairParts(name, sep, value, g)
    requires var rest := RStrip(behind);
             && ValueOf(rest) == value
             && (sep == ':' ==> forall k :: 0 <= k < |rest| && rest[k] == '=' ==> Hidden(rest, k))
    ensures Classify(prev, name + g.before + [sep] + behind) == Pair(name, value)
  {
    var front := name + g.before + [sep];
    PairFront(name, g.before, sep);
    RStripBehind(front, behind);
    PairIs(name, sep, value, g, RStrip(behind));
    ClassifyBehind(prev, front, behind, RStrip(behind));
    ChoosePair(prev, front + RStrip(behind), name, value);
  }

  lemma PairFront(name: string, gap: string, sep: char)
    requires name != "" && Word(name) && (sep == '=' || sep == ':')
    ensures var front := name + gap + [sep];
            front != "" && front[0] == name[0] && !IsSpace(front[0]) && !IsSpace(front[|front| - 1])
  {
    TrimmedIsSolid(name);
  }

  lemma ClassifyBehind(prev: string, front: string, behind: string, rest: string)
    requires front != "" && !IsSpace(front[0]) && RStrip(front + behind) == front + rest
    ensures Classify(prev, front + behind) == Choose(prev, false, front + rest) && (front + rest)[0] == front[0]
  {
    ClassifyLine(prev, front + behind, front + rest);
  }

  lemma ChoosePair(prev: string, t: string, name: string, value: string)
    requires t != "" && t[0] != '[' && t[0] != ';' && t[0] != '#' && PairLine(t) == Pair(name, value)
    ensures Choose(prev, false, t) == Pair(name, value)
  {
  }

  lemma ValueOfPlain(g: string, v: string)
    requires Blanks(g) && Word(v)
    ensures ValueOf(if v == "" then "" else g + v) == v
  {
    var w := if v == "" then "" else g;
    BlanksAreWhite(g);
    TrimmedIsSolid(v);
    assert w + v == if v == "" then "" else g + v;
    LeadIs(w, v);
    forall k | 0 <= k < |v| ensures !StopsAt(v, '\0', k) {
      NoStopIn(v, '\0', "", k);
      assert v + "" == v;
    }
    FindIs(v, '\0', |v|);
    assert v[..|v|] == v && v + "" == v;
    RStripIs(v, "");
  }

  // What stands behind the separator, stripped.
  lemma EntryRest(g: Gaps, v: string)
    requires Blanks(g.behind) && Blanks(g.last) && Word(v)
    ensures RStrip(g.behind + v + g.last + "\n") == if v == "" then "" else g.behind + v
  {
    var behind := g.behind + v + g.last + "\n";
    BlanksAreWhite(g.behind);
    BlanksAreWhite(g.last);
    TrimmedIsSolid(v);
    if v == "" {
      assert behind == "" + (g.behind + g.last + "\n");
      RStripIs("", g.behind + g.last + "\n");
    } else {
      assert behind == (g.behind + v) + (g.last + "\n");
      RStripIs(g.behind + v, g.last + "\n");
    }
  }

  lemma Regroup(a: string, b: string, c: string, d: string, e: string)
    ensures a + b + c + d + e == a + (b + c + d + e)
  {
  }

  lemma ClassifyEntry(prev: string, x: Item)
    requires WellFormed(x) && x.Entry?
    ensures Classify(prev, PrintItem(x)) == Pair(x.name, x.value)
  {
    var g, v := x.gaps, x.value;
    EntryRest(g, v);
    ValueOfPlain(g.behind, v);
    if x.sep == ':' {
      BlanksAreWhite(g.behind);
      NoneIn(g.behind, v);
    }
    ClassifyPair(prev, x.name, x.sep, v, g, g.behind + v + g.last + "\n");
    Regroup(x.name + g.before + [x.sep], g.behind, v, g.last, "\n");
  }

  lemma NoneIn(g: string, v: string)
    requires '=' !in g && '=' !in v
    ensures forall k :: 0 <= k < |g + v| ==> (g + v)[k] != '='
  {
    forall k | 0 <= k < |g + v| ensures (g + v)[k] != '=' { assert (g + v)[k] in g + v; }
  }

  // A comment behind a value is not part of it.
  lemma ValueOfRemarked(g: Gaps, v: string, tail: string)
    requires Blanks(g.behind) && Blanks(g.last) && g.last != "" && Word(v) && v != "" && '\0' !in tail
    ensures ValueOf(g.behind + v + g.last + ";" + tail) == v
  {
    var u := v + g.last;
    var s := u + (";" + tail);
    BlanksAreWhite(g.behind);
    BlanksAreWhite(g.last);
    TrimmedIsSolid(v);
    assert g.behind + v + g.last + ";" + tail == g.behind + s;
    LeadIs(g.behind, s);
    NoRemarkAppend(v, g.last);
    forall k | 0 <= k < |u| ensures !StopsAt(s, '\0', k) { NoStopIn(u, '\0', ";" + tail, k); }
    assert s[|u|] == ';' && s[|u| - 1] == g.last[|g.last| - 1];
    FindIs(s, '\0', |u|);
    assert s[..|u|] == u;
    RStripIs(v, g.last);
  }

  lemma HiddenBehind(g: Gaps, v: string, tail: string, k: nat)
    requires Blanks(g.behind) && Blanks(g.last) && g.last != "" && '=' !in v
    requires var s := g.behind + v + g.last + ";" + tail; k < |s| && s[k] == '='
    ensures Hidden(g.behind + v + g.last + ";" + tail, k)
  {
    var u := g.behind + v + g.last;
    var s := u + ";" + tail;
    BlanksAreWhite(g.behind);
    BlanksAreWhite(g.last);
    NoneAt(u, '=');
    assert s[|u|] == ';' && s[|u| - 1] == u[|u| - 1] == g.last[|g.last| - 1];
  }

  lemma RemarkedRest(g: Gaps, v: string, remark: string) returns (tail: string)
    requires OneLine(remark)
    ensures RStrip(g.behind + v + g.last + (";" + remark + "\n")) == g.behind + v + g.last + ";" + tail
    ensures '\0' !in tail
  {
    var u := g.behind + v + g.last + ";";
    tail := RStrip(remark + "\n");
    assert g.behind + v + g.last + (";" + remark + "\n") == u + (remark + "\n");
    RStripBehind(u, remark + "\n");
    assert '\0' !in remark + "\n" && forall c :: c in tail ==> c in remark + "\n";
  }

  lemma ClassifyRemarked(prev: string, x: Item)
    requires WellFormed(x) && x.Remarked?
    ensures Classify(prev, PrintItem(x)) == Pair(x.name, x.value)
  {
    var g, v := x.gaps, x.value;
    var tail := RemarkedRest(g, v, x.remark);
    var rest := g.behind + v + g.last + ";" + tail;
    ValueOfRemarked(g, v, tail);
    if x.sep == ':' {
      forall k | 0 <= k < |rest| && rest[k] == '=' ensures Hidden(rest, k) { HiddenBehind(g, v, tail, k); }
    }
    ClassifyPair(prev, x.name, x.sep, v, g, g.behind + v + g.last + (";" + x.remark + "\n"));
    PrintsRemarked(x);
  }

  lemma PrintsRemarked(x: Item)
    requires x.Remarked?
    ensures PrintItem(x) == x.name + x.gaps.before + [x.sep]
                            + (x.gaps.behind + x.value + x.gaps.last + (";" + x.remark + "\n"))
  {
    var a := x.name + x.gaps.before + [x.sep];
    Regroup(a, x.gaps.behind, x.value, x.gaps.last, ";" + x.remark + "\n");
    var b := a + x.gaps.behind + x.value + x.gaps.last;
    assert b + ";" + x.remark + "\n" == b + (";" + x.remark + "\n");
  }

  // ---------- the other lines ----------

  lemma ClassifyContinuation(prev: string, x: Item)
    requires WellFormed(x) && x.Continuation? && prev != ""
    ensures Classify(prev, PrintItem(x)) == Continue(x.text)
  {
    var line := x.indent + x.text;
    BlanksAreWhite(x.indent);
    BlanksAreWhite(x.trail);
    TrimmedIsSolid(x.text);
    assert PrintItem(x) == line + (x.trail + "\n");
    RStripIs(line, x.trail + "\n");
    LeadIs(x.indent, x.text);
  }

  lemma ClassifyNothing(prev: string, x: Item)
    requires WellFormed(x) && (x.Comment? || x.Empty?)
    ensures Classify(prev, PrintItem(x)) == Nothing
  {
    match x {
      case Comment(mark, text) =>
        SpaceIs(mark);
        RStripBehind([mark], text + "\n");
        assert PrintItem(x) == [mark] + (text + "\n");
        ClassifyLine(prev, PrintItem(x), [mark] + RStrip(text + "\n"));
      case Empty(blanks) =>
        BlanksAreWhite(blanks);
        RStripIs("", blanks + "\n");
        assert PrintItem(x) == "" + (blanks + "\n");
        ClassifyLine(prev, PrintItem(x), "");
    }
  }

  lemma NoPairIn(text: string)
    requires '=' !in text && ':' !in text
    ensures PairLine(text) == Malformed
  {
    NoneAt(text, '=');
    NoneAt(text, ':');
  }

  lemma NoHeaderIn(name: string)
    requires ']' !in name
    ensures HeaderLine("[" + name) == Malformed
  {
    assert ("[" + name)[1..] == name;
    NoneAt(name, ']');
  }

  lemma ClassifyBad(prev: string, x: Item)
    requires WellFormed(x) && Bad(x)
    ensures Classify(prev, PrintItem(x)) == Malformed
  {
    var t := if x.Junk? then x.text else "[" + x.name;
    TrimmedIsSolid(t);
    SpaceIs('\n');
    RStripIs(t, "\n");
    ClassifyLine(prev, t + "\n", t);
    if x.Junk? { NoPairIn(t); } else { NoHeaderIn(x.name); }
  }

  // ---------- the file is cut at the printed lines ----------

  lemma {:induction false} ChunkIsLine(line: string, rest: string, i: nat)
    requires i < |line| < MAX_LINE && line[|line| - 1] == '\n'
    requires forall k :: 0 <= k < |line| - 1 ==> line[k] != '\n'
    ensures ChunkFrom(line + rest, i) == |line|
    decreases |line| - i
  {
    if i < |line| - 1 { ChunkIsLine(line, rest, i + 1); }
  }

  lemma {:induction false} CTextKeeps(s: string)
    requires '\0' !in s
    ensures CText(s) == s
  {
    if s != "" { CTextKeeps(s[1..]); }
  }

  // One line without its end.
  function Inside(x: Item): string { PrintItem(x)[..|PrintItem(x)| - 1] }

  lemma PrintedLine(x: Item)
    requires WellFormed(x)
    ensures var l := PrintItem(x);
            && 0 < |l| < 200 && l == Inside(x) + "\n" && OneLine(Inside(x))
  {
    match x {
      case Section(name, tail) => assert Inside(x) == "[" + name + "]" + tail;
      case Entry(name, sep, value, g) =>
        BlanksOnLine(g);
        assert Inside(x) == name + g.before + [sep] + g.behind + value + g.last;
      case Remarked(name, sep, value, g, remark) =>
        BlanksOnLine(g);
        assert Inside(x) == name + g.before + [sep] + g.behind + value + g.last + ";" + remark;
      case Continuation(indent, text, trail) =>
        BlanksAreWhite(indent);
        BlanksAreWhite(trail);
        assert Inside(x) == indent + text + trail;
      case Comment(mark, text) => assert Inside(x) == [mark] + text;
      case Empty(blanks) =>
        BlanksAreWhite(blanks);
        assert Inside(x) == blanks;
      case Junk(text) => assert Inside(x) == text;
      case Unclosed(name) => assert Inside(x) == "[" + name;
    }
  }

  lemma BlanksOnLine(g: Gaps)
    requires Blanks(g.before) && Blanks(g.behind) && Blanks(g.last)
    ensures OneLine(g.before) && OneLine(g.behind) && OneLine(g.last)
  {
    BlanksAreWhite(g.before);
    BlanksAreWhite(g.behind);
    BlanksAreWhite(g.last);
  }

  lemma TextsCons(inside: string, rest: string)
    requires OneLine(inside) && |inside| < 199
    ensures Texts(inside + "\n" + rest) == [inside + "\n"] + Texts(rest)
  {
    var line := inside + "\n";
    forall k | 0 <= k < |line| - 1 ensures line[k] != '\n' { assert line[k] == inside[k] && inside[k] in inside; }
    ChunkIsLine(line, rest, 0);
    assert (line + rest)[..|line|] == line && (line + rest)[|line|..] == rest;
    CTextKeeps(line);
  }

  lemma {:induction false} TextsOfPrint(xs: seq<Item>)
    requires forall x :: x in xs ==> WellFormed(x)
    ensures Texts(Print(xs)) == PrintedLines(xs)
    decreases |xs|
  {
    if xs != [] {
      PrintedLine(xs[0]);
      TextsCons(Inside(xs[0]), Print(xs[1..]));
      TextsOfPrint(xs[1..]);
    }
  }

  /** A line that does not fit is read in pieces of 199 characters. */
  lemma LongLine(file: string)
    requires |file| >= 199 && OneLine(file[..199])
    ensures Texts(file) == [file[..199]] + Texts(file[199..])
  {
    var n := Chunk(file);
    forall k | 0 <= k < 199 ensures file[k] != '\n' { assert file[k] == file[..199][k] && file[..199][k] in file[..199]; }
    assert n == 199;
    CTextKeeps(file[..199]);
  }

  // ---------- whole files ----------

  predicate At(s: Ini, p: Place) { s.section == p.section && s.prev == p.prev }

  lemma FitIsCut(s: string)
    ensures Fit(s, MAX_SECTION) == Fit(s, MAX_NAME) == Cut(s)
  {
  }

  // What the item asks for.
  function ActionOf(p: Place, x: Item): Action {
    match x
    case Section(name, _) => Header(name)
    case Entry(name, _, value, _) => Pair(name, value)
    case Remarked(name, _, value, _, _) => Pair(name, value)
    case Continuation(_, text, _) => Continue(text)
    case Comment(_, _) => Nothing
    case Empty(_) => Nothing
    case _ => Malformed
  }

  lemma ClassifyItem(p: Place, x: Item)
    requires WellFormed(x) && (x.Continuation? ==> p.prev != "")
    ensures Classify(p.prev, PrintItem(x)) == ActionOf(p, x)
  {
    match x {
      case Section(name, tail) => ClassifySection(p.prev, name, tail);
      case Entry(_, _, _, _) => ClassifyEntry(p.prev, x);
      case Remarked(_, _, _, _, _) => ClassifyRemarked(p.prev, x);
      case Continuation(_, _, _) => ClassifyContinuation(p.prev, x);
      case Comment(_, _) => ClassifyNothing(p.prev, x);
      case Empty(_) => ClassifyNothing(p.prev, x);
      case _ => ClassifyBad(p.prev, x);
    }
  }

  // One item has led from s, at p, to s'.
  ghost predicate Led(h: Handler, s: Ini, p: Place, x: Item, s': Ini) {
    && At(s', NextPlace(p, x)) && s'.calls == s.calls + CallOf(p, x) && s'.lineno == s.lineno + 1
    && s'.error == (if s.error == 0 && FailsAt(h, s.calls, p, x) then s.lineno + 1 else s.error)
  }

  lemma ActLeads(h: Handler, s: Ini, p: Place, x: Item)
    requires At(s, p)
    ensures Led(h, s, p, x, Act(h, s.(lineno := s.lineno + 1), ActionOf(p, x)))
  {
    match x {
      case Section(name, _) => FitIsCut(name);
      case Entry(name, _, _, _) => FitIsCut(name);
      case Remarked(name, _, _, _, _) => FitIsCut(name);
      case _ =>
    }
  }

  lemma LineOfItem(h: Handler, s: Ini, p: Place, x: Item)
    requires WellFormed(x) && At(s, p) && (x.Continuation? ==> p.prev != "")
    ensures Led(h, s, p, x, Line(h, s, PrintItem(x)))
  {
    ClassifyItem(p, x);
    ActLeads(h, s, p, x);
    LineIs(h, s, PrintItem(x), ActionOf(p, x));
  }

  lemma LineIs(h: Handler, s: Ini, text: string, a: Action)
    requires Classify(s.prev, text) == a
    ensures Line(h, s, text) == Act(h, s.(lineno := s.lineno + 1), a)
  {
  }

  lemma LinesCons(h: Handler, s: Ini, t: string, ts: seq<string>)
    ensures Lines(h, s, [t] + ts) == Lines(h, Line(h, s, t), ts)
  {
    assert ([t] + ts)[1..] == ts;
  }

  // These items have led from s, at p, to s'.
  ghost predicate Leads(h: Handler, s: Ini, p: Place, xs: seq<Item>, s': Ini) {
    && s'.calls == s.calls + CallsOf(p, xs)
    && s'.error == (if s.error == 0 then FirstFailure(h, s.calls, p, xs, s.lineno) else s.error)
  }

  lemma LeadsCons(h: Handler, s: Ini, p: Place, xs: seq<Item>, s1: Ini, s2: Ini)
    requires xs != [] && Led(h, s, p, xs[0], s1) && Leads(h, s1, NextPlace(p, xs[0]), xs[1..], s2)
    ensures Leads(h, s, p, xs, s2)
  {
    var c, cs := CallOf(p, xs[0]), CallsOf(NextPlace(p, xs[0]), xs[1..]);
    assert (s.calls + c) + cs == s.calls + (c + cs);
  }

  lemma {:induction false} LinesOfItems(h: Handler, s: Ini, p: Place, xs: seq<Item>)
    requires (forall x :: x in xs ==> WellFormed(x)) && At(s, p) && Follows(p, xs)
    ensures Leads(h, s, p, xs, Lines(h, s, PrintedLines(xs)))
    decreases |xs|
  {
    if xs != [] {
      var s1 := Line(h, s, PrintItem(xs[0]));
      LineOfItem(h, s, p, xs[0]);
      LinesCons(h, s, PrintItem(xs[0]), PrintedLines(xs[1..]));
      LinesOfItems(h, s1, NextPlace(p, xs[0]), xs[1..]);
      LeadsCons(h, s, p, xs, s1, Lines(h, s, PrintedLines(xs)));
    }
  }

  /** Round trip: parsing the printed text of any well-formed items makes exactly the handler
      calls of these items, in order, each with its own section, name and value, whatever the
      handler answers. Comments, also those behind a value, and empty lines make none; a
      continuation repeats the name before it. The result is the number of the first line that is
      bad or whose call the handler refuses, or 0. */
  lemma RoundTrip(h: Handler, xs: seq<Item>)
    requires (forall x :: x in xs ==> WellFormed(x)) && Follows(Place("", ""), xs)
    ensures ParseSpec(h, Print(xs)).calls == CallsOf(Place("", ""), xs)
    ensures ParseSpec(h, Print(xs)).error == FirstFailure(h, [], Place("", ""), xs, 0)
  {
    TextsOfPrint(xs);
    LinesOfItems(h, START, Place("", ""), xs);
  }

  /** A comment behind an empty value is taken for the value. */
  lemma RemarkBecomesValue(h: Handler, name: string, gap: string, remark: string)
    requires PairParts(name, '=', "", Gaps("", gap, "")) && Word(";" + remark)
    requires |name + "=" + gap + ";" + remark| < 199
    ensures ParseSpec(h, name + "=" + gap + ";" + remark + "\n").calls == [Call("", name, ";" + remark)]
  {
    var x := Entry(name, '=', ";" + remark, Gaps("", gap, ""));
    assert Print([x]) == PrintItem(x) + "" == name + "=" + gap + ";" + remark + "\n" by {
      assert [x][1..] == [];
      assert name + "" == name && gap + (";" + remark) + "" == gap + ";" + remark;
    }
    assert [x][1..] == [];
    RoundTrip(h, [x]);
  }
}
