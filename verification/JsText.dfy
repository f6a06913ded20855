/** The JavaScript string operations the CLI leans on: `\s`, `trim`, `split(/\r?\n/)`, `join("\n")`. */
module JsText {

  const LF := '\n'
  const CR := '\r'

  datatype Option<+T> = None | Some(value: T)

  /** The characters `\s` matches, which are also the ones `trim` strips. */
  predicate IsSpace(c: char) {
    || '\t' <= c <= '\r' || c == ' ' || c == '\U{00A0}' || c == '\U{1680}'
    || '\U{2000}' <= c <= '\U{200A}' || c == '\U{2028}' || c == '\U{2029}'
    || c == '\U{202F}' || c == '\U{205F}' || c == '\U{3000}' || c == '\U{FEFF}'
  }

  predicate AllSpace(s: string) {
    forall i :: 0 <= i < |s| ==> IsSpace(s[i])
  }

  /** `a || b`. */
  function OrElse(a: string, b: string): string {
    if a != "" then a else b
  }

  predicate NoLF(s: string) {
    forall i :: 0 <= i < |s| ==> s[i] != LF
  }

  predicate EndsWithCR(s: string) {
    s != "" && s[|s| - 1] == CR
  }

  /** How many leading characters `\s*` takes. */
  function SpaceRun(s: string): (n: nat)
    ensures n <= |s| && (n < |s| ==> !IsSpace(s[n]))
    ensures forall i :: 0 <= i < n ==> IsSpace(s[i])
  {
    if s == "" || !IsSpace(s[0]) then 0 else 1 + SpaceRun(s[1..])
  }

  function SkipSpaces(s: string): string {
    s[SpaceRun(s)..]
  }

  function TrimEnd(s: string): (t: string)
    ensures t <= s && (t != "" ==> !IsSpace(t[|t| - 1]))
  {
    if s != "" && IsSpace(s[|s| - 1]) then TrimEnd(s[..|s| - 1]) else s
  }

  function Trim(s: string): string {
    TrimEnd(SkipSpaces(s))
  }

  /** `s.indexOf(c)`, with `|s|` standing for "absent". */
  function IndexOf(s: string, c: char): (n: nat)
    ensures n <= |s| && (n < |s| ==> s[n] == c)
    ensures forall i :: 0 <= i < n ==> s[i] != c
  {
    if s == "" || s[0] == c then 0 else 1 + IndexOf(s[1..], c)
  }

  /** A line break `\r?\n` takes the CR that precedes its LF. */
  function ChopCR(s: string): string {
    if EndsWithCR(s) then s[..|s| - 1] else s
  }

  /** `s.split(/\r?\n/)`: every piece but the last loses one trailing CR. */
  function SplitLines(s: string): (lines: seq<string>)
    ensures lines != []
    ensures forall i :: 0 <= i < |lines| ==> NoLF(lines[i])
    decreases |s|
  {
    var n := IndexOf(s, LF);
    if n == |s| then [s] else [ChopCR(s[..n])] + SplitLines(s[n + 1..])
  }

  /** `lines.join("\n")`. */
  function Join(lines: seq<string>): string {
    if lines == [] then "" else if |lines| == 1 then lines[0]
    else lines[0] + [LF] + Join(lines[1..])
  }

  function ChopAll(lines: seq<string>): (r: seq<string>)
    ensures |r| == |lines| && forall i :: 0 <= i < |r| ==> r[i] == ChopCR(lines[i])
  {
    seq(|lines|, i requires 0 <= i < |lines| => ChopCR(lines[i]))
  }

  predicate LinesNoLF(lines: seq<string>) {
    forall i :: 0 <= i < |lines| ==> NoLF(lines[i])
  }

  // ---- trimming ---------------------------------------------------------------------------

  lemma TrimOfTrimmed(s: string)
    requires s != "" && !IsSpace(s[0]) && !IsSpace(s[|s| - 1])
    ensures Trim(s) == s
  {
    assert SpaceRun(s) == 0;
  }

  lemma {:induction false} SkipFront(front: string, s: string)
    requires AllSpace(front)
    ensures SkipSpaces(front + s) == SkipSpaces(s)
  {
    if front == "" {
      assert front + s == s;
    } else {
      assert (front + s)[1..] == front[1..] + s;
      SkipFront(front[1..], s);
      assert (front + s)[1 + SpaceRun(front[1..] + s)..] == (front[1..] + s)[SpaceRun(front[1..] + s)..];
    }
  }

  lemma {:induction false} TrimAround(front: string, s: string, back: string)
    requires AllSpace(front) && AllSpace(back)
    ensures Trim(front + s + back) == Trim(s)
  {
    if back == "" {
      SkipFront(front, s);
      assert front + s + back == front + s;
    } else {
      var n := |back| - 1;
      var text := front + s + back;
      assert text[..|text| - 1] == front + s + back[..n] && text[|text| - 1] == back[n];
      TrimDropsLastSpace(text);
      TrimAround(front, s, back[..n]);
    }
  }

  /** A CR left at the end of a line never reaches a trimmed value. */
  lemma {:induction false} TrimDropsLastSpace(s: string)
    requires s != "" && IsSpace(s[|s| - 1])
    ensures Trim(s) == Trim(s[..|s| - 1])
  {
    var n, m := SpaceRun(s), SpaceRun(s[..|s| - 1]);
    if n < |s| {
      assert m == n;
      assert SkipSpaces(s)[..|SkipSpaces(s)| - 1] == SkipSpaces(s[..|s| - 1]);
    } else {
      assert m == |s| - 1;
    }
  }

  /** The white space and line terminators of ECMAScript by their code points: what `trim` strips. */
  lemma SpacesAre(c: char)
    ensures IsSpace(c) <==>
      || c as int in {0x9, 0xA, 0xB, 0xC, 0xD, 0x20, 0xA0, 0x1680, 0x2028, 0x2029, 0x202F, 0x205F, 0x3000, 0xFEFF}
      || 0x2000 <= c as int <= 0x200A
  {
  }

  // ---- split and join ---------------------------------------------------------------------

  /** LF and CRLF end a line alike; a CR elsewhere is a character of its line. */
  lemma BothBreaksEndLines(l: string, rest: string)
    requires NoLF(l)
    ensures SplitLines(l + [CR, LF] + rest) == [l] + SplitLines(rest)
    ensures !EndsWithCR(l) ==> SplitLines(l + [LF] + rest) == [l] + SplitLines(rest)
  {
    hide SplitLines;
    assert l + [CR, LF] + rest == (l + [CR]) + [LF] + rest;
    SplitOneLine(l + [CR], rest);
    SplitOneLine(l, rest);
  }

  lemma {:induction false} SplitOneLine(l: string, rest: string)
    requires NoLF(l)
    ensures SplitLines(l) == [l]
    ensures SplitLines(l + [LF] + rest) == [ChopCR(l)] + SplitLines(rest)
  {
    var s := l + [LF] + rest;
    assert s[|l|] == LF;
    assert forall i :: 0 <= i < |l| ==> s[i] == l[i];
    assert IndexOf(s, LF) == |l|;
    assert s[..|l|] == l && s[|l| + 1..] == rest;
    assert IndexOf(l, LF) == |l|;
  }

  /** Reading back joined lines gives the same lines, less one CR on each but the last. */
  lemma {:induction false} SplitJoin(lines: seq<string>, last: string)
    requires LinesNoLF(lines) && NoLF(last)
    ensures SplitLines(Join(lines + [last])) == ChopAll(lines) + [last]
  {
    var all := lines + [last];
    if lines == [] {
      SplitOneLine(last, "");
    } else {
      assert all[1..] == lines[1..] + [last];
      calc {
        SplitLines(Join(all));
        SplitLines(lines[0] + [LF] + Join(all[1..]));
        { SplitOneLine(lines[0], Join(all[1..])); }
        [ChopCR(lines[0])] + SplitLines(Join(all[1..]));
        { SplitJoin(lines[1..], last); }
        [ChopCR(lines[0])] + (ChopAll(lines[1..]) + [last]);
        { assert ChopAll(lines) == [ChopCR(lines[0])] + ChopAll(lines[1..]); }
        ChopAll(lines) + [last];
      }
    }
  }

  lemma {:induction false} JoinPlusNewline(lines: seq<string>)
    requires lines != []
    ensures Join(lines) + [LF] == Join(lines + [""])
  {
    if |lines| > 1 {
      JoinPlusNewline(lines[1..]);
      assert (lines + [""])[1..] == lines[1..] + [""];
      calc {
        Join(lines) + [LF];
        lines[0] + [LF] + Join(lines[1..]) + [LF];
        lines[0] + [LF] + (Join(lines[1..]) + [LF]);
        Join(lines + [""]);
      }
    }
  }

  /** Lines without LF can be told apart in the joined text. */
  lemma {:induction false} JoinInjective(a: seq<string>, b: seq<string>)
    requires a != [] && b != [] && LinesNoLF(a) && LinesNoLF(b)
    requires Join(a) == Join(b)
    ensures a == b
  {
    var s := Join(a);
    FirstLine(a);
    FirstLine(b);
    if IndexOf(s, LF) == |s| {
      assert a == [a[0]] && b == [b[0]];
    } else {
      JoinInjective(a[1..], b[1..]);
      assert a == [a[0]] + a[1..] && b == [b[0]] + b[1..];
    }
  }

  lemma FirstLine(a: seq<string>)
    requires a != [] && LinesNoLF(a)
    ensures var s := Join(a); var n := IndexOf(s, LF);
            && a[0] == s[..n]
            && (n == |s| <==> |a| == 1)
            && (|a| > 1 ==> Join(a[1..]) == s[n + 1..])
  {
    var s := Join(a);
    if |a| > 1 {
      assert s[|a[0]|] == LF;
      assert forall i :: 0 <= i < |a[0]| ==> s[i] == a[0][i];
    }
  }

  /** `s.split("\n")`: the lines with the CRs they have. */
  function RawLines(s: string): (lines: seq<string>)
    ensures lines != [] && LinesNoLF(lines)
    decreases |s|
  {
    var n := IndexOf(s, LF);
    if n == |s| then [s] else [s[..n]] + RawLines(s[n + 1..])
  }

  lemma {:induction false} JoinOfRaw(s: string)
    ensures Join(RawLines(s)) == s
    decreases |s|
  {
    hide RawLines;
    var n := IndexOf(s, LF);
    if n < |s| {
      RawStep(s, n);
      JoinOfRaw(s[n + 1..]);
      JoinCons(s[..n], RawLines(s[n + 1..]));
      assert s == s[..n] + [LF] + s[n + 1..];
    } else {
      RawOfLine(s);
    }
  }

  lemma JoinCons(line: string, lines: seq<string>)
    requires lines != []
    ensures Join([line] + lines) == line + [LF] + Join(lines)
  {
    assert ([line] + lines)[1..] == lines;
  }

  lemma RawOfJoin(lines: seq<string>)
    requires lines != [] && LinesNoLF(lines)
    ensures RawLines(Join(lines)) == lines
  {
    hide Join, RawLines;
    JoinOfRaw(Join(lines));
    JoinInjective(RawLines(Join(lines)), lines);
  }

  /** Splitting at `\r?\n` gives the raw lines less a CR each, the last one excepted. */
  lemma SplitIsRawChopped(s: string)
    ensures |SplitLines(s)| == |RawLines(s)|
    ensures forall i :: 0 <= i < |RawLines(s)| ==>
      SplitLines(s)[i] == if i + 1 < |RawLines(s)| then ChopCR(RawLines(s)[i]) else RawLines(s)[i]
  {
    hide Join, RawLines, SplitLines, ChopCR;
    var raw := RawLines(s);
    var init, last := raw[..|raw| - 1], raw[|raw| - 1];
    JoinOfRaw(s);
    assert raw == init + [last];
    SplitJoin(init, last);
  }

  // ---- entries that hold line breaks of their own -----------------------------------------

  /** The lines a list of entries takes up once it is joined. */
  function Spread(entries: seq<string>): (lines: seq<string>)
    ensures LinesNoLF(lines) && (entries != [] ==> lines != [])
  {
    if entries == [] then [] else RawLines(entries[0]) + Spread(entries[1..])
  }

  lemma {:induction false} RawAcross(a: string, b: string)
    ensures RawLines(a + [LF] + b) == RawLines(a) + RawLines(b)
    decreases |a|
  {
    hide RawLines;
    var n := IndexOf(a, LF);
    var text := a + [LF] + b;
    if n == |a| {
      RawOfLine(a);
      RawStep(text, n);
      assert text[..n] == a && text[n + 1..] == b;
    } else {
      RawStep(text, n);
      RawStep(a, n);
      assert text[..n] == a[..n] && text[n + 1..] == a[n + 1..] + [LF] + b;
      RawAcross(a[n + 1..], b);
      Reassociate([a[..n]], RawLines(a[n + 1..]), RawLines(b));
    }
  }

  lemma RawStep(s: string, n: nat)
    requires n < |s| && s[n] == LF && forall i :: 0 <= i < n ==> s[i] != LF
    ensures RawLines(s) == [s[..n]] + RawLines(s[n + 1..])
  {
    FirstBreak(s, n);
  }

  lemma FirstBreak(s: string, n: nat)
    requires n < |s| && s[n] == LF && forall i :: 0 <= i < n ==> s[i] != LF
    ensures IndexOf(s, LF) == n
  {
  }

  lemma {:induction false} RawOfEntries(entries: seq<string>)
    requires entries != []
    ensures RawLines(Join(entries)) == Spread(entries)
  {
    hide RawLines;
    if |entries| == 1 {
      assert entries[1..] == [] && RawLines(entries[0]) + [] == RawLines(entries[0]);
    } else {
      RawOfEntries(entries[1..]);
      RawAcross(entries[0], Join(entries[1..]));
    }
  }

  lemma {:induction false} SpreadAppend(a: seq<string>, b: seq<string>)
    ensures Spread(a + b) == Spread(a) + Spread(b)
  {
    hide RawLines;
    if a == [] {
      assert a + b == b;
    } else {
      SpreadAppend(a[1..], b);
      assert (a + b)[0] == a[0] && (a + b)[1..] == a[1..] + b;
      Reassociate(RawLines(a[0]), Spread(a[1..]), Spread(b));
    }
  }

  lemma Reassociate(a: seq<string>, b: seq<string>, c: seq<string>)
    ensures a + (b + c) == a + b + c
  {
  }

  lemma RawOfLine(line: string)
    requires NoLF(line)
    ensures RawLines(line) == [line]
  {
  }

  lemma {:induction false} SpreadOfLines(lines: seq<string>)
    requires LinesNoLF(lines)
    ensures Spread(lines) == lines
  {
    hide RawLines, NoLF;
    if lines != [] {
      RawOfLine(lines[0]);
      SpreadOfLines(lines[1..]);
    }
  }

  lemma SpreadOne(entry: string)
    ensures Spread([entry]) == RawLines(entry)
  {
    assert Spread([entry][1..]) == [];
  }

  /** A file of these entries, each ended by a line break, read back. */
  lemma SplitEntries(entries: seq<string>)
    requires entries != []
    ensures SplitLines(Join(entries) + [LF]) == ChopAll(Spread(entries)) + [""]
  {
    hide RawLines, Join, SplitLines, ChopAll;
    var text := Join(entries) + [LF];
    JoinPlusNewline(entries);
    RawOfEntries(entries + [""]);
    SpreadAppend(entries, [""]);
    SpreadOne("");
    RawOfLine("");
    JoinOfRaw(text);
    SplitJoin(Spread(entries), "");
  }

  /** Text put before the first line break joins the first line. */
  lemma RawPrefix(front: string, s: string)
    requires NoLF(front)
    ensures RawLines(front + s) == [front + RawLines(s)[0]] + RawLines(s)[1..]
  {
    hide RawLines;
    var n := IndexOf(s, LF);
    var text := front + s;
    if n < |s| {
      assert text[|front| + n] == LF;
      assert forall i :: 0 <= i < |front| + n ==> text[i] == if i < |front| then front[i] else s[i - |front|];
      RawStep(text, |front| + n);
      RawStep(s, n);
      assert text[..|front| + n] == front + s[..n] && text[|front| + n + 1..] == s[n + 1..];
    } else {
      assert NoLF(text);
      RawOfLine(text);
      RawOfLine(s);
    }
  }
}
