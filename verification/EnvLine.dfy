/** One line of `.env.local`: its key, its value, how a value is printed, and what marks a deployment line. */
module EnvLine {
  import opened JsText

  const SELF_HOSTED_URL := "CONVEX_SELF_HOSTED_URL"
  const SELF_HOSTED_ADMIN_KEY := "CONVEX_SELF_HOSTED_ADMIN_KEY"
  const CONVEX_DEPLOYMENT := "CONVEX_DEPLOYMENT"
  const NEXT_PUBLIC_CONVEX_URL := "NEXT_PUBLIC_CONVEX_URL"
  const NEXT_PUBLIC_CONVEX_SITE_URL := "NEXT_PUBLIC_CONVEX_SITE_URL"

  const EXPORT := "export"

  // ---- values -----------------------------------------------------------------------------

  /** `s.replace(/c/g, r)` for a single-character pattern. */
  function ReplaceAll(s: string, c: char, r: string): string {
    if s == "" then "" else (if s[0] == c then r else [s[0]]) + ReplaceAll(s[1..], c, r)
  }

  /** The three passes of `quoteEnvValue`, in the source's order, without the surrounding quotes. */
  function EscapePasses(v: string): string {
    ReplaceAll(ReplaceAll(ReplaceAll(v, '\\', "\\\\"), '\"', "\\\""), LF, "\\n")
  }

  function QuoteEnvValue(v: string): string {
    "\"" + EscapePasses(v) + "\""
  }

  function EnvAssignment(name: string, value: string): string {
    name + "=" + QuoteEnvValue(value)
  }

  function UnquoteEnvValue(raw: string): string {
    var value := Trim(raw);
    if value != "" && ((value[0] == '\"' && value[|value| - 1] == '\"')
                       || (value[0] == '\'' && value[|value| - 1] == '\''))
    then if |value| >= 2 then value[1..|value| - 1] else ""
    else value
  }

  /** The characters `quoteEnvValue` rewrites. */
  predicate EscapeFree(v: string) {
    forall i :: 0 <= i < |v| ==> v[i] != '\\' && v[i] != '\"' && v[i] != LF
  }

  function EscapeChar(c: char): string {
    if c == '\\' then "\\\\" else if c == '\"' then "\\\"" else if c == LF then "\\n" else [c]
  }

  /** The same escape, one character at a time. */
  function Escape(v: string): (r: string)
    ensures |v| <= |r| && NoLF(r)
  {
    if v == "" then "" else EscapeChar(v[0]) + Escape(v[1..])
  }

  /** The decoder that `unquoteEnvValue` lacks. */
  function Unescape(s: string): string
    decreases |s|
  {
    if s == "" then ""
    else if s[0] == '\\' && |s| > 1 then [if s[1] == 'n' then LF else s[1]] + Unescape(s[2..])
    else [s[0]] + Unescape(s[1..])
  }

  lemma {:induction false} ReplaceAllConcat(a: string, b: string, c: char, r: string)
    ensures ReplaceAll(a + b, c, r) == ReplaceAll(a, c, r) + ReplaceAll(b, c, r)
  {
    if a == "" {
      assert a + b == b;
    } else {
      var head := if a[0] == c then r else [a[0]];
      assert (a + b)[0] == a[0] && (a + b)[1..] == a[1..] + b;
      calc {
        ReplaceAll(a + b, c, r);
        head + ReplaceAll(a[1..] + b, c, r);
        { ReplaceAllConcat(a[1..], b, c, r); }
        head + (ReplaceAll(a[1..], c, r) + ReplaceAll(b, c, r));
        (head + ReplaceAll(a[1..], c, r)) + ReplaceAll(b, c, r);
      }
    }
  }

  lemma {:induction false} ReplaceAbsent(s: string, c: char, r: string)
    requires c !in s
    ensures ReplaceAll(s, c, r) == s
  {
    if s != "" { ReplaceAbsent(s[1..], c, r); }
  }

  lemma ReplaceOne(d: char, c: char, r: string)
    ensures ReplaceAll([d], c, r) == if d == c then r else [d]
  {
    assert ReplaceAll([d][1..], c, r) == "";
  }

  lemma OneCharacter(c: char)
    ensures EscapePasses([c]) == EscapeChar(c)
  {
    ReplaceOne(c, '\\', "\\\\");
    if c == '\\' {
      ReplaceAbsent("\\\\", '\"', "\\\"");
      ReplaceAbsent("\\\\", LF, "\\n");
    } else {
      ReplaceOne(c, '\"', "\\\"");
      if c == '\"' { ReplaceAbsent("\\\"", LF, "\\n"); } else { ReplaceOne(c, LF, "\\n"); }
    }
  }

  /** The source replaces backslashes, then quotes, then newlines; no pass rewrites another's output. */
  lemma {:induction false} ThreePassesAreOneEscape(v: string)
    ensures EscapePasses(v) == Escape(v)
  {
    if v != "" {
      var c, t := [v[0]], v[1..];
      assert v == c + t;
      var c1, t1 := ReplaceAll(c, '\\', "\\\\"), ReplaceAll(t, '\\', "\\\\");
      var c2, t2 := ReplaceAll(c1, '\"', "\\\""), ReplaceAll(t1, '\"', "\\\"");
      ReplaceAllConcat(c, t, '\\', "\\\\");
      ReplaceAllConcat(c1, t1, '\"', "\\\"");
      ReplaceAllConcat(c2, t2, LF, "\\n");
      OneCharacter(v[0]);
      ThreePassesAreOneEscape(t);
    }
  }

  /** The escape loses nothing: a decoder exists, so two values never print alike. */
  lemma {:induction false} EscapeIsInjective(v: string)
    ensures Unescape(Escape(v)) == v
  {
    if v != "" {
      EscapeIsInjective(v[1..]);
      var e := Escape(v);
      if |EscapeChar(v[0])| == 2 {
        assert e[2..] == Escape(v[1..]);
      } else {
        assert e[1..] == Escape(v[1..]);
      }
    }
  }

  /** What `unquoteEnvValue` really gives back for a printed value: the escaped text. */
  lemma UnquoteOfQuote(v: string)
    ensures UnquoteEnvValue(QuoteEnvValue(v)) == Escape(v)
  {
    ThreePassesAreOneEscape(v);
    TrimOfTrimmed(QuoteEnvValue(v));
  }

  lemma {:induction false} EscapeFixesExactlyEscapeFree(v: string)
    ensures Escape(v) == v <==> EscapeFree(v)
  {
    if v != "" {
      EscapeFixesExactlyEscapeFree(v[1..]);
      var e := Escape(v);
      if |EscapeChar(v[0])| == 1 {
        assert e[1..] == Escape(v[1..]);
        if EscapeFree(v[1..]) { assert forall i :: 0 < i < |v| ==> v[i] == v[1..][i - 1]; }
        if EscapeFree(v) { assert EscapeFree(v[1..]); }
      } else {
        assert |e| == 2 + |Escape(v[1..])| > |v|;
      }
    }
  }

  /** Printing then parsing a value is the identity on exactly the escape-free values. */
  lemma QuoteRoundTripExact(v: string)
    ensures UnquoteEnvValue(QuoteEnvValue(v)) == v <==> EscapeFree(v)
  {
    UnquoteOfQuote(v);
    EscapeFixesExactlyEscapeFree(v);
  }

  /** One backslash comes back as two. */
  lemma BackslashIsDoubled()
    ensures UnquoteEnvValue(QuoteEnvValue("\\")) == "\\\\"
  {
    UnquoteOfQuote("\\");
    assert Escape("\\"[1..]) == "";
  }

  // ---- keys -------------------------------------------------------------------------------

  predicate IdentStart(c: char) {
    'A' <= c <= 'Z' || 'a' <= c <= 'z' || c == '_'
  }

  predicate IdentChar(c: char) {
    IdentStart(c) || '0' <= c <= '9'
  }

  predicate IsIdent(k: string) {
    k != "" && IdentStart(k[0]) && forall i :: 0 <= i < |k| ==> IdentChar(k[i])
  }

  /** How many leading characters `[A-Za-z0-9_]*` takes. */
  function IdentRun(s: string): (n: nat)
    ensures n <= |s| && (n < |s| ==> !IdentChar(s[n]))
    ensures forall i :: 0 <= i < n ==> IdentChar(s[i])
  {
    if s == "" || !IdentChar(s[0]) then 0 else 1 + IdentRun(s[1..])
  }

  /** `([A-Za-z_][A-Za-z0-9_]*)\s*=` at the start of `s`. */
  function KeyBeforeEquals(s: string): Option<string> {
    var n := IdentRun(s);
    var after := SkipSpaces(s[n..]);
    if n > 0 && IdentStart(s[0]) && after != "" && after[0] == '=' then Some(s[..n]) else None
  }

  /** What follows `export\s+`, when `s` starts with it. */
  function AfterExport(s: string): Option<string> {
    if EXPORT <= s && |s| > 6 && IsSpace(s[6]) then Some(SkipSpaces(s[6..])) else None
  }

  /** `/^\s*(?:export\s+)?([A-Za-z_][A-Za-z0-9_]*)\s*=/`, its first group. */
  function KeyFromLine(line: string): Option<string> {
    var s := SkipSpaces(line);
    var e := AfterExport(s);
    if e.Some? && KeyBeforeEquals(e.value).Some? then KeyBeforeEquals(e.value) else KeyBeforeEquals(s)
  }

  ghost predicate IsExport(s: string) {
    |s| > 6 && EXPORT <= s && AllSpace(s[6..])
  }

  ghost predicate IsTail(tail: string, key: string, gap: string, rest: string) {
    tail == key + (gap + ("=" + rest)) && IsIdent(key) && AllSpace(gap)
  }

  /** The pattern read as a grammar: `line` is indent, optional export, key, gap, `=`, rest. */
  ghost predicate Assigns(line: string, indent: string, exported: string, key: string, gap: string, rest: string) {
    && line == indent + (exported + (key + (gap + ("=" + rest))))
    && AllSpace(indent) && (exported == "" || IsExport(exported)) && IsIdent(key) && AllSpace(gap)
  }

  lemma CutSpaces(s: string) returns (front: string)
    ensures s == front + SkipSpaces(s) && AllSpace(front) && |front| == SpaceRun(s)
  {
    front := s[..SpaceRun(s)];
  }

  lemma CutIdent(s: string)
    requires KeyBeforeEquals(s).Some?
    ensures s == KeyBeforeEquals(s).value + s[IdentRun(s)..] && IsIdent(KeyBeforeEquals(s).value)
  {
  }

  lemma KeyBeforeEqualsSound(s: string) returns (gap: string, rest: string)
    requires KeyBeforeEquals(s).Some?
    ensures IsTail(s, KeyBeforeEquals(s).value, gap, rest)
  {
    var after := s[IdentRun(s)..];
    var from := SkipSpaces(after);
    gap := CutSpaces(after);
    rest := from[1..];
    assert from == "=" + rest;
    CutIdent(s);
  }

  lemma KeyBeforeEqualsComplete(tail: string, key: string, gap: string, rest: string)
    requires IsTail(tail, key, gap, rest)
    ensures KeyBeforeEquals(tail) == Some(key)
  {
    var after := gap + ("=" + rest);
    assert tail[|key|] == after[0];
    assert IdentRun(tail) == |key| && tail[|key|..] == after;
    SkipIndent(gap, "=" + rest);
  }

  lemma SkipIndent(indent: string, s: string)
    requires AllSpace(indent) && (s == "" || !IsSpace(s[0]))
    ensures SkipSpaces(indent + s) == s
  {
    assert s != "" ==> (indent + s)[|indent|] == s[0];
    assert SpaceRun(indent + s) == |indent|;
  }

  lemma AfterExportOf(exported: string, tail: string)
    requires IsExport(exported) && tail != "" && !IsSpace(tail[0])
    ensures AfterExport(exported + tail) == Some(tail)
  {
    assert (exported + tail)[6..] == exported[6..] + tail;
    assert IsSpace(exported[6..][0]);
    SkipIndent(exported[6..], tail);
  }

  /** The scanner finds a key exactly when the pattern matches, and then that key. */
  lemma KeyFromLineExact(line: string, key: string)
    ensures KeyFromLine(line) == Some(key)
       <==> exists indent, exported, gap, rest :: Assigns(line, indent, exported, key, gap, rest)
  {
    if KeyFromLine(line) == Some(key) {
      var indent, exported, gap, rest := KeyFromLineSound(line);
    }
    if exists indent, exported, gap, rest :: Assigns(line, indent, exported, key, gap, rest) {
      var indent, exported, gap, rest :| Assigns(line, indent, exported, key, gap, rest);
      KeyFromLineComplete(line, indent, exported, key, gap, rest);
    }
  }

  lemma CutExport(s: string) returns (exported: string)
    requires AfterExport(s).Some?
    ensures s == exported + AfterExport(s).value && IsExport(exported)
  {
    var front := CutSpaces(s[6..]);
    exported := EXPORT + front;
    assert s == EXPORT + s[6..];
    assert SpaceRun(s[6..]) > 0;
    assert exported[6..] == front;
  }

  lemma KeyFromLineSound(line: string) returns (indent: string, exported: string, gap: string, rest: string)
    requires KeyFromLine(line).Some?
    ensures Assigns(line, indent, exported, KeyFromLine(line).value, gap, rest)
  {
    hide IsSpace, AllSpace, KeyBeforeEquals, AfterExport, IsExport, IsIdent;
    var s := SkipSpaces(line);
    indent := CutSpaces(line);
    var e := AfterExport(s);
    if e.Some? && KeyBeforeEquals(e.value).Some? {
      gap, rest := KeyBeforeEqualsSound(e.value);
      exported := CutExport(s);
    } else {
      gap, rest := KeyBeforeEqualsSound(s);
      exported := "";
    }
  }

  lemma KeyFromLineComplete(line: string, indent: string, exported: string, key: string, gap: string, rest: string)
    requires Assigns(line, indent, exported, key, gap, rest)
    ensures KeyFromLine(line) == Some(key)
  {
    var tail := key + (gap + ("=" + rest));
    KeyBeforeEqualsComplete(tail, key, gap, rest);
    assert tail[0] == key[0];
    SkipIndent(indent, exported + tail) by { assert exported != "" ==> exported[0] == EXPORT[0]; }
    if exported == "" {
      assert exported + tail == tail;
      if AfterExport(tail).Some? { ExportAsKey(tail, key, gap, rest); }
    } else {
      AfterExportOf(exported, tail);
    }
  }

  lemma ExportEndsIdent(s: string)
    requires AfterExport(s).Some?
    ensures IdentRun(s) == 6
  {
    assert forall i :: 0 <= i < 6 ==> s[i] == EXPORT[i];
    assert IdentRun(s) >= 6;
  }

  /** `export = x` and `export=x` assign to a variable named export. */
  lemma ExportAsKey(tail: string, key: string, gap: string, rest: string)
    requires IsTail(tail, key, gap, rest) && AfterExport(tail).Some?
    ensures KeyBeforeEquals(AfterExport(tail).value).None?
  {
    KeyBeforeEqualsComplete(tail, key, gap, rest);
    ExportEndsIdent(tail);
    assert tail[6..] == gap + ("=" + rest);
    SkipIndent(gap, "=" + rest);
  }

  // ---- deployment lines and parsing -------------------------------------------------------

  /** `CONVEX_DEPLOYMENT=`, exported or not, commented out or not. */
  predicate IsDeploymentLine(line: string) {
    var s := SkipSpaces(line);
    || KeyFromLine(line) == Some(CONVEX_DEPLOYMENT)
    || (s != "" && s[0] == '#' && KeyFromLine(s[1..]) == Some(CONVEX_DEPLOYMENT))
  }

  /** `/^\s*(?:#|$)/`. */
  predicate BlankOrComment(line: string) {
    SpaceRun(line) == |line| || line[SpaceRun(line)] == '#'
  }

  /** One turn of the loop in `parseEnvContent`: the assignment a line makes, if any. */
  function ParseLine(line: string): Option<(string, string)> {
    if BlankOrComment(line) then None
    else match KeyFromLine(line)
      case None => None
      case Some(key) =>
        var at := IndexOf(line, '=');
        if at == |line| then None else Some((key, UnquoteEnvValue(line[at + 1..])))
  }

  lemma CommentHasNoKey(line: string)
    requires BlankOrComment(line)
    ensures KeyFromLine(line) == None
  {
    assert SkipSpaces(line) != "" ==> SkipSpaces(line)[0] == '#';
  }

  predicate NoEquals(s: string) {
    forall i :: 0 <= i < |s| ==> s[i] != '='
  }

  lemma SkipPiece(piece: string, s: string)
    requires NoEquals(piece) && IndexOf(s, '=') < |s|
    ensures var t := piece + s;
            IndexOf(t, '=') < |t| && t[IndexOf(t, '=') + 1..] == s[IndexOf(s, '=') + 1..]
  {
    var t := piece + s;
    assert forall i :: 0 <= i < |piece| ==> t[i] == piece[i];
    assert forall i :: 0 <= i < |s| ==> t[|piece| + i] == s[i];
    assert IndexOf(t, '=') == |piece| + IndexOf(s, '=');
  }

  lemma PiecesHaveNoEquals(indent: string, exported: string, key: string, gap: string)
    requires AllSpace(indent) && (exported == "" || IsExport(exported)) && IsIdent(key) && AllSpace(gap)
    ensures NoEquals(indent) && NoEquals(exported) && NoEquals(key) && NoEquals(gap)
  {
    if exported != "" {
      assert exported == EXPORT + exported[6..];
    }
  }

  /** The value is what follows the pattern's own `=`, which is the line's first. */
  lemma ParseLineOfMatch(line: string, indent: string, exported: string, key: string, gap: string, rest: string)
    requires Assigns(line, indent, exported, key, gap, rest)
    ensures KeyFromLine(line) == Some(key)
    ensures ParseLine(line) == Some((key, UnquoteEnvValue(rest)))
  {
    KeyFromLineComplete(line, indent, exported, key, gap, rest);
    RestAfterEquals(line, indent, exported, key, gap, rest);
    ParseLineOfKey(line, key);
  }

  lemma RestAfterEquals(line: string, indent: string, exported: string, key: string, gap: string, rest: string)
    requires Assigns(line, indent, exported, key, gap, rest)
    ensures IndexOf(line, '=') < |line| && line[IndexOf(line, '=') + 1..] == rest
  {
    hide IsSpace, AllSpace, IsIdent, IsExport, NoEquals;
    var s := "=" + rest;
    assert IndexOf(s, '=') == 0 && s[1..] == rest;
    PiecesHaveNoEquals(indent, exported, key, gap);
    SkipPiece(gap, s);
    SkipPiece(key, gap + s);
    SkipPiece(exported, key + (gap + s));
    SkipPiece(indent, exported + (key + (gap + s)));
  }

  lemma ParseLineOfKey(line: string, key: string)
    requires KeyFromLine(line) == Some(key) && IndexOf(line, '=') < |line|
    ensures ParseLine(line) == Some((key, UnquoteEnvValue(line[IndexOf(line, '=') + 1..])))
  {
    hide IsSpace, KeyFromLine, UnquoteEnvValue, IndexOf;
    if BlankOrComment(line) { CommentHasNoKey(line); }
  }

  /** A line assigns exactly when it has a key: the comment test and the `=` test never decide alone. */
  lemma ParseLineIffKey(line: string)
    ensures ParseLine(line).Some? <==> KeyFromLine(line).Some?
    ensures ParseLine(line).Some? ==> ParseLine(line).value.0 == KeyFromLine(line).value
  {
    if KeyFromLine(line).Some? {
      var indent, exported, gap, rest := KeyFromLineSound(line);
      ParseLineOfMatch(line, indent, exported, KeyFromLine(line).value, gap, rest);
    }
  }

  /** A space at the end of a line is part of the value's padding, never of the key. */
  lemma TrailingSpaceKeepsKey(line: string, c: char)
    requires IsSpace(c)
    ensures KeyFromLine(line + [c]) == KeyFromLine(line)
    ensures ParseLine(line + [c]) == ParseLine(line)
  {
    hide AllSpace, IsIdent, IsExport, KeyFromLine, ParseLine;
    if KeyFromLine(line).Some? {
      var indent, exported, gap, rest := KeyFromLineSound(line);
      Extend(line, c, indent, exported, KeyFromLine(line).value, gap, rest);
    } else if KeyFromLine(line + [c]).Some? {
      var indent, exported, gap, rest := KeyFromLineSound(line + [c]);
      Shrink(line, c, indent, exported, KeyFromLine(line + [c]).value, gap, rest);
    } else {
      ParseLineIffKey(line);
      ParseLineIffKey(line + [c]);
    }
  }

  lemma Extend(line: string, c: char, indent: string, exported: string, key: string, gap: string, rest: string)
    requires IsSpace(c) && Assigns(line, indent, exported, key, gap, rest)
    ensures KeyFromLine(line + [c]) == KeyFromLine(line) == Some(key)
    ensures ParseLine(line + [c]) == ParseLine(line)
  {
    hide AllSpace, IsIdent, IsExport, IsSpace, KeyFromLine, ParseLine;
    PushIn(indent, exported, key, gap, rest, c);
    ParseLineOfMatch(line, indent, exported, key, gap, rest);
    ParseLineOfMatch(line + [c], indent, exported, key, gap, rest + [c]);
    TrimDropsLastSpace(rest + [c]);
    assert (rest + [c])[..|rest|] == rest;
  }

  lemma PushIn(indent: string, exported: string, key: string, gap: string, rest: string, c: char)
    ensures (indent + (exported + (key + (gap + ("=" + rest))))) + [c]
         == indent + (exported + (key + (gap + ("=" + (rest + [c])))))
  {
    assert ("=" + rest) + [c] == "=" + (rest + [c]);
    assert (gap + ("=" + rest)) + [c] == gap + ("=" + (rest + [c]));
    assert (key + (gap + ("=" + rest))) + [c] == key + (gap + ("=" + (rest + [c])));
    assert (exported + (key + (gap + ("=" + rest)))) + [c] == exported + (key + (gap + ("=" + (rest + [c]))));
  }

  lemma Shrink(line: string, c: char, indent: string, exported: string, key: string, gap: string, rest: string)
    requires IsSpace(c) && Assigns(line + [c], indent, exported, key, gap, rest)
    ensures KeyFromLine(line).Some?
  {
    hide AllSpace, IsIdent, IsExport, KeyFromLine, ParseLine;
    var head := indent + (exported + (key + gap));
    var t := "=" + rest;
    assert line + [c] == head + t by { Regroup(indent, exported, key, gap, t); }
    assert t[|t| - 1] == (line + [c])[|line|] == c;
    var short := rest[..|rest| - 1];
    assert rest == short + [c];
    PushIn(indent, exported, key, gap, short, c);
    assert line == (line + [c])[..|line|];
    var body := indent + (exported + (key + (gap + ("=" + short))));
    assert body == (body + [c])[..|body|];
    KeyFromLineComplete(line, indent, exported, key, gap, short);
  }

  lemma Regroup(a: string, b: string, c: string, d: string, e: string)
    ensures a + (b + (c + (d + e))) == (a + (b + (c + d))) + e
  {
    assert c + (d + e) == (c + d) + e;
    assert b + ((c + d) + e) == (b + (c + d)) + e;
  }

  lemma ChopKeepsKey(line: string)
    ensures KeyFromLine(ChopCR(line)) == KeyFromLine(line)
    ensures ParseLine(ChopCR(line)) == ParseLine(line)
  {
    hide KeyFromLine, ParseLine;
    if EndsWithCR(line) {
      assert line == ChopCR(line) + [CR];
      TrailingSpaceKeepsKey(ChopCR(line), CR);
    }
  }

  lemma ChopKeepsDeployment(line: string)
    ensures IsDeploymentLine(ChopCR(line)) == IsDeploymentLine(line)
  {
    hide KeyFromLine, ParseLine, SkipSpaces, IsSpace;
    ChopKeepsKey(line);
    var s, t := SkipSpaces(line), SkipSpaces(ChopCR(line));
    ChopThenSkip(line);
    if s != "" && t != "" {
      assert t[0] == s[0];
      assert t[1..] == ChopCR(s[1..]);
      ChopKeepsKey(s[1..]);
    }
  }

  lemma ChopThenSkip(line: string)
    ensures SkipSpaces(ChopCR(line)) == ChopCR(SkipSpaces(line))
    ensures SkipSpaces(line) != "" ==> SkipSpaces(ChopCR(line)) != ""
  {
    var s := SkipSpaces(line);
    if EndsWithCR(line) {
      if s == "" {
        assert SpaceRun(ChopCR(line)) == |ChopCR(line)|;
      } else {
        assert SpaceRun(ChopCR(line)) == SpaceRun(line);
      }
    }
  }

  // ---- printed lines ----------------------------------------------------------------------

  /** A printed assignment is one clean line that parses to its key and the escaped value. */
  lemma PrintedAssignment(key: string, value: string)
    requires IsIdent(key)
    ensures var line := EnvAssignment(key, value);
            && KeyFromLine(line) == Some(key)
            && ParseLine(line) == Some((key, Escape(value)))
            && NoLF(line) && line != "" && !EndsWithCR(line)
  {
    hide KeyFromLine, ParseLine, QuoteEnvValue, UnquoteEnvValue, Escape, IsIdent, IsExport;
    var quoted := QuoteEnvValue(value);
    assert EnvAssignment(key, value) == "" + (key + ("=" + quoted));
    PlainAssignment("", key, quoted);
    UnquoteOfQuote(value);
    PrintedIsClean(key, value);
  }

  lemma PrintedIsClean(key: string, value: string)
    requires IsIdent(key)
    ensures var line := EnvAssignment(key, value); NoLF(line) && line != "" && !EndsWithCR(line)
  {
    ThreePassesAreOneEscape(value);
    NoLFConcat(key + "=", "\"" + Escape(value) + "\"");
    assert EnvAssignment(key, value) == (key + "=") + ("\"" + Escape(value) + "\"");
  }

  lemma PrintedComment(line: string)
    requires line != "" && line[0] == '#'
    ensures KeyFromLine(line) == None && ParseLine(line) == None
    ensures IsDeploymentLine(line) <==> KeyFromLine(line[1..]) == Some(CONVEX_DEPLOYMENT)
  {
    assert SpaceRun(line) == 0 && SkipSpaces(line) == line;
    CommentHasNoKey(line);
  }

  lemma KeyIsIdent(line: string)
    ensures KeyFromLine(line).Some? ==> IsIdent(KeyFromLine(line).value)
  {
    if KeyFromLine(line).Some? {
      var indent, exported, gap, rest := KeyFromLineSound(line);
    }
  }

  lemma ManagedIdents()
    ensures IsIdent(SELF_HOSTED_URL) && IsIdent(SELF_HOSTED_ADMIN_KEY) && IsIdent(CONVEX_DEPLOYMENT)
    ensures IsIdent(NEXT_PUBLIC_CONVEX_URL) && IsIdent(NEXT_PUBLIC_CONVEX_SITE_URL)
  {
  }

  // ---- the commented deployment line ------------------------------------------------------

  /** `value.replace(/[\r\n]+/g, " ")`; `inRun` says the previous character was in such a run. */
  function CollapseBreaks(s: string, inRun: bool): (r: string)
    ensures NoLF(r)
  {
    if s == "" then ""
    else if s[0] == CR || s[0] == LF then (if inRun then "" else " ") + CollapseBreaks(s[1..], true)
    else [s[0]] + CollapseBreaks(s[1..], false)
  }

  function ReplaceHash(s: string): (r: string)
    ensures |r| == |s| && forall i :: 0 <= i < |s| ==> r[i] == if s[i] == '#' then '\U{00B7}' else s[i]
  {
    seq(|s|, i requires 0 <= i < |s| => if s[i] == '#' then '\U{00B7}' else s[i])
  }

  function SanitizeForComment(value: string): string {
    Trim(ReplaceHash(CollapseBreaks(value, false)))
  }

  /** A label cannot end the comment's line or open another comment. */
  lemma LabelStaysInComment(value: string)
    ensures NoLF(SanitizeForComment(value)) && '#' !in SanitizeForComment(value)
  {
    var h := ReplaceHash(CollapseBreaks(value, false));
    assert NoLF(h) && '#' !in h;
    assert SanitizeForComment(value) <= SkipSpaces(h);
  }

  predicate IsBreak(c: char) {
    c == CR || c == LF
  }

  /** A run of line breaks inside a label becomes one space. */
  lemma {:induction false} BreaksBecomeOneSpace(a: string, run: string, c: string)
    requires forall i :: 0 <= i < |a| ==> !IsBreak(a[i])
    requires run != "" && forall i :: 0 <= i < |run| ==> IsBreak(run[i])
    requires forall i :: 0 <= i < |c| ==> !IsBreak(c[i])
    ensures CollapseBreaks(a + run + c, false) == a + " " + c
  {
    var s := a + run + c;
    if a == "" {
      assert s == run + c && s[1..] == run[1..] + c && IsBreak(s[0]) && IsBreak(run[0]);
      RestOfRun(run[1..], c);
    } else {
      assert s[0] == a[0] && s[1..] == a[1..] + run + c && !IsBreak(a[0]);
      BreaksBecomeOneSpace(a[1..], run, c);
      assert a == [a[0]] + a[1..];
    }
  }

  lemma {:induction false} RestOfRun(run: string, c: string)
    requires forall i :: 0 <= i < |run| ==> IsBreak(run[i])
    requires forall i :: 0 <= i < |c| ==> !IsBreak(c[i])
    ensures CollapseBreaks(run + c, true) == c
  {
    if run == "" {
      assert run + c == c;
      PlainIsNotCollapsed(c, true);
    } else {
      assert (run + c)[0] == run[0] && (run + c)[1..] == run[1..] + c && IsBreak(run[0]);
      RestOfRun(run[1..], c);
    }
  }

  lemma {:induction false} PlainIsNotCollapsed(s: string, inRun: bool)
    requires forall i :: 0 <= i < |s| ==> !IsBreak(s[i])
    ensures CollapseBreaks(s, inRun) == s
  {
    if s != "" {
      assert !IsBreak(s[0]);
      PlainIsNotCollapsed(s[1..], false);
    }
  }

  /** Neither line breaks nor hash signs, nor spaces at its ends. */
  predicate PlainLabel(s: string) {
    Trim(s) == s && forall i :: 0 <= i < |s| ==> !IsBreak(s[i]) && s[i] != '#'
  }

  lemma PlainLabelIsKept(s: string)
    requires PlainLabel(s)
    ensures SanitizeForComment(s) == s
  {
    PlainIsNotCollapsed(s, false);
    assert ReplaceHash(s) == s;
  }

  /** The options of `updateEnvContent`; an absent, null or empty field is "". */
  datatype EnvOptions = EnvOptions(
    convexUrl: string,
    siteUrl: string,
    adminKey: string,
    deploymentName: string,
    target: string,
    teamName: string,
    teamSlug: string,
    projectName: string,
    projectSlug: string)

  function DeploymentComment(o: EnvOptions): string {
    var team := SanitizeForComment(OrElse(o.teamName, o.teamSlug));
    var project := SanitizeForComment(OrElse(o.projectName, o.projectSlug));
    if team != "" && project != "" then " # team: " + team + ", project: " + project
    else if team != "" then " # team: " + team
    else if project != "" then " # project: " + project
    else ""
  }

  function BuildDeploymentLine(o: EnvOptions): (line: Option<string>)
    ensures line.Some? <==> o.deploymentName != ""
  {
    if o.deploymentName == "" then None
    else
      var kind := if o.target == "prod" then "prod:" else "dev:";
      Some("# " + (CONVEX_DEPLOYMENT + ("=" + (kind + (o.deploymentName + DeploymentComment(o))))))
  }

  /** The deployment line is a comment, so it is context for the reader and never an assignment. */
  lemma DeploymentLineIsInert(o: EnvOptions)
    requires o.deploymentName != ""
    ensures var line := BuildDeploymentLine(o).value;
            && line != "" && IsDeploymentLine(line) && ParseLine(line) == None
            && (NoLF(line) <==> NoLF(o.deploymentName))
  {
    hide KeyFromLine, ParseLine, DeploymentComment, IsIdent, NoLF;
    var kind := if o.target == "prod" then "prod:" else "dev:";
    var rest := kind + (o.deploymentName + DeploymentComment(o));
    ManagedIdents();
    CommentedAssignment(CONVEX_DEPLOYMENT, rest);
    PrintedComment(BuildDeploymentLine(o).value);
    RestNoLF(kind, o.deploymentName, DeploymentComment(o)) by {
      KindNoLF();
      CommentHasNoLF(o);
    }
  }

  /** Taken out of its comment, the line assigns the deployment's kind and name, labels after it. */
  lemma DeploymentLineUncommented(o: EnvOptions)
    requires o.deploymentName != ""
    ensures var line := BuildDeploymentLine(o).value; var labels := DeploymentComment(o);
            && line != ""
            && (o.target == "prod" ==>
                  ParseLine(line[1..])
                  == Some((CONVEX_DEPLOYMENT, UnquoteEnvValue("prod:" + (o.deploymentName + labels)))))
            && (o.target != "prod" ==>
                  ParseLine(line[1..])
                  == Some((CONVEX_DEPLOYMENT, UnquoteEnvValue("dev:" + (o.deploymentName + labels)))))
  {
    hide KeyFromLine, ParseLine, DeploymentComment, IsIdent, UnquoteEnvValue;
    var kind := if o.target == "prod" then "prod:" else "dev:";
    var rest := kind + (o.deploymentName + DeploymentComment(o));
    var body := CONVEX_DEPLOYMENT + ("=" + rest);
    ManagedIdents();
    assert ("# " + body)[1..] == " " + body;
    PlainAssignment(" ", CONVEX_DEPLOYMENT, rest) by { OneSpace(); }
  }

  /** Labels stand behind the name as the file's documentation shows them, the team first. */
  lemma LabelsRead(o: EnvOptions, name: string, team: string, project: string)
    requires o.deploymentName == name && name != "" && o.target == "dev"
    requires o.teamName == team && o.projectName == project && o.teamSlug == "" && o.projectSlug == ""
    requires PlainLabel(team) && PlainLabel(project)
    ensures var start := "# CONVEX_DEPLOYMENT=dev:" + name; var line := BuildDeploymentLine(o).value;
            && (team != "" && project != "" ==> line == start + " # team: " + team + ", project: " + project)
            && (team != "" && project == "" ==> line == start + " # team: " + team)
            && (team == "" && project != "" ==> line == start + " # project: " + project)
            && (team == "" && project == "" ==> line == start)
  {
    hide SanitizeForComment;
    PlainLabelIsKept(team);
    PlainLabelIsKept(project);
    assert "# " + (CONVEX_DEPLOYMENT + ("=" + "dev:")) == "# CONVEX_DEPLOYMENT=dev:";
    Started("# ", CONVEX_DEPLOYMENT, "dev:", name, DeploymentComment(o));
    Labelled("# CONVEX_DEPLOYMENT=dev:" + name, team, project);
  }

  lemma Started(hash: string, key: string, kind: string, name: string, labels: string)
    ensures hash + (key + ("=" + (kind + (name + labels)))) == hash + (key + ("=" + kind)) + name + labels
  {
  }

  lemma Labelled(start: string, team: string, project: string)
    ensures start + (" # team: " + team + ", project: " + project) ==
      start + " # team: " + team + ", project: " + project
    ensures start + (" # team: " + team) == start + " # team: " + team
    ensures start + (" # project: " + project) == start + " # project: " + project
    ensures start + "" == start
  {
  }

  /** A team or project is labelled by its name, and by its slug only without one. */
  lemma NameGoesBeforeSlug(o: EnvOptions, other: string)
    ensures o.teamName != "" ==> BuildDeploymentLine(o) == BuildDeploymentLine(o.(teamSlug := other))
    ensures o.teamName == "" ==>
      BuildDeploymentLine(o) == BuildDeploymentLine(o.(teamName := o.teamSlug, teamSlug := ""))
    ensures o.projectName != "" ==> BuildDeploymentLine(o) == BuildDeploymentLine(o.(projectSlug := other))
    ensures o.projectName == "" ==>
      BuildDeploymentLine(o) == BuildDeploymentLine(o.(projectName := o.projectSlug, projectSlug := ""))
  {
    hide SanitizeForComment;
  }

  /** Quotes of either kind are taken off in pairs; a lone one is both ends of nothing. */
  lemma UnquoteExactly(text: string, c: char)
    requires c == '\"' || c == '\''
    ensures UnquoteEnvValue([c] + text + [c]) == text && UnquoteEnvValue([c]) == ""
  {
    TrimOfTrimmed([c]);
    TrimOfTrimmed([c] + text + [c]);
    hide Trim;
    assert ([c] + text + [c])[1..|text| + 1] == text;
  }

  /** A bare value stays, and so does a quote at one end only. */
  lemma BareValueStays(text: string)
    requires text != "" && !IsSpace(text[0]) && !IsSpace(text[|text| - 1])
    requires text[0] != text[|text| - 1] || (text[0] != '\"' && text[0] != '\'')
    ensures UnquoteEnvValue(text) == text
  {
    TrimOfTrimmed(text);
    hide Trim;
  }

  /** Spaces around a value are not part of it. */
  lemma SpacesAreDropped(front: string, value: string, back: string)
    requires AllSpace(front) && AllSpace(back)
    ensures UnquoteEnvValue(front + value + back) == UnquoteEnvValue(value)
  {
    hide Trim;
    TrimAround(front, value, back);
  }

  lemma OneSpace()
    ensures AllSpace(" ")
  {
  }

  lemma KindNoLF()
    ensures NoLF("prod:") && NoLF("dev:")
  {
  }

  lemma RestNoLF(kind: string, name: string, comment: string)
    requires NoLF(kind) && NoLF(comment)
    ensures NoLF(kind + (name + comment)) <==> NoLF(name)
  {
    NoLFConcat(kind, name + comment);
    NoLFConcat(name, comment);
  }

  lemma CommentedAssignment(key: string, rest: string)
    requires IsIdent(key)
    ensures var line := "# " + (key + ("=" + rest));
            && line != "" && line[0] == '#' && KeyFromLine(line[1..]) == Some(key)
            && (NoLF(line) <==> NoLF(rest))
  {
    hide KeyFromLine, ParseLine, IsIdent;
    var body := key + ("=" + rest);
    assert ("# " + body)[1..] == " " + body;
    PlainAssignment(" ", key, rest);
    CommentedNoLF(key, rest);
  }

  lemma CommentedNoLF(key: string, rest: string)
    requires IsIdent(key)
    ensures NoLF("# " + (key + ("=" + rest))) <==> NoLF(rest)
  {
    NoLFConcat("# ", key + ("=" + rest));
    NoLFConcat(key, "=" + rest);
    NoLFConcat("=", rest);
  }

  /** An assignment with no `export` and no gap before its `=`. */
  lemma PlainAssignment(indent: string, key: string, rest: string)
    requires AllSpace(indent) && IsIdent(key)
    ensures var line := indent + (key + ("=" + rest));
            KeyFromLine(line) == Some(key) && ParseLine(line) == Some((key, UnquoteEnvValue(rest)))
  {
    hide KeyFromLine, ParseLine, IsIdent, UnquoteEnvValue, AllSpace;
    var line := indent + (key + ("=" + rest));
    var tail := "=" + rest;
    assert "" + tail == tail;
    var body := key + tail;
    assert "" + body == body;
    assert AllSpace("") by { NothingIsSpace(); }
    ParseLineOfMatch(line, indent, "", key, "", rest);
  }

  lemma NothingIsSpace()
    ensures AllSpace("")
  {
  }

  lemma NoLFConcat(a: string, b: string)
    ensures NoLF(a + b) <==> NoLF(a) && NoLF(b)
  {
    assert forall i :: 0 <= i < |a| ==> (a + b)[i] == a[i];
    assert forall i :: 0 <= i < |b| ==> (a + b)[|a| + i] == b[i];
  }

  lemma CommentHasNoLF(o: EnvOptions)
    ensures NoLF(DeploymentComment(o))
  {
    LabelStaysInComment(OrElse(o.teamName, o.teamSlug));
    LabelStaysInComment(OrElse(o.projectName, o.projectSlug));
    LabelledHasNoLF(SanitizeForComment(OrElse(o.teamName, o.teamSlug)),
                    SanitizeForComment(OrElse(o.projectName, o.projectSlug)));
    hide SanitizeForComment, NoLF;
  }

  lemma LabelledHasNoLF(team: string, project: string)
    requires NoLF(team) && NoLF(project)
    ensures NoLF(" # team: " + team + ", project: " + project)
    ensures NoLF(" # team: " + team) && NoLF(" # project: " + project) && NoLF("")
  {
    LabelWordsHaveNoLF();
    hide NoLF;
    NoLFConcat(" # team: ", team);
    NoLFConcat(" # team: " + team, ", project: ");
    NoLFConcat(" # team: " + team + ", project: ", project);
    NoLFConcat(" # project: ", project);
  }

  lemma LabelWordsHaveNoLF()
    ensures NoLF(" # team: ") && NoLF(", project: ") && NoLF(" # project: ") && NoLF("")
  {
  }
}
