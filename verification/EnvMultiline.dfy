/** What a deployment name with line breaks does: its later lines are lines of the file. */
module EnvMultiline {
  import opened JsText
  import opened EnvLine
  import opened EnvRules
  import opened EnvRewrite
  import opened EnvFile
  import opened EnvUpdate
  import opened EnvName
  import opened EnvLate
  import opened EnvPromises
  import opened EnvStability

  // ---- assignments ------------------------------------------------------------------------

  lemma {:induction false} AssignedStays(lines: seq<string>, line: string, key: string)
    requires line in lines && ParseLine(line).Some? && ParseLine(line).value.0 == key && key != PROTO
    ensures key in ParseLines(lines)
  {
    hide ParseLine;
    var n := |lines| - 1;
    assert lines == lines[..n] + [lines[n]];
    if lines[n] != line { AssignedStays(lines[..n], line, key); }
  }

  lemma AssignmentIsOneLine(key: string, value: string)
    requires IsIdent(key) && NoLF(value)
    ensures var line := key + ("=" + value);
            NoLF(line) && ParseLine(line).Some? && ParseLine(line).value.0 == key
  {
    hide KeyFromLine, ParseLine, IsIdent;
    var line := key + ("=" + value);
    CommentedNoLF(key, value);
    NoLFConcat("# ", line);
    PlainAssignment("", key, value) by { NothingIsSpace(); }
    assert "" + line == line;
    ParseLineIffKey(line);
  }

  /**
   * An assignment that fills a later line of the deployment name becomes a variable, whatever the file
   * held; on the name's last line the labels, if any, end up in the value.
   */
  lemma LaterLineOfNameAssigns(content: string, o: EnvOptions, front: string, key: string, value: string, back: string)
    requires o.deploymentName == front + [LF] + (key + ("=" + value)) + back && (back == "" || back[0] == LF)
    requires IsIdent(key) && key != PROTO && NoLF(value)
    ensures key in NameEnv(o) && key in ParseEnv(UpdatedText(content, o))
  {
    hide ParseEnv, UpdatedText, ParseLine, ParseLines, IsIdent, NoLF, RawLines, DeploymentComment, ManagedValues,
         Inherited;
    var labels := DeploymentComment(o);
    var held := if back == "" then value + labels else value;
    var line := key + ("=" + held);
    CommentHasNoLF(o);
    NoLFConcat(value, labels);
    AssignmentIsOneLine(key, held);
    NameHasLine(o, front, key + ("=" + value), back, line);
    AssignedStays(NameLines(o), line, key);
    AssignedIsRead(content, o, key);
  }

  /** A key of the name's later lines is in the file read back: theirs, or assigned again after them. */
  lemma AssignedIsRead(content: string, o: EnvOptions, key: string)
    requires key in NameEnv(o)
    ensures key in ParseEnv(UpdatedText(content, o))
  {
    hide ParseEnv, UpdatedText, ParseLine, ParseLines, NameEnv, Rewrite, InputLines, BuildDeploymentLine;
    ParseOfUpdated(content, o, key);
    if key in LateEnv(content, o) {
      NamedByNameEnv(o, key);
      InputParses(content);
      var i := DeploymentEntry(o, InputLines(content));
      var out := Rewrite(o, InputLines(content));
      ParseAppend(out[..i + 1], out[i + 1..], key);
      assert out == out[..i + 1] + out[i + 1..];
    }
  }

  lemma NamedByNameEnv(o: EnvOptions, key: string)
    requires key in NameEnv(o)
    ensures Named(o)
  {
    if !Named(o) { NoName(o); }
  }

  lemma NameHasLine(o: EnvOptions, front: string, text: string, back: string, line: string)
    requires o.deploymentName == front + [LF] + text + back && (back == "" || back[0] == LF)
    requires line == (if back == "" then text + DeploymentComment(o) else text) && NoLF(line)
    ensures line in NameLines(o)
  {
    hide DeploymentComment, RawLines, NoLF;
    var labels := DeploymentComment(o);
    var name := o.deploymentName + labels;
    if back == "" {
      assert name == front + [LF] + line;
      RawAcross(front, line);
    } else {
      var tail := back[1..] + labels;
      assert name == front + [LF] + (line + [LF] + tail);
      RawAcross(front, line + [LF] + tail);
      RawAcross(line, tail);
    }
    RawOfLine(line);
    assert RawLines(name)[|RawLines(front)|] == line;
  }

  /** So the file written is then not the map update, unless it held that very value. */
  lemma LaterLineIsNoMapUpdate(content: string, o: EnvOptions, key: string)
    requires NameDecides(content, o, key) && key !in ManagedValues(o)
    requires Lookup(ParseEnv(content), key) != Some(NameEnv(o)[key]) || key == CONVEX_DEPLOYMENT
    ensures ParseEnv(UpdatedText(content, o)) != MapUpdate(ParseEnv(content), o)
  {
    hide UpdatedText, ParseEnv, ManagedValues, NameDecides, NameEnv;
    NamedByNameEnv(o, key);
    MapUpdateExact(content, o);
    assert !UpdatesAsMap(content, o, key);
  }

  function TwoLineName(): EnvOptions {
    EnvOptions("https://x", "", "k", "prod-x" + [LF] + ("A" + ("=" + "1")), "", "", "", "", "")
  }

  /** For one, the name "prod-x\nA=1" puts a variable A into a new file. */
  lemma TwoLineNameIsNoMapUpdate()
    ensures ParseEnv(UpdatedText("", TwoLineName())) != MapUpdate(ParseEnv(""), TwoLineName())
  {
    hide UpdatedText, RawLines, NameEnv;
    var o := TwoLineName();
    assert o.deploymentName + "" == o.deploymentName && NoLF("1") && IsIdent("A") && "A" != PROTO;
    LaterLineOfNameAssigns("", o, "prod-x", "A", "1", "");
    BlankParsesToNothing();
    ParseSnoc([], "");
    assert SplitLines("") == [] + [""];
    assert "A" !in ParseEnv("");
    NotManaged(o);
    assert "A" !in MapUpdate(ParseEnv(""), o);
  }

  lemma NotManaged(o: EnvOptions)
    ensures "A" !in ManagedValues(o)
  {
    assert |NEXT_PUBLIC_CONVEX_URL| > 1 && |NEXT_PUBLIC_CONVEX_SITE_URL| > 1;
    assert |SELF_HOSTED_URL| > 1 && |SELF_HOSTED_ADMIN_KEY| > 1;
  }

  // ---- no run is the last -----------------------------------------------------------------

  /** How often a line occurs. */
  function Occurs(lines: seq<string>, x: string): nat {
    multiset(lines)[x]
  }

  lemma {:induction false} RewriteKeepsOccurrences(r: Rules, lines: seq<string>, x: string)
    requires r.Slot(x) == None
    ensures Occurs(r.Body(lines), x) >= Occurs(lines, x)
  {
    hide Rules.Slot, Rules.CanonicalLine;
    if lines != [] {
      var init, last := lines[..|lines| - 1], lines[|lines| - 1];
      RewriteKeepsOccurrences(r, init, x);
      assert lines == init + [last];
    }
  }

  lemma {:induction false} BlanksHideNothing(lines: seq<string>, x: string)
    requires x != ""
    ensures Occurs(DropTrailingBlanks(lines), x) == Occurs(lines, x)
  {
    if lines != [] && lines[|lines| - 1] == "" {
      BlanksHideNothing(lines[..|lines| - 1], x);
      assert lines == lines[..|lines| - 1] + [""];
    }
  }

  lemma {:induction false} ChoppingKeepsOccurrences(lines: seq<string>, x: string)
    requires !EndsWithCR(x)
    ensures Occurs(ChopAll(lines), x) >= Occurs(lines, x)
  {
    hide EndsWithCR;
    if lines != [] {
      var init, last := lines[..|lines| - 1], lines[|lines| - 1];
      ChoppingKeepsOccurrences(init, x);
      assert lines == init + [last] && ChopAll(lines) == ChopAll(init) + [ChopCR(last)];
      KeptUnchopped(last);
    }
  }

  lemma KeptUnchopped(line: string)
    ensures !EndsWithCR(line) ==> ChopCR(line) == line
  {
  }

  /** A run writes every unowned line it read, and the name's later lines on top. */
  lemma OneMoreOccurrence(o: EnvOptions, content: string, x: string)
    requires x in NameLines(o) && UpdateRules(o).Slot(x) == None && x != "" && !EndsWithCR(x)
    ensures Occurs(SplitLines(UpdatedText(content, o)), x) > Occurs(InputLines(content), x)
  {
    hide UpdateRules, Rules.Slot, Rules.Body, Rewrite, Spread, SplitLines, UpdatedText, InputLines, NameLines, RawLines,
         BuildDeploymentLine, AfterDeployment, IsDeploymentLine, ParseLine, NoLF, Appended, EndsWithCR;
    var lines := InputLines(content);
    var out := Rewrite(o, lines);
    InputParses(content);
    UpdatedLines(content, o);
    NamedByLines(o, x);
    var i := DeploymentEntry(o, lines);
    DeploymentLines(o);
    var head := RawLines(BuildDeploymentLine(o).value)[0];
    SpreadOfRewrite(o, lines, i, head);
    RewriteIsBody(o, lines);
    RewriteKeepsOccurrences(UpdateRules(o), lines, x);
    assert out == UpdateRules(o).Body(lines) + Appended(o, lines);
    IsTheDeployment(o, out[i]);
    assert out == out[..i] + [out[i]] + out[i + 1..];
    assert Occurs(NameLines(o), x) > 0;
    OccursAround(out[..i], out[i], head, NameLines(o), out[i + 1..], x);
    ChoppingKeepsOccurrences(Spread(out), x);
  }

  lemma OccursAround(front: seq<string>, entry: string, head: string, later: seq<string>, back: seq<string>, x: string)
    requires entry != x
    ensures Occurs(front + [head] + later + back, x) >= Occurs(front + [entry] + back, x) + Occurs(later, x)
  {
  }

  lemma NamedByLines(o: EnvOptions, x: string)
    requires x in NameLines(o)
    ensures Named(o)
  {
  }

  /**
   * If some later line of the name is neither blank, nor managed, nor ended by CR, every run adds it
   * again: the file never settles.
   */
  lemma MultilineNameNeverSettles(content: string, o: EnvOptions, x: string, n: nat)
    requires x in NameLines(o) && UpdateRules(o).Slot(x) == None && x != "" && !EndsWithCR(x)
    ensures Runs(content, o, n + 1) != Runs(content, o, n)
  {
    hide UpdateRules, Rules.Slot, SplitLines, UpdatedText, NameLines, EndsWithCR;
    var text := Runs(content, o, n);
    OneMoreOccurrence(o, text, x);
    BlanksHideNothing(SplitLines(text), x);
    EmptySplits();
    assert text == "" ==> Occurs(SplitLines(text), x) == 0;
  }
}
