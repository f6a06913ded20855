/** A deployment name with line breaks: the lines it adds to the file, and what stands before and after them. */
module EnvName {
  import opened JsText
  import opened EnvLine
  import opened EnvRules
  import opened EnvRewrite
  import opened EnvFile
  import opened EnvUpdate

  /** The lines of the file that the deployment line takes up beyond its first. */
  function NameLines(o: EnvOptions): seq<string> {
    if Named(o) then RawLines(o.deploymentName + DeploymentComment(o))[1..] else []
  }

  /** The entries written after the deployment line. */
  function AfterDeployment(entries: seq<string>): seq<string> {
    if entries == [] then []
    else if IsDeploymentLine(entries[0]) then entries[1..]
    else AfterDeployment(entries[1..])
  }

  lemma OneLineName(o: EnvOptions)
    requires CleanName(o)
    ensures NameLines(o) == []
  {
    CommentHasNoLF(o);
    NoLFConcat(o.deploymentName, DeploymentComment(o));
    if Named(o) { RawOfLine(o.deploymentName + DeploymentComment(o)); }
  }

  /**
   * The deployment line as lines of the file: one deployment line that assigns nothing, then the name's
   * later lines.
   */
  lemma DeploymentLines(o: EnvOptions)
    requires Named(o)
    ensures var lines := RawLines(BuildDeploymentLine(o).value);
      lines[1..] == NameLines(o) && IsDeploymentLine(lines[0]) && ParseLine(lines[0]) == None && NoLF(lines[0])
  {
    hide KeyFromLine, ParseLine, DeploymentComment, IsIdent, RawLines, NoLF;
    var kind := if o.target == "prod" then "prod:" else "dev:";
    var tail := o.deploymentName + DeploymentComment(o);
    var first := RawLines(tail)[0];
    var front := "# " + (CONVEX_DEPLOYMENT + ("=" + kind));
    var head := "# " + (CONVEX_DEPLOYMENT + ("=" + (kind + first)));
    assert BuildDeploymentLine(o).value == front + tail && head == front + first;
    ManagedIdents();
    KindNoLF();
    CommentedNoLF(CONVEX_DEPLOYMENT, kind);
    RawPrefix(front, tail);
    CommentedAssignment(CONVEX_DEPLOYMENT, kind + first);
    PrintedComment(head);
    assert (RawLines(front + tail))[0] == head;
  }

  // ---- the entries around it --------------------------------------------------------------

  predicate CleanUnlessOwned(r: Rules, lines: seq<string>) {
    forall i :: 0 <= i < |lines| ==> NoLF(lines[i]) || r.Slot(lines[i]).Some?
  }

  /** Whatever a rewrite writes has no line break, the deployment line excepted. */
  lemma {:induction false} BodyIsClean(r: Rules, lines: seq<string>)
    requires r.Valid() && CleanUnlessOwned(r, lines)
    ensures forall i :: 0 <= i < |r.Body(lines)| ==>
      NoLF(r.Body(lines)[i]) || r.Slot(r.Body(lines)[i]) == Some(CONVEX_DEPLOYMENT)
  {
    hide Rules.Slot, Rules.CanonicalLine, Rules.Valid, NoLF, IsIdent, Rules.Claims, Rules.SelfSlotted;
    if lines != [] {
      var init, last := lines[..|lines| - 1], lines[|lines| - 1];
      BodyIsClean(r, init);
      assert NoLF(lines[|lines| - 1]) || r.Slot(last).Some?;
      if r.Slot(last).Some? {
        r.SlotIsIdent(last);
        r.CanonicalSlot(r.Slot(last).value);
        DeploymentIsSelfSlotted(r);
      }
    }
  }

  lemma DeploymentIsSelfSlotted(r: Rules)
    ensures r.SelfSlotted(CONVEX_DEPLOYMENT)
  {
  }

  lemma {:induction false} OwnedKeyLines(r: Rules, keys: seq<string>, seen: set<string>)
    requires ProperKeys(r, keys)
    ensures CleanUnlessOwned(r, r.KeyLines(keys, seen))
  {
    hide Rules.Slot, Rules.CanonicalLine, ProperKeys, Rules.KeyLines, NoLF;
    if keys == [] {
      AppendNothing(r, [], seen);
    } else {
      ProperTail(r, keys);
      ProperHead(r, keys);
      OwnedKeyLines(r, keys[1..], seen);
    }
  }

  lemma AppendedIsClean(o: EnvOptions, lines: seq<string>)
    requires LinesNoLF(lines)
    ensures CleanUnlessOwned(UpdateRules(o), lines + Appended(o, lines))
  {
    hide UpdateRules, Rules.Slot, Rules.Slots, Rules.Body, Rules.KeyLines, PublicHeader, AuthHeader, PublicKeys,
         AuthKeys, ProperKeys, NoLF, RequiredSlots;
    var r := UpdateRules(o);
    RequiredAreProper(o);
    OwnedKeyLines(r, PublicKeys(o), r.Slots(lines));
    OwnedKeyLines(r, AuthKeys(), r.Slots(lines));
    HeadersAreClean();
    BlankIsOneLine();
  }

  lemma IsTheDeployment(o: EnvOptions, entry: string)
    requires Named(o)
    ensures UpdateRules(o).Slot(entry) == Some(CONVEX_DEPLOYMENT) <==> IsDeploymentLine(entry)
    ensures UpdateRules(o).Slot(entry) == Some(CONVEX_DEPLOYMENT) ==>
      UpdateRules(o).CanonicalLine(CONVEX_DEPLOYMENT) == BuildDeploymentLine(o).value
  {
    hide KeyFromLine, IsDeploymentLine, BuildDeploymentLine, ManagedValues, Inherited, ParseLine, NoLF, IsIdent;
    UpdateRulesValid(o);
    DeploymentOfRules(o);
    DeploymentCanonical(o);
  }

  lemma {:induction false} OneCounted(r: Rules, lines: seq<string>, key: string) returns (i: nat)
    requires r.Count(lines, key) == 1
    ensures i < |lines| && forall j :: 0 <= j < |lines| ==> (r.Slot(lines[j]) == Some(key) <==> j == i)
  {
    hide Rules.Slot;
    var n := |lines| - 1;
    assert lines == lines[..n] + [lines[n]];
    if r.Slot(lines[n]) == Some(key) {
      i := n;
      CountedNone(r, lines[..n], key);
    } else {
      i := OneCounted(r, lines[..n], key);
    }
  }

  lemma {:induction false} CountedNone(r: Rules, lines: seq<string>, key: string)
    requires r.Count(lines, key) == 0
    ensures forall j :: 0 <= j < |lines| ==> r.Slot(lines[j]) != Some(key)
  {
    hide Rules.Slot;
    if lines != [] { CountedNone(r, lines[..|lines| - 1], key); }
  }

  lemma {:induction false} AfterTheOnly(entries: seq<string>, i: nat)
    requires i < |entries| && forall j :: 0 <= j < |entries| ==> (IsDeploymentLine(entries[j]) <==> j == i)
    ensures AfterDeployment(entries) == entries[i + 1..]
  {
    hide IsDeploymentLine;
    if i > 0 { AfterTheOnly(entries[1..], i - 1); }
  }

  /** A named rewrite writes the deployment line once; the other entries are one line each. */
  lemma DeploymentEntry(o: EnvOptions, lines: seq<string>) returns (i: nat)
    requires Named(o) && LinesNoLF(lines)
    ensures var out := Rewrite(o, lines);
      && i < |out| && out[i] == BuildDeploymentLine(o).value && IsDeploymentLine(out[i])
      && LinesNoLF(out[..i]) && LinesNoLF(out[i + 1..])
      && AfterDeployment(out) == out[i + 1..]
      && forall j :: 0 <= j < |out| ==> (IsDeploymentLine(out[j]) <==> j == i)
  {
    hide UpdateRules, Rules.Slot, Rules.Slots, Rules.Body, Rules.Count, Rewrite, Appended, RequiredSlots, ProperKeys,
         Rules.CanonicalLine, Rules.Valid, NoLF, BuildDeploymentLine, IsDeploymentLine, CleanUnlessOwned, IsIdent;
    var r, all, out := UpdateRules(o), lines + Appended(o, lines), Rewrite(o, lines);
    UpdateRulesValid(o);
    RewriteIsBody(o, lines);
    DeploymentIsRequired(o);
    OneLinePerSlot(r, all, CONVEX_DEPLOYMENT);
    DeploymentIsSelfSlotted(r);
    i := OneCounted(r, out, CONVEX_DEPLOYMENT);
    BodyIsCanonical(r, all);
    AppendedIsClean(o, lines);
    BodyIsClean(r, all);
    forall j | 0 <= j < |out| ensures IsDeploymentLine(out[j]) <==> j == i { IsTheDeployment(o, out[j]); }
    IsTheDeployment(o, out[i]);
    AfterTheOnly(out, i);
  }

  lemma DeploymentIsRequired(o: EnvOptions)
    requires Named(o)
    ensures CONVEX_DEPLOYMENT in RequiredSlots(o)
  {
    assert PublicKeys(o)[2] == CONVEX_DEPLOYMENT;
  }

  /** The lines of the written file: entry by entry, with the name's later lines after the deployment line. */
  lemma SpreadOfRewrite(o: EnvOptions, lines: seq<string>, i: nat, head: string)
    requires Named(o) && i < |Rewrite(o, lines)| && Rewrite(o, lines)[i] == BuildDeploymentLine(o).value
    requires LinesNoLF(Rewrite(o, lines)[..i]) && LinesNoLF(Rewrite(o, lines)[i + 1..])
    requires head == RawLines(BuildDeploymentLine(o).value)[0]
    ensures Spread(Rewrite(o, lines)) == Rewrite(o, lines)[..i] + [head] + NameLines(o) + Rewrite(o, lines)[i + 1..]
  {
    hide Rewrite, Spread, BuildDeploymentLine, NoLF, RawLines, NameLines, IsDeploymentLine, ParseLine;
    var out := Rewrite(o, lines);
    var d := BuildDeploymentLine(o).value;
    DeploymentLines(o);
    assert out == out[..i] + [d] + out[i + 1..];
    SpreadAppend(out[..i] + [d], out[i + 1..]);
    SpreadAppend(out[..i], [d]);
    SpreadOne(d);
    SpreadOfLines(out[..i]);
    SpreadOfLines(out[i + 1..]);
    assert RawLines(d) == [head] + NameLines(o);
    assert out[..i] + ([head] + NameLines(o)) == out[..i] + [head] + NameLines(o);
  }

  // ---- what is read back ------------------------------------------------------------------

  function NameEnv(o: EnvOptions): map<string, string> {
    ParseLines(NameLines(o))
  }

  /** What is assigned after the deployment line. */
  function LateEnv(content: string, o: EnvOptions): map<string, string> {
    ParseLines(AfterDeployment(Rewrite(o, InputLines(content))))
  }

  lemma {:induction false} ParseAppend(a: seq<string>, b: seq<string>, key: string)
    ensures Lookup(ParseLines(a + b), key) ==
      if key in ParseLines(b) then Some(ParseLines(b)[key]) else Lookup(ParseLines(a), key)
  {
    hide ParseLine, Assign;
    if b == [] {
      assert a + b == a;
    } else {
      var init, last := b[..|b| - 1], b[|b| - 1];
      ParseAppend(a, init, key);
      assert a + b == (a + init) + [last];
      ParseSnoc(a + init, last);
      AssignAt(ParseLines(a + init), last, key);
      AssignAt(ParseLines(init), last, key);
      AssignAt(map[], last, key);
    }
  }

  /** The written file parses to what its entries would, but for the keys the name's later lines decide. */
  lemma ParseOfUpdated(content: string, o: EnvOptions, key: string)
    ensures Lookup(ParseEnv(UpdatedText(content, o)), key) ==
      if key in NameEnv(o) && key !in LateEnv(content, o) then Some(NameEnv(o)[key])
      else Lookup(ParseLines(Rewrite(o, InputLines(content))), key)
  {
    hide UpdatedText, Rewrite, InputLines, SplitLines, ParseLine, ParseLines, Spread, NameLines, BuildDeploymentLine,
         AfterDeployment, IsDeploymentLine, NoLF, RawLines;
    var out := Rewrite(o, InputLines(content));
    InputParses(content);
    UpdatedLines(content, o);
    ParseSnoc(ChopAll(Spread(out)), "");
    BlankParsesToNothing();
    ParseChopped(Spread(out));
    if Named(o) {
      var i := DeploymentEntry(o, InputLines(content));
      DeploymentLines(o);
      var head := RawLines(BuildDeploymentLine(o).value)[0];
      SpreadOfRewrite(o, InputLines(content), i, head);
      ParseAround(out[..i], out[i], head, NameLines(o), out[i + 1..], key) by { DeploymentLineIsInert(o); }
      assert out == out[..i] + [out[i]] + out[i + 1..];
    } else {
      NoName(o);
      UpdatedLinesOfOneLineName(content, o);
      SpreadOfLines(out);
    }
  }

  lemma NoName(o: EnvOptions)
    requires !Named(o)
    ensures NameEnv(o) == map[] && CleanName(o)
  {
  }

  lemma ParseAround(front: seq<string>, entry: string, head: string, later: seq<string>, back: seq<string>, key: string)
    requires ParseLine(entry) == None && ParseLine(head) == None
    ensures Lookup(ParseLines(front + [head] + later + back), key) ==
      if key in ParseLines(later) && key !in ParseLines(back) then Some(ParseLines(later)[key])
      else Lookup(ParseLines(front + [entry] + back), key)
  {
    hide ParseLine, ParseLines;
    ParseAppend(front + [head] + later, back, key);
    ParseAppend(front + [head], later, key);
    ParseSnoc(front, head);
    ParseAppend(front + [entry], back, key);
    ParseSnoc(front, entry);
  }
}
