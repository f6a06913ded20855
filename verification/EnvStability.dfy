/** The layout `updateEnvContent` leaves behind, and exactly when running it again changes the file. */
module EnvStability {
  import opened JsText
  import opened EnvLine
  import opened EnvRules
  import opened EnvRewrite
  import opened EnvFile
  import opened EnvUpdate
  import opened EnvName
  import opened EnvPromises

  // ---- layout -----------------------------------------------------------------------------

  lemma OrphansAreInherited(o: EnvOptions, lines: seq<string>)
    ensures var r := UpdateRules(o);
            Orphans(r, lines + Appended(o, lines)) == {} <==> forall k :: k in r.Slots(lines) ==> !Inherited(k)
  {
    hide UpdateRules, Rules.Slot, Rules.Slots, Appended, Inherited, IsIdent, RequiredSlots, ManagedValues, ProperKeys;
    var r := UpdateRules(o);
    RewriteIsBody(o, lines);
    RequiredAreProper(o);
    RulesOf(o);
    ManagedAreNotInherited();
    if forall k :: k in r.Slots(lines) ==> !Inherited(k) {
      forall k | k in r.Slots(lines + Appended(o, lines)) ensures r.SelfSlotted(k) {
        assert k in RequiredSlots(o) || r.Claims(k);
      }
    } else {
      var k :| k in r.Slots(lines) && Inherited(k);
      assert k in Orphans(r, lines + Appended(o, lines));
    }
  }

  lemma {:induction false} CountAppend(r: Rules, a: seq<string>, b: seq<string>, key: string)
    ensures r.Count(a + b, key) == r.Count(a, key) + r.Count(b, key)
  {
    hide Rules.Slot, Rules.Count;
    if b == [] {
      NothingCounts(r, key);
      assert a + b == a;
    } else {
      var init, last := b[..|b| - 1], b[|b| - 1];
      CountAppend(r, a, init, key);
      CountSnoc(r, a + init, last, key);
      CountSnoc(r, init, last, key);
      assert a + b == (a + init) + [last] && b == init + [last];
    }
  }

  lemma NothingCounts(r: Rules, k: string)
    ensures r.Count([], k) == 0 && r.Unslotted([]) == []
  {
  }

  /** An entry of the file exchanged for another in the same slot, and lines put after it. */
  lemma AroundEntry(r: Rules, front: seq<string>, entry: string, head: string, later: seq<string>, back: seq<string>,
      key: string)
    requires r.Slot(entry).Some? && r.Slot(head) == r.Slot(entry)
    ensures var out, lines := front + [entry] + back, front + [head] + later + back;
      && r.Count(lines, key) == r.Count(out, key) + r.Count(later, key)
      && |r.Unslotted(lines)| == |r.Unslotted(out)| + |r.Unslotted(later)|
      && (r.Unslotted(later) == [] ==> r.Unslotted(lines) == r.Unslotted(out))
  {
    hide Rules.Slot, Rules.Count, Rules.Unslotted;
    CountAppend(r, front + [head] + later, back, key);
    CountAppend(r, front + [head], later, key);
    CountAppend(r, front + [entry], back, key);
    CountSnoc(r, front, head, key);
    CountSnoc(r, front, entry, key);
    UnslottedAppend(r, front + [head] + later, back);
    UnslottedAppend(r, front + [head], later);
    UnslottedAppend(r, front + [entry], back);
    assert r.Unslotted(front) + [] + r.Unslotted(back) == r.Unslotted(front) + r.Unslotted(back);
  }

  /** The lines a rewrite takes up, against its entries. */
  lemma SpreadLayout(o: EnvOptions, lines: seq<string>, key: string)
    requires LinesNoLF(lines)
    ensures var r, out := UpdateRules(o), Rewrite(o, lines);
      && r.Count(Spread(out), key) == r.Count(out, key) + r.Count(NameLines(o), key)
      && |r.Unslotted(Spread(out))| == |r.Unslotted(out)| + |r.Unslotted(NameLines(o))|
      && (r.Unslotted(NameLines(o)) == [] ==> r.Unslotted(Spread(out)) == r.Unslotted(out))
  {
    hide UpdateRules, Rules.Slot, Rules.Count, Rules.Unslotted, Rewrite, Spread, BuildDeploymentLine, NameLines,
         AfterDeployment, IsDeploymentLine, NoLF, RawLines, ParseLine;
    var r, out := UpdateRules(o), Rewrite(o, lines);
    if Named(o) {
      var i := DeploymentEntry(o, lines);
      DeploymentLines(o);
      var head := RawLines(BuildDeploymentLine(o).value)[0];
      SpreadOfRewrite(o, lines, i, head);
      IsTheDeployment(o, out[i]);
      IsTheDeployment(o, head);
      AroundEntry(r, out[..i], out[i], head, NameLines(o), out[i + 1..], key);
      assert out == out[..i] + [out[i]] + out[i + 1..];
    } else {
      NoName(o);
      OneLineName(o);
      RewriteIsOneLineEach(o, lines);
      SpreadOfLines(out);
      NothingCounts(r, key);
    }
  }

  /**
   * In the written file every managed slot has one line, and those a longer name adds. The other lines
   * are the input's other lines in order, then the appended blanks and headers, exactly when no line of
   * the input assigns an inherited name and the name adds none of its own.
   */
  lemma UpdatedLayout(content: string, o: EnvOptions)
    ensures var r, before, after := UpdateRules(o), InputLines(content), SplitLines(UpdatedText(content, o));
            && (forall k :: k in RequiredSlots(o) ==> r.Count(after, k) == 1 + r.Count(NameLines(o), k))
            && (r.Unslotted(after) == ChopAll(r.Unslotted(before) + Comments(o, before)) + [""]
                <==> r.Unslotted(NameLines(o)) == [] && forall k :: k in r.Slots(before) ==> !Inherited(k))
  {
    hide UpdateRules, Rules.Slot, Rules.Slots, Rules.Body, Rules.Count, Rules.Unslotted, Rewrite, InputLines,
         SplitLines, UpdatedText, Appended, Inherited, IsIdent, RequiredSlots, ProperKeys, Orphans, NameLines, Spread;
    var r, before := UpdateRules(o), InputLines(content);
    var out, all := Rewrite(o, before), before + Appended(o, before);
    InputParses(content);
    UpdatedLines(content, o);
    UpdateRulesValid(o);
    RewriteIsBody(o, before);
    RequiredAreProper(o);
    UnslottedChopped(r, Spread(out));
    BlankHasNoSlot(r);
    forall k ensures r.Count(ChopAll(Spread(out)) + [""], k) == r.Count(out, k) + r.Count(NameLines(o), k) {
      CountSnoc(r, ChopAll(Spread(out)), "", k);
      SpreadLayout(o, before, k);
    }
    CountSnoc(r, ChopAll(Spread(out)), "", "");
    SpreadLayout(o, before, "");
    forall k | k in RequiredSlots(o) ensures r.Count(out, k) == 1 {
      OneLinePerSlot(r, all, k);
    }
    UnownedLinesSurvive(r, all);
    UnslottedAppend(r, before, Appended(o, before));
    OrphansAreInherited(o, before);
    SameOrLonger(r.Unslotted(Spread(out)), r.Unslotted(all), |Orphans(r, all)| + |r.Unslotted(NameLines(o))|);
    assert Orphans(r, all) != {} <==> |Orphans(r, all)| > 0;
  }

  lemma SameOrLonger(a: seq<string>, b: seq<string>, extra: nat)
    requires |a| == |b| + extra && (extra == 0 ==> a == b)
    ensures ChopAll(a) + [""] == ChopAll(b) + [""] <==> extra == 0
  {
    assert |ChopAll(a) + [""]| == |a| + 1 && |ChopAll(b) + [""]| == |b| + 1;
  }

  // ---- a settled file ---------------------------------------------------------------------

  /** Where no slot repeats, the rewrite only re-canonicalises. */
  lemma {:induction false} BodyOfDistinct(r: Rules, lines: seq<string>)
    requires forall k :: r.Count(lines, k) <= 1
    ensures r.Body(lines) == Recanon(r, lines)
  {
    hide Rules.Slot, Rules.CanonicalLine;
    if lines != [] {
      var init, last := lines[..|lines| - 1], lines[|lines| - 1];
      forall k ensures r.Count(init, k) <= 1 { assert r.Count(lines, k) <= 1; }
      BodyOfDistinct(r, init);
      if r.Slot(last).Some? {
        var k := r.Slot(last).value;
        assert r.Count(lines, k) == r.Count(init, k) + 1;
        CountedSlots(r, init, k);
      }
      assert Recanon(r, lines) == Recanon(r, init) + [Recanon(r, lines)[|lines| - 1]];
    }
  }

  lemma {:induction false} DroppedBlanksKeepSlots(r: Rules, lines: seq<string>)
    ensures forall k :: r.Count(DropTrailingBlanks(lines), k) == r.Count(lines, k)
  {
    hide Rules.Slot;
    if lines != [] && lines[|lines| - 1] == "" {
      BlankHasNoSlot(r);
      DroppedBlanksKeepSlots(r, lines[..|lines| - 1]);
    }
  }

  /** Nothing is missing and nothing repeats. */
  ghost predicate Complete(o: EnvOptions, lines: seq<string>) {
    && (forall k :: k in RequiredSlots(o) ==> UpdateRules(o).Count(lines, k) == 1)
    && (forall k :: UpdateRules(o).Count(lines, k) <= 1)
  }

  lemma NothingMissing(r: Rules, keys: seq<string>, seen: set<string>)
    requires KeySet(keys) <= seen
    ensures r.KeyLines(keys, seen) == []
  {
    if keys != [] {
      KeySetSplit(keys);
      NothingMissing(r, keys[1..], seen);
    }
  }

  lemma RewriteOfComplete(o: EnvOptions, lines: seq<string>)
    requires Complete(o, lines)
    ensures Rewrite(o, lines) == Recanon(UpdateRules(o), lines)
  {
    hide UpdateRules, Rules.Count, Rules.Slot, Rules.CanonicalLine, Rules.KeyLines, Rules.Body, PublicKeys,
         AuthKeys, KeySet, PublicHeader, AuthHeader;
    var r := UpdateRules(o);
    BodyOfDistinct(r, lines);
    forall k | k in RequiredSlots(o) ensures k in r.Slots(lines) { CountedSlots(r, lines, k); }
    NothingMissing(r, PublicKeys(o), r.Slots(lines));
    NothingMissing(r, AuthKeys(), r.Slots(lines));
    var b := r.Body(lines);
    assert b + [] == b && b + [] + [] == b;
  }

  lemma RewriteIsComplete(o: EnvOptions, lines: seq<string>)
    ensures Complete(o, Rewrite(o, lines))
    ensures Recanon(UpdateRules(o), Rewrite(o, lines)) == Rewrite(o, lines)
  {
    hide UpdateRules, Rules.Slot, Rules.Slots, Rules.Body, Rules.Count, Rewrite, Appended, IsIdent, RequiredSlots,
         ProperKeys, Rules.CanonicalLine, Rules.SelfSlotted;
    var r, all := UpdateRules(o), lines + Appended(o, lines);
    UpdateRulesValid(o);
    RewriteIsBody(o, lines);
    RequiredAreProper(o);
    forall k ensures r.Count(Rewrite(o, lines), k) <= 1 { OneLinePerSlot(r, all, k); }
    forall k | k in RequiredSlots(o) ensures r.Count(Rewrite(o, lines), k) == 1 { OneLinePerSlot(r, all, k); }
    BodyIsCanonical(r, all);
  }

  // ---- one more run -----------------------------------------------------------------------

  /** The lines a second run starts from, when `out` was written. */
  function Reread(out: seq<string>): seq<string> {
    DropTrailingBlanks(ChopAll(out))
  }

  lemma InputOfUpdated(content: string, o: EnvOptions)
    requires CleanName(o)
    ensures InputLines(UpdatedText(content, o)) == Reread(Rewrite(o, InputLines(content)))
  {
    hide Rewrite, SplitLines, Join;
    var out := Rewrite(o, InputLines(content));
    UpdatedLinesOfOneLineName(content, o);
    assert (ChopAll(out) + [""])[..|out|] == ChopAll(out);
  }

  lemma RereadIsComplete(o: EnvOptions, out: seq<string>)
    requires Complete(o, out)
    ensures Complete(o, Reread(out))
  {
    hide UpdateRules, Rules.Count, RequiredSlots;
    UnslottedChopped(UpdateRules(o), out);
    DroppedBlanksKeepSlots(UpdateRules(o), ChopAll(out));
  }

  /** The unowned lines that end in CR: a JavaScript line break takes only one CR of "\r\r\n". */
  function CRLines(r: Rules, lines: seq<string>): set<string> {
    set i | 0 <= i < |lines| && r.Slot(lines[i]).None? && EndsWithCR(lines[i]) :: lines[i]
  }

  /** Re-reading and re-canonicalising changes a canonical list in exactly two ways. */
  lemma RereadExact(r: Rules, out: seq<string>)
    requires out != [] && Recanon(r, out) == out
    ensures Recanon(r, Reread(out)) == out <==> CRLines(r, out) == {} && out[|out| - 1] != ""
  {
    hide Rules.Slot, Rules.CanonicalLine;
    var again := Recanon(r, Reread(out));
    forall i | 0 <= i < |out| ensures r.Slot(ChopCR(out[i])) == r.Slot(out[i]) { r.ChopKeepsSlot(out[i]); }
    if CRLines(r, out) == {} && out[|out| - 1] != "" {
      forall i | 0 <= i < |out| && r.Slot(out[i]).None? ensures ChopCR(out[i]) == out[i] {
        CRLineHas(r, out, i);
      }
      LastStaysNonBlank(r, out);
      assert Reread(out) == ChopAll(out);
      assert again == out;
    }
    if again == out {
      assert |Reread(out)| == |out| && Reread(out) == ChopAll(out);
      forall i | 0 <= i < |out| && r.Slot(out[i]).None? ensures !EndsWithCR(out[i]) {
        assert again[i] == ChopCR(out[i]);
      }
    }
  }

  lemma CRLineHas(r: Rules, lines: seq<string>, i: nat)
    requires i < |lines| && r.Slot(lines[i]).None?
    ensures EndsWithCR(lines[i]) ==> lines[i] in CRLines(r, lines)
  {
  }

  lemma LastStaysNonBlank(r: Rules, out: seq<string>)
    requires out != [] && out[|out| - 1] != "" && CRLines(r, out) == {}
    ensures ChopAll(out)[|out| - 1] != ""
  {
    hide Rules.Slot;
    var last := out[|out| - 1];
    r.ChopKeepsSlot(last);
    BlankHasNoSlot(r);
    assert EndsWithCR(last) && r.Slot(last).None? ==> last in CRLines(r, out);
  }

  lemma TextsDiffer(a: seq<string>, b: seq<string>)
    requires a != [] && b != [] && LinesNoLF(a) && LinesNoLF(b)
    ensures Join(a) + [LF] == Join(b) + [LF] <==> a == b
  {
    if Join(a) + [LF] == Join(b) + [LF] {
      assert Join(a) == (Join(a) + [LF])[..|Join(a)|];
      assert Join(b) == (Join(b) + [LF])[..|Join(b)|];
      JoinInjective(a, b);
    }
  }

  /** One more run from a complete canonical list of lines, as a statement about the texts. */
  lemma NextRun(o: EnvOptions, out: seq<string>)
    requires CleanName(o) && LinesNoLF(out) && out != []
    requires Complete(o, out) && Recanon(UpdateRules(o), out) == out
    ensures var next := Rewrite(o, Reread(out));
            && next == Recanon(UpdateRules(o), Reread(out))
            && LinesNoLF(next) && next != []
            && Complete(o, next) && Recanon(UpdateRules(o), next) == next
            && (Join(next) + [LF] == Join(out) + [LF]
                <==> CRLines(UpdateRules(o), out) == {} && out[|out| - 1] != "")
  {
    hide UpdateRules, Rewrite, Complete, NoLF, Join, CRLines, Recanon, Reread, DropTrailingBlanks;
    var again := Reread(out);
    RereadIsComplete(o, out);
    RewriteOfComplete(o, again);
    RewriteIsComplete(o, again);
    RereadIsOneLineEach(out);
    RewriteIsOneLineEach(o, again);
    RereadExact(UpdateRules(o), out);
    TextsDiffer(Rewrite(o, again), out);
  }

  lemma RereadIsOneLineEach(out: seq<string>)
    requires LinesNoLF(out)
    ensures LinesNoLF(Reread(out))
  {
  }

  // ---- the conditions, read off the input -------------------------------------------------

  lemma CRLinesSnoc(r: Rules, lines: seq<string>, line: string)
    ensures CRLines(r, lines + [line])
         == CRLines(r, lines) + if r.Slot(line).None? && EndsWithCR(line) then {line} else {}
  {
    hide Rules.Slot, EndsWithCR;
    var all := lines + [line];
    assert all[|lines|] == line;
    assert forall i :: 0 <= i < |lines| ==> all[i] == lines[i];
    forall x | x in CRLines(r, lines) ensures x in CRLines(r, all) {
      var i :| 0 <= i < |lines| && r.Slot(lines[i]).None? && EndsWithCR(lines[i]) && lines[i] == x;
      assert all[i] == x;
    }
    if r.Slot(line).None? && EndsWithCR(line) { assert all[|lines|] in CRLines(r, all); }
  }

  /** A rewrite neither adds nor removes an unowned line that ends in CR. */
  lemma {:induction false} CRLinesOfBody(r: Rules, lines: seq<string>)
    requires r.Valid()
    ensures CRLines(r, r.Body(lines)) == CRLines(r, lines)
  {
    hide Rules.Slot, Rules.CanonicalLine, IsIdent, Rules.Valid, EndsWithCR, CRLines;
    if lines == [] {
      NoCRLines(r);
    } else {
      var init, last := lines[..|lines| - 1], lines[|lines| - 1];
      CRLinesOfBody(r, init);
      assert lines == init + [last];
      CRLinesSnoc(r, init, last);
      match r.Slot(last) {
        case None => CRLinesSnoc(r, r.Body(init), last);
        case Some(k) =>
          CanonicalHasNoCR(r, last);
          CRLinesSnoc(r, r.Body(init), r.CanonicalLine(k));
          assert k in r.Slots(init) ==> r.Body(lines) == r.Body(init);
      }
    }
  }

  lemma NoCRLines(r: Rules)
    ensures CRLines(r, []) == {}
  {
  }

  lemma CanonicalHasNoCR(r: Rules, line: string)
    requires r.Valid() && r.Slot(line).Some?
    ensures var c := r.CanonicalLine(r.Slot(line).value); r.Slot(c).None? ==> !EndsWithCR(c)
  {
    hide Rules.Slot, Rules.CanonicalLine, IsIdent, Rules.Valid, EndsWithCR;
    r.SlotIsIdent(line);
    r.CanonicalSlot(r.Slot(line).value);
  }

  lemma {:induction false} CRLinesAreUnowned(r: Rules, lines: seq<string>)
    ensures CRLines(r, lines) == set x | x in r.Unslotted(lines) && EndsWithCR(x)
  {
    hide Rules.Slot, EndsWithCR, CRLines;
    if lines == [] {
      NoCRLines(r);
    } else {
      var init, last := lines[..|lines| - 1], lines[|lines| - 1];
      CRLinesAreUnowned(r, init);
      assert lines == init + [last];
      CRLinesSnoc(r, init, last);
    }
  }

  lemma CRLinesOfRewrite(o: EnvOptions, lines: seq<string>)
    ensures CRLines(UpdateRules(o), Rewrite(o, lines)) == CRLines(UpdateRules(o), lines)
  {
    hide UpdateRules, Rules.Slot, Rules.Body, Rules.Slots, Rules.Unslotted, Rewrite, Appended, CRLines,
         PublicHeader, AuthHeader, RequiredSlots, EndsWithCR;
    var r, all := UpdateRules(o), lines + Appended(o, lines);
    UpdateRulesValid(o);
    RewriteIsBody(o, lines);
    CRLinesOfBody(r, all);
    CRLinesAreUnowned(r, all);
    CRLinesAreUnowned(r, lines);
    UnslottedAppend(r, lines, Appended(o, lines));
    CommentsAre(o, lines);
    HeadersAreClean();
    BlankHasNoCR();
    forall x | x in r.Unslotted(Appended(o, lines)) ensures !EndsWithCR(x) {
      assert x in Comments(o, lines);
    }
    assert r.Unslotted(all) == r.Unslotted(lines) + r.Unslotted(Appended(o, lines));
    assert forall x :: x in CRLines(r, all) <==> x in CRLines(r, lines);
  }

  lemma BlankHasNoCR()
    ensures !EndsWithCR("")
  {
  }

  /** Once the repeated lines that end the file are dropped, its last line is blank. */
  predicate BlankKeptLast(r: Rules, lines: seq<string>) {
    lines != []
    && var init, last := lines[..|lines| - 1], lines[|lines| - 1];
       match r.Slot(last)
       case None => last == ""
       case Some(k) => k in r.Slots(init) && BlankKeptLast(r, init)
  }

  lemma {:induction false} BlankKeptLastExact(r: Rules, lines: seq<string>)
    requires r.Valid()
    ensures BlankKeptLast(r, lines) <==> r.Body(lines) != [] && r.Body(lines)[|r.Body(lines)| - 1] == ""
  {
    hide Rules.Slot, Rules.CanonicalLine, IsIdent, Rules.Valid;
    if lines != [] {
      var init, last := lines[..|lines| - 1], lines[|lines| - 1];
      BlankKeptLastExact(r, init);
      if r.Slot(last).Some? {
        r.SlotIsIdent(last);
        r.CanonicalSlot(r.Slot(last).value);
        assert r.Slot(last).value in r.Slots(init) ==> r.Body(lines) == r.Body(init);
      }
    }
  }

  lemma {:induction false} KeyLinesEndNonBlank(r: Rules, keys: seq<string>, seen: set<string>)
    requires forall i :: 0 <= i < |keys| ==> r.CanonicalLine(keys[i]) != ""
    ensures var ls := r.KeyLines(keys, seen); ls != [] ==> ls[|ls| - 1] != ""
  {
    hide Rules.CanonicalLine;
    if keys != [] { KeyLinesEndNonBlank(r, keys[1..], seen); }
  }

  lemma LastLineBlank(o: EnvOptions, lines: seq<string>)
    requires CleanName(o)
    ensures Rewrite(o, lines) != []
    ensures Rewrite(o, lines)[|Rewrite(o, lines)| - 1] == ""
       <==> RequiredSlots(o) <= UpdateRules(o).Slots(lines) && BlankKeptLast(UpdateRules(o), lines)
  {
    hide UpdateRules, Rules.Slot, Rules.Body, Rules.Slots, Rules.KeyLines, PublicKeys, AuthKeys, KeySet,
         PublicHeader, AuthHeader, Rules.CanonicalLine, Rules.Valid, NoLF, BlankKeptLast;
    var r := UpdateRules(o);
    UpdateRulesValid(o);
    RewriteNotEmpty(o, lines);
    BlankKeptLastExact(r, lines);
    RequiredLinesAreClean(o);
    KeyLinesEndNonBlank(r, PublicKeys(o), r.Slots(lines));
    KeyLinesEndNonBlank(r, AuthKeys(), r.Slots(lines));
    if NewPublic(o, lines) == [] { NoKeyLinesMissing(r, PublicKeys(o), r.Slots(lines)); }
    if NewAuth(o, lines) == [] { NoKeyLinesMissing(r, AuthKeys(), r.Slots(lines)); }
    if RequiredSlots(o) <= r.Slots(lines) {
      NothingMissing(r, PublicKeys(o), r.Slots(lines));
      NothingMissing(r, AuthKeys(), r.Slots(lines));
      var b := r.Body(lines);
      assert b + [] == b && b + [] + [] == b;
    }
  }

  // ---- the runs ---------------------------------------------------------------------------

  /** The file after `n + 1` runs with the same options. */
  function Runs(content: string, o: EnvOptions, n: nat): string {
    if n == 0 then UpdatedText(content, o) else UpdatedText(Runs(content, o, n - 1), o)
  }

  lemma TextsOfRuns(content: string, o: EnvOptions)
    requires CleanName(o)
    ensures var out := Rewrite(o, InputLines(content));
      Runs(content, o, 0) == Join(out) + [LF] && Runs(content, o, 1) == Join(Rewrite(o, Reread(out))) + [LF]
  {
    hide Rewrite, InputLines, Join, Reread, CleanName;
    InputOfUpdated(content, o);
    assert Runs(content, o, 0) == UpdatedText(content, o);
  }

  /**
   * A second run changes the file exactly when some unowned line ends in CR, or all managed lines
   * were present and dropping repeated ones exposed a blank last line.
   */
  lemma SecondRunExact(content: string, o: EnvOptions)
    requires CleanName(o)
    ensures var r, lines := UpdateRules(o), InputLines(content);
            Runs(content, o, 1) == Runs(content, o, 0)
            <==> CRLines(r, lines) == {} && !(RequiredSlots(o) <= r.Slots(lines) && BlankKeptLast(r, lines))
  {
    hide *;
    var lines := InputLines(content);
    InputParses(content);
    RewriteIsOneLineEach(o, lines);
    RewriteIsComplete(o, lines);
    NextRun(o, Rewrite(o, lines));
    TextsOfRuns(content, o);
    CRLinesOfRewrite(o, lines);
    LastLineBlank(o, lines);
  }

  /** The last `m` characters are CRs. */
  predicate EndsInCRs(s: string, m: nat) {
    m == 0 || (EndsWithCR(s) && EndsInCRs(ChopCR(s), m - 1))
  }

  /** No unowned line ends in `m` CRs. */
  ghost predicate Shallow(r: Rules, lines: seq<string>, m: nat) {
    forall x :: x in CRLines(r, lines) ==> !EndsInCRs(x, m)
  }

  lemma {:induction false} KeptPrefix(lines: seq<string>)
    ensures forall i :: |DropTrailingBlanks(lines)| <= i < |lines| ==> lines[i] == ""
  {
    if lines != [] && lines[|lines| - 1] == "" { KeptPrefix(lines[..|lines| - 1]); }
  }

  /** Each run takes one CR off every unowned line that ends in one. */
  lemma CRLinesOfNext(r: Rules, out: seq<string>, y: string)
    requires Recanon(r, out) == out
    ensures y in CRLines(r, Recanon(r, Reread(out)))
       <==> EndsWithCR(y) && exists x :: x in CRLines(r, out) && ChopCR(x) == y
  {
    hide Rules.Slot, Rules.CanonicalLine, ChopCR, EndsWithCR;
    var again, next := Reread(out), Recanon(r, Reread(out));
    forall i | 0 <= i < |out| ensures r.Slot(ChopCR(out[i])) == r.Slot(out[i]) { r.ChopKeepsSlot(out[i]); }
    forall i | 0 <= i < |again| ensures again[i] == ChopCR(out[i]) {}
    KeptPrefix(ChopAll(out));
    BlankHasNoCR();
    if y in CRLines(r, next) {
      var i :| 0 <= i < |next| && r.Slot(next[i]).None? && EndsWithCR(next[i]) && next[i] == y;
      assert next[i] == again[i] == ChopCR(out[i]);
      OneCROff(out[i]);
      assert out[i] in CRLines(r, out);
    }
    if EndsWithCR(y) && exists x :: x in CRLines(r, out) && ChopCR(x) == y {
      var x :| x in CRLines(r, out) && ChopCR(x) == y;
      var i :| 0 <= i < |out| && r.Slot(out[i]).None? && EndsWithCR(out[i]) && out[i] == x;
      assert ChopAll(out)[i] == y && y != "";
      assert i < |again|;
      assert next[i] == y;
    }
  }

  lemma OneCROff(line: string)
    ensures EndsWithCR(ChopCR(line)) ==> EndsWithCR(line)
  {
  }

  lemma ShallowNext(r: Rules, out: seq<string>, m: nat)
    requires Recanon(r, out) == out && m > 0
    ensures Shallow(r, Recanon(r, Reread(out)), m) <==> Shallow(r, out, m + 1)
  {
    hide CRLines, Reread, Recanon;
    var next := Recanon(r, Reread(out));
    forall y ensures y in CRLines(r, next) <==> EndsWithCR(y) && exists x :: x in CRLines(r, out) && ChopCR(x) == y {
      CRLinesOfNext(r, out, y);
    }
    CRLinesEnd(r, out);
    if Shallow(r, next, m) {
      forall x | x in CRLines(r, out) ensures !EndsInCRs(x, m + 1) {
        assert EndsWithCR(ChopCR(x)) ==> ChopCR(x) in CRLines(r, next);
      }
    }
  }

  lemma CRLinesEnd(r: Rules, lines: seq<string>)
    ensures forall x :: x in CRLines(r, lines) ==> EndsWithCR(x)
    ensures CRLines(r, lines) == {} <==> Shallow(r, lines, 1)
  {
    assert forall x :: x in CRLines(r, lines) ==> EndsWithCR(x) && EndsInCRs(ChopCR(x), 0);
  }

  /** The entries the `n + 1`st run writes. */
  function Entries(content: string, o: EnvOptions, n: nat): seq<string> {
    Rewrite(o, if n == 0 then InputLines(content) else Reread(Entries(content, o, n - 1)))
  }

  ghost predicate Written(o: EnvOptions, out: seq<string>, text: string) {
    && LinesNoLF(out) && out != [] && Complete(o, out) && Recanon(UpdateRules(o), out) == out
    && text == Join(out) + [LF] && InputLines(text) == Reread(out)
  }

  lemma FirstWritten(content: string, o: EnvOptions)
    requires CleanName(o)
    ensures Written(o, Entries(content, o, 0), Runs(content, o, 0))
  {
    hide UpdateRules, Rewrite, InputLines, Join, Recanon, Reread, Complete, NoLF;
    InputParses(content);
    RewriteIsOneLineEach(o, InputLines(content));
    RewriteIsComplete(o, InputLines(content));
    InputOfUpdated(content, o);
  }

  lemma NextWritten(o: EnvOptions, out: seq<string>, text: string)
    requires CleanName(o) && Written(o, out, text)
    ensures var next := Rewrite(o, Reread(out));
            && Written(o, next, UpdatedText(text, o)) && next != []
            && next == Recanon(UpdateRules(o), Reread(out)) && next[|next| - 1] != ""
            && (UpdatedText(text, o) == text <==> CRLines(UpdateRules(o), out) == {} && out[|out| - 1] != "")
  {
    hide UpdateRules, Rewrite, InputLines, Join, Recanon, Reread, Complete, NoLF, CRLines;
    NextRun(o, out);
    RecanonEndsNonBlank(o, out);
    InputOfUpdated(text, o);
  }

  lemma {:induction false} EntriesAre(content: string, o: EnvOptions, n: nat, m: nat)
    requires CleanName(o) && m > 0
    ensures var r, out := UpdateRules(o), Entries(content, o, n);
            && Written(o, out, Runs(content, o, n)) && out != []
            && (n > 0 ==> out[|out| - 1] != "")
            && (Shallow(r, out, m) <==> Shallow(r, InputLines(content), n + m))
  {
    hide *;
    if n == 0 {
      FirstWritten(content, o);
      ShallowFirst(content, o, m);
      WrittenIsCanonical(o, Entries(content, o, 0), Runs(content, o, 0));
    } else {
      var before := Entries(content, o, n - 1);
      EntriesAre(content, o, n - 1, m + 1);
      OneMoreRun(content, o, n);
      NextWritten(o, before, Runs(content, o, n - 1));
      WrittenIsCanonical(o, before, Runs(content, o, n - 1));
      ShallowNext(UpdateRules(o), before, m);
    }
  }

  lemma OneMoreRun(content: string, o: EnvOptions, n: nat)
    requires n > 0
    ensures Entries(content, o, n) == Rewrite(o, Reread(Entries(content, o, n - 1)))
    ensures Runs(content, o, n) == UpdatedText(Runs(content, o, n - 1), o)
  {
    hide Rewrite, UpdatedText;
  }

  lemma WrittenIsCanonical(o: EnvOptions, out: seq<string>, text: string)
    requires Written(o, out, text)
    ensures Recanon(UpdateRules(o), out) == out && out != []
  {
  }

  lemma ShallowFirst(content: string, o: EnvOptions, m: nat)
    ensures Shallow(UpdateRules(o), Entries(content, o, 0), m) <==> Shallow(UpdateRules(o), InputLines(content), m)
  {
    hide UpdateRules, Rewrite, InputLines, CRLines, EndsInCRs;
    CRLinesOfRewrite(o, InputLines(content));
  }

  /**
   * Every later run changes the file exactly when some unowned line of the input still has that many CRs at
   * its end.
   */
  lemma LaterRunExact(content: string, o: EnvOptions, n: nat)
    requires CleanName(o) && n > 0
    ensures Runs(content, o, n + 1) == Runs(content, o, n) <==> Shallow(UpdateRules(o), InputLines(content), n + 1)
  {
    hide *;
    OneMoreRun(content, o, n + 1);
    EntriesAre(content, o, n, 1);
    NextWritten(o, Entries(content, o, n), Runs(content, o, n));
    CRLinesEnd(UpdateRules(o), Entries(content, o, n));
  }

  function Longest(lines: seq<string>): (n: nat)
    ensures forall i :: 0 <= i < |lines| ==> |lines[i]| <= n
  {
    if lines == [] then 0
    else
      var n, m := Longest(lines[..|lines| - 1]), |lines[|lines| - 1]|;
      if n < m then m else n
  }

  lemma {:induction false} CRsFit(s: string, m: nat)
    requires EndsInCRs(s, m)
    ensures m <= |s|
  {
    if m > 0 { CRsFit(ChopCR(s), m - 1); }
  }

  /** So the file always settles: after as many runs as its longest line has characters nothing changes any more. */
  lemma EveryFileSettles(content: string, o: EnvOptions, n: nat)
    requires CleanName(o) && n > Longest(InputLines(content))
    ensures Runs(content, o, n + 1) == Runs(content, o, n)
  {
    hide UpdateRules, InputLines, Runs, Rules.Slot, EndsInCRs, EndsWithCR;
    LaterRunExact(content, o, n);
    forall x | x in CRLines(UpdateRules(o), InputLines(content)) ensures !EndsInCRs(x, n + 1) {
      var i :| 0 <= i < |InputLines(content)| && InputLines(content)[i] == x;
      if EndsInCRs(x, n + 1) { CRsFit(x, n + 1); }
    }
  }

  lemma RecanonEndsNonBlank(o: EnvOptions, out: seq<string>)
    ensures var next := Recanon(UpdateRules(o), Reread(out)); next != [] ==> next[|next| - 1] != ""
  {
    hide UpdateRules, Rules.Slot, Rules.CanonicalLine, IsIdent, Rules.Valid;
    var r, again := UpdateRules(o), Reread(out);
    UpdateRulesValid(o);
    if again != [] && r.Slot(again[|again| - 1]).Some? {
      r.SlotIsIdent(again[|again| - 1]);
      r.CanonicalSlot(r.Slot(again[|again| - 1]).value);
    }
  }

  /** The file the CLI creates itself: both sections, the deployment line among the public ones. */
  lemma FreshFileLayout(o: EnvOptions)
    ensures UpdatedText("", o) ==
      Join([PublicHeader(), EnvAssignment(NEXT_PUBLIC_CONVEX_URL, o.convexUrl),
            EnvAssignment(NEXT_PUBLIC_CONVEX_SITE_URL, OrElse(o.siteUrl, o.convexUrl))]
           + (if o.deploymentName == "" then [] else [BuildDeploymentLine(o).value])
           + ["", AuthHeader(), EnvAssignment(SELF_HOSTED_URL, o.convexUrl),
              EnvAssignment(SELF_HOSTED_ADMIN_KEY, o.adminKey)])
      + [LF]
  {
    hide UpdateRules, NewPublic, NewAuth, EnvAssignment, DeploymentComment, PublicHeader, AuthHeader, Join,
         SplitLines, Rules.Body;
    NothingToRewrite(UpdateRules(o));
    FreshKeyLines(o);
    assert InputLines("") == [];
    FreshLines(o, EnvAssignment(NEXT_PUBLIC_CONVEX_URL, o.convexUrl),
               EnvAssignment(NEXT_PUBLIC_CONVEX_SITE_URL, OrElse(o.siteUrl, o.convexUrl)),
               if Named(o) then [BuildDeploymentLine(o).value] else [],
               EnvAssignment(SELF_HOSTED_URL, o.convexUrl), EnvAssignment(SELF_HOSTED_ADMIN_KEY, o.adminKey));
  }

  lemma FreshKeyLines(o: EnvOptions)
    ensures NewPublic(o, []) ==
      [EnvAssignment(NEXT_PUBLIC_CONVEX_URL, o.convexUrl)]
      + [EnvAssignment(NEXT_PUBLIC_CONVEX_SITE_URL, OrElse(o.siteUrl, o.convexUrl))]
      + if Named(o) then [BuildDeploymentLine(o).value] else []
    ensures NewAuth(o, []) ==
      [EnvAssignment(SELF_HOSTED_URL, o.convexUrl)] + [EnvAssignment(SELF_HOSTED_ADMIN_KEY, o.adminKey)]
  {
    hide UpdateRules, EnvAssignment, DeploymentComment, Rules.CanonicalLine, Rules.KeyLines;
    var r := UpdateRules(o);
    NothingToRewrite(r);
    KeyLinesOfThree(r, NEXT_PUBLIC_CONVEX_URL, NEXT_PUBLIC_CONVEX_SITE_URL, CONVEX_DEPLOYMENT, {});
    KeyLinesOfThree(r, SELF_HOSTED_URL, SELF_HOSTED_ADMIN_KEY, CONVEX_DEPLOYMENT, {});
    CanonicalValues(o);
    if Named(o) { DeploymentCanonical(o); }
  }

  lemma CanonicalValues(o: EnvOptions)
    ensures var r := UpdateRules(o);
      && r.CanonicalLine(NEXT_PUBLIC_CONVEX_URL) == EnvAssignment(NEXT_PUBLIC_CONVEX_URL, o.convexUrl)
      && r.CanonicalLine(NEXT_PUBLIC_CONVEX_SITE_URL)
         == EnvAssignment(NEXT_PUBLIC_CONVEX_SITE_URL, OrElse(o.siteUrl, o.convexUrl))
      && r.CanonicalLine(SELF_HOSTED_URL) == EnvAssignment(SELF_HOSTED_URL, o.convexUrl)
      && r.CanonicalLine(SELF_HOSTED_ADMIN_KEY) == EnvAssignment(SELF_HOSTED_ADMIN_KEY, o.adminKey)
  {
    hide EnvAssignment;
    KeysDiffer();
  }

  lemma FreshLines(o: EnvOptions, url: string, site: string, named: seq<string>, hosted: string, admin: string)
    ensures Assemble([], [url] + [site] + named, [hosted] + [admin])
         == [PublicHeader(), url, site] + named + ["", AuthHeader(), hosted, admin]
  {
    hide PublicHeader, AuthHeader;
  }

  lemma {:induction false} UnownedBody(r: Rules, lines: seq<string>)
    requires r.Slots(lines) == {}
    ensures r.Body(lines) == lines
  {
    hide Rules.Slot, Rules.CanonicalLine;
    if lines != [] { UnownedBody(r, lines[..|lines| - 1]); }
  }

  /** A file of the user's own gets both sections behind its lines, each after a blank line. */
  lemma ForeignFileLayout(o: EnvOptions, lines: seq<string>)
    requires lines != [] && UpdateRules(o).Slots(lines) == {}
    ensures Rewrite(o, lines) ==
      lines
      + (["", PublicHeader(), EnvAssignment(NEXT_PUBLIC_CONVEX_URL, o.convexUrl),
          EnvAssignment(NEXT_PUBLIC_CONVEX_SITE_URL, if o.siteUrl != "" then o.siteUrl else o.convexUrl)]
         + if o.deploymentName == "" then [] else [BuildDeploymentLine(o).value])
      + ["", AuthHeader(), EnvAssignment(SELF_HOSTED_URL, o.convexUrl),
         EnvAssignment(SELF_HOSTED_ADMIN_KEY, o.adminKey)]
  {
    hide UpdateRules, EnvAssignment, DeploymentComment, PublicHeader, AuthHeader, Rules.Body, Rules.Slots,
         Rules.KeyLines;
    UnownedBody(UpdateRules(o), lines);
    NothingToRewrite(UpdateRules(o));
    FreshKeyLines(o);
    assert NewPublic(o, lines) == NewPublic(o, []) && NewAuth(o, lines) == NewAuth(o, []);
    hide NewPublic, NewAuth;
  }

  /** A file that has one half of the managed lines gets the other one behind its own. */
  lemma HalfOwnedLayout(o: EnvOptions, lines: seq<string>)
    ensures var seen := UpdateRules(o).Slots(lines); KeySet(PublicKeys(o)) <= seen && KeySet(AuthKeys()) !! seen ==>
      Rewrite(o, lines) ==
        UpdateRules(o).Body(lines)
        + ["", AuthHeader(), EnvAssignment(SELF_HOSTED_URL, o.convexUrl),
           EnvAssignment(SELF_HOSTED_ADMIN_KEY, o.adminKey)]
    ensures var seen := UpdateRules(o).Slots(lines); KeySet(AuthKeys()) <= seen && KeySet(PublicKeys(o)) !! seen ==>
      Rewrite(o, lines) ==
        UpdateRules(o).Body(lines)
        + (["", PublicHeader(), EnvAssignment(NEXT_PUBLIC_CONVEX_URL, o.convexUrl),
            EnvAssignment(NEXT_PUBLIC_CONVEX_SITE_URL, if o.siteUrl != "" then o.siteUrl else o.convexUrl)]
           + if o.deploymentName == "" then [] else [BuildDeploymentLine(o).value])
  {
    hide UpdateRules, EnvAssignment, DeploymentComment, PublicHeader, AuthHeader, Rules.Body, Rules.Slots,
         Rules.KeyLines, PublicKeys, AuthKeys, KeySet, Assemble;
    var r := UpdateRules(o);
    var seen := r.Slots(lines);
    FreshKeyLines(o);
    NothingToRewrite(r);
    BodyStartsAtOnce(r, lines);
    BothHalvesRequired(o);
    if KeySet(PublicKeys(o)) <= seen && KeySet(AuthKeys()) !! seen {
      NothingMissing(r, PublicKeys(o), seen);
      AllMissing(r, AuthKeys(), seen);
      SecondSection(r.Body(lines), NewAuth(o, []));
    }
    if KeySet(AuthKeys()) <= seen && KeySet(PublicKeys(o)) !! seen {
      NothingMissing(r, AuthKeys(), seen);
      AllMissing(r, PublicKeys(o), seen);
      FirstSection(r.Body(lines), NewPublic(o, []));
    }
  }

  lemma BothHalvesRequired(o: EnvOptions)
    ensures KeySet(PublicKeys(o)) != {} && KeySet(AuthKeys()) != {}
  {
    assert PublicKeys(o)[0] in KeySet(PublicKeys(o)) && AuthKeys()[0] in KeySet(AuthKeys());
  }

  lemma SecondSection(body: seq<string>, lines: seq<string>)
    requires body != [] && lines != []
    ensures Assemble(body, [], lines) == body + (["", AuthHeader()] + lines)
  {
    hide PublicHeader, AuthHeader;
  }

  lemma FirstSection(body: seq<string>, lines: seq<string>)
    requires body != [] && lines != []
    ensures Assemble(body, lines, []) == body + (["", PublicHeader()] + lines)
  {
    hide PublicHeader, AuthHeader;
  }

  lemma {:induction false} AllMissing(r: Rules, keys: seq<string>, seen: set<string>)
    requires KeySet(keys) !! seen
    ensures r.KeyLines(keys, seen) == r.KeyLines(keys, {})
  {
    hide Rules.CanonicalLine;
    if keys != [] {
      KeySetSplit(keys);
      AllMissing(r, keys[1..], seen);
    }
  }

  /** A file the CLI creates itself is left as it is by the next run. */
  lemma FreshFileIsStable(o: EnvOptions)
    requires CleanName(o)
    ensures Runs("", o, 1) == Runs("", o, 0)
  {
    hide UpdateRules, Runs, RequiredSlots;
    SecondRunExact("", o);
    NoCRLines(UpdateRules(o));
  }

  /** Every managed line, then a blank line, then a managed line again: no last newline needed. */
  function RepeatedTail(o: EnvOptions): seq<string> {
    Rewrite(o, []) + [""] + [UpdateRules(o).CanonicalLine(SELF_HOSTED_URL)]
  }

  /** So "same arguments twice, same output" is not true of every file. */
  lemma SecondRunCanChange(o: EnvOptions)
    requires CleanName(o)
    ensures Runs(Join(RepeatedTail(o)), o, 1) != Runs(Join(RepeatedTail(o)), o, 0)
  {
    hide UpdateRules, Runs, RequiredSlots, Rewrite, Rules.CanonicalLine, Rules.Slot, Rules.Slots, SplitLines, Join,
         IsIdent, ProperKeys, PublicKeys, AuthKeys, CRLines, BlankKeptLast, Rules.Valid, NoLF;
    var r, first, repeat := UpdateRules(o), Rewrite(o, []), UpdateRules(o).CanonicalLine(SELF_HOSTED_URL);
    RepeatIsClean(o);
    InputOfRepeated(o);
    SecondRunExact(Join(RepeatedTail(o)), o);
    RequiredInRewrite(o, []);
    BlankHasNoSlot(r);
    UnslottedChopped(r, first);
    SlotsSnoc(r, ChopAll(first), "");
    SlotsSnoc(r, ChopAll(first) + [""], repeat);
    assert SELF_HOSTED_URL in r.Slots(first) by { RequiredKeysDisjoint(o); OwnUrlRequired(); }
    BlankThenRepeat(r, ChopAll(first), repeat);
  }

  lemma OwnUrlRequired()
    ensures SELF_HOSTED_URL in AuthKeys()
  {
    assert AuthKeys()[0] == SELF_HOSTED_URL;
  }

  lemma BlankThenRepeat(r: Rules, first: seq<string>, repeat: string)
    requires r.Slot("") == None && r.Slot(repeat).Some? && r.Slot(repeat).value in r.Slots(first)
    ensures BlankKeptLast(r, first + [""] + [repeat])
  {
    hide Rules.Slot;
    var lines := first + [""] + [repeat];
    SlotsSnoc(r, first, "");
    assert lines[..|lines| - 1] == first + [""];
    assert (first + [""])[..|first|] == first;
  }

  lemma RequiredInRewrite(o: EnvOptions, lines: seq<string>)
    ensures RequiredSlots(o) <= UpdateRules(o).Slots(Rewrite(o, lines))
  {
    hide UpdateRules, Rules.Count, RequiredSlots, Rewrite;
    RewriteIsComplete(o, lines);
    forall k | k in RequiredSlots(o) ensures k in UpdateRules(o).Slots(Rewrite(o, lines)) {
      CountedSlots(UpdateRules(o), Rewrite(o, lines), k);
    }
  }

  lemma RepeatIsClean(o: EnvOptions)
    requires CleanName(o)
    ensures var repeat := UpdateRules(o).CanonicalLine(SELF_HOSTED_URL);
            && UpdateRules(o).Slot(repeat) == Some(SELF_HOSTED_URL) && NoLF(repeat) && repeat != ""
  {
    hide UpdateRules, Rules.CanonicalLine, Rules.Slot, NoLF, IsIdent, Rules.Valid;
    RequiredLinesAreClean(o);
    RequiredAreProper(o);
    OwnUrlRequired();
  }

  lemma InputOfRepeated(o: EnvOptions)
    requires CleanName(o)
    ensures InputLines(Join(RepeatedTail(o)))
         == ChopAll(Rewrite(o, [])) + [""] + [UpdateRules(o).CanonicalLine(SELF_HOSTED_URL)]
  {
    hide UpdateRules, Rewrite, Rules.CanonicalLine, Rules.Slot, NoLF, SplitLines;
    var first, repeat := Rewrite(o, []), UpdateRules(o).CanonicalLine(SELF_HOSTED_URL);
    RepeatIsClean(o);
    RewriteIsOneLineEach(o, []);
    assert LinesNoLF(first + [""]) by { assert NoLF("") by { BlankIsOneLine(); } }
    SplitJoin(first + [""], repeat);
    assert ChopAll(first + [""]) == ChopAll(first) + [""];
    var content := Join(RepeatedTail(o));
    if content == "" { EmptySplits(); }
  }

  lemma EmptySplits()
    ensures SplitLines("") == [""]
  {
  }
}
