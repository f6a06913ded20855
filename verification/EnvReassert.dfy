/** What a re-assertion does to the text of `.env.local`, line by line. */
module EnvReassert {
  import opened JsText
  import opened EnvLine
  import opened EnvRules
  import opened EnvRewrite
  import opened EnvFile
  import opened EnvUpdate
  import opened EnvStability
  import opened EnvGuard

  lemma ReassertedRaw(content: string, c: Credentials)
    ensures RawLines(Reasserted(content, c)) == ReassertedLines(c, SplitLines(content))
  {
    hide ReassertedLines, Join, RawLines, SplitLines;
    ReassertedIsOneLineEach(c, SplitLines(content));
    RawOfJoin(ReassertedLines(c, SplitLines(content)));
  }

  // ---- layout -----------------------------------------------------------------------------

  lemma {:induction false} DroppedBlanksAreUnowned(r: Rules, lines: seq<string>)
    ensures var kept := DropTrailingBlanks(lines);
      r.Unslotted(lines) == r.Unslotted(kept) + seq(|lines| - |kept|, _ => "")
  {
    hide Rules.Slot;
    if lines != [] && lines[|lines| - 1] == "" {
      var init := lines[..|lines| - 1];
      BlankHasNoSlot(r);
      DroppedBlanksAreUnowned(r, init);
      var n := |init| - |DropTrailingBlanks(init)|;
      assert seq(n, _ => "") + [""] == seq(n + 1, _ => "");
    }
  }

  lemma {:induction false} CountOfKeyLines(r: Rules, front: seq<string>, keys: seq<string>, seen: set<string>,
      key: string)
    requires ProperKeys(r, keys)
    ensures r.Count(front + r.KeyLines(keys, seen), key)
         == r.Count(front, key) + if key in keys && key !in seen then 1 else 0
    decreases keys
  {
    hide Rules.Slot, Rules.CanonicalLine, ProperKeys, Rules.KeyLines, Rules.Count;
    if keys == [] {
      AppendNothing(r, front, seen);
    } else {
      ProperTail(r, keys);
      ProperHead(r, keys);
      KeySetSplit(keys);
      var k, rest := keys[0], r.KeyLines(keys[1..], seen);
      if k in seen {
        CountOfKeyLines(r, front, keys[1..], seen, key);
      } else {
        var line := r.CanonicalLine(k);
        CountOfKeyLines(r, front + [line], keys[1..], seen, key);
        Shift(front, line, rest);
        CountSnoc(r, front, line, key);
      }
    }
  }

  lemma EverySlotSelf(c: Credentials)
    ensures forall k :: GuardRules(c).SelfSlotted(k)
    ensures forall lines :: Orphans(GuardRules(c), lines) == {}
  {
  }

  lemma UnownedOfReasserted(c: Credentials, lines: seq<string>)
    ensures var r := GuardRules(c); var body := r.Body(lines); var kept := DropTrailingBlanks(body);
      && r.Unslotted(lines) == r.Unslotted(kept) + seq(|body| - |kept|, _ => "")
      && r.Unslotted(ReassertedLines(c, lines))
         == if MissingLines(c, lines) == [] then r.Unslotted(lines) else r.Unslotted(kept) + [""]
  {
    hide GuardRules, Rules.Slot, Rules.Slots, Rules.Body, Rules.KeyLines, Rules.Unslotted, WantedKeys, ProperKeys,
         Rules.Valid, DropTrailingBlanks, Orphans, IsIdent;
    var r, missing := GuardRules(c), MissingLines(c, lines);
    GuardRulesValid(c);
    EverySlotSelf(c);
    UnownedLinesSurvive(r, lines);
    DroppedBlanksAreUnowned(r, r.Body(lines));
    KeyLinesAreOwned(r, WantedKeys(), r.Slots(lines));
    var front := DropTrailingBlanks(r.Body(lines));
    UnslottedAppend(r, front, missing);
    UnslottedAppend(r, front + missing, [""]);
    BlankHasNoSlot(r);
    UnslottedOne(r, "");
    assert r.Unslotted(front) + [] + [""] == r.Unslotted(front) + [""];
  }

  lemma SlotsOfReasserted(c: Credentials, lines: seq<string>, k: string)
    ensures GuardRules(c).Count(ReassertedLines(c, lines), k)
         == if k in WantedKeys() || k in GuardRules(c).Slots(lines) then 1 else 0
  {
    hide GuardRules, Rules.Slot, Rules.Slots, Rules.Body, Rules.KeyLines, WantedKeys, ProperKeys, Rules.Valid,
         DropTrailingBlanks, Orphans, IsIdent, Rules.Count, Rules.SelfSlotted;
    var r, missing := GuardRules(c), MissingLines(c, lines);
    GuardRulesValid(c);
    EverySlotSelf(c);
    OneLinePerSlot(r, lines, k);
    if missing == [] {
      NoKeyLinesMissing(r, WantedKeys(), r.Slots(lines));
      InKeySet(WantedKeys());
    } else {
      var front := DropTrailingBlanks(r.Body(lines));
      DroppedBlanksKeepSlots(r, r.Body(lines));
      CountOfKeyLines(r, front, WantedKeys(), r.Slots(lines), k);
      CountSnoc(r, front + missing, "", k);
      BlankHasNoSlot(r);
    }
  }

  /**
   * In the re-asserted text each wanted key, and each inherited name it assigned, has exactly one
   * line. The other lines are the input's in order, less one CR each; when a wanted key was missing,
   * the blanks that would end the file give way to the appended lines and one final line break.
   */
  lemma ReassertedLayout(content: string, c: Credentials)
    ensures var r, before, after := GuardRules(c), SplitLines(content), RawLines(Reasserted(content, c));
      var ending := |r.Body(before)| - |DropTrailingBlanks(r.Body(before))|;
      && (forall k :: r.Count(after, k) == if k in WantedKeys() || k in r.Slots(before) then 1 else 0)
      && (if forall k :: k in WantedKeys() ==> k in r.Slots(before) then r.Unslotted(after) == r.Unslotted(before)
          else exists kept :: r.Unslotted(before) == kept + seq(ending, _ => "") && r.Unslotted(after) == kept + [""])
  {
    hide GuardRules, Rules.Slot, Rules.Slots, Rules.Body, Rules.KeyLines, Rules.Unslotted, WantedKeys, Rules.Count,
         Reasserted, RawLines, SplitLines, DropTrailingBlanks, ReassertedLines, ProperKeys, Rules.Valid;
    var r, before := GuardRules(c), SplitLines(content);
    ReassertedRaw(content, c);
    forall k ensures r.Count(ReassertedLines(c, before), k)
                  == if k in WantedKeys() || k in r.Slots(before) then 1 else 0
    {
      SlotsOfReasserted(c, before, k);
    }
    UnownedOfReasserted(c, before);
    NothingMissingExactly(c, before);
  }

  lemma NothingMissingExactly(c: Credentials, lines: seq<string>)
    ensures MissingLines(c, lines) == [] <==> forall k :: k in WantedKeys() ==> k in GuardRules(c).Slots(lines)
  {
    hide GuardRules, Rules.Slots, Rules.KeyLines, WantedKeys;
    var seen := GuardRules(c).Slots(lines);
    InKeySet(WantedKeys());
    if MissingLines(c, lines) == [] { NoKeyLinesMissing(GuardRules(c), WantedKeys(), seen); }
    if KeySet(WantedKeys()) <= seen { NothingMissing(GuardRules(c), WantedKeys(), seen); }
  }

  // ---- "ONLY those two lines" -------------------------------------------------------------

  predicate IsUrlLine(line: string) {
    KeyFromLine(line).Some? && KeyFromLine(line).value in WantedKeys()
  }

  /** Line by line the texts agree, but for lines that assign the same public URL in both. */
  ghost predicate ChangesOnlyUrls(before: string, after: string) {
    var a, b := RawLines(before), RawLines(after);
    |a| == |b| && forall i :: 0 <= i < |a| ==> UrlLineOrSame(a[i], b[i])
  }

  predicate UrlLineOrSame(a: string, b: string) {
    a == b || (IsUrlLine(a) && KeyFromLine(a) == KeyFromLine(b))
  }

  /**
   * What the re-assertion keeps of line `i`: all of it, if it has no CRLF and is no other spelling of an
   * inherited name.
   */
  predicate LineIsKept(c: Credentials, raw: seq<string>, i: nat)
    requires i < |raw|
  {
    IsUrlLine(raw[i]) || (
      && (i + 1 < |raw| ==> !EndsWithCR(raw[i]))
      && (GuardRules(c).Slot(raw[i]).Some? ==> raw[i] == GuardRules(c).CanonicalLine(GuardRules(c).Slot(raw[i]).value)))
  }

  ghost predicate Tidy(content: string, c: Credentials) {
    var r, raw := GuardRules(c), RawLines(content);
    && (forall k :: k in WantedKeys() ==> r.Count(raw, k) == 1)
    && (forall k :: r.Count(raw, k) <= 1)
    && (forall i :: 0 <= i < |raw| ==> LineIsKept(c, raw, i))
  }

  lemma {:induction false} SameSlotsSameCounts(r: Rules, a: seq<string>, b: seq<string>)
    requires |a| == |b| && forall i :: 0 <= i < |a| ==> r.Slot(a[i]) == r.Slot(b[i])
    ensures forall k :: r.Count(a, k) == r.Count(b, k)
    ensures r.Slots(a) == r.Slots(b)
  {
    hide Rules.Slot;
    if a != [] { SameSlotsSameCounts(r, a[..|a| - 1], b[..|b| - 1]); }
  }

  /** A rewrite that drops no line found no slot twice. */
  lemma {:induction false} NothingDropped(r: Rules, lines: seq<string>)
    ensures |r.Body(lines)| <= |lines|
    ensures |r.Body(lines)| == |lines| ==> forall k :: r.Count(lines, k) <= 1
  {
    hide Rules.Slot, Rules.CanonicalLine, Rules.Count;
    if lines == [] {
      forall k ensures r.Count(lines, k) == 0 { NothingCounts(r, k); }
    } else {
      var init, last := lines[..|lines| - 1], lines[|lines| - 1];
      NothingDropped(r, init);
      assert lines == init + [last];
      if |r.Body(lines)| == |lines| {
        forall k ensures r.Count(lines, k) <= 1 {
          CountSnoc(r, init, last, k);
          CountedSlots(r, init, k);
        }
      }
    }
  }

  lemma SplitSlots(r: Rules, content: string)
    ensures |SplitLines(content)| == |RawLines(content)|
    ensures forall i :: 0 <= i < |RawLines(content)| ==> r.Slot(SplitLines(content)[i]) == r.Slot(RawLines(content)[i])
    ensures forall k :: r.Count(SplitLines(content), k) == r.Count(RawLines(content), k)
  {
    hide Rules.Slot, Rules.Count, SplitLines, RawLines, ChopCR;
    SplitIsRawChopped(content);
    forall i | 0 <= i < |RawLines(content)| ensures r.Slot(SplitLines(content)[i]) == r.Slot(RawLines(content)[i]) {
      r.ChopKeepsSlot(RawLines(content)[i]);
    }
    SameSlotsSameCounts(r, SplitLines(content), RawLines(content));
  }

  /** The slot of a line is a public URL exactly when the line assigns one. */
  lemma UrlSlot(c: Credentials, line: string)
    ensures IsUrlLine(line) <==> GuardRules(c).Slot(line).Some? && GuardRules(c).Slot(line).value in WantedKeys()
    ensures IsUrlLine(line) ==> GuardRules(c).Slot(line) == KeyFromLine(line)
  {
    hide KeyFromLine, GuardRules, Inherited, WantedValues, WantedKeys, Rules.Slot, ProperKeys, Rules.Valid;
    GuardSlot(c, line);
    GuardRulesValid(c);
  }

  /** One line of the re-canonicalised list, against the raw line it came from. */
  lemma LineExact(c: Credentials, raw: seq<string>, i: nat, split: string, written: string)
    requires i < |raw| && split == if i + 1 < |raw| then ChopCR(raw[i]) else raw[i]
    requires var slot := GuardRules(c).Slot(raw[i]);
      written == if slot.Some? then GuardRules(c).CanonicalLine(slot.value) else split
    ensures UrlLineOrSame(raw[i], written) <==> LineIsKept(c, raw, i)
  {
    hide KeyFromLine, GuardRules, WantedKeys, Rules.Slot, Rules.CanonicalLine, ProperKeys, Rules.Valid, IsIdent,
         Rules.Claims, IsUrlLine, Rules.SelfSlotted;
    var r := GuardRules(c);
    GuardRulesValid(c);
    EverySlotSelf(c);
    UrlSlot(c, raw[i]);
    if r.Slot(raw[i]).Some? {
      var k := r.Slot(raw[i]).value;
      r.SlotIsIdent(raw[i]);
      r.CanonicalSlot(k);
      UrlSlot(c, written);
      if k == CONVEX_DEPLOYMENT { DeploymentHasNoSlot(c, raw[i]); }
    }
  }

  lemma DeploymentHasNoSlot(c: Credentials, line: string)
    ensures GuardRules(c).Slot(line) != Some(CONVEX_DEPLOYMENT)
  {
    hide KeyFromLine, IsDeploymentLine;
    GuardRulesValid(c);
  }

  lemma LinesExact(content: string, c: Credentials, out: seq<string>)
    requires out == Recanon(GuardRules(c), SplitLines(content))
    ensures forall i :: 0 <= i < |RawLines(content)| ==>
      i < |out| && (UrlLineOrSame(RawLines(content)[i], out[i]) <==> LineIsKept(c, RawLines(content), i))
  {
    hide GuardRules, Rules.Slot, Rules.CanonicalLine, Rules.Count, SplitLines, RawLines, ChopCR, UrlLineOrSame,
         LineIsKept;
    var raw := RawLines(content);
    SplitIsRawChopped(content);
    SplitSlots(GuardRules(c), content);
    forall i | 0 <= i < |raw| ensures i < |out| && (UrlLineOrSame(raw[i], out[i]) <==> LineIsKept(c, raw, i)) {
      LineExact(c, raw, i, SplitLines(content)[i], out[i]);
    }
  }

  /** A line appended for a missing key can stand for no line of the input. */
  lemma AppendedLineIsNew(content: string, c: Credentials)
    requires MissingLines(c, SplitLines(content)) != []
    ensures var raw, out := RawLines(content), ReassertedLines(c, SplitLines(content));
      exists i :: 0 <= i < |out| && (i < |raw| ==> !UrlLineOrSame(raw[i], out[i]))
  {
    hide GuardRules, Rules.Slot, Rules.Slots, Rules.CanonicalLine, Rules.Count, Rules.KeyLines, SplitLines,
         RawLines, KeyFromLine, WantedKeys, DropTrailingBlanks, IsUrlLine, ProperKeys, Rules.Body, Rules.Valid;
    var r, lines, raw := GuardRules(c), SplitLines(content), RawLines(content);
    var missing, out := MissingLines(c, lines), ReassertedLines(c, lines);
    var i := |DropTrailingBlanks(r.Body(lines))|;
    assert out[i] == missing[0];
    GuardRulesValid(c);
    var k := FirstKeyLine(r, WantedKeys(), r.Slots(lines));
    SplitSlots(r, content);
    UrlSlot(c, out[i]);
    if i < |raw| {
      UrlSlot(c, raw[i]);
      if r.Slot(raw[i]) == Some(k) { SlotsHave(r, lines, i); }
    }
  }

  lemma {:induction false} FirstKeyLine(r: Rules, keys: seq<string>, seen: set<string>) returns (k: string)
    requires ProperKeys(r, keys) && r.KeyLines(keys, seen) != []
    ensures k in keys && k !in seen && r.Slot(r.KeyLines(keys, seen)[0]) == Some(k)
  {
    hide Rules.Slot, Rules.CanonicalLine, ProperKeys;
    ProperTail(r, keys);
    ProperHead(r, keys);
    if keys[0] in seen {
      k := FirstKeyLine(r, keys[1..], seen);
    } else {
      k := keys[0];
    }
  }

  /**
   * The text that would be written differs in the two URLs' lines and nowhere else exactly when each URL has one line,
   * no inherited name is assigned twice, and every other line has no CRLF and, if it assigns an
   * inherited name, already reads as the rewriter would write it.
   */
  lemma WrittenTextExactly(content: string, c: Credentials)
    ensures ChangesOnlyUrls(content, Reasserted(content, c)) <==> Tidy(content, c)
  {
    hide GuardRules, Rules.Slot, Rules.Slots, Rules.CanonicalLine, Rules.Count, Rules.KeyLines, Rules.Body,
         SplitLines, RawLines, Reasserted, KeyFromLine, WantedKeys, DropTrailingBlanks, UrlLineOrSame, LineIsKept,
         MissingLines;
    var r, lines, raw := GuardRules(c), SplitLines(content), RawLines(content);
    var out := ReassertedLines(c, lines);
    ReassertedRaw(content, c);
    SplitSlots(r, content);
    NothingMissingExactly(c, lines);
    NothingDropped(r, lines);
    forall k ensures k in r.Slots(lines) <==> r.Count(raw, k) > 0 { CountedSlots(r, lines, k); }
    if MissingLines(c, lines) != [] {
      AppendedLineIsNew(content, c);
      assert !Tidy(content, c);
    } else if forall k :: r.Count(raw, k) <= 1 {
      BodyOfDistinct(r, lines);
      LinesExact(content, c, out);
      assert forall k :: k in WantedKeys() ==> r.Count(raw, k) == 1;
    }
  }

  /** The file after one re-assertion; a settled file, and one without a URL to assert, is left alone. */
  function AfterReassert(content: string, c: Credentials): string {
    if NeedsWrite(Some(content), c) then Reasserted(content, c) else content
  }

  lemma AfterReassertIs(content: string, c: Credentials)
    ensures WithReassert(Start(Some(content), c), c).file == Some(AfterReassert(content, c))
  {
    hide Reasserted, Drifted;
  }

  lemma UnchangedIsSurgical(content: string)
    ensures ChangesOnlyUrls(content, content)
  {
  }

  /**
   * One re-assertion touches the two URLs' lines and nothing else exactly when it does not write, or the
   * file is tidy.
   */
  lemma ChangesOnlyUrlsExactly(content: string, c: Credentials)
    ensures WithReassert(Start(Some(content), c), c).file == Some(AfterReassert(content, c))
    ensures ChangesOnlyUrls(content, AfterReassert(content, c)) <==> !NeedsWrite(Some(content), c) || Tidy(content, c)
  {
    hide NeedsWrite, Reasserted, Tidy, ChangesOnlyUrls;
    AfterReassertIs(content, c);
    UnchangedIsSurgical(content);
    WrittenTextExactly(content, c);
  }

  /** When it writes, a line ended by CRLF loses its CR, whatever it says, unless it is one of the two. */
  lemma CrlfIsNotKept(content: string, c: Credentials, i: nat)
    requires NeedsWrite(Some(content), c)
    requires i + 1 < |RawLines(content)| && EndsWithCR(RawLines(content)[i]) && !IsUrlLine(RawLines(content)[i])
    ensures !ChangesOnlyUrls(content, AfterReassert(content, c))
  {
    hide RawLines, Reasserted, GuardRules, IsUrlLine, EndsWithCR, ChangesOnlyUrls, NeedsWrite;
    ChangesOnlyUrlsExactly(content, c);
    assert !LineIsKept(c, RawLines(content), i);
  }

  function EmptyUrlLine(key: string): string {
    key + ("=" + "")
  }

  /** A note, and both URLs assigned nothing. */
  function StaleFile(note: string): string {
    Join([note, EmptyUrlLine(NEXT_PUBLIC_CONVEX_URL), EmptyUrlLine(NEXT_PUBLIC_CONVEX_SITE_URL)])
  }

  lemma EmptyUrl(key: string)
    requires IsIdent(key)
    ensures NoLF(EmptyUrlLine(key)) && KeyFromLine(EmptyUrlLine(key)) == Some(key)
    ensures ParseLine(EmptyUrlLine(key)) == Some((key, ""))
  {
    hide KeyFromLine, ParseLine, IsIdent;
    PlainAssignment("", key, "") by { NothingIsSpace(); }
    assert "" + EmptyUrlLine(key) == EmptyUrlLine(key);
    assert UnquoteEnvValue("") == "";
    CommentedNoLF(key, "");
    NoLFConcat("# ", EmptyUrlLine(key));
  }

  lemma StaleFileIs(note: string, c: Credentials)
    requires NoLF(note) && note != "" && note[0] == '#' && c.convexUrl != ""
    ensures RawLines(StaleFile(note))
         == [note, EmptyUrlLine(NEXT_PUBLIC_CONVEX_URL), EmptyUrlLine(NEXT_PUBLIC_CONVEX_SITE_URL)]
    ensures NeedsWrite(Some(StaleFile(note)), c)
    ensures KeyFromLine(note) == None
    ensures KeyFromLine(EmptyUrlLine(NEXT_PUBLIC_CONVEX_URL)) == Some(NEXT_PUBLIC_CONVEX_URL)
    ensures KeyFromLine(EmptyUrlLine(NEXT_PUBLIC_CONVEX_SITE_URL)) == Some(NEXT_PUBLIC_CONVEX_SITE_URL)
  {
    hide KeyFromLine, ParseLine, ParseLines, RawLines, SplitLines, Join, EmptyUrlLine, IsIdent, NoLF;
    var u, v := EmptyUrlLine(NEXT_PUBLIC_CONVEX_URL), EmptyUrlLine(NEXT_PUBLIC_CONVEX_SITE_URL);
    ManagedIdents();
    EmptyUrl(NEXT_PUBLIC_CONVEX_URL);
    EmptyUrl(NEXT_PUBLIC_CONVEX_SITE_URL);
    CommentHasNoKey(note);
    RawOfJoin([note, u, v]);
    ReadBackParses([note, u, v]);
    assert [note, u, v] == [note, u] + [v] && [note, u] == [note] + [u];
    ParseSnoc([note, u], v);
    ParseSnoc([note], u);
    AssignAt(ParseLines([note, u]), v, NEXT_PUBLIC_CONVEX_URL);
    AssignAt(ParseLines([note]), u, NEXT_PUBLIC_CONVEX_URL);
    KeysDiffer();
    UrlIsNotProto();
  }

  lemma UrlIsNotProto()
    ensures NEXT_PUBLIC_CONVEX_URL != PROTO && NEXT_PUBLIC_CONVEX_SITE_URL != PROTO
  {
    assert NEXT_PUBLIC_CONVEX_URL[0] != PROTO[0] && NEXT_PUBLIC_CONVEX_SITE_URL[0] != PROTO[0];
  }

  lemma StaleFileIsTidyExactly(note: string, c: Credentials)
    requires NoLF(note) && note != "" && note[0] == '#' && c.convexUrl != ""
    ensures Tidy(StaleFile(note), c) <==> !EndsWithCR(note)
  {
    hide KeyFromLine, RawLines, StaleFile, GuardRules, Rules.Slot, WantedKeys, EmptyUrlLine, Rules.Count,
         EndsWithCR, Rules.CanonicalLine, ProperKeys, Rules.Valid, WantedValues, Inherited, NeedsWrite;
    var u, v := EmptyUrlLine(NEXT_PUBLIC_CONVEX_URL), EmptyUrlLine(NEXT_PUBLIC_CONVEX_SITE_URL);
    var r, raw := GuardRules(c), RawLines(StaleFile(note));
    StaleFileIs(note, c);
    UrlKeys();
    KeysDiffer();
    UrlSlot(c, u);
    UrlSlot(c, v);
    GuardSlot(c, note);
    assert raw == [] + [note] + [u] + [v];
    forall k ensures r.Count(raw, k) == if k in WantedKeys() then 1 else 0 {
      NothingCounts(r, k);
      CountSnoc(r, [], note, k);
      CountSnoc(r, [] + [note], u, k);
      CountSnoc(r, [] + [note] + [u], v, k);
    }
    assert LineIsKept(c, raw, 0) <==> !EndsWithCR(note);
    assert LineIsKept(c, raw, 1) && LineIsKept(c, raw, 2);
  }

  lemma UrlKeys()
    ensures forall k :: k in WantedKeys() <==> k == NEXT_PUBLIC_CONVEX_URL || k == NEXT_PUBLIC_CONVEX_SITE_URL
  {
  }

  /** The same drifted file with LF and with CRLF after its note: the one keeps the note, the other does not. */
  lemma WindowsCommentIsRewritten(c: Credentials)
    requires c.convexUrl != ""
    ensures NeedsWrite(Some(StaleFile("# note")), c) && NeedsWrite(Some(StaleFile("# note\r")), c)
    ensures ChangesOnlyUrls(StaleFile("# note"), AfterReassert(StaleFile("# note"), c))
    ensures !ChangesOnlyUrls(StaleFile("# note\r"), AfterReassert(StaleFile("# note\r"), c))
  {
    assert NoLF("# note") && NoLF("# note\r") && !EndsWithCR("# note") && EndsWithCR("# note\r");
    hide StaleFile, AfterReassert, NeedsWrite, Tidy, ChangesOnlyUrls, KeyFromLine, RawLines, EmptyUrlLine;
    StaleFileIs("# note", c);
    StaleFileIs("# note\r", c);
    StaleFileIsTidyExactly("# note", c);
    StaleFileIsTidyExactly("# note\r", c);
    ChangesOnlyUrlsExactly(StaleFile("# note"), c);
    ChangesOnlyUrlsExactly(StaleFile("# note\r"), c);
  }
}
