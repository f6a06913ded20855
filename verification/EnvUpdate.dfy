/** What `updateEnvContent` promises about the file it writes. */
module EnvUpdate {
  import opened JsText
  import opened EnvLine
  import opened EnvRules
  import opened EnvRewrite
  import opened EnvFile

  // ---- the appended sections --------------------------------------------------------------

  lemma WordHasNoKey(word: string, rest: string)
    requires IsIdent(word) && word[0] != 'e' && rest != "" && !IdentChar(rest[0])
    requires SkipSpaces(rest) != "" && SkipSpaces(rest)[0] != '='
    ensures KeyFromLine(" " + (word + rest)) == None
  {
    var s := word + rest;
    assert s[0] == word[0];
    SkipIndent(" ", s);
    assert s[|word|] == rest[0];
    assert IdentRun(s) == |word|;
    assert s[|word|..] == rest;
  }

  lemma HeaderHasNoSlot(r: Rules, word: string, rest: string)
    requires IsIdent(word) && word[0] != 'e' && rest != "" && !IdentChar(rest[0])
    requires SkipSpaces(rest) != "" && SkipSpaces(rest)[0] != '='
    ensures var line := "# " + (word + rest); r.Slot(line) == None && ParseLine(line) == None && line != ""
  {
    hide KeyFromLine, IsIdent, SkipSpaces, ParseLine;
    var line := "# " + (word + rest);
    assert line[0] == '#' && line[1..] == " " + (word + rest);
    PrintedComment(line);
    WordHasNoKey(word, rest);
  }

  lemma TitlesAreClean()
    ensures NoLF(PublicTitle()) && PublicTitle() != "" && !EndsWithCR(PublicTitle())
    ensures NoLF(AuthTitle()) && AuthTitle() != "" && !EndsWithCR(AuthTitle())
  {
    assert NoLF(" (Synapse self-hosted \U{2014}") && NoLF(" drop-in compatible") && NoLF(" with Cloud tutorials)");
    assert NoLF("-hosted auth") && NoLF(" (Synapse cannot use") && NoLF(" Cloud account session)");
    NoLFConcat(" drop-in compatible", " with Cloud tutorials)");
    NoLFConcat(" (Synapse self-hosted \U{2014}", " drop-in compatible" + " with Cloud tutorials)");
    NoLFConcat(" (Synapse cannot use", " Cloud account session)");
    NoLFConcat("-hosted auth", " (Synapse cannot use" + " Cloud account session)");
  }

  lemma TitlesBreakTheWord()
    ensures PublicTitle() != "" && !IdentChar(PublicTitle()[0])
    ensures SkipSpaces(PublicTitle()) != "" && SkipSpaces(PublicTitle())[0] != '='
    ensures AuthTitle() != "" && !IdentChar(AuthTitle()[0])
    ensures SkipSpaces(AuthTitle()) != "" && SkipSpaces(AuthTitle())[0] != '='
  {
    hide SkipSpaces, PublicTitle, AuthTitle;
    TitleStarts();
    FirstInk(PublicTitle(), 1);
    FirstInk(AuthTitle(), 0);
  }

  lemma TitleStarts()
    ensures |PublicTitle()| > 1 && PublicTitle()[0] == ' ' && PublicTitle()[1] == '('
    ensures |AuthTitle()| > 0 && AuthTitle()[0] == '-'
  {
  }

  lemma FirstInk(s: string, n: nat)
    requires n < |s| && !IsSpace(s[n]) && forall i :: 0 <= i < n ==> IsSpace(s[i])
    ensures SkipSpaces(s) != "" && SkipSpaces(s)[0] == s[n]
  {
    assert SpaceRun(s) == n;
  }

  lemma HeadersHaveNoSlot(r: Rules)
    ensures r.Slot(PublicHeader()) == None && r.Slot(AuthHeader()) == None
    ensures ParseLine(PublicHeader()) == None && ParseLine(AuthHeader()) == None
    ensures PublicHeader() != "" && AuthHeader() != ""
  {
    hide KeyFromLine, ParseLine, PublicTitle, AuthTitle, Rules.Slot, SkipSpaces, IsIdent;
    TitlesBreakTheWord();
    TitleWordsAreIdents();
    HeaderHasNoSlot(r, "Convex", PublicTitle());
    HeaderHasNoSlot(r, "Self", AuthTitle());
  }

  lemma TitleWordsAreIdents()
    ensures IsIdent("Convex") && IsIdent("Self") && NoLF("Convex") && NoLF("Self") && NoLF("# ")
  {
  }

  lemma BlankHasNoSlot(r: Rules)
    ensures r.Slot("") == None && ParseLine("") == None
  {
    CommentHasNoKey("");
    BlankParsesToNothing();
  }

  lemma BlankIsOneLine()
    ensures NoLF("")
  {
  }

  lemma HeadersAreClean()
    ensures NoLF(PublicHeader()) && !EndsWithCR(PublicHeader())
    ensures NoLF(AuthHeader()) && !EndsWithCR(AuthHeader())
  {
    hide PublicTitle, AuthTitle, NoLF, IsIdent;
    TitlesAreClean();
    TitleWordsAreIdents();
    NoLFConcat("Convex", PublicTitle());
    NoLFConcat("# ", "Convex" + PublicTitle());
    NoLFConcat("Self", AuthTitle());
    NoLFConcat("# ", "Self" + AuthTitle());
  }

  lemma {:induction false} NoKeyLinesMissing(r: Rules, keys: seq<string>, seen: set<string>)
    requires r.KeyLines(keys, seen) == []
    ensures KeySet(keys) <= seen
  {
    if keys != [] {
      NoKeyLinesMissing(r, keys[1..], seen);
      KeySetSplit(keys);
    }
  }

  lemma AppendHeader(r: Rules, lines: seq<string>, apart: bool, header: string)
    requires r.Slot(header) == None && r.Slot("") == None
    ensures var front := if apart then ["", header] else [header];
            && r.Body(lines + front) == r.Body(lines) + front
            && r.Slots(lines + front) == r.Slots(lines)
  {
    hide Rules.Slot, Rules.Body, Rules.Slots;
    AppendPlain(r, lines, "");
    AppendPlain(r, lines, header);
    AppendPlain(r, lines + [""], header);
    assert lines + ["", header] == (lines + [""]) + [header];
    assert r.Body(lines) + ["", header] == (r.Body(lines) + [""]) + [header];
  }

  /** A section is left alone by the rewrite it completes. */
  lemma AppendSection(r: Rules, lines: seq<string>, apart: bool, header: string, keys: seq<string>, seen: set<string>)
    requires r.Slot(header) == None && r.Slot("") == None && ProperKeys(r, keys)
    requires forall k :: k in keys ==> (k in seen <==> k in r.Slots(lines))
    ensures var s := Section(apart, header, r.KeyLines(keys, seen));
            && r.Body(lines + s) == r.Body(lines) + s
            && r.Slots(lines + s) == r.Slots(lines) + KeySet(keys)
  {
    hide Rules.Slot, Rules.Body, Rules.Slots, Rules.KeyLines, ProperKeys;
    var ls := r.KeyLines(keys, seen);
    if ls == [] {
      NoKeyLinesMissing(r, keys, seen);
      assert lines + [] == lines && r.Body(lines) + [] == r.Body(lines);
      assert forall k :: k in KeySet(keys) ==> k in r.Slots(lines);
    } else {
      var front := if apart then ["", header] else [header];
      AppendHeader(r, lines, apart, header);
      AppendKeyLines(r, lines + front, keys, seen);
      assert lines + (front + ls) == (lines + front) + ls;
      assert r.Body(lines) + (front + ls) == (r.Body(lines) + front) + ls;
    }
  }

  function Appended(o: EnvOptions, lines: seq<string>): seq<string> {
    var body, newPublic := UpdateRules(o).Body(lines), NewPublic(o, lines);
    Section(body != [], PublicHeader(), newPublic)
    + Section(body != [] || newPublic != [], AuthHeader(), NewAuth(o, lines))
  }

  lemma RequiredKeysDisjoint(o: EnvOptions)
    ensures forall k :: k in AuthKeys() ==> k !in PublicKeys(o)
    ensures forall k :: k in PublicKeys(o) || k in AuthKeys() ==> k in RequiredSlots(o)
  {
    KeysDiffer();
  }

  /** The whole rewrite is one pass of the rules over the input followed by the appended block. */
  lemma RewriteIsBody(o: EnvOptions, lines: seq<string>)
    ensures var r := UpdateRules(o); var all := lines + Appended(o, lines);
            && Rewrite(o, lines) == r.Body(lines) + Appended(o, lines)
            && r.Body(all) == Rewrite(o, lines)
            && r.Slots(all) == r.Slots(lines) + RequiredSlots(o)
  {
    hide UpdateRules, Rules.Slot, Rules.Body, Rules.Slots, Rules.KeyLines, ProperKeys, PublicKeys, AuthKeys,
         Section, PublicHeader, AuthHeader, KeySet, IsIdent, Rules.SelfSlotted, ParseLine;
    var r := UpdateRules(o);
    var body, newPublic := r.Body(lines), NewPublic(o, lines);
    var s1 := Section(body != [], PublicHeader(), newPublic);
    var s2 := Section(body != [] || newPublic != [], AuthHeader(), NewAuth(o, lines));
    HeadersHaveNoSlot(r);
    BlankHasNoSlot(r);
    RequiredAreProper(o);
    RequiredKeysDisjoint(o);
    AppendSection(r, lines, body != [], PublicHeader(), PublicKeys(o), r.Slots(lines));
    InKeySet(PublicKeys(o));
    AppendSection(r, lines + s1, body != [] || newPublic != [], AuthHeader(), AuthKeys(), r.Slots(lines));
    assert lines + (s1 + s2) == (lines + s1) + s2;
    assert body + (s1 + s2) == (body + s1) + s2;
  }

  lemma InKeySet(keys: seq<string>)
    ensures forall k :: k in KeySet(keys) <==> k in keys
  {
  }

  // ---- the comments it appends -------------------------------------------------------------

  lemma SectionUnslotted(r: Rules, apart: bool, header: string, keys: seq<string>, seen: set<string>)
    requires r.Slot(header) == None && r.Slot("") == None && ProperKeys(r, keys)
    ensures r.Unslotted(Section(apart, header, r.KeyLines(keys, seen)))
         == if r.KeyLines(keys, seen) == [] then [] else if apart then ["", header] else [header]
  {
    hide Rules.Slot, Rules.Unslotted, Rules.KeyLines, ProperKeys;
    var ls := r.KeyLines(keys, seen);
    KeyLinesAreOwned(r, keys, seen);
    var front := if apart then ["", header] else [header];
    if ls != [] {
      UnslottedAppend(r, front, ls);
      UnslottedOne(r, header);
      UnslottedOne(r, "");
      UnslottedAppend(r, [""], [header]);
      assert [""] + [header] == ["", header];
    }
  }

  /** The blank lines and headers the rewrite appends. */
  function Comments(o: EnvOptions, lines: seq<string>): seq<string> {
    UpdateRules(o).Unslotted(Appended(o, lines))
  }

  lemma CommentsAre(o: EnvOptions, lines: seq<string>)
    ensures forall i :: 0 <= i < |Comments(o, lines)| ==>
              Comments(o, lines)[i] in {"", PublicHeader(), AuthHeader()}
  {
    hide UpdateRules, Rules.Slot, Rules.Unslotted, Rules.Body, Rules.Slots, Rules.KeyLines, ProperKeys, PublicKeys,
         AuthKeys, Section, PublicHeader, AuthHeader, RequiredSlots;
    var r := UpdateRules(o);
    var body, newPublic := r.Body(lines), NewPublic(o, lines);
    HeadersHaveNoSlot(r);
    BlankHasNoSlot(r);
    RequiredAreProper(o);
    SectionUnslotted(r, body != [], PublicHeader(), PublicKeys(o), r.Slots(lines));
    SectionUnslotted(r, body != [] || newPublic != [], AuthHeader(), AuthKeys(), r.Slots(lines));
    UnslottedAppend(r, Section(body != [], PublicHeader(), newPublic),
                    Section(body != [] || newPublic != [], AuthHeader(), NewAuth(o, lines)));
  }

  lemma {:induction false} InertLinesParseToNothing(front: seq<string>, inert: seq<string>)
    requires forall i :: 0 <= i < |inert| ==> ParseLine(inert[i]) == None
    ensures ParseLines(front + inert) == ParseLines(front)
  {
    hide ParseLine, ParseLines;
    if inert == [] {
      assert front + inert == front;
    } else {
      var init, last := inert[..|inert| - 1], inert[|inert| - 1];
      InertLinesParseToNothing(front, init);
      ParseSnoc(front + init, last);
      assert front + inert == (front + init) + [last];
    }
  }

  // ---- reading the file back --------------------------------------------------------------

  predicate CleanName(o: EnvOptions) {
    NoLF(o.deploymentName)
  }

  lemma {:induction false} DroppedBlanksParseToNothing(lines: seq<string>)
    ensures ParseLines(DropTrailingBlanks(lines)) == ParseLines(lines)
  {
    hide ParseLine;
    if lines != [] && lines[|lines| - 1] == "" {
      BlankParsesToNothing();
      DroppedBlanksParseToNothing(lines[..|lines| - 1]);
    }
  }

  lemma InputParses(content: string)
    ensures ParseLines(InputLines(content)) == ParseEnv(content)
    ensures LinesNoLF(InputLines(content))
  {
    hide ParseLine;
    DroppedBlanksParseToNothing(SplitLines(content));
    if content == "" {
      BlankParsesToNothing();
      ParseSnoc([], "");
      assert SplitLines("") == [] + [""];
    }
  }

  lemma SectionIsOneLineEach(apart: bool, header: string, r: Rules, keys: seq<string>, seen: set<string>)
    requires NoLF(header) && forall i :: 0 <= i < |keys| ==> NoLF(r.CanonicalLine(keys[i]))
    ensures LinesNoLF(Section(apart, header, r.KeyLines(keys, seen)))
  {
    hide Rules.CanonicalLine, Rules.KeyLines;
    KeyLinesNoLF(r, keys, seen);
  }

  lemma {:induction false} KeyLinesNoLF(r: Rules, keys: seq<string>, seen: set<string>)
    requires forall i :: 0 <= i < |keys| ==> NoLF(r.CanonicalLine(keys[i]))
    ensures LinesNoLF(r.KeyLines(keys, seen))
  {
    hide Rules.CanonicalLine, NoLF;
    if keys != [] { KeyLinesNoLF(r, keys[1..], seen); }
  }

  /** Every line pushed by the rewrite is one line of the written file. */
  lemma RewriteIsOneLineEach(o: EnvOptions, lines: seq<string>)
    requires CleanName(o) && LinesNoLF(lines)
    ensures LinesNoLF(Rewrite(o, lines)) && Rewrite(o, lines) != []
  {
    hide UpdateRules, Rules.Body, Rules.Slots, Rules.KeyLines, Rules.CanonicalLine, PublicHeader, AuthHeader,
         Section, NoLF, PublicKeys, AuthKeys, Rules.Valid;
    var r := UpdateRules(o);
    UpdateRulesValid(o);
    DeploymentOfRules(o);
    BodyIsOneLineEach(r, lines);
    HeadersAreClean();
    RequiredLinesAreClean(o);
    var body, newPublic := r.Body(lines), NewPublic(o, lines);
    SectionIsOneLineEach(body != [], PublicHeader(), r, PublicKeys(o), r.Slots(lines));
    SectionIsOneLineEach(body != [] || newPublic != [], AuthHeader(), r, AuthKeys(), r.Slots(lines));
    RewriteNotEmpty(o, lines);
  }

  lemma DeploymentOfRules(o: EnvOptions)
    ensures UpdateRules(o).deployment.Some? <==> Named(o)
    ensures CleanName(o) && Named(o) ==> NoLF(UpdateRules(o).deployment.value)
  {
    hide NoLF, IsDeploymentLine, ParseLine;
    if Named(o) { DeploymentLineIsInert(o); }
  }

  lemma RequiredLinesAreClean(o: EnvOptions)
    requires CleanName(o)
    ensures forall k :: k in PublicKeys(o) || k in AuthKeys() ==> NoLF(UpdateRules(o).CanonicalLine(k))
    ensures forall k :: k in PublicKeys(o) || k in AuthKeys() ==> UpdateRules(o).CanonicalLine(k) != ""
  {
    hide NoLF, IsDeploymentLine, ParseLine, IsIdent, Rules.CanonicalLine, Rules.Valid, ProperKeys, RequiredSlots;
    var r := UpdateRules(o);
    UpdateRulesValid(o);
    RequiredAreProper(o);
    RequiredKeysDisjoint(o);
    forall k | k in PublicKeys(o) || k in AuthKeys()
      ensures NoLF(r.CanonicalLine(k)) && r.CanonicalLine(k) != ""
    {
      r.CanonicalSlot(k);
      if k == CONVEX_DEPLOYMENT {
        DeploymentCanonical(o);
      }
    }
  }

  lemma DeploymentCanonical(o: EnvOptions)
    requires Named(o)
    ensures UpdateRules(o).CanonicalLine(CONVEX_DEPLOYMENT) == BuildDeploymentLine(o).value
    ensures CleanName(o) ==> NoLF(UpdateRules(o).CanonicalLine(CONVEX_DEPLOYMENT))
  {
    hide BuildDeploymentLine, NoLF, ParseLine, ManagedValues, Inherited, IsIdent, IsDeploymentLine;
    UpdateRulesValid(o);
    DeploymentOfRules(o);
  }

  lemma RewriteNotEmpty(o: EnvOptions, lines: seq<string>)
    ensures Rewrite(o, lines) != []
  {
    hide *;
    var r := UpdateRules(o);
    var all := lines + Appended(o, lines);
    RewriteIsBody(o, lines);
    BodyStartsAtOnce(r, all);
    SomethingRequired(o);
    if all == [] { NothingToRewrite(r); }
  }

  lemma SomethingRequired(o: EnvOptions)
    ensures RequiredSlots(o) != {}
  {
    assert SELF_HOSTED_URL in AuthKeys();
    assert SELF_HOSTED_URL in RequiredSlots(o);
  }

  lemma {:induction false} BodyStartsAtOnce(r: Rules, lines: seq<string>)
    ensures r.Body(lines) == [] ==> lines == []
  {
    hide Rules.Slot, Rules.CanonicalLine;
    if lines != [] {
      BodyStartsAtOnce(r, lines[..|lines| - 1]);
    }
  }

  /** The written file, split again, is what the rewritten entries spread to, less a CR each, and a final "". */
  lemma UpdatedLines(content: string, o: EnvOptions)
    ensures SplitLines(UpdatedText(content, o)) == ChopAll(Spread(Rewrite(o, InputLines(content)))) + [""]
    ensures Rewrite(o, InputLines(content)) != []
  {
    hide Rewrite, InputLines, SplitLines, Join, Spread;
    RewriteNotEmpty(o, InputLines(content));
    SplitEntries(Rewrite(o, InputLines(content)));
  }

  /** With a name of one line, every entry is one line. */
  lemma UpdatedLinesOfOneLineName(content: string, o: EnvOptions)
    requires CleanName(o)
    ensures SplitLines(UpdatedText(content, o)) == ChopAll(Rewrite(o, InputLines(content))) + [""]
    ensures LinesNoLF(Rewrite(o, InputLines(content))) && Rewrite(o, InputLines(content)) != []
  {
    hide Rewrite, InputLines, SplitLines, Join, Spread, UpdatedText;
    InputParses(content);
    UpdatedLines(content, o);
    RewriteIsOneLineEach(o, InputLines(content));
    SpreadOfLines(Rewrite(o, InputLines(content)));
  }
}
