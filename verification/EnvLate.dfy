/** Which keys the rewrite assigns after the deployment line, read off the file it started from. */
module EnvLate {
  import opened JsText
  import opened EnvLine
  import opened EnvRules
  import opened EnvRewrite
  import opened EnvFile
  import opened EnvUpdate
  import opened EnvName

  /** The first line that a named rewrite makes the deployment line; `|lines|` for none. */
  function FirstDeployment(lines: seq<string>): (i: nat)
    ensures i <= |lines|
  {
    if lines == [] || IsDeploymentLine(lines[0]) then 0 else 1 + FirstDeployment(lines[1..])
  }

  lemma {:induction false} FirstDeploymentIs(lines: seq<string>)
    ensures var i := FirstDeployment(lines); i < |lines| ==> IsDeploymentLine(lines[i])
    ensures forall j :: 0 <= j < FirstDeployment(lines) ==> !IsDeploymentLine(lines[j])
  {
    hide IsDeploymentLine;
    if lines != [] && !IsDeploymentLine(lines[0]) {
      FirstDeploymentIs(lines[1..]);
      assert forall j :: 0 < j < |lines| ==> lines[j] == lines[1..][j - 1];
    }
  }

  /**
   * With a deployment line in the file: a managed key, unless it is assigned before that line, and any other
   * key assigned after it. Without one: a self-hosted key that the file does not assign.
   */
  predicate AssignedAfterName(lines: seq<string>, o: EnvOptions, key: string) {
    var i := FirstDeployment(lines);
    if i == |lines| then key in AuthKeys() && key !in ParseLines(lines)
    else if key in ManagedValues(o) then key !in ParseLines(lines[..i])
    else !Inherited(key) && key != CONVEX_DEPLOYMENT && key in ParseLines(lines[i + 1..])
  }

  /** The name's later lines have the last word on this key. */
  predicate NameDecides(content: string, o: EnvOptions, key: string)
    ensures NameDecides(content, o, key) ==> key in NameEnv(o)
  {
    key in NameEnv(o) && !AssignedAfterName(InputLines(content), o, key)
  }

  // ---- the rest of a rewrite --------------------------------------------------------------

  lemma {:induction false} SlotsAppend(r: Rules, a: seq<string>, b: seq<string>)
    ensures r.Slots(a + b) == r.Slots(a) + r.Slots(b)
  {
    hide *;
    if b == [] {
      NothingToRewrite(r);
      assert a + b == a && r.Slots(a) + {} == r.Slots(a);
    } else {
      var init, last := b[..|b| - 1], b[|b| - 1];
      SlotsAppend(r, a, init);
      SlotsSnoc(r, a + init, last);
      SlotsSnoc(r, init, last);
      assert a + b == (a + init) + [last] && b == init + [last];
      SetsRegroup(r.Slots(a), r.Slots(init), r.SlotSet(last));
    }
  }

  lemma SetsRegroup(a: set<string>, b: set<string>, c: set<string>)
    ensures (a + b) + c == a + (b + c)
  {
  }

  /** What the rewrite of `a + b` writes for `b`. */
  function Tail(r: Rules, a: seq<string>, b: seq<string>): (t: seq<string>)
    ensures r.Body(a + b) == r.Body(a) + t
  {
    if b == [] then assert a + b == a; []
    else
      var init, last := b[..|b| - 1], b[|b| - 1];
      assert (a + b)[..|a + b| - 1] == a + init;
      Tail(r, a, init) + r.Piece(last, r.Slots(a + init))
  }

  lemma TailSnoc(r: Rules, a: seq<string>, init: seq<string>, last: string)
    ensures Tail(r, a, init + [last]) == Tail(r, a, init) + r.Piece(last, r.Slots(a + init))
    ensures r.Slots(a + (init + [last])) == r.Slots(a) + r.Slots(init) + r.SlotSet(last)
  {
    assert (init + [last])[..|init|] == init;
    SlotsAppend(r, a, init + [last]);
    SlotsSnoc(r, init, last);
  }

  /** Of an unclaimed key, the tail says what its lines say. */
  lemma {:induction false} TailParse(r: Rules, a: seq<string>, b: seq<string>, key: string)
    requires r.Valid() && !r.Claims(key)
    ensures Lookup(ParseLines(Tail(r, a, b)), key) == Lookup(ParseLines(b), key)
  {
    hide Rules.Slot, Rules.CanonicalLine, Rules.Valid, ParseLine, Assign, ParseLines, Tail, Rules.Slots, IsIdent;
    if b == [] {
      TailOfNothing(r, a);
    } else {
      var init, last := b[..|b| - 1], b[|b| - 1];
      assert b == init + [last];
      TailParse(r, a, init, key);
      TailSnoc(r, a, init, last);
      PieceSays(r, Tail(r, a, init), init, last, r.Slots(a + init), key);
    }
  }

  lemma TailOfNothing(r: Rules, a: seq<string>)
    ensures Tail(r, a, []) == []
  {
  }

  lemma PieceSays(r: Rules, written: seq<string>, read: seq<string>, last: string, seen: set<string>, key: string)
    requires r.Valid() && !r.Claims(key) && Lookup(ParseLines(written), key) == Lookup(ParseLines(read), key)
    ensures Lookup(ParseLines(written + r.Piece(last, seen)), key) == Lookup(ParseLines(read + [last]), key)
  {
    hide Rules.Slot, Rules.CanonicalLine, Rules.Valid, ParseLine, Assign, ParseLines, IsIdent;
    ParseSnoc(read, last);
    AssignAt(ParseLines(read), last, key);
    r.SlotIsKey(last);
    match r.Slot(last) {
      case None =>
        ParseSnoc(written, last);
        AssignAt(ParseLines(written), last, key);
      case Some(k) =>
        r.SlotIsIdent(last);
        EffectOf(r, k);
        ParseSnoc(written, r.CanonicalLine(k));
        AssignAt(ParseLines(written), r.CanonicalLine(k), key);
        assert written + [] == written;
    }
  }

  /** A managed key is written in the tail exactly when its slot is found there first. */
  lemma {:induction false} TailManages(r: Rules, a: seq<string>, b: seq<string>, key: string)
    requires r.Valid() && key in r.values && IsIdent(key)
    ensures key in ParseLines(Tail(r, a, b)) <==> key in r.Slots(b) && key !in r.Slots(a)
  {
    hide Rules.Slot, Rules.CanonicalLine, Rules.Valid, ParseLine, Assign, ParseLines, Tail, Rules.Slots, IsIdent;
    if b == [] {
      TailOfNothing(r, a);
      NothingToRewrite(r);
      NothingParsed();
    } else {
      var init, last := b[..|b| - 1], b[|b| - 1];
      assert b == init + [last];
      TailManages(r, a, init, key);
      TailSnoc(r, a, init, last);
      SlotsAppend(r, a, init);
      SlotsSnoc(r, init, last);
      PieceManages(r, Tail(r, a, init), last, r.Slots(a + init), key);
    }
  }

  lemma NothingParsed()
    ensures ParseLines([]) == map[]
  {
  }

  lemma PieceManages(r: Rules, written: seq<string>, last: string, seen: set<string>, key: string)
    requires r.Valid() && key in r.values && IsIdent(key)
    ensures key in ParseLines(written + r.Piece(last, seen)) <==>
      key in ParseLines(written) || (r.Slot(last) == Some(key) && key !in seen)
  {
    hide Rules.Slot, Rules.CanonicalLine, Rules.Valid, ParseLine, Assign, ParseLines, IsIdent;
    r.SlotIsKey(last);
    match r.Slot(last) {
      case None =>
        ParseSnoc(written, last);
        AssignAt(ParseLines(written), last, key);
      case Some(k) =>
        r.SlotIsIdent(last);
        EffectOf(r, k);
        EffectOf(r, key);
        ParseSnoc(written, r.CanonicalLine(k));
        AssignAt(ParseLines(written), r.CanonicalLine(k), key);
        AssignAt(map[], r.CanonicalLine(k), key);
        assert written + [] == written;
    }
  }

  // ---- where the deployment line stands ---------------------------------------------------

  lemma {:induction false} NoDeploymentNoSlot(o: EnvOptions, lines: seq<string>)
    requires Named(o) && forall i :: 0 <= i < |lines| ==> !IsDeploymentLine(lines[i])
    ensures CONVEX_DEPLOYMENT !in UpdateRules(o).Slots(lines)
  {
    hide UpdateRules, IsDeploymentLine, BuildDeploymentLine, Rules.Slot;
    if lines != [] {
      NoDeploymentNoSlot(o, lines[..|lines| - 1]);
      IsTheDeployment(o, lines[|lines| - 1]);
    }
  }

  /** When `line` is the first deployment line of all that is rewritten, what follows it is its tail. */
  lemma TailAfterDeployment(o: EnvOptions, lines: seq<string>, a: seq<string>, line: string, b: seq<string>)
    requires Named(o) && LinesNoLF(lines) && lines + Appended(o, lines) == a + [line] + b
    requires IsDeploymentLine(line) && CONVEX_DEPLOYMENT !in UpdateRules(o).Slots(a)
    ensures AfterDeployment(Rewrite(o, lines)) == Tail(UpdateRules(o), a + [line], b)
  {
    hide UpdateRules, IsDeploymentLine, BuildDeploymentLine, Rules.Slot, Rules.Slots, Rules.Body, Rewrite, Appended,
         AfterDeployment, Tail, NoLF, Rules.CanonicalLine, RequiredSlots;
    var r, out := UpdateRules(o), Rewrite(o, lines);
    RewriteIsBody(o, lines);
    IsTheDeployment(o, line);
    SlotsSnoc(r, a, line);
    var tail := Tail(r, a + [line], b);
    assert out == r.Body(a) + [BuildDeploymentLine(o).value] + tail;
    DeploymentLineIsInert(o);
    var j := |r.Body(a)|;
    assert out[j] == BuildDeploymentLine(o).value;
    var i := DeploymentEntry(o, lines);
    assert i == j;
    assert tail == out[j + 1..];
  }

  lemma {:induction false} ManagedSlotIsKey(o: EnvOptions, lines: seq<string>, key: string)
    requires key in ManagedValues(o)
    ensures key in UpdateRules(o).Slots(lines) <==> key in ParseLines(lines)
  {
    hide UpdateRules, ManagedValues, Rules.Slot, ParseLine, Assign, KeyFromLine, IsIdent, Rules.Valid, Inherited;
    if lines == [] {
      NothingToRewrite(UpdateRules(o));
      NothingParsed();
    } else {
      var init, last := lines[..|lines| - 1], lines[|lines| - 1];
      ManagedSlotIsKey(o, init, key);
      ManagedSlotOfLine(o, last, key);
      AssignAt(ParseLines(init), last, key);
    }
  }

  lemma ManagedSlotOfLine(o: EnvOptions, line: string, key: string)
    requires key in ManagedValues(o)
    ensures key != PROTO
    ensures UpdateRules(o).Slot(line) == Some(key) <==> ParseLine(line).Some? && ParseLine(line).value.0 == key
  {
    hide ManagedValues, ParseLine, KeyFromLine, IsIdent, Inherited, BuildDeploymentLine;
    UpdateRulesValid(o);
    ParseLineIffKey(line);
    if IsDeploymentLine(line) && KeyFromLine(line) != Some(CONVEX_DEPLOYMENT) { CommentHasNoKey(line); }
    assert Inherited(PROTO) by { ProtoIsInherited(); }
  }

  lemma ProtoIsInherited()
    ensures Inherited(PROTO)
  {
  }

  /** Nothing but managed keys is assigned by what the rewrite appends. */
  lemma AppendedAssignsNoOther(o: EnvOptions, lines: seq<string>, key: string)
    requires !UpdateRules(o).Claims(key)
    ensures key !in ParseLines(Appended(o, lines))
  {
    hide UpdateRules, Rules.Slot, Rules.Slots, Rules.Unslotted, Appended, ParseLine, Rules.Valid, PublicHeader,
         AuthHeader, Rules.Claims;
    var r, appended := UpdateRules(o), Appended(o, lines);
    UpdateRulesValid(o);
    ParseOfUnowned(r, appended, key);
    CommentsAre(o, lines);
    HeadersHaveNoSlot(r);
    BlankHasNoSlot(r);
    InertLinesParseToNothing([], Comments(o, lines));
    assert [] + Comments(o, lines) == Comments(o, lines);
    NothingParsed();
  }

  /** A claimed key that is not managed is assigned nowhere in the written entries. */
  lemma UnmanagedIsGone(o: EnvOptions, lines: seq<string>, key: string)
    requires UpdateRules(o).Claims(key) && key !in ManagedValues(o)
    ensures key !in ParseLines(Rewrite(o, lines))
  {
    hide UpdateRules, Rules.Slot, Rules.Slots, Rules.Body, Rewrite, Appended, ManagedValues, ParseLine, ParseLines,
         IsIdent, Rules.Valid, Rules.Claims, RequiredSlots;
    var r, all := UpdateRules(o), lines + Appended(o, lines);
    UpdateRulesValid(o);
    RewriteIsBody(o, lines);
    RewriteEffect(r, all, key);
    RulesAre(o);
    if key in r.Slots(all) {
      SlotsAreIdents(r, all, key);
      EffectOf(r, key);
    } else {
      NoSlotNoKey(r, all, key);
    }
  }

  lemma RulesAre(o: EnvOptions)
    ensures UpdateRules(o).values == ManagedValues(o) && !UpdateRules(o).quoteInherited
    ensures UpdateRules(o).deployment.Some? <==> Named(o)
    ensures forall k :: UpdateRules(o).Claims(k) <==>
      k in ManagedValues(o) || Inherited(k) || (k == CONVEX_DEPLOYMENT && Named(o))
  {
    hide ManagedValues, Inherited;
  }

  lemma ManagedIsIdent(o: EnvOptions, key: string)
    requires key in ManagedValues(o)
    ensures IsIdent(key) && key != CONVEX_DEPLOYMENT && key in RequiredSlots(o) && !Inherited(key)
    ensures key in PublicKeys(o) || key in AuthKeys()
    ensures key in AuthKeys() ==> key !in PublicKeys(o)
  {
    hide IsIdent, Inherited, ManagedValues, IsDeploymentLine, ParseLine;
    UpdateRulesValid(o);
    RequiredKeysDisjoint(o);
    ManagedAre(o, key);
  }

  lemma ManagedAre(o: EnvOptions, key: string)
    requires key in ManagedValues(o)
    ensures key in PublicKeys(o) || key in AuthKeys()
  {
    assert PublicKeys(o)[0] == NEXT_PUBLIC_CONVEX_URL && PublicKeys(o)[1] == NEXT_PUBLIC_CONVEX_SITE_URL;
    assert AuthKeys()[0] == SELF_HOSTED_URL && AuthKeys()[1] == SELF_HOSTED_ADMIN_KEY;
  }

  // ---- the two cases ----------------------------------------------------------------------

  /** The keys of a tail, whatever stands before it. */
  lemma TailKeys(o: EnvOptions, lines: seq<string>, a: seq<string>, line: string, b: seq<string>, key: string)
    requires Named(o) && LinesNoLF(lines) && lines + Appended(o, lines) == a + [line] + b
    requires IsDeploymentLine(line) && CONVEX_DEPLOYMENT !in UpdateRules(o).Slots(a)
    ensures key in ParseLines(AfterDeployment(Rewrite(o, lines))) <==>
      if key in ManagedValues(o) then key !in UpdateRules(o).Slots(a)
      else !UpdateRules(o).Claims(key) && key in ParseLines(b)
  {
    hide UpdateRules, IsDeploymentLine, BuildDeploymentLine, Rules.Slot, Rules.Slots, Rewrite, Appended,
         ManagedValues, AfterDeployment, Tail, NoLF, RequiredSlots, ParseLines, IsIdent, Rules.Valid, Rules.Claims,
         Inherited, PublicKeys, AuthKeys;
    var r := UpdateRules(o);
    UpdateRulesValid(o);
    RulesAre(o);
    RewriteIsBody(o, lines);
    TailAfterDeployment(o, lines, a, line, b);
    if key in ManagedValues(o) {
      ManagedIsIdent(o, key);
      TailManages(r, a + [line], b, key);
      SlotsAppend(r, a + [line], b);
      SlotsSnoc(r, a, line);
      IsTheDeployment(o, line);
    } else if r.Claims(key) {
      UnmanagedIsGone(o, lines, key);
      var i := DeploymentEntry(o, lines);
      var out := Rewrite(o, lines);
      ParseAppend(out[..i + 1], out[i + 1..], key);
      assert out == out[..i + 1] + out[i + 1..];
    } else {
      TailParse(r, a + [line], b, key);
    }
  }

  lemma LateWithDeployment(o: EnvOptions, lines: seq<string>, key: string)
    requires Named(o) && LinesNoLF(lines) && FirstDeployment(lines) < |lines|
    ensures key in ParseLines(AfterDeployment(Rewrite(o, lines))) <==> AssignedAfterName(lines, o, key)
  {
    hide UpdateRules, IsDeploymentLine, Rules.Slot, Rules.Slots, Rewrite, Appended, ManagedValues, FirstDeployment,
         AfterDeployment, NoLF, RequiredSlots, ParseLines, Rules.Claims, Inherited, AuthKeys, ParseLine, IsIdent,
         Rules.Body, BuildDeploymentLine, UpdatedText;
    FirstDeploymentIs(lines);
    var i := FirstDeployment(lines);
    var a, line, rest := lines[..i], lines[i], lines[i + 1..];
    var b := rest + Appended(o, lines);
    assert lines == a + [line] + rest;
    assert lines + Appended(o, lines) == a + [line] + b;
    NoDeploymentNoSlot(o, a);
    TailKeys(o, lines, a, line, b, key);
    RulesAre(o);
    if key in ManagedValues(o) {
      ManagedSlotIsKey(o, a, key);
    } else if !UpdateRules(o).Claims(key) {
      ParseAppend(rest, Appended(o, lines), key);
      AppendedAssignsNoOther(o, lines, key);
    }
  }

  /** The lines appended to a file without a deployment line, cut at the one they bring. */
  lemma AppendedDeployment(o: EnvOptions, lines: seq<string>) returns (s: seq<string>, t: seq<string>)
    requires Named(o) && CONVEX_DEPLOYMENT !in UpdateRules(o).Slots(lines)
    ensures Appended(o, lines) == s + [BuildDeploymentLine(o).value] + t
    ensures CONVEX_DEPLOYMENT !in UpdateRules(o).Slots(lines + s)
    ensures forall k :: k != CONVEX_DEPLOYMENT ==>
      (k in UpdateRules(o).Slots(lines + s) <==> k in UpdateRules(o).Slots(lines) || k in PublicKeys(o))
  {
    hide UpdateRules, Rules.Slot, Rules.Slots, Rules.Body, Rules.KeyLines, PublicHeader, AuthHeader,
         BuildDeploymentLine, ProperKeys, AuthKeys, RequiredSlots, Rules.CanonicalLine, ManagedValues, Inherited,
         IsDeploymentLine, ParseLine;
    var r := UpdateRules(o);
    var body, newPublic, seen := r.Body(lines), NewPublic(o, lines), r.Slots(lines);
    var keys := [NEXT_PUBLIC_CONVEX_URL, NEXT_PUBLIC_CONVEX_SITE_URL];
    assert PublicKeys(o) == keys + [CONVEX_DEPLOYMENT];
    assert keys == [NEXT_PUBLIC_CONVEX_URL, NEXT_PUBLIC_CONVEX_SITE_URL];
    KeyLinesOfThree(r, NEXT_PUBLIC_CONVEX_URL, NEXT_PUBLIC_CONVEX_SITE_URL, CONVEX_DEPLOYMENT, seen);
    DeploymentCanonical(o);
    var front := if body != [] then ["", PublicHeader()] else [PublicHeader()];
    var urls := r.KeyLines(keys, seen);
    s := front + urls;
    t := Section(body != [] || newPublic != [], AuthHeader(), NewAuth(o, lines));
    assert newPublic == urls + [BuildDeploymentLine(o).value];
    assert Section(body != [], PublicHeader(), newPublic) == s + [BuildDeploymentLine(o).value];
    HeadersHaveNoSlot(r);
    BlankHasNoSlot(r);
    RequiredAreProper(o);
    UrlsAreProper(r, keys, CONVEX_DEPLOYMENT);
    KeysDiffer();
    AppendHeader(r, lines, body != [], PublicHeader());
    AppendKeyLines(r, lines + front, keys, seen);
    InKeySet(keys);
    assert lines + s == (lines + front) + urls;
  }

  lemma UrlsAreProper(r: Rules, keys: seq<string>, key: string)
    requires ProperKeys(r, keys + [key])
    ensures ProperKeys(r, keys)
  {
    hide Rules.Slot, Rules.CanonicalLine;
    var all := keys + [key];
    assert forall i :: 0 <= i < |keys| ==> all[i] == keys[i];
  }

  lemma LateWithoutDeployment(o: EnvOptions, lines: seq<string>, key: string)
    requires Named(o) && LinesNoLF(lines) && FirstDeployment(lines) == |lines|
    ensures key in ParseLines(AfterDeployment(Rewrite(o, lines))) <==> AssignedAfterName(lines, o, key)
  {
    hide UpdateRules, IsDeploymentLine, Rules.Slot, Rules.Slots, Rewrite, Appended, ManagedValues, FirstDeployment,
         AfterDeployment, NoLF, RequiredSlots, ParseLines, Rules.Claims, Inherited, AuthKeys, PublicKeys,
         BuildDeploymentLine, ParseLine, IsIdent;
    FirstDeploymentIs(lines);
    NoDeploymentNoSlot(o, lines);
    var s, t := AppendedDeployment(o, lines);
    var line := BuildDeploymentLine(o).value;
    DeploymentLineIsInert(o);
    assert lines + Appended(o, lines) == (lines + s) + [line] + t;
    TailKeys(o, lines, lines + s, line, t, key);
    RulesAre(o);
    if key in ManagedValues(o) {
      ManagedIsIdent(o, key);
      ManagedSlotIsKey(o, lines, key);
    } else {
      AuthIsManaged(o, key);
      if !UpdateRules(o).Claims(key) {
        AppendedAssignsNoOther(o, lines, key);
        ParseAppend(s + [line], t, key);
      }
    }
  }

  lemma AuthIsManaged(o: EnvOptions, key: string)
    ensures key in AuthKeys() ==> key in ManagedValues(o)
  {
  }

  /** The keys written after the deployment line are those the input says. */
  lemma LateExactly(content: string, o: EnvOptions, key: string)
    requires Named(o)
    ensures key in LateEnv(content, o) <==> AssignedAfterName(InputLines(content), o, key)
  {
    hide Rewrite, InputLines, AfterDeployment, ParseLines, AssignedAfterName, NoLF, FirstDeployment;
    InputParses(content);
    if FirstDeployment(InputLines(content)) < |InputLines(content)| {
      LateWithDeployment(o, InputLines(content), key);
    } else {
      LateWithoutDeployment(o, InputLines(content), key);
    }
  }

  /** The written file, key by key, with the condition read off the input. */
  lemma ParseOfUpdatedExactly(content: string, o: EnvOptions, key: string)
    ensures Lookup(ParseEnv(UpdatedText(content, o)), key) ==
      if NameDecides(content, o, key) then Some(NameEnv(o)[key])
      else Lookup(ParseLines(Rewrite(o, InputLines(content))), key)
  {
    hide UpdatedText, Rewrite, InputLines, ParseEnv, LateEnv, NameEnv, AssignedAfterName;
    ParseOfUpdated(content, o, key);
    if Named(o) { LateExactly(content, o, key); } else { NoName(o); }
  }
}
