/** What a rewrite by `EnvRules.Rules` keeps and changes, line by line and in the parsed environment. */
module EnvRewrite {
  import opened JsText
  import opened EnvLine
  import opened EnvRules

  // ---- parsing ----------------------------------------------------------------------------

  /** `out[key] = value`; assigning a string to an object's `__proto__` has no effect. */
  function Assign(env: map<string, string>, line: string): map<string, string> {
    match ParseLine(line)
    case None => env
    case Some((key, value)) => if key == PROTO then env else env[key := value]
  }

  function ParseLines(lines: seq<string>): map<string, string> {
    if lines == [] then map[] else Assign(ParseLines(lines[..|lines| - 1]), lines[|lines| - 1])
  }

  function ParseEnv(content: string): map<string, string> {
    ParseLines(SplitLines(content))
  }

  function Lookup(env: map<string, string>, key: string): Option<string> {
    if key in env then Some(env[key]) else None
  }

  method ParseEnvContent(content: string) returns (out: map<string, string>)
    ensures out == ParseEnv(content)
  {
    hide KeyFromLine, UnquoteEnvValue, BlankOrComment, IndexOf, SplitLines;
    out := map[];
    var lines := SplitLines(content);
    for i := 0 to |lines|
      invariant out == ParseLines(lines[..i])
    {
      var line := lines[i];
      assert lines[..i + 1][..i] == lines[..i];
      if BlankOrComment(line) {
        continue;
      }
      var key := KeyFromLine(line);
      if key.None? {
        continue;
      }
      var valueStart := IndexOf(line, '=');
      if valueStart == |line| {
        continue;
      }
      if key.value != PROTO {
        out := out[key.value := UnquoteEnvValue(line[valueStart + 1..])];
      }
    }
    assert lines[..|lines|] == lines;
  }

  lemma ParseSnoc(lines: seq<string>, line: string)
    ensures ParseLines(lines + [line]) == Assign(ParseLines(lines), line)
  {
    assert (lines + [line])[..|lines|] == lines;
  }

  lemma AssignAt(env: map<string, string>, line: string, key: string)
    ensures Lookup(Assign(env, line), key)
         == if ParseLine(line).Some? && ParseLine(line).value.0 == key && key != PROTO
            then Some(ParseLine(line).value.1) else Lookup(env, key)
  {
    hide ParseLine;
  }

  lemma {:induction false} ParseChopped(lines: seq<string>)
    ensures ParseLines(ChopAll(lines)) == ParseLines(lines)
  {
    hide ParseLine;
    if lines != [] {
      var init := lines[..|lines| - 1];
      assert ChopAll(lines)[..|lines| - 1] == ChopAll(init);
      ParseChopped(init);
      ChopKeepsKey(lines[|lines| - 1]);
    }
  }

  lemma BlankParsesToNothing()
    ensures ParseLine("") == None
  {
    assert BlankOrComment("");
  }

  // ---- slots ------------------------------------------------------------------------------

  lemma SlotsSnoc(r: Rules, lines: seq<string>, line: string)
    ensures r.Slots(lines + [line]) == r.Slots(lines) + r.SlotSet(line)
    ensures r.Body(lines + [line]) == r.Body(lines) + r.Piece(line, r.Slots(lines))
  {
    assert (lines + [line])[..|lines|] == lines;
  }

  lemma NothingToRewrite(r: Rules)
    ensures r.Slots([]) == {} && r.Body([]) == [] && r.Unslotted([]) == []
  {
  }

  lemma {:induction false} SlotsHave(r: Rules, lines: seq<string>, i: nat)
    requires i < |lines|
    ensures r.Slot(lines[i]).Some? ==> r.Slot(lines[i]).value in r.Slots(lines)
  {
    if i < |lines| - 1 {
      SlotsHave(r, lines[..|lines| - 1], i);
    }
  }

  lemma {:induction false} SlotsAreIdents(r: Rules, lines: seq<string>, key: string)
    requires key in r.Slots(lines)
    ensures IsIdent(key)
  {
    hide IsIdent;
    var last := lines[|lines| - 1];
    if r.Slot(last) == Some(key) {
      r.SlotIsIdent(last);
    } else {
      SlotsAreIdents(r, lines[..|lines| - 1], key);
    }
  }

  /** A claimed key without a slot is not assigned by any line. */
  lemma {:induction false} NoSlotNoKey(r: Rules, lines: seq<string>, key: string)
    requires r.Valid() && r.Claims(key) && key !in r.Slots(lines)
    ensures key !in ParseLines(lines)
  {
    hide ParseLine;
    if lines != [] {
      var init, last := lines[..|lines| - 1], lines[|lines| - 1];
      NoSlotNoKey(r, init, key);
      r.SlotIsKey(last);
      AssignAt(ParseLines(init), last, key);
    }
  }

  /** What the canonical line of `key` assigns to `key`. */
  function Effect(r: Rules, key: string): Option<string> {
    Lookup(Assign(map[], r.CanonicalLine(key)), key)
  }

  lemma EffectOf(r: Rules, key: string)
    requires r.Valid() && r.Claims(key) && IsIdent(key)
    ensures Effect(r, key) ==
            if key in r.values then Some(Escape(r.values[key]))
            else if Inherited(key) && key != PROTO && r.quoteInherited then Some(Escape(NativeText(key)))
            else None
    ensures ParseLine(r.CanonicalLine(key)).Some? ==> ParseLine(r.CanonicalLine(key)).value.0 == key
  {
    hide ParseLine, KeyFromLine, Escape, IsIdent;
    var line := r.CanonicalLine(key);
    AssignAt(map[], line, key);
    if key in r.values {
      PrintedAssignment(key, r.values[key]);
      assert Inherited(PROTO);
    } else if key == CONVEX_DEPLOYMENT {
    } else if r.quoteInherited {
      PrintedAssignment(key, NativeText(key));
    } else {
      NativeTextHasNoKey(key);
      ParseLineIffKey(line);
    }
  }

  /** The parsed environment after a rewrite: canonical at the slots, untouched elsewhere. */
  lemma {:induction false} RewriteEffect(r: Rules, lines: seq<string>, key: string)
    requires r.Valid()
    ensures Lookup(ParseLines(r.Body(lines)), key)
         == if key in r.Slots(lines) then Effect(r, key) else Lookup(ParseLines(lines), key)
  {
    hide *;
    if lines == [] {
      NothingToRewrite(r);
    } else {
      var init, last := lines[..|lines| - 1], lines[|lines| - 1];
      RewriteEffect(r, init, key);
      RewriteEffectStep(r, init, last, key);
      assert lines == init + [last];
    }
  }

  lemma RewriteEffectStep(r: Rules, init: seq<string>, last: string, key: string)
    requires r.Valid()
    requires Lookup(ParseLines(r.Body(init)), key)
          == if key in r.Slots(init) then Effect(r, key) else Lookup(ParseLines(init), key)
    ensures Lookup(ParseLines(r.Body(init + [last])), key)
         == if key in r.Slots(init + [last]) then Effect(r, key) else Lookup(ParseLines(init + [last]), key)
  {
    hide ParseLine, KeyFromLine, IsIdent, Assign;
    SlotsSnoc(r, init, last);
    ParseSnoc(init, last);
    AssignAt(ParseLines(init), last, key);
    r.SlotIsKey(last);
    match r.Slot(last) {
      case None =>
        ParseSnoc(r.Body(init), last);
        AssignAt(ParseLines(r.Body(init)), last, key);
      case Some(k) =>
        r.SlotIsIdent(last);
        EffectOf(r, k);
        if k in r.Slots(init) {
          assert r.Body(init + [last]) == r.Body(init);
        } else {
          ParseSnoc(r.Body(init), r.CanonicalLine(k));
          AssignAt(ParseLines(r.Body(init)), r.CanonicalLine(k), key);
          AssignAt(map[], r.CanonicalLine(k), key);
          NoSlotNoKey(r, init, k);
        }
    }
  }

  // ---- counting lines ---------------------------------------------------------------------

  lemma CountSnoc(r: Rules, lines: seq<string>, line: string, key: string)
    ensures r.Count(lines + [line], key) == r.Count(lines, key) + if r.Slot(line) == Some(key) then 1 else 0
    ensures r.Unslotted(lines + [line]) == r.Unslotted(lines) + if r.Slot(line).None? then [line] else []
  {
    assert (lines + [line])[..|lines|] == lines;
  }

  /** A rewrite leaves one line for each slot that keeps its own name, and drops all its duplicates. */
  lemma {:induction false} OneLinePerSlot(r: Rules, lines: seq<string>, key: string)
    requires r.Valid()
    ensures r.Count(r.Body(lines), key) == if key in r.Slots(lines) && r.SelfSlotted(key) then 1 else 0
  {
    hide KeyFromLine, IsDeploymentLine, IsIdent;
    if lines != [] {
      var init, last := lines[..|lines| - 1], lines[|lines| - 1];
      OneLinePerSlot(r, init, key);
      match r.Slot(last) {
        case None => CountSnoc(r, r.Body(init), last, key);
        case Some(k) =>
          r.SlotIsIdent(last);
          if k in r.Slots(init) {
            assert r.Body(lines) == r.Body(init);
          } else {
            r.CanonicalSlot(k);
            CountSnoc(r, r.Body(init), r.CanonicalLine(k), key);
          }
      }
    }
  }

  /** The slots whose canonical line is not an assignment to the same key. */
  function Orphans(r: Rules, lines: seq<string>): set<string> {
    set k | k in r.Slots(lines) && !r.SelfSlotted(k)
  }

  /** `a` is `b` with some of its lines left out. */
  predicate InOrderWithin(a: seq<string>, b: seq<string>) {
    a == []
    || (b != [] && (InOrderWithin(a, b[..|b| - 1])
                    || (a[|a| - 1] == b[|b| - 1] && InOrderWithin(a[..|a| - 1], b[..|b| - 1]))))
  }

  lemma WithinSnoc(a: seq<string>, b: seq<string>, x: string)
    requires InOrderWithin(a, b)
    ensures InOrderWithin(a, b + [x]) && InOrderWithin(a + [x], b + [x])
  {
    assert (b + [x])[..|b|] == b && (a + [x])[..|a|] == a;
  }

  /** Which lines those are: each of `a` at a later place of `b` than the one before. */
  lemma {:induction false} PlacesWithin(a: seq<string>, b: seq<string>) returns (at: seq<nat>)
    requires InOrderWithin(a, b)
    ensures |at| == |a| && forall k :: 0 <= k < |a| ==> at[k] < |b| && b[at[k]] == a[k]
    ensures forall j, k :: 0 <= j < k < |at| ==> at[j] < at[k]
  {
    if a == [] {
      return [];
    }
    var init := b[..|b| - 1];
    if InOrderWithin(a, init) {
      at := PlacesWithin(a, init);
    } else {
      at := PlacesWithin(a[..|a| - 1], init);
      at := at + [|b| - 1];
    }
  }

  /** Unowned lines survive in order; each inherited name adds one line of its own among them. */
  lemma {:induction false} UnownedLinesSurvive(r: Rules, lines: seq<string>)
    requires r.Valid()
    ensures InOrderWithin(r.Unslotted(lines), r.Unslotted(r.Body(lines)))
    ensures |r.Unslotted(r.Body(lines))| == |r.Unslotted(lines)| + |Orphans(r, lines)|
    ensures Orphans(r, lines) == {} ==> r.Unslotted(r.Body(lines)) == r.Unslotted(lines)
  {
    hide InOrderWithin;
    if lines == [] {
      UnslottedNothing(r);
      NothingToRewrite(r);
      WithinNothing();
    } else {
      var init, last := lines[..|lines| - 1], lines[|lines| - 1];
      UnownedLinesSurvive(r, init);
      UnownedStep(r, init, last);
      UnownedInOrder(r, init, last);
      assert lines == init + [last];
    }
  }

  lemma WithinNothing()
    ensures InOrderWithin([], [])
  {
  }

  lemma UnownedInOrder(r: Rules, init: seq<string>, last: string)
    requires InOrderWithin(r.Unslotted(init), r.Unslotted(r.Body(init)))
    ensures InOrderWithin(r.Unslotted(init + [last]), r.Unslotted(r.Body(init + [last])))
  {
    hide Rules.Slot, Rules.Unslotted, Rules.Body, Rules.Slots, Rules.CanonicalLine, InOrderWithin;
    var a, b := r.Unslotted(init), r.Unslotted(r.Body(init));
    SlotsSnoc(r, init, last);
    CountSnoc(r, init, last, "");
    match r.Slot(last) {
      case None =>
        CountSnoc(r, r.Body(init), last, "");
        WithinSnoc(a, b, last);
      case Some(k) =>
        var written := r.CanonicalLine(k);
        CountSnoc(r, r.Body(init), written, "");
        WithinSnoc(a, b, written);
        assert r.Body(init) + [] == r.Body(init) && a + [] == a && b + [] == b;
    }
  }

  lemma UnownedStep(r: Rules, init: seq<string>, last: string)
    requires r.Valid()
    requires |r.Unslotted(r.Body(init))| == |r.Unslotted(init)| + |Orphans(r, init)|
    requires Orphans(r, init) == {} ==> r.Unslotted(r.Body(init)) == r.Unslotted(init)
    ensures var lines := init + [last];
            && |r.Unslotted(r.Body(lines))| == |r.Unslotted(lines)| + |Orphans(r, lines)|
            && (Orphans(r, lines) == {} ==> r.Unslotted(r.Body(lines)) == r.Unslotted(lines))
  {
    SlotsSnoc(r, init, last);
    CountSnoc(r, init, last, "");
    OrphansSnoc(r, init, last);
    match r.Slot(last) {
      case None =>
        hide KeyFromLine, IsDeploymentLine, IsIdent, Orphans, Rules.Slot;
        CountSnoc(r, r.Body(init), last, "");
      case Some(k) =>
        hide KeyFromLine, IsDeploymentLine, IsIdent, Orphans, Rules.Slot, Rules.CanonicalLine;
        r.SlotIsIdent(last);
        if k in r.Slots(init) {
          assert r.Body(init + [last]) == r.Body(init);
        } else {
          r.CanonicalSlot(k);
          CountSnoc(r, r.Body(init), r.CanonicalLine(k), "");
        }
    }
  }

  lemma OrphansSnoc(r: Rules, init: seq<string>, last: string)
    ensures match r.Slot(last)
            case None => Orphans(r, init + [last]) == Orphans(r, init)
            case Some(k) =>
              && (k in r.Slots(init) || r.SelfSlotted(k) ==> Orphans(r, init + [last]) == Orphans(r, init))
              && (k !in r.Slots(init) && !r.SelfSlotted(k) ==>
                    Orphans(r, init + [last]) == Orphans(r, init) + {k} && k !in Orphans(r, init))
  {
    hide Rules.Slot, Rules.SelfSlotted, Rules.Body, Rules.Piece;
    SlotsSnoc(r, init, last);
  }

  // ---- appending --------------------------------------------------------------------------

  lemma AppendPlain(r: Rules, lines: seq<string>, line: string)
    requires r.Slot(line) == None
    ensures r.Body(lines + [line]) == r.Body(lines) + [line] && r.Slots(lines + [line]) == r.Slots(lines)
  {
    SlotsSnoc(r, lines, line);
  }

  function KeySet(keys: seq<string>): set<string> {
    set k | k in keys
  }

  predicate ProperKeys(r: Rules, keys: seq<string>) {
    && (forall i :: 0 <= i < |keys| ==> r.Slot(r.CanonicalLine(keys[i])) == Some(keys[i]))
    && (forall i, j :: 0 <= i < j < |keys| ==> keys[i] != keys[j])
  }

  /** Appending the canonical lines of missing keys commutes with the rewrite. */
  lemma {:induction false} AppendKeyLines(r: Rules, lines: seq<string>, keys: seq<string>, seen: set<string>)
    requires ProperKeys(r, keys)
    requires forall k :: k in keys ==> (k in seen <==> k in r.Slots(lines))
    ensures r.Body(lines + r.KeyLines(keys, seen)) == r.Body(lines) + r.KeyLines(keys, seen)
    ensures r.Slots(lines + r.KeyLines(keys, seen)) == r.Slots(lines) + KeySet(keys)
    decreases keys
  {
    hide *;
    if keys == [] {
      AppendNothing(r, lines, seen);
    } else {
      ProperTail(r, keys);
      KeySetSplit(keys);
      var k, rest := keys[0], r.KeyLines(keys[1..], seen);
      if k in seen {
        AppendKeyLines(r, lines, keys[1..], seen);
        assert r.Slots(lines) + KeySet(keys) == r.Slots(lines) + KeySet(keys[1..]);
      } else {
        var line := r.CanonicalLine(k);
        SlotsSnoc(r, lines, line);
        AppendKeyLines(r, lines + [line], keys[1..], seen);
        Shift(lines, line, rest);
        Shift(r.Body(lines), line, rest);
      }
    }
  }

  lemma AppendNothing(r: Rules, lines: seq<string>, seen: set<string>)
    ensures r.KeyLines([], seen) == [] && lines + [] == lines && r.Body(lines) + [] == r.Body(lines)
    ensures r.Slots(lines) + KeySet([]) == r.Slots(lines)
  {
    assert KeySet([]) == {};
  }

  lemma KeySetSplit(keys: seq<string>)
    requires keys != []
    ensures KeySet(keys) == {keys[0]} + KeySet(keys[1..])
    ensures forall x :: x in keys <==> x == keys[0] || x in keys[1..]
  {
    assert keys == [keys[0]] + keys[1..];
  }

  lemma Shift(a: seq<string>, x: string, b: seq<string>)
    ensures a + ([x] + b) == (a + [x]) + b
  {
  }

  lemma ProperTail(r: Rules, keys: seq<string>)
    requires ProperKeys(r, keys) && keys != []
    ensures ProperKeys(r, keys[1..]) && keys[0] !in keys[1..]
    ensures forall seen: set<string> ::
              r.KeyLines(keys, seen)
              == if keys[0] in seen then r.KeyLines(keys[1..], seen)
                 else [r.CanonicalLine(keys[0])] + r.KeyLines(keys[1..], seen)
    ensures forall seen: set<string> :: keys[0] !in seen ==>
              r.Piece(r.CanonicalLine(keys[0]), seen) == [r.CanonicalLine(keys[0])]
    ensures r.SlotSet(r.CanonicalLine(keys[0])) == {keys[0]}
  {
    hide KeyFromLine, IsDeploymentLine, Rules.CanonicalLine;
    assert forall seen :: [] + r.KeyLines(keys[1..], seen) == r.KeyLines(keys[1..], seen);
  }

  // ---- canonical lists --------------------------------------------------------------------

  /** Each line of a slot replaced by the slot's canonical line. */
  function Recanon(r: Rules, lines: seq<string>): (c: seq<string>)
    ensures |c| == |lines|
    ensures forall i :: 0 <= i < |c| ==>
              c[i] == if r.Slot(lines[i]).Some? then r.CanonicalLine(r.Slot(lines[i]).value) else lines[i]
  {
    seq(|lines|, i requires 0 <= i < |lines| =>
      if r.Slot(lines[i]).Some? then r.CanonicalLine(r.Slot(lines[i]).value) else lines[i])
  }

  lemma {:induction false} CountedSlots(r: Rules, lines: seq<string>, key: string)
    ensures key in r.Slots(lines) <==> r.Count(lines, key) > 0
  {
    hide Rules.Slot;
    if lines != [] { CountedSlots(r, lines[..|lines| - 1], key); }
  }

  lemma {:induction false} BodyIsCanonical(r: Rules, lines: seq<string>)
    requires r.Valid()
    ensures Recanon(r, r.Body(lines)) == r.Body(lines)
  {
    hide Rules.Slot, Rules.CanonicalLine, IsIdent, Rules.Valid;
    if lines != [] {
      var init, last := lines[..|lines| - 1], lines[|lines| - 1];
      BodyIsCanonical(r, init);
      PieceIsCanonical(r, last, r.Slots(init));
      var a, b := r.Body(init), r.Piece(last, r.Slots(init));
      assert Recanon(r, a + b) == Recanon(r, a) + Recanon(r, b);
    }
  }

  lemma PieceIsCanonical(r: Rules, line: string, seen: set<string>)
    requires r.Valid()
    ensures Recanon(r, r.Piece(line, seen)) == r.Piece(line, seen)
  {
    hide Rules.Slot, Rules.CanonicalLine, IsIdent, Rules.Valid;
    if r.Slot(line).Some? {
      r.SlotIsIdent(line);
      r.CanonicalSlot(r.Slot(line).value);
    }
  }

  // ---- the unowned lines ------------------------------------------------------------------

  lemma {:induction false} UnslottedAppend(r: Rules, a: seq<string>, b: seq<string>)
    ensures r.Unslotted(a + b) == r.Unslotted(a) + r.Unslotted(b)
  {
    hide Rules.Slot, Rules.Unslotted;
    if b == [] {
      UnslottedNothing(r);
      assert a + b == a;
    } else {
      var init, last := b[..|b| - 1], b[|b| - 1];
      UnslottedAppend(r, a, init);
      CountSnoc(r, a + init, last, "");
      CountSnoc(r, init, last, "");
      assert a + b == (a + init) + [last] && b == init + [last];
    }
  }

  lemma UnslottedNothing(r: Rules)
    ensures r.Unslotted([]) == []
  {
  }

  lemma UnslottedOne(r: Rules, line: string)
    ensures r.Unslotted([line]) == if r.Slot(line).None? then [line] else []
  {
    hide Rules.Slot;
    CountSnoc(r, [], line, "");
    assert [] + [line] == [line];
  }

  lemma {:induction false} KeyLinesAreOwned(r: Rules, keys: seq<string>, seen: set<string>)
    requires ProperKeys(r, keys)
    ensures r.Unslotted(r.KeyLines(keys, seen)) == []
  {
    hide Rules.Slot, Rules.Unslotted, Rules.CanonicalLine, ProperKeys, Rules.KeyLines;
    if keys == [] {
      UnslottedNothing(r);
      AppendNothing(r, [], seen);
    } else {
      ProperTail(r, keys);
      ProperHead(r, keys);
      KeyLinesAreOwned(r, keys[1..], seen);
      UnslottedOne(r, r.CanonicalLine(keys[0]));
      UnslottedAppend(r, [r.CanonicalLine(keys[0])], r.KeyLines(keys[1..], seen));
    }
  }

  lemma ProperHead(r: Rules, keys: seq<string>)
    requires ProperKeys(r, keys) && keys != []
    ensures r.Slot(r.CanonicalLine(keys[0])) == Some(keys[0])
  {
  }

  /** Keys outside the slots are assigned by the unowned lines alone. */
  lemma {:induction false} ParseOfUnowned(r: Rules, lines: seq<string>, key: string)
    requires r.Valid() && key !in r.Slots(lines)
    ensures Lookup(ParseLines(lines), key) == Lookup(ParseLines(r.Unslotted(lines)), key)
  {
    hide ParseLine, Rules.Slot, Rules.Valid, Assign;
    if lines != [] {
      var init, last := lines[..|lines| - 1], lines[|lines| - 1];
      assert lines == init + [last];
      SlotsSnoc(r, init, last);
      ParseOfUnowned(r, init, key);
      CountSnoc(r, init, last, "");
      AssignAt(ParseLines(init), last, key);
      r.SlotIsKey(last);
      if r.Slot(last).None? {
        ParseSnoc(r.Unslotted(init), last);
        AssignAt(ParseLines(r.Unslotted(init)), last, key);
      } else {
        assert r.Slot(last).value in r.Slots(lines);
        assert r.Unslotted(lines) == r.Unslotted(init);
      }
    }
  }

  lemma {:induction false} UnslottedChopped(r: Rules, lines: seq<string>)
    ensures r.Unslotted(ChopAll(lines)) == ChopAll(r.Unslotted(lines))
    ensures r.Slots(ChopAll(lines)) == r.Slots(lines)
    ensures forall k :: r.Count(ChopAll(lines), k) == r.Count(lines, k)
  {
    hide Rules.Slot;
    if lines != [] {
      var init, last := lines[..|lines| - 1], lines[|lines| - 1];
      assert ChopAll(lines)[..|lines| - 1] == ChopAll(init);
      UnslottedChopped(r, init);
      r.ChopKeepsSlot(last);
    }
  }

  lemma {:induction false} BodyIsOneLineEach(r: Rules, lines: seq<string>)
    requires r.Valid() && LinesNoLF(lines) && (r.deployment.Some? ==> NoLF(r.deployment.value))
    ensures LinesNoLF(r.Body(lines))
  {
    hide Rules.Slot, Rules.CanonicalLine, Rules.Valid, NoLF, IsIdent;
    if lines != [] {
      var init, last := lines[..|lines| - 1], lines[|lines| - 1];
      BodyIsOneLineEach(r, init);
      if r.Slot(last).Some? {
        CanonicalIsOneLine(r, last);
      }
    }
  }

  lemma CanonicalIsOneLine(r: Rules, line: string)
    requires r.Valid() && r.Slot(line).Some? && (r.deployment.Some? ==> NoLF(r.deployment.value))
    ensures NoLF(r.CanonicalLine(r.Slot(line).value))
  {
    hide Rules.Slot, NoLF, IsIdent, IsDeploymentLine, ParseLine;
    r.SlotIsIdent(line);
    r.CanonicalSlot(r.Slot(line).value);
  }
}
