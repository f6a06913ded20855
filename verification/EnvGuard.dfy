/** `reassertPublicConvexUrls`, the watcher that calls it, and whole `npx convex` runs under that guard. */
module EnvGuard {
  import opened JsText
  import opened EnvLine
  import opened EnvRules
  import opened EnvRewrite
  import opened EnvFile
  import opened EnvUpdate
  import opened EnvName
  import opened EnvLate
  import opened EnvPromises

  /** What `cli_credentials` hands back; "" for an absent field. */
  datatype Credentials = Credentials(convexUrl: string, siteUrl: string, adminKey: string)

  function WantedValues(c: Credentials): map<string, string> {
    map[
      NEXT_PUBLIC_CONVEX_URL := c.convexUrl,
      NEXT_PUBLIC_CONVEX_SITE_URL := OrElse(c.siteUrl, c.convexUrl)
    ]
  }

  function WantedKeys(): seq<string> {
    [NEXT_PUBLIC_CONVEX_URL, NEXT_PUBLIC_CONVEX_SITE_URL]
  }

  function GuardRules(c: Credentials): Rules {
    Rules(WantedValues(c), true, None)
  }

  /** Both public variables parse to the values Synapse owns. */
  predicate Authoritative(content: string, c: Credentials) {
    && Lookup(ParseEnv(content), NEXT_PUBLIC_CONVEX_URL) == Some(c.convexUrl)
    && Lookup(ParseEnv(content), NEXT_PUBLIC_CONVEX_SITE_URL) == Some(OrElse(c.siteUrl, c.convexUrl))
  }

  predicate Drifted(content: string, c: Credentials) {
    !Authoritative(content, c)
  }

  function MissingLines(c: Credentials, lines: seq<string>): seq<string> {
    GuardRules(c).KeyLines(WantedKeys(), GuardRules(c).Slots(lines))
  }

  function ReassertedLines(c: Credentials, lines: seq<string>): seq<string> {
    var out, missing := GuardRules(c).Body(lines), MissingLines(c, lines);
    if missing == [] then out else DropTrailingBlanks(out) + missing + [""]
  }

  function Reasserted(content: string, c: Credentials): string {
    Join(ReassertedLines(c, SplitLines(content)))
  }

  // ---- the file and the guard -------------------------------------------------------------

  /** `.env.local` during one `npx convex` run, with the counts the loop-safety claim is about. */
  class EnvSession {
    const credentials: Credentials
    var file: Option<string>
    var watching: bool
    var running: bool
    ghost var upstreamWrites: nat
    ghost var guardWrites: nat

    ghost function World(): Run
      reads this
    {
      Run(file, watching, running, upstreamWrites, guardWrites)
    }

    /** Installs the watcher when there are credentials and a file to watch. */
    constructor (file: Option<string>, c: Credentials)
      ensures credentials == c && World() == Start(file, c)
    {
      this.credentials := c;
      this.file := file;
      watching := c.convexUrl != "" && file.Some?;
      running := true;
      upstreamWrites, guardWrites := 0, 0;
    }

    method Reassert() returns (wrote: bool)
      modifies this
      ensures wrote == NeedsWrite(old(file), credentials)
      ensures World() == WithReassert(old(World()), credentials)
    {
      hide Drifted, Reasserted, ParseEnv, SplitLines, Join, ReassertedLines;
      if credentials.convexUrl == "" || file.None? {
        return false;
      }
      var existing := file.value;
      var current := ParseEnvContent(existing);
      var settled := IsSettled(existing, current, credentials);
      if settled {
        return false;
      }
      var out := RewritePublicLines(SplitLines(existing), credentials);
      file := Some(Join(out));
      guardWrites := guardWrites + 1;
      assert Reasserted(existing, credentials) == Join(out) by { ReassertedIs(existing, credentials); }
      return true;
    }

    /** The child replaces or removes the file; with it gone nobody else writes. */
    method OnUpstreamWrite(content: Option<string>)
      modifies this
      ensures World() == Next(old(World()), Upstream(content), credentials)
      ensures file == if old(running) then content else old(file)
      ensures watching == old(watching) && running == old(running) && guardWrites == old(guardWrites)
    {
      if running {
        file := content;
        upstreamWrites := upstreamWrites + 1;
      }
    }

    /** The watch callback; `failed` is a read or write race, which it swallows. */
    method OnWatchEvent(failed: bool)
      modifies this
      ensures World() == Next(old(World()), WatchEvent(failed), credentials)
    {
      if watching && !failed {
        var wrote := Reassert();
      }
    }

    /** The `finally` of `runConvexCommand`: stop the guard, then assert once more. */
    method OnChildExit(failed: bool)
      modifies this
      ensures World() == Next(old(World()), ChildExit(failed), credentials)
    {
      watching := false;
      running := false;
      if !failed {
        var wrote := Reassert();
      }
    }
  }

  lemma ReassertedIs(content: string, c: Credentials)
    ensures Reasserted(content, c) == Join(ReassertedLines(c, SplitLines(content)))
  {
  }

  method IsSettled(ghost content: string, current: map<string, string>, c: Credentials) returns (b: bool)
    requires current == ParseEnv(content)
    ensures b == !Drifted(content, c)
  {
    hide ParseEnv;
    b := true;
    if NEXT_PUBLIC_CONVEX_URL !in current || current[NEXT_PUBLIC_CONVEX_URL] != c.convexUrl {
      b := false;
    }
    if NEXT_PUBLIC_CONVEX_SITE_URL !in current
       || current[NEXT_PUBLIC_CONVEX_SITE_URL] != OrElse(c.siteUrl, c.convexUrl) {
      b := false;
    }
  }

  method RewritePublicLines(lines: seq<string>, c: Credentials) returns (out: seq<string>)
    ensures out == ReassertedLines(c, lines)
  {
    hide KeyFromLine, IsDeploymentLine, IsIdent, Inherited, WantedValues, Rules.CanonicalLine, Rules.KeyLines,
         DropTrailingBlanks, WantedKeys, EnvAssignment;
    var r := GuardRules(c);
    var seen: set<string>;
    out, seen := [], {};
    for i := 0 to |lines|
      invariant out == r.Body(lines[..i])
      invariant seen == r.Slots(lines[..i])
    {
      var line := lines[i];
      assert lines[..i + 1] == lines[..i] + [line];
      SlotsSnoc(r, lines[..i], line);
      GuardSlot(c, line);
      var key := KeyFromLine(line);
      if key.Some? && (key.value in WantedValues(c) || Inherited(key.value)) {
        if key.value in seen {
          continue;
        }
        seen := seen + {key.value};
        out := out + [r.CanonicalLine(key.value)];
        continue;
      }
      out := out + [line];
    }
    assert lines[..|lines|] == lines;
    var missing := MissingWanted(c, seen, lines);
    if |missing| > 0 {
      out := PopTrailingBlanks(out);
      out := out + missing;
      out := out + [""];
    }
  }

  method MissingWanted(c: Credentials, seen: set<string>, ghost lines: seq<string>) returns (r: seq<string>)
    requires seen == GuardRules(c).Slots(lines)
    ensures r == MissingLines(c, lines)
  {
    var rules := GuardRules(c);
    KeyLinesOfThree(rules, NEXT_PUBLIC_CONVEX_URL, NEXT_PUBLIC_CONVEX_SITE_URL, "", seen);
    hide Rules.KeyLines, Rules.CanonicalLine, Rules.Slots, GuardRules;
    r := [];
    if NEXT_PUBLIC_CONVEX_URL !in seen { r := r + [rules.CanonicalLine(NEXT_PUBLIC_CONVEX_URL)]; }
    if NEXT_PUBLIC_CONVEX_SITE_URL !in seen { r := r + [rules.CanonicalLine(NEXT_PUBLIC_CONVEX_SITE_URL)]; }
  }

  /** No deployment line has a key the re-assertion wants. */
  lemma GuardSlot(c: Credentials, line: string)
    ensures GuardRules(c).Slot(line) ==
            if KeyFromLine(line).Some?
               && (KeyFromLine(line).value in WantedValues(c) || Inherited(KeyFromLine(line).value))
            then KeyFromLine(line) else None
  {
    hide KeyFromLine, Inherited, WantedValues;
    GuardRulesValid(c);
    if IsDeploymentLine(line) && KeyFromLine(line) != Some(CONVEX_DEPLOYMENT) {
      CommentHasNoKey(line);
    }
  }

  lemma GuardRulesValid(c: Credentials)
    ensures GuardRules(c).Valid() && CONVEX_DEPLOYMENT !in WantedValues(c)
    ensures ProperKeys(GuardRules(c), WantedKeys())
    ensures forall k :: k in WantedValues(c) <==> k in WantedKeys()
  {
    hide IsIdent, Inherited, IsDeploymentLine, ParseLine, ProperKeys;
    ManagedIdents();
    ManagedAreNotInherited();
    KeysDiffer();
    ProperWhenSelfSlotted(GuardRules(c), WantedKeys());
  }

  // ---- whole runs -------------------------------------------------------------------------

  datatype Run = Run(
    file: Option<string>,
    watching: bool,
    running: bool,
    upstreamWrites: nat,
    guardWrites: nat)

  datatype Step =
    | Upstream(content: Option<string>)
    | WatchEvent(failed: bool)
    | ChildExit(failed: bool)

  predicate NeedsWrite(file: Option<string>, c: Credentials) {
    c.convexUrl != "" && file.Some? && Drifted(file.value, c)
  }

  function Start(file: Option<string>, c: Credentials): Run {
    Run(file, c.convexUrl != "" && file.Some?, true, 0, 0)
  }

  function WithReassert(w: Run, c: Credentials): Run {
    if NeedsWrite(w.file, c)
    then w.(file := Some(Reasserted(w.file.value, c)), guardWrites := w.guardWrites + 1)
    else w
  }

  function Next(w: Run, s: Step, c: Credentials): Run {
    match s
    case Upstream(content) =>
      if w.running then w.(file := content, upstreamWrites := w.upstreamWrites + 1) else w
    case WatchEvent(failed) => if w.watching && !failed then WithReassert(w, c) else w
    case ChildExit(failed) =>
      var stopped := w.(watching := false, running := false);
      if failed then stopped else WithReassert(stopped, c)
  }

  function After(w: Run, steps: seq<Step>, c: Credentials): Run {
    if steps == [] then w else Next(After(w, steps[..|steps| - 1], c), steps[|steps| - 1], c)
  }

  // ---- one re-assertion -------------------------------------------------------------------

  lemma {:induction false} SlotMeansKey(c: Credentials, lines: seq<string>, key: string)
    requires key in GuardRules(c).Slots(lines) && key != PROTO
    ensures key in ParseLines(lines)
  {
    hide KeyFromLine, ParseLine, GuardRules, Rules.Slot, WantedValues, Inherited, Assign;
    var init, last := lines[..|lines| - 1], lines[|lines| - 1];
    GuardSlot(c, last);
    ParseLineIffKey(last);
    AssignAt(ParseLines(init), last, key);
    if key in GuardRules(c).Slots(init) {
      SlotMeansKey(c, init, key);
      assert Lookup(ParseLines(init), key).Some?;
    }
    assert Lookup(ParseLines(lines), key).Some?;
  }

  lemma {:induction false} ParseKeyLines(r: Rules, front: seq<string>, keys: seq<string>, seen: set<string>,
      key: string)
    requires r.Valid() && ProperKeys(r, keys) && forall k :: k in keys ==> r.Claims(k) && IsIdent(k) && k in r.values
    ensures Lookup(ParseLines(front + r.KeyLines(keys, seen)), key)
         == if key in keys && key !in seen then Effect(r, key) else Lookup(ParseLines(front), key)
    decreases keys
  {
    hide Rules.Slot, Rules.CanonicalLine, IsIdent, ProperKeys, Rules.Valid, Rules.KeyLines, Assign, ParseLine,
         Rules.Claims, Effect, ParseLines;
    if keys == [] {
      AppendNothing(r, front, seen);
    } else {
      ProperTail(r, keys);
      KeySetSplit(keys);
      var k, rest := keys[0], r.KeyLines(keys[1..], seen);
      if k in seen {
        ParseKeyLines(r, front, keys[1..], seen, key);
      } else {
        var line := r.CanonicalLine(k);
        ParseKeyLines(r, front + [line], keys[1..], seen, key);
        Shift(front, line, rest);
        ParseSnoc(front, line);
        CanonicalAssigns(r, ParseLines(front), k, key);
      }
    }
  }

  lemma CanonicalAssigns(r: Rules, env: map<string, string>, k: string, key: string)
    requires r.Valid() && r.Claims(k) && IsIdent(k) && k in r.values
    ensures Lookup(Assign(env, r.CanonicalLine(k)), key) == if key == k then Effect(r, k) else Lookup(env, key)
  {
    hide Rules.CanonicalLine, IsIdent, ParseLine, Assign;
    AssignAt(env, r.CanonicalLine(k), key);
    AssignAt(map[], r.CanonicalLine(k), key);
    EffectOf(r, k);
  }

  lemma ReassertedLinesParse(c: Credentials, lines: seq<string>, key: string)
    ensures Lookup(ParseLines(ReassertedLines(c, lines)), key)
         == if key in WantedValues(c) || key in GuardRules(c).Slots(lines) then Effect(GuardRules(c), key)
            else Lookup(ParseLines(lines), key)
  {
    hide GuardRules, Rules.Slot, Rules.Slots, Rules.Body, Rules.KeyLines, WantedKeys, WantedValues, ProperKeys,
         IsIdent, ParseLine, ParseLines, Effect, Rules.Valid, DropTrailingBlanks;
    var r, missing := GuardRules(c), MissingLines(c, lines);
    GuardRulesValid(c);
    GuardKeysClaimed(c);
    RewriteEffect(r, lines, key);
    if missing == [] {
      NoKeyLinesMissing(r, WantedKeys(), r.Slots(lines));
      InKeySet(WantedKeys());
    } else {
      var front := DropTrailingBlanks(r.Body(lines));
      DroppedBlanksParseToNothing(r.Body(lines));
      ParseKeyLines(r, front, WantedKeys(), r.Slots(lines), key);
      ParseSnoc(front + missing, "");
      BlankParsesToNothing();
    }
  }

  lemma GuardKeysClaimed(c: Credentials)
    ensures forall k :: k in WantedKeys() ==> GuardRules(c).Claims(k) && IsIdent(k) && k in GuardRules(c).values
    ensures GuardRules(c).values == WantedValues(c) && GuardRules(c).quoteInherited
  {
    hide IsIdent, Inherited;
    ManagedIdents();
    KeysDiffer();
  }

  /** Joining and splitting again costs the lines a CR each, which no key or value has. */
  lemma ReadBackParses(lines: seq<string>)
    requires lines != [] && LinesNoLF(lines)
    ensures ParseEnv(Join(lines)) == ParseLines(lines)
  {
    hide ParseLine, SplitLines, Join, NoLF;
    var init, last := lines[..|lines| - 1], lines[|lines| - 1];
    assert lines == init + [last];
    SplitJoin(init, last);
    ParseSnoc(ChopAll(init), last);
    ParseSnoc(init, last);
    ParseChopped(init);
  }

  lemma ReassertedIsOneLineEach(c: Credentials, lines: seq<string>)
    requires LinesNoLF(lines) && lines != []
    ensures LinesNoLF(ReassertedLines(c, lines)) && ReassertedLines(c, lines) != []
  {
    hide GuardRules, Rules.Slot, Rules.Slots, Rules.Body, Rules.KeyLines, WantedKeys, WantedValues, ProperKeys,
         IsIdent, Rules.Valid, NoLF, Rules.CanonicalLine;
    var r := GuardRules(c);
    GuardRulesValid(c);
    GuardKeysClaimed(c);
    NoDeployment(c);
    BodyIsOneLineEach(r, lines);
    BodyStartsAtOnce(r, lines);
    forall k | k in WantedKeys() ensures NoLF(r.CanonicalLine(k)) {
      r.CanonicalSlot(k);
      NotTheDeployment(k);
    }
    KeyLinesNoLF(r, WantedKeys(), r.Slots(lines));
    BlankIsOneLine();
  }

  lemma NoDeployment(c: Credentials)
    ensures GuardRules(c).deployment.None?
  {
  }

  lemma NotTheDeployment(k: string)
    requires k in WantedKeys()
    ensures k != CONVEX_DEPLOYMENT
  {
    KeysDiffer();
  }

  /**
   * The file a re-assertion writes parses to the file it read with the two public URLs replaced
   * by their escaped values, and inherited names, where assigned, by their native text.
   */
  lemma ReassertedEnvironment(content: string, c: Credentials, key: string)
    ensures Lookup(ParseEnv(Reasserted(content, c)), key) ==
            if key in WantedValues(c) then Some(Escape(WantedValues(c)[key]))
            else if Inherited(key) && key in ParseEnv(content) then Some(Escape(NativeText(key)))
            else Lookup(ParseEnv(content), key)
  {
    hide GuardRules, Rules.Slots, Rules.Body, WantedValues, IsIdent, ParseLine, ParseLines, Rules.Valid,
         ReassertedLines, Inherited, NativeText, Escape, SplitLines, Join, Assign;
    var lines, r := SplitLines(content), GuardRules(c);
    ReassertedIsOneLineEach(c, lines);
    ReadBackParses(ReassertedLines(c, lines));
    ReassertedLinesParse(c, lines, key);
    GuardRulesValid(c);
    GuardKeysClaimed(c);
    NoDeployment(c);
    ProtoIsNeverAssigned(lines);
    if key in r.Slots(lines) {
      SlotsAreIdents(r, lines, key);
      EffectOf(r, key);
      if key != PROTO { SlotMeansKey(c, lines, key); }
    } else {
      if key in WantedValues(c) { EffectOf(r, key); }
      if r.Claims(key) { NoSlotNoKey(r, lines, key); }
    }
  }

  lemma {:induction false} ProtoIsNeverAssigned(lines: seq<string>)
    ensures PROTO !in ParseLines(lines)
  {
    hide ParseLine;
    if lines != [] {
      ProtoIsNeverAssigned(lines[..|lines| - 1]);
      AssignAt(ParseLines(lines[..|lines| - 1]), lines[|lines| - 1], PROTO);
    }
  }

  predicate PlainUrls(c: Credentials) {
    EscapeFree(c.convexUrl) && EscapeFree(OrElse(c.siteUrl, c.convexUrl))
  }

  /** After a write the file is settled exactly when the URLs need no escaping. */
  lemma ReassertConvergesExactly(content: string, c: Credentials)
    ensures Drifted(Reasserted(content, c), c) <==> !PlainUrls(c)
  {
    hide ParseEnv, Reasserted, Escape, EscapeFree, NativeText;
    ReassertedEnvironment(content, c, NEXT_PUBLIC_CONVEX_URL);
    ReassertedEnvironment(content, c, NEXT_PUBLIC_CONVEX_SITE_URL);
    EscapeFixesExactlyEscapeFree(c.convexUrl);
    EscapeFixesExactlyEscapeFree(OrElse(c.siteUrl, c.convexUrl));
    KeysDiffer();
    assert WantedValues(c)[NEXT_PUBLIC_CONVEX_URL] == c.convexUrl;
  }

  /** Read back from the written file, this key holds the value Synapse owns. */
  predicate ReadsBack(content: string, o: EnvOptions, key: string, value: string) {
    if NameDecides(content, o, key) then NameEnv(o)[key] == value else EscapeFree(value)
  }

  /**
   * `synapse select` followed by the guard: nothing to re-assert, exactly when the URLs need no escaping
   * or are assigned as they are by a longer name.
   */
  lemma UpdatedFileNeedsNoReassert(content: string, o: EnvOptions)
    ensures var c := Credentials(o.convexUrl, o.siteUrl, o.adminKey);
            && (!Drifted(UpdatedText(content, o), c)
                <==> ReadsBack(content, o, NEXT_PUBLIC_CONVEX_URL, o.convexUrl)
                     && ReadsBack(content, o, NEXT_PUBLIC_CONVEX_SITE_URL, OrElse(o.siteUrl, o.convexUrl)))
            && (CleanName(o) ==> (Drifted(UpdatedText(content, o), c) <==> !PlainUrls(c)))
  {
    hide ParseEnv, UpdatedText, Escape, EscapeFree, Inherited, NameDecides, NameEnv;
    UpdatedEnvironment(content, o, NEXT_PUBLIC_CONVEX_URL);
    UpdatedEnvironment(content, o, NEXT_PUBLIC_CONVEX_SITE_URL);
    EscapeFixesExactlyEscapeFree(o.convexUrl);
    EscapeFixesExactlyEscapeFree(OrElse(o.siteUrl, o.convexUrl));
    KeysDiffer();
    if CleanName(o) {
      OneLineNameDecidesNothing(content, o, NEXT_PUBLIC_CONVEX_URL);
      OneLineNameDecidesNothing(content, o, NEXT_PUBLIC_CONVEX_SITE_URL);
    }
  }

  /** The two URLs in a re-asserted file: a distinct site URL where there is one, else the cloud URL. */
  lemma ReassertedReadBack(content: string, c: Credentials)
    ensures var env := ParseEnv(Reasserted(content, c));
            && Lookup(env, NEXT_PUBLIC_CONVEX_URL) == Some(Escape(c.convexUrl))
            && (c.siteUrl != "" ==> Lookup(env, NEXT_PUBLIC_CONVEX_SITE_URL) == Some(Escape(c.siteUrl)))
            && (c.siteUrl == "" ==> Lookup(env, NEXT_PUBLIC_CONVEX_SITE_URL) == Some(Escape(c.convexUrl)))
  {
    hide ParseEnv, Reasserted, Escape, NativeText, Inherited;
    KeysDiffer();
    ReassertedEnvironment(content, c, NEXT_PUBLIC_CONVEX_URL);
    ReassertedEnvironment(content, c, NEXT_PUBLIC_CONVEX_SITE_URL);
    assert WantedValues(c)[NEXT_PUBLIC_CONVEX_URL] == c.convexUrl;
  }

  /** A file is left alone exactly when both variables read so already, or there is no URL to assert. */
  lemma LeftAloneExactly(content: string, c: Credentials)
    ensures !NeedsWrite(Some(content), c) <==>
      || c.convexUrl == ""
      || (Lookup(ParseEnv(content), NEXT_PUBLIC_CONVEX_URL) == Some(c.convexUrl)
          && (c.siteUrl != "" ==> Lookup(ParseEnv(content), NEXT_PUBLIC_CONVEX_SITE_URL) == Some(c.siteUrl))
          && (c.siteUrl == "" ==> Lookup(ParseEnv(content), NEXT_PUBLIC_CONVEX_SITE_URL) == Some(c.convexUrl)))
  {
    hide ParseEnv;
  }

  // ---- loop safety ------------------------------------------------------------------------

  function Debt(w: Run, c: Credentials): nat {
    if NeedsWrite(w.file, c) then 1 else 0
  }

  lemma StepKeepsBudget(w: Run, s: Step, c: Credentials)
    requires PlainUrls(c)
    requires w.guardWrites + Debt(w, c) <= w.upstreamWrites + 1
    ensures var w' := Next(w, s, c); w'.guardWrites + Debt(w', c) <= w'.upstreamWrites + 1
  {
    hide Drifted, Reasserted, PlainUrls;
    if w.file.Some? { ReassertConvergesExactly(w.file.value, c); }
  }

  /** In every run the guard writes at most once more than the child does. */
  lemma {:induction false} GuardWritesBounded(file: Option<string>, steps: seq<Step>, c: Credentials)
    requires PlainUrls(c)
    ensures var w := After(Start(file, c), steps, c);
            w.guardWrites + Debt(w, c) <= w.upstreamWrites + 1
  {
    hide Drifted, Reasserted, PlainUrls, Next;
    if steps != [] {
      var init, last := steps[..|steps| - 1], steps[|steps| - 1];
      GuardWritesBounded(file, init, c);
      StepKeepsBudget(After(Start(file, c), init, c), last, c);
    }
  }

  /** The loop-safety claim: no run, however its events interleave, lets the guard outwrite the child by two. */
  ghost predicate LoopSafe(c: Credentials) {
    forall file, steps :: var w := After(Start(file, c), steps, c); w.guardWrites <= w.upstreamWrites + 1
  }

  function Events(n: nat): seq<Step> {
    seq(n, _ => WatchEvent(false))
  }

  /** With a URL that needs escaping, every event rewrites the file again. */
  lemma {:induction false} EscapedUrlsPingPong(content: string, c: Credentials, n: nat)
    requires !PlainUrls(c) && c.convexUrl != "" && Drifted(content, c)
    ensures var w := After(Start(Some(content), c), Events(n), c);
            && w.guardWrites == n && w.upstreamWrites == 0 && w.watching
            && w.file.Some? && Drifted(w.file.value, c)
  {
    hide Drifted, Reasserted, PlainUrls;
    if n > 0 {
      assert Events(n)[..n - 1] == Events(n - 1);
      EscapedUrlsPingPong(content, c, n - 1);
      var w := After(Start(Some(content), c), Events(n - 1), c);
      ReassertConvergesExactly(w.file.value, c);
    }
  }

  lemma EmptyFileHasDrifted(c: Credentials)
    ensures Drifted("", c)
  {
    BlankParsesToNothing();
    ParseSnoc([], "");
    assert SplitLines("") == [] + [""];
  }

  /** Without a URL nothing is watched and nothing is written. */
  lemma {:induction false} NothingToAssert(file: Option<string>, steps: seq<Step>, c: Credentials)
    requires c.convexUrl == ""
    ensures After(Start(file, c), steps, c).guardWrites == 0
  {
    hide Drifted, Reasserted;
    if steps != [] { NothingToAssert(file, steps[..|steps| - 1], c); }
  }

  /** The guard is loop-safe exactly when the URLs it asserts need no escaping, or there are none. */
  lemma LoopSafeExactly(c: Credentials)
    ensures LoopSafe(c) <==> c.convexUrl == "" || PlainUrls(c)
  {
    hide Drifted, Reasserted, PlainUrls, Next, Start;
    if PlainUrls(c) || c.convexUrl == "" {
      forall file, steps
        ensures var w := After(Start(file, c), steps, c); w.guardWrites <= w.upstreamWrites + 1
      {
        if PlainUrls(c) { GuardWritesBounded(file, steps, c); } else { NothingToAssert(file, steps, c); }
      }
    } else {
      EmptyFileHasDrifted(c);
      EscapedUrlsPingPong("", c, 2);
    }
  }

  /**
   * Whatever happened during the run, a final assertion that succeeds leaves an existing file
   * authoritative exactly when the URLs need no escaping or nothing had drifted by then.
   */
  lemma FinalFileExactly(file: Option<string>, steps: seq<Step>, c: Credentials)
    ensures var before, w := After(Start(file, c), steps, c), After(Start(file, c), steps + [ChildExit(false)], c);
            && (w.file.Some? <==> before.file.Some?)
            && (w.file.Some? ==>
                  (Authoritative(w.file.value, c)
                   <==> Authoritative(before.file.value, c) || (c.convexUrl != "" && PlainUrls(c))))
  {
    hide Reasserted, PlainUrls, ParseEnv, Start, After;
    var before := After(Start(file, c), steps, c);
    AfterSnoc(Start(file, c), steps, ChildExit(false), c);
    if before.file.Some? { ReassertConvergesExactly(before.file.value, c); }
  }

  /** The text the child left last: what it wrote while it ran, or the file it started with. */
  function LastText(file: Option<string>, steps: seq<Step>, c: Credentials): Option<string> {
    if steps == [] then file
    else
      var init, last := steps[..|steps| - 1], steps[|steps| - 1];
      if last.Upstream? && After(Start(file, c), init, c).running then last.content else LastText(file, init, c)
  }

  /** The guard's file against the child's: every other variable reads alike, the two URLs alike or as asserted. */
  ghost predicate OnlyUrlsDiffer(now: string, last: string, c: Credentials) {
    forall key ::
      if key in WantedValues(c) then
        || Lookup(ParseEnv(now), key) == Lookup(ParseEnv(last), key)
        || Lookup(ParseEnv(now), key) == Some(Escape(WantedValues(c)[key]))
      else if Inherited(key) then key in ParseEnv(now) <==> key in ParseEnv(last)
      else Lookup(ParseEnv(now), key) == Lookup(ParseEnv(last), key)
  }

  lemma SameTextDiffersNowhere(text: string, c: Credentials)
    ensures OnlyUrlsDiffer(text, text, c)
  {
    hide ParseEnv;
  }

  lemma ReassertKeepsTheRest(now: string, last: string, c: Credentials)
    requires OnlyUrlsDiffer(now, last, c)
    ensures OnlyUrlsDiffer(Reasserted(now, c), last, c)
  {
    hide ParseEnv, Reasserted, WantedValues, Inherited, Escape, NativeText;
    forall key
      ensures Lookup(ParseEnv(Reasserted(now, c)), key) ==
              if key in WantedValues(c) then Some(Escape(WantedValues(c)[key]))
              else if Inherited(key) && key in ParseEnv(now) then Some(Escape(NativeText(key)))
              else Lookup(ParseEnv(now), key)
    {
      ReassertedEnvironment(now, c, key);
    }
  }

  ghost predicate Frames(now: Option<string>, last: Option<string>, c: Credentials) {
    (now.Some? <==> last.Some?) && (now.Some? ==> OnlyUrlsDiffer(now.value, last.value, c))
  }

  lemma WithReassertFrames(w: Run, last: Option<string>, c: Credentials)
    requires Frames(w.file, last, c)
    ensures Frames(WithReassert(w, c).file, last, c)
  {
    hide OnlyUrlsDiffer, Reasserted, Drifted;
    if w.file.Some? { ReassertKeepsTheRest(w.file.value, last.value, c); }
  }

  lemma SameFileFrames(file: Option<string>, c: Credentials)
    ensures Frames(file, file, c)
  {
    hide OnlyUrlsDiffer;
    if file.Some? { SameTextDiffersNowhere(file.value, c); }
  }

  /**
   * At every point of every run the file exists exactly when the child's last text does, and reads as that
   * text in every variable but the two URLs; an inherited name stays assigned or not.
   */
  lemma {:induction false} GuardKeepsTheRest(file: Option<string>, steps: seq<Step>, c: Credentials)
    ensures Frames(After(Start(file, c), steps, c).file, LastText(file, steps, c), c)
  {
    hide Frames, WithReassert;
    if steps == [] {
      SameFileFrames(file, c);
    } else {
      var init, last := steps[..|steps| - 1], steps[|steps| - 1];
      var w := After(Start(file, c), init, c);
      GuardKeepsTheRest(file, init, c);
      WithReassertFrames(w, LastText(file, init, c), c);
      WithReassertFrames(w.(watching := false, running := false), LastText(file, init, c), c);
      if last.Upstream? { SameFileFrames(last.content, c); }
    }
  }

  /** The same, variable by variable. */
  lemma OtherVariablesRead(file: Option<string>, steps: seq<Step>, c: Credentials, key: string)
    requires key != NEXT_PUBLIC_CONVEX_URL && key != NEXT_PUBLIC_CONVEX_SITE_URL
    ensures var now, last := After(Start(file, c), steps, c).file, LastText(file, steps, c);
            && (now == None <==> last == None)
            && (now.Some? ==>
                  && (key in ParseEnv(now.value) <==> key in ParseEnv(last.value))
                  && (!Inherited(key) ==> Lookup(ParseEnv(now.value), key) == Lookup(ParseEnv(last.value), key)))
  {
    hide ParseEnv, After, Start, LastText, Inherited;
    GuardKeepsTheRest(file, steps, c);
  }

  /** The child's exit ends the watching; a final assertion that fails leaves the file as it was. */
  lemma ChildExitExactly(file: Option<string>, steps: seq<Step>, c: Credentials, failed: bool)
    ensures var before := After(Start(file, c), steps, c);
            var w := After(Start(file, c), steps + [ChildExit(failed)], c);
            && !w.running && !w.watching && w.upstreamWrites == before.upstreamWrites
            && (failed ==> w.file == before.file && w.guardWrites == before.guardWrites)
            && (!failed && w.file.Some? && c.convexUrl != "" ==>
                  (Authoritative(w.file.value, c) <==> Authoritative(before.file.value, c) || PlainUrls(c)))
            && (w.file == None <==> before.file == None)
  {
    hide Reasserted, PlainUrls, Authoritative, Start, After;
    var before := After(Start(file, c), steps, c);
    AfterSnoc(Start(file, c), steps, ChildExit(failed), c);
    if before.file.Some? && c.convexUrl != "" { ReassertConvergesExactly(before.file.value, c); }
  }

  /**
   * While the guard watches, a watch event that succeeds leaves an existing file authoritative exactly when
   * the URLs need no escaping or nothing had drifted; one that fails, or comes unwatched, changes nothing.
   */
  lemma WatchEventExactly(file: Option<string>, steps: seq<Step>, c: Credentials, failed: bool)
    ensures var before, w := After(Start(file, c), steps, c), After(Start(file, c), steps + [WatchEvent(failed)], c);
            && w.watching == before.watching && w.running == before.running && w.upstreamWrites == before.upstreamWrites
            && (failed || !before.watching ==> w == before)
            && (!failed && before.watching && w.file.Some? ==>
                  (Authoritative(w.file.value, c) <==> Authoritative(before.file.value, c) || PlainUrls(c)))
  {
    hide Reasserted, PlainUrls, Authoritative, Start, After;
    var before := After(Start(file, c), steps, c);
    AfterSnoc(Start(file, c), steps, WatchEvent(failed), c);
    WatchingMeansUrl(file, steps, c);
    if before.file.Some? { ReassertConvergesExactly(before.file.value, c); }
  }

  /** The guard watches from the start, if there is a URL and a file, until the child exits. */
  lemma {:induction false} WatchingMeansUrl(file: Option<string>, steps: seq<Step>, c: Credentials)
    ensures var w := After(Start(file, c), steps, c);
            && (w.running <==> ChildExit(false) !in steps && ChildExit(true) !in steps)
            && (w.watching <==> c.convexUrl != "" && file.Some? && w.running)
  {
    hide Reasserted, Drifted;
    if steps != [] {
      WatchingMeansUrl(file, steps[..|steps| - 1], c);
      assert steps == steps[..|steps| - 1] + [steps[|steps| - 1]];
    }
  }

  /** How often the child wrote while it ran. */
  lemma {:induction false} UpstreamWritesCounted(file: Option<string>, steps: seq<Step>, content: Option<string>,
      c: Credentials)
    ensures var before, w := After(Start(file, c), steps, c), After(Start(file, c), steps + [Upstream(content)], c);
            if ChildExit(false) !in steps && ChildExit(true) !in steps then
              w == before.(file := content, upstreamWrites := before.upstreamWrites + 1)
            else w == before
  {
    hide Reasserted, Drifted, After, Start;
    WatchingMeansUrl(file, steps, c);
    AfterSnoc(Start(file, c), steps, Upstream(content), c);
  }

  lemma AfterSnoc(w: Run, steps: seq<Step>, s: Step, c: Credentials)
    ensures After(w, steps + [s], c) == Next(After(w, steps, c), s, c)
  {
    assert (steps + [s])[..|steps|] == steps;
  }

  // ---- an inherited name ------------------------------------------------------------------

  function InheritedFile(): string {
    "constructor" + ("=" + "x")
  }

  /** A variable called `constructor` is lost to `updateEnvContent` and overwritten by a re-assertion. */
  lemma InheritedNameIsLost(o: EnvOptions, c: Credentials)
    requires CleanName(o)
    ensures Lookup(ParseEnv(InheritedFile()), "constructor") == Some("x")
    ensures Lookup(ParseEnv(UpdatedText(InheritedFile(), o)), "constructor") == None
    ensures Lookup(ParseEnv(Reasserted(InheritedFile(), c)), "constructor") == Some(Escape(NativeText("constructor")))
  {
    InheritedFileReads();
    ConstructorIsInherited(o, c);
    hide InheritedFile, ParseEnv, UpdatedText, Reasserted, Inherited, Escape, NativeText, ManagedValues, WantedValues,
         NameDecides, NameEnv;
    UpdatedEnvironment(InheritedFile(), o, "constructor");
    OneLineNameDecidesNothing(InheritedFile(), o, "constructor");
    ReassertedEnvironment(InheritedFile(), c, "constructor");
  }

  lemma InheritedFileReads()
    ensures Lookup(ParseEnv(InheritedFile()), "constructor") == Some("x")
  {
    hide KeyFromLine, ParseLine, ParseLines, SplitLines;
    var line := InheritedFile();
    assert IsIdent("constructor") && NoLF(line) && "constructor" != PROTO && UnquoteEnvValue("x") == "x";
    PlainAssignment("", "constructor", "x") by { NothingIsSpace(); }
    assert "" + line == line;
    SplitOneLine(line, "");
    ParseSnoc([], line);
    assert [] + [line] == [line];
    AssignAt(ParseLines([]), line, "constructor");
  }

  lemma ConstructorIsInherited(o: EnvOptions, c: Credentials)
    ensures Inherited("constructor") && "constructor" !in ManagedValues(o) && "constructor" !in WantedValues(c)
  {
    assert NEXT_PUBLIC_CONVEX_URL[0] != 'c' && NEXT_PUBLIC_CONVEX_SITE_URL[0] != 'c';
    assert SELF_HOSTED_URL[0] != 'c' && SELF_HOSTED_ADMIN_KEY[0] != 'c' && "constructor"[0] == 'c';
  }
}
