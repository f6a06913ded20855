/** `updateEnvContent`: the canonical rewrite of `.env.local`. */
module EnvFile {
  import opened JsText
  import opened EnvLine
  import opened EnvRules
  import opened EnvRewrite

  /** The section headers after the word each starts with, phrase by phrase. */
  function PublicTitle(): string {
    " (Synapse self-hosted \U{2014}" + (" drop-in compatible" + " with Cloud tutorials)")
  }

  function AuthTitle(): string {
    "-hosted auth" + (" (Synapse cannot use" + " Cloud account session)")
  }

  function PublicHeader(): string {
    "# " + ("Convex" + PublicTitle())
  }

  function AuthHeader(): string {
    "# " + ("Self" + AuthTitle())
  }

  datatype UpdateResult = Updated(text: string) | MissingCredentials

  predicate Usable(o: EnvOptions) {
    o.convexUrl != "" && o.adminKey != ""
  }

  predicate Named(o: EnvOptions) {
    o.deploymentName != ""
  }

  /** The four values Synapse owns; a missing site URL falls back to the cloud URL. */
  function ManagedValues(o: EnvOptions): map<string, string> {
    map[
      NEXT_PUBLIC_CONVEX_URL := o.convexUrl,
      NEXT_PUBLIC_CONVEX_SITE_URL := OrElse(o.siteUrl, o.convexUrl),
      SELF_HOSTED_URL := o.convexUrl,
      SELF_HOSTED_ADMIN_KEY := o.adminKey
    ]
  }

  function UpdateRules(o: EnvOptions): Rules {
    Rules(ManagedValues(o), false, BuildDeploymentLine(o))
  }

  function PublicKeys(o: EnvOptions): seq<string> {
    [NEXT_PUBLIC_CONVEX_URL, NEXT_PUBLIC_CONVEX_SITE_URL] + if Named(o) then [CONVEX_DEPLOYMENT] else []
  }

  function AuthKeys(): seq<string> {
    [SELF_HOSTED_URL, SELF_HOSTED_ADMIN_KEY]
  }

  /** The slots every rewritten file has. */
  function RequiredSlots(o: EnvOptions): set<string> {
    KeySet(PublicKeys(o)) + KeySet(AuthKeys())
  }

  function DropTrailingBlanks(lines: seq<string>): (r: seq<string>)
    ensures r <= lines && (r == [] || r[|r| - 1] != "")
  {
    if lines != [] && lines[|lines| - 1] == "" then DropTrailingBlanks(lines[..|lines| - 1]) else lines
  }

  function InputLines(content: string): seq<string> {
    DropTrailingBlanks(if content == "" then [] else SplitLines(content))
  }

  /** A header followed by the lines it announces, or nothing when there are none. */
  function Section(apart: bool, header: string, lines: seq<string>): seq<string> {
    if lines == [] then [] else (if apart then ["", header] else [header]) + lines
  }

  function Assemble(body: seq<string>, newPublic: seq<string>, newAuth: seq<string>): seq<string> {
    body + Section(body != [], PublicHeader(), newPublic)
    + Section(body != [] || newPublic != [], AuthHeader(), newAuth)
  }

  function NewPublic(o: EnvOptions, lines: seq<string>): seq<string> {
    UpdateRules(o).KeyLines(PublicKeys(o), UpdateRules(o).Slots(lines))
  }

  function NewAuth(o: EnvOptions, lines: seq<string>): seq<string> {
    UpdateRules(o).KeyLines(AuthKeys(), UpdateRules(o).Slots(lines))
  }

  function Rewrite(o: EnvOptions, lines: seq<string>): seq<string> {
    Assemble(UpdateRules(o).Body(lines), NewPublic(o, lines), NewAuth(o, lines))
  }

  function UpdatedText(content: string, o: EnvOptions): string {
    Join(Rewrite(o, InputLines(content))) + [LF]
  }

  /** Only blank lines at the end are dropped, and all of them. */
  lemma {:induction false} BlanksAreDropped(lines: seq<string>, blanks: seq<string>)
    requires lines == [] || lines[|lines| - 1] != ""
    requires forall i :: 0 <= i < |blanks| ==> blanks[i] == ""
    ensures DropTrailingBlanks(lines + blanks) == lines
  {
    if blanks == [] {
      assert lines + [] == lines;
    } else {
      var n := |blanks| - 1;
      assert (lines + blanks)[..|lines| + n] == lines + blanks[..n];
      BlanksAreDropped(lines, blanks[..n]);
    }
  }

  /** A file is its lines, whether or not the last one is ended and blank lines follow it. */
  lemma TextIsItsLines(lines: seq<string>, blanks: seq<string>)
    requires lines != [] && lines[|lines| - 1] != ""
    requires forall i :: 0 <= i < |lines| ==> NoLF(lines[i]) && !EndsWithCR(lines[i])
    requires forall i :: 0 <= i < |blanks| ==> blanks[i] == ""
    ensures InputLines(Join(lines + blanks)) == lines && InputLines("") == []
  {
    hide Join, SplitLines, DropTrailingBlanks;
    var all := lines + blanks;
    SplitJoin(all[..|all| - 1], all[|all| - 1]);
    assert all == all[..|all| - 1] + [all[|all| - 1]];
    assert ChopAll(all[..|all| - 1]) == all[..|all| - 1];
    BlanksAreDropped(lines, blanks);
    assert DropTrailingBlanks([]) == [] by { BlanksAreDropped([], []); }
    NotEmptyText(lines, blanks);
  }

  lemma NotEmptyText(lines: seq<string>, blanks: seq<string>)
    requires lines != [] && lines[|lines| - 1] != ""
    ensures Join(lines + blanks) != ""
  {
    assert |lines| == 1 ==> (lines + blanks)[0] == lines[0];
  }

  /** The two headers in full. */
  lemma HeadersRead()
    ensures PublicHeader() == "# Convex" + PublicTitle() && AuthHeader() == "# Self" + AuthTitle()
  {
    hide PublicTitle, AuthTitle;
    assert "# " + "Convex" == "# Convex" && "# " + "Self" == "# Self";
  }

  lemma PublicTitleReads()
    ensures PublicTitle() == " (Synapse self-hosted \U{2014} drop-in compatible with Cloud tutorials)"
  {
  }

  lemma AuthTitleReads()
    ensures AuthTitle() == "-hosted auth (Synapse cannot use Cloud account session)"
  {
  }

  // ---- the source's loop ------------------------------------------------------------------

  method PopTrailingBlanks(lines: seq<string>) returns (r: seq<string>)
    ensures r == DropTrailingBlanks(lines)
  {
    r := lines;
    while |r| > 0 && r[|r| - 1] == ""
      invariant DropTrailingBlanks(r) == DropTrailingBlanks(lines)
    {
      r := r[..|r| - 1];
    }
  }

  method RewriteLines(lines: seq<string>, r: Rules)
    returns (out: seq<string>, seen: set<string>, seenDeployment: bool)
    requires r.Valid()
    ensures out == r.Body(lines)
    ensures r.Slots(lines) == seen + if seenDeployment then {CONVEX_DEPLOYMENT} else {}
    ensures CONVEX_DEPLOYMENT !in seen
  {
    hide KeyFromLine, IsDeploymentLine, IsIdent, ParseLine, Inherited, Rules.Body, Rules.Slots;
    out, seen, seenDeployment := [], {}, false;
    NothingToRewrite(r);
    for i := 0 to |lines|
      invariant out == r.Body(lines[..i])
      invariant r.Slots(lines[..i]) == seen + if seenDeployment then {CONVEX_DEPLOYMENT} else {}
      invariant CONVEX_DEPLOYMENT !in seen
    {
      var line := lines[i];
      assert lines[..i + 1] == lines[..i] + [line];
      SlotsSnoc(r, lines[..i], line);
      if IsDeploymentLine(line) {
        if r.deployment.Some? {
          if !seenDeployment {
            out := out + [r.deployment.value];
            seenDeployment := true;
          }
          continue;
        }
        out := out + [line];
        continue;
      }
      var key := KeyFromLine(line);
      if key.Some? && (key.value in r.values || Inherited(key.value)) && key.value !in seen {
        out := out + [r.CanonicalLine(key.value)];
        seen := seen + {key.value};
        continue;
      }
      if key.Some? && (key.value in r.values || Inherited(key.value)) && key.value in seen {
        continue;
      }
      out := out + [line];
    }
    assert lines[..|lines|] == lines;
  }

  method UpdateEnvContent(content: string, o: EnvOptions) returns (r: UpdateResult)
    ensures r == if Usable(o) then Updated(UpdatedText(content, o)) else MissingCredentials
  {
    hide UpdateRules, Assemble, NewPublic, NewAuth, Rules.Body, Rules.Slots, SplitLines, Join, DropTrailingBlanks,
         Rules.Valid;
    if o.convexUrl == "" || o.adminKey == "" {
      return MissingCredentials;
    }
    UpdateRulesValid(o);
    var lines := if content != "" then SplitLines(content) else [];
    lines := PopTrailingBlanks(lines);
    var rules := UpdateRules(o);
    var out, seen, seenDeployment := RewriteLines(lines, rules);
    var newPublic := MissingPublicLines(o, seen, seenDeployment, lines);
    var newAuth := MissingAuthLines(o, seen, seenDeployment, lines);
    out := AppendSections(out, newPublic, newAuth);
    return Updated(Join(out) + [LF]);
  }

  method AppendSections(body: seq<string>, newPublic: seq<string>, newAuth: seq<string>) returns (out: seq<string>)
    ensures out == Assemble(body, newPublic, newAuth)
  {
    hide PublicHeader, AuthHeader;
    out := body;
    if |newPublic| > 0 || |newAuth| > 0 {
      if |out| > 0 { out := out + [""]; }
      if |newPublic| > 0 {
        out := out + [PublicHeader()];
        out := out + newPublic;
      }
      if |newAuth| > 0 {
        if |newPublic| > 0 { out := out + [""]; }
        out := out + [AuthHeader()];
        out := out + newAuth;
      }
    }
  }

  method MissingPublicLines(o: EnvOptions, seen: set<string>, seenDeployment: bool, ghost lines: seq<string>)
    returns (r: seq<string>)
    requires UpdateRules(o).Slots(lines) == seen + if seenDeployment then {CONVEX_DEPLOYMENT} else {}
    requires CONVEX_DEPLOYMENT !in seen
    ensures r == NewPublic(o, lines)
  {
    var rules := UpdateRules(o);
    KeyLinesOfThree(rules, NEXT_PUBLIC_CONVEX_URL, NEXT_PUBLIC_CONVEX_SITE_URL, CONVEX_DEPLOYMENT, rules.Slots(lines));
    KeysDiffer();
    hide Rules.KeyLines, Rules.CanonicalLine, Rules.Slots, UpdateRules;
    r := [];
    if NEXT_PUBLIC_CONVEX_URL !in seen { r := r + [rules.CanonicalLine(NEXT_PUBLIC_CONVEX_URL)]; }
    if NEXT_PUBLIC_CONVEX_SITE_URL !in seen { r := r + [rules.CanonicalLine(NEXT_PUBLIC_CONVEX_SITE_URL)]; }
    if o.deploymentName != "" && !seenDeployment { r := r + [rules.CanonicalLine(CONVEX_DEPLOYMENT)]; }
  }

  method MissingAuthLines(o: EnvOptions, seen: set<string>, seenDeployment: bool, ghost lines: seq<string>)
    returns (r: seq<string>)
    requires UpdateRules(o).Slots(lines) == seen + if seenDeployment then {CONVEX_DEPLOYMENT} else {}
    ensures r == NewAuth(o, lines)
  {
    var rules := UpdateRules(o);
    KeyLinesOfThree(rules, SELF_HOSTED_URL, SELF_HOSTED_ADMIN_KEY, CONVEX_DEPLOYMENT, rules.Slots(lines));
    KeysDiffer();
    hide Rules.KeyLines, Rules.CanonicalLine, Rules.Slots, UpdateRules;
    r := [];
    if SELF_HOSTED_URL !in seen { r := r + [rules.CanonicalLine(SELF_HOSTED_URL)]; }
    if SELF_HOSTED_ADMIN_KEY !in seen { r := r + [rules.CanonicalLine(SELF_HOSTED_ADMIN_KEY)]; }
  }

  function OneKeyLine(r: Rules, key: string, seen: set<string>): seq<string> {
    if key in seen then [] else [r.CanonicalLine(key)]
  }

  lemma KeyLinesOfThree(r: Rules, a: string, b: string, c: string, seen: set<string>)
    ensures r.KeyLines([a, b], seen) == OneKeyLine(r, a, seen) + OneKeyLine(r, b, seen)
    ensures r.KeyLines([a, b] + [c], seen)
         == OneKeyLine(r, a, seen) + OneKeyLine(r, b, seen) + OneKeyLine(r, c, seen)
    ensures [a, b] + [] == [a, b]
  {
    hide Rules.CanonicalLine;
    assert [a, b][1..] == [b] && [b][1..] == [] && [c][1..] == [];
    assert ([a, b] + [c])[1..] == [b, c] && [b, c][1..] == [c];
    assert r.KeyLines([c], seen) == OneKeyLine(r, c, seen) + [] == OneKeyLine(r, c, seen);
    assert r.KeyLines([b], seen) == OneKeyLine(r, b, seen) + [] == OneKeyLine(r, b, seen);
    assert r.KeyLines([b, c], seen) == OneKeyLine(r, b, seen) + OneKeyLine(r, c, seen);
  }

  // ---- the rules are well formed ----------------------------------------------------------

  lemma KeysDiffer()
    ensures var all :=
              [NEXT_PUBLIC_CONVEX_URL, NEXT_PUBLIC_CONVEX_SITE_URL, CONVEX_DEPLOYMENT,
               SELF_HOSTED_URL, SELF_HOSTED_ADMIN_KEY];
            forall i, j :: 0 <= i < j < 5 ==> all[i] != all[j]
  {
    assert NEXT_PUBLIC_CONVEX_URL[0] != SELF_HOSTED_URL[0];
  }

  lemma ManagedAreNotInherited()
    ensures !Inherited(CONVEX_DEPLOYMENT) && !Inherited(SELF_HOSTED_URL) && !Inherited(SELF_HOSTED_ADMIN_KEY)
    ensures !Inherited(NEXT_PUBLIC_CONVEX_URL) && !Inherited(NEXT_PUBLIC_CONVEX_SITE_URL)
  {
    InheritedStart(CONVEX_DEPLOYMENT);
    InheritedStart(SELF_HOSTED_URL);
    InheritedStart(SELF_HOSTED_ADMIN_KEY);
    InheritedStart(NEXT_PUBLIC_CONVEX_URL);
    InheritedStart(NEXT_PUBLIC_CONVEX_SITE_URL);
  }

  /** No inherited name starts with a capital letter. */
  lemma InheritedStart(name: string)
    requires name != "" && 'A' <= name[0] <= 'Z'
    ensures !Inherited(name)
  {
  }

  lemma UpdateRulesValid(o: EnvOptions)
    ensures UpdateRules(o).Valid()
  {
    hide IsIdent, Inherited, IsDeploymentLine, ParseLine;
    ManagedIdents();
    ManagedAreNotInherited();
    KeysDiffer();
    if Named(o) { DeploymentLineIsInert(o); }
  }

  lemma ProperWhenSelfSlotted(r: Rules, keys: seq<string>)
    requires r.Valid()
    requires forall i :: 0 <= i < |keys| ==> r.Claims(keys[i]) && r.SelfSlotted(keys[i]) && IsIdent(keys[i])
    requires forall i, j :: 0 <= i < j < |keys| ==> keys[i] != keys[j]
    ensures ProperKeys(r, keys)
  {
    hide IsIdent, Rules.Slot, Rules.CanonicalLine, Rules.Valid, Rules.Claims, Rules.SelfSlotted;
    forall i | 0 <= i < |keys|
      ensures r.Slot(r.CanonicalLine(keys[i])) == Some(keys[i])
    {
      r.CanonicalSlot(keys[i]);
    }
  }

  lemma RequiredAreProper(o: EnvOptions)
    ensures ProperKeys(UpdateRules(o), PublicKeys(o)) && ProperKeys(UpdateRules(o), AuthKeys())
    ensures forall k :: k in RequiredSlots(o) ==> UpdateRules(o).SelfSlotted(k) && IsIdent(k)
  {
    hide IsIdent, Inherited, IsDeploymentLine, ParseLine, ProperKeys, Rules.Valid;
    UpdateRulesValid(o);
    ManagedIdents();
    KeysDiffer();
    ProperWhenSelfSlotted(UpdateRules(o), PublicKeys(o));
    ProperWhenSelfSlotted(UpdateRules(o), AuthKeys());
  }
}
