/** The promises of `updateEnvContent`: a map update, a canonical layout, and when a second run changes nothing. */
module EnvPromises {
  import opened JsText
  import opened EnvLine
  import opened EnvRules
  import opened EnvRewrite
  import opened EnvFile
  import opened EnvUpdate
  import opened EnvName
  import opened EnvLate

  // ---- the parsed environment -------------------------------------------------------------

  lemma ParseUnderComments(o: EnvOptions, lines: seq<string>, key: string)
    requires key !in UpdateRules(o).Slots(lines + Appended(o, lines))
    ensures Lookup(ParseLines(lines + Appended(o, lines)), key) == Lookup(ParseLines(lines), key)
  {
    hide UpdateRules, Rules.Slot, Rules.Unslotted, Rules.Body, Rules.Slots, ParseLine, ParseLines, Appended,
         PublicHeader, AuthHeader, Rules.Valid, RequiredSlots;
    var r := UpdateRules(o);
    UpdateRulesValid(o);
    RewriteIsBody(o, lines);
    ParseOfUnowned(r, lines, key);
    ParseOfUnowned(r, lines + Appended(o, lines), key);
    UnslottedAppend(r, lines, Appended(o, lines));
    CommentsAre(o, lines);
    HeadersHaveNoSlot(r);
    BlankHasNoSlot(r);
    InertLinesParseToNothing(r.Unslotted(lines), Comments(o, lines));
  }

  lemma RewrittenEnvironment(o: EnvOptions, lines: seq<string>, key: string)
    ensures Lookup(ParseLines(Rewrite(o, lines)), key) ==
            if key in ManagedValues(o) then Some(Escape(ManagedValues(o)[key]))
            else if Inherited(key) || (key == CONVEX_DEPLOYMENT && Named(o)) then None
            else Lookup(ParseLines(lines), key)
  {
    hide UpdateRules, Rules.Slot, Rules.Body, Rules.Slots, ParseLine, ParseLines, Appended, PublicHeader,
         AuthHeader, Rules.Valid, RequiredSlots, Inherited, Escape, Rewrite, ManagedValues, IsIdent;
    var r := UpdateRules(o);
    var all := lines + Appended(o, lines);
    UpdateRulesValid(o);
    RewriteIsBody(o, lines);
    RewriteEffect(r, all, key);
    RulesOf(o);
    RequiredSlotsAre(o, key);
    if key in r.Slots(all) {
      SlotsAreIdents(r, all, key);
      EffectOf(r, key);
    } else {
      ParseUnderComments(o, lines, key);
      if r.Claims(key) { NoSlotNoKey(r, all, key); }
    }
  }

  lemma RulesOf(o: EnvOptions)
    ensures UpdateRules(o).values == ManagedValues(o) && !UpdateRules(o).quoteInherited
    ensures UpdateRules(o).deployment.Some? <==> Named(o)
    ensures CONVEX_DEPLOYMENT !in ManagedValues(o)
    ensures forall k :: k in ManagedValues(o) ==> !Inherited(k)
  {
    hide ManagedValues, Inherited, IsIdent, IsDeploymentLine, ParseLine;
    UpdateRulesValid(o);
    DeploymentOfRules(o);
  }

  lemma RequiredSlotsAre(o: EnvOptions, key: string)
    ensures key in RequiredSlots(o) <==> key in ManagedValues(o) || (key == CONVEX_DEPLOYMENT && Named(o))
  {
    InKeySet(PublicKeys(o));
    InKeySet(AuthKeys());
  }

  /**
   * The file written parses to the file read with the four managed keys holding their escaped
   * values, the inherited names gone and, when a deployment is named, no CONVEX_DEPLOYMENT; but a
   * key that the name's later lines assign, and nothing after them, holds what they assign.
   */
  lemma UpdatedEnvironment(content: string, o: EnvOptions, key: string)
    ensures Lookup(ParseEnv(UpdatedText(content, o)), key) ==
            if NameDecides(content, o, key) then Some(NameEnv(o)[key])
            else if key in ManagedValues(o) then Some(Escape(ManagedValues(o)[key]))
            else if Inherited(key) || (key == CONVEX_DEPLOYMENT && Named(o)) then None
            else Lookup(ParseEnv(content), key)
  {
    hide UpdatedText, Rewrite, InputLines, SplitLines, ParseLine, ParseLines, Inherited, Escape, ManagedValues,
         NameDecides, NameEnv;
    ParseOfUpdatedExactly(content, o, key);
    InputParses(content);
    RewrittenEnvironment(o, InputLines(content), key);
  }

  /** A name of one line overrides nothing. */
  lemma OneLineNameDecidesNothing(content: string, o: EnvOptions, key: string)
    requires CleanName(o)
    ensures NameEnv(o) == map[] && !NameDecides(content, o, key)
  {
    hide NameLines, AfterDeployment;
    OneLineName(o);
  }

  /** Which option each managed variable reads: a distinct site URL where there is one, else the cloud URL. */
  lemma ManagedReadBack(content: string, o: EnvOptions)
    requires CleanName(o)
    ensures var env := ParseEnv(UpdatedText(content, o));
            && Lookup(env, NEXT_PUBLIC_CONVEX_URL) == Some(Escape(o.convexUrl))
            && (o.siteUrl != "" ==> Lookup(env, NEXT_PUBLIC_CONVEX_SITE_URL) == Some(Escape(o.siteUrl)))
            && (o.siteUrl == "" ==> Lookup(env, NEXT_PUBLIC_CONVEX_SITE_URL) == Some(Escape(o.convexUrl)))
            && Lookup(env, SELF_HOSTED_URL) == Some(Escape(o.convexUrl))
            && Lookup(env, SELF_HOSTED_ADMIN_KEY) == Some(Escape(o.adminKey))
    ensures EscapeFree(o.convexUrl) ==> Escape(o.convexUrl) == o.convexUrl
    ensures EscapeFree(o.siteUrl) ==> Escape(o.siteUrl) == o.siteUrl
    ensures EscapeFree(o.adminKey) ==> Escape(o.adminKey) == o.adminKey
  {
    hide UpdatedText, ParseEnv, Escape, EscapeFree, Inherited, NameDecides, NameEnv;
    KeysDiffer();
    UpdatedEnvironment(content, o, NEXT_PUBLIC_CONVEX_URL);
    UpdatedEnvironment(content, o, NEXT_PUBLIC_CONVEX_SITE_URL);
    UpdatedEnvironment(content, o, SELF_HOSTED_URL);
    UpdatedEnvironment(content, o, SELF_HOSTED_ADMIN_KEY);
    OneLineNameDecidesNothing(content, o, NEXT_PUBLIC_CONVEX_URL);
    OneLineNameDecidesNothing(content, o, NEXT_PUBLIC_CONVEX_SITE_URL);
    OneLineNameDecidesNothing(content, o, SELF_HOSTED_URL);
    OneLineNameDecidesNothing(content, o, SELF_HOSTED_ADMIN_KEY);
    EscapeFixesExactlyEscapeFree(o.convexUrl);
    EscapeFixesExactlyEscapeFree(o.siteUrl);
    EscapeFixesExactlyEscapeFree(o.adminKey);
  }

  /** The map update the rewriter stands for. */
  function MapUpdate(env: map<string, string>, o: EnvOptions): map<string, string> {
    (env - if Named(o) then {CONVEX_DEPLOYMENT} else {}) + ManagedValues(o)
  }

  ghost predicate PlainValues(o: EnvOptions) {
    forall k :: k in ManagedValues(o) ==> EscapeFree(ManagedValues(o)[k])
  }

  ghost predicate PlainKeys(env: map<string, string>) {
    forall k :: k in env ==> !Inherited(k)
  }

  /** What has to be true of one key for the rewriter to be that map update there. */
  predicate UpdatesAsMap(content: string, o: EnvOptions, k: string) {
    if NameDecides(content, o, k) then Lookup(MapUpdate(ParseEnv(content), o), k) == Some(NameEnv(o)[k])
    else if k in ManagedValues(o) then EscapeFree(ManagedValues(o)[k])
    else (k == CONVEX_DEPLOYMENT && Named(o)) || k !in ParseEnv(content) || !Inherited(k)
  }

  lemma SameLookups(a: map<string, string>, b: map<string, string>)
    requires forall k :: Lookup(a, k) == Lookup(b, k)
    ensures a == b
  {
    forall k ensures k in a <==> k in b { assert Lookup(a, k) == Lookup(b, k); }
    forall k | k in a ensures a[k] == b[k] { assert Lookup(a, k) == Lookup(b, k); }
  }

  lemma MapUpdateAt(content: string, o: EnvOptions, k: string)
    ensures Lookup(ParseEnv(UpdatedText(content, o)), k) == Lookup(MapUpdate(ParseEnv(content), o), k)
       <==> UpdatesAsMap(content, o, k)
  {
    hide UpdatedText, ParseEnv, Inherited, Escape, EscapeFree, ManagedValues, NameDecides, NameEnv;
    UpdatedEnvironment(content, o, k);
    RulesOf(o);
    if k in ManagedValues(o) { EscapeFixesExactlyEscapeFree(ManagedValues(o)[k]); }
  }

  /** The rewriter is that map update exactly when it is so key by key. */
  lemma MapUpdateExact(content: string, o: EnvOptions)
    ensures ParseEnv(UpdatedText(content, o)) == MapUpdate(ParseEnv(content), o)
       <==> forall k :: UpdatesAsMap(content, o, k)
  {
    hide UpdatedText, ParseEnv, MapUpdate, UpdatesAsMap;
    var after, want := ParseEnv(UpdatedText(content, o)), MapUpdate(ParseEnv(content), o);
    forall k ensures Lookup(after, k) == Lookup(want, k) <==> UpdatesAsMap(content, o, k) {
      MapUpdateAt(content, o, k);
    }
    if forall k :: UpdatesAsMap(content, o, k) { SameLookups(after, want); }
  }

  /** With a name of one line: exactly when no value needs escaping and no key is an inherited name. */
  lemma PlainMapUpdateExact(content: string, o: EnvOptions)
    requires CleanName(o)
    ensures ParseEnv(UpdatedText(content, o)) == MapUpdate(ParseEnv(content), o)
       <==> PlainValues(o) && PlainKeys(ParseEnv(content))
  {
    hide UpdatedText, ParseEnv, Inherited, EscapeFree, ManagedValues, MapUpdate, NameDecides, NameEnv;
    MapUpdateExact(content, o);
    RulesOf(o);
    ManagedAreNotInherited();
    forall k
      ensures UpdatesAsMap(content, o, k)
         <==> if k in ManagedValues(o) then EscapeFree(ManagedValues(o)[k])
              else (k == CONVEX_DEPLOYMENT && Named(o)) || k !in ParseEnv(content) || !Inherited(k)
    {
      OneLineNameDecidesNothing(content, o, k);
      }
  }
}
