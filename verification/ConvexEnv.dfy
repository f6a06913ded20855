/** The environment `npx convex` is spawned with, laid over the `.env.local` it loads by itself. */
module ConvexEnv {
  import opened JsText
  import opened EnvLine
  import opened EnvRules
  import opened EnvRewrite
  import opened EnvFile
  import opened EnvUpdate
  import opened EnvName
  import opened EnvLate
  import opened EnvPromises
  import opened EnvGuard

  type Env = map<string, string>

  /** `env[key]` used as a condition: set and not empty. */
  predicate Truthy(env: Env, key: string) {
    key in env && env[key] != ""
  }

  function EnvFromCredentials(c: Option<Credentials>): seq<(string, string)> {
    match c
    case None => []
    case Some(cred) => [(SELF_HOSTED_URL, cred.convexUrl), (SELF_HOSTED_ADMIN_KEY, cred.adminKey)]
  }

  /** Fill in what the process environment leaves unset or empty. */
  function Filled(env: Env, projectEnv: Env, keys: seq<string>): Env {
    if keys == [] then env
    else
      var e := Filled(env, projectEnv, keys[..|keys| - 1]);
      var key := keys[|keys| - 1];
      if !Truthy(e, key) && Truthy(projectEnv, key) then e[key := projectEnv[key]] else e
  }

  function Overridden(env: Env, overrides: seq<(string, string)>): Env {
    if overrides == [] then env
    else
      var e := Overridden(env, overrides[..|overrides| - 1]);
      var (key, value) := overrides[|overrides| - 1];
      if value != "" then e[key := value] else e
  }

  function SpawnEnv(source: Env, projectEnv: Env, overrides: seq<(string, string)>): Env {
    var env := Overridden(Filled(source, projectEnv, AuthKeys()), overrides);
    if Truthy(env, SELF_HOSTED_URL) && Truthy(env, SELF_HOSTED_ADMIN_KEY) then env - {CONVEX_DEPLOYMENT} else env
  }

  method BuildConvexEnv(source: Env, projectEnv: Env, overrides: seq<(string, string)>) returns (env: Env)
    ensures env == SpawnEnv(source, projectEnv, overrides)
  {
    env := source;
    var keys := AuthKeys();
    for i := 0 to |keys|
      invariant env == Filled(source, projectEnv, keys[..i])
    {
      assert keys[..i + 1][..i] == keys[..i];
      var key := keys[i];
      if !Truthy(env, key) && Truthy(projectEnv, key) {
        env := env[key := projectEnv[key]];
      }
    }
    assert keys[..|keys|] == keys;
    ghost var filled := env;
    for i := 0 to |overrides|
      invariant env == Overridden(filled, overrides[..i])
    {
      assert overrides[..i + 1][..i] == overrides[..i];
      var (key, value) := overrides[i];
      if value != "" {
        env := env[key := value];
      }
    }
    assert overrides[..|overrides|] == overrides;
    if Truthy(env, SELF_HOSTED_URL) && Truthy(env, SELF_HOSTED_ADMIN_KEY) {
      env := env - {CONVEX_DEPLOYMENT};
    }
  }

  function FirstNonEmpty(a: string, env: Env, projectEnv: Env, key: string): Option<string> {
    if a != "" then Some(a)
    else if key in env && env[key] != "" then Some(env[key])
    else if key in projectEnv && projectEnv[key] != "" then Some(projectEnv[key])
    else if key in env then Some(env[key])
    else None
  }

  function At(env: Env, key: string): Option<string> {
    if key in env then Some(env[key]) else None
  }

  lemma FilledExact(env: Env, projectEnv: Env, key: string)
    ensures At(Filled(env, projectEnv, AuthKeys()), key) ==
      if key == SELF_HOSTED_URL || key == SELF_HOSTED_ADMIN_KEY then FirstNonEmpty("", env, projectEnv, key)
      else At(env, key)
  {
    KeysDiffer();
    hide SELF_HOSTED_URL, SELF_HOSTED_ADMIN_KEY;
    var keys := AuthKeys();
    assert keys[..1] == [keys[0]] && keys[..1][..0] == [];
    assert Filled(env, projectEnv, keys[..0]) == env;
    var one := Filled(env, projectEnv, keys[..1]);
    assert one ==
      if !Truthy(env, keys[0]) && Truthy(projectEnv, keys[0]) then env[keys[0] := projectEnv[keys[0]]] else env;
  }

  lemma OverriddenExact(filled: Env, c: Option<Credentials>, key: string)
    ensures At(Overridden(filled, EnvFromCredentials(c)), key) ==
      if c.Some? && key == SELF_HOSTED_ADMIN_KEY && c.value.adminKey != "" then Some(c.value.adminKey)
      else if c.Some? && key == SELF_HOSTED_URL && c.value.convexUrl != "" then Some(c.value.convexUrl)
      else At(filled, key)
  {
    KeysDiffer();
    hide SELF_HOSTED_URL, SELF_HOSTED_ADMIN_KEY;
    var pairs := EnvFromCredentials(c);
    if c.Some? {
      assert pairs[..1] == [pairs[0]] && pairs[..1][..0] == [];
      assert Overridden(filled, pairs[..0]) == filled;
      var one := Overridden(filled, pairs[..1]);
      assert one == if pairs[0].1 != "" then filled[pairs[0].0 := pairs[0].1] else filled;
    }
  }

  /**
   * Where each variable comes from: the two self-hosted ones from the freshly fetched credentials, else
   * the process, else the file; every other from the process; and no deployment once both are set.
   */
  lemma SpawnEnvExact(source: Env, projectEnv: Env, c: Option<Credentials>, key: string)
    ensures var env := SpawnEnv(source, projectEnv, EnvFromCredentials(c));
      && At(env, SELF_HOSTED_URL)
         == FirstNonEmpty(if c.Some? then c.value.convexUrl else "", source, projectEnv, SELF_HOSTED_URL)
      && At(env, SELF_HOSTED_ADMIN_KEY)
         == FirstNonEmpty(if c.Some? then c.value.adminKey else "", source, projectEnv, SELF_HOSTED_ADMIN_KEY)
      && At(env, CONVEX_DEPLOYMENT)
         == (if Truthy(env, SELF_HOSTED_URL) && Truthy(env, SELF_HOSTED_ADMIN_KEY) then None
             else At(source, CONVEX_DEPLOYMENT))
      && (key != CONVEX_DEPLOYMENT && key != SELF_HOSTED_URL && key != SELF_HOSTED_ADMIN_KEY ==>
            At(env, key) == At(source, key))
  {
    hide Filled, Overridden, EnvFromCredentials;
    KeysDiffer();
    var filled := Filled(source, projectEnv, AuthKeys());
    forall k ensures At(filled, k) ==
      if k == SELF_HOSTED_URL || k == SELF_HOSTED_ADMIN_KEY then FirstNonEmpty("", source, projectEnv, k)
      else At(source, k)
    {
      FilledExact(source, projectEnv, k);
    }
    OverriddenExact(filled, c, key);
    OverriddenExact(filled, c, CONVEX_DEPLOYMENT);
    OverriddenExact(filled, c, SELF_HOSTED_URL);
    OverriddenExact(filled, c, SELF_HOSTED_ADMIN_KEY);
  }

  /** What the child ends up with: dotenv adds the file's variables but overrides none it was given. */
  function ChildEnv(source: Env, file: string, c: Option<Credentials>): Env {
    ParseEnv(file) + SpawnEnv(source, ParseEnv(file), EnvFromCredentials(c))
  }

  /**
   * Where the child's variables come from: the self-hosted ones from the credentials, the process and the file in
   * this order, passing over empty values; every other from the process, then from the file.
   */
  lemma ChildReads(source: Env, file: string, c: Option<Credentials>, key: string)
    ensures var fileEnv := ParseEnv(file); var child := ChildEnv(source, file, c);
      && (key != "CONVEX_DEPLOYMENT" && key != "CONVEX_SELF_HOSTED_URL" && key != "CONVEX_SELF_HOSTED_ADMIN_KEY" ==>
            At(child, key) == if key in source then Some(source[key]) else At(fileEnv, key))
      && At(child, "CONVEX_SELF_HOSTED_URL")
         == Preferred(if c.Some? then c.value.convexUrl else "", source, fileEnv, "CONVEX_SELF_HOSTED_URL")
      && At(child, "CONVEX_SELF_HOSTED_ADMIN_KEY")
         == Preferred(if c.Some? then c.value.adminKey else "", source, fileEnv, "CONVEX_SELF_HOSTED_ADMIN_KEY")
  {
    hide ParseEnv, SpawnEnv;
    SpawnEnvExact(source, ParseEnv(file), c, key);
  }

  /** The first value that is not empty, else an empty one if there is any. */
  function Preferred(given: string, env: Env, fileEnv: Env, key: string): Option<string> {
    if given != "" then Some(given)
    else if key in env && env[key] != "" then Some(env[key])
    else if key in fileEnv then Some(fileEnv[key])
    else At(env, key)
  }

  lemma FilledTwo(env: Env, projectEnv: Env, key: string)
    requires key == SELF_HOSTED_URL || key == SELF_HOSTED_ADMIN_KEY
    ensures Truthy(env, key) || Truthy(projectEnv, key) ==> Truthy(Filled(env, projectEnv, AuthKeys()), key)
  {
    KeysDiffer();
    var keys := AuthKeys();
    assert keys[..1] == [SELF_HOSTED_URL] && keys[..1][..0] == [];
    assert Filled(env, projectEnv, keys[..0]) == env;
    var one := Filled(env, projectEnv, keys[..1]);
    assert Truthy(env, key) ==> Truthy(one, key);
    assert key == SELF_HOSTED_URL && Truthy(projectEnv, key) ==> Truthy(one, key);
  }

  lemma {:induction false} OverridesKeepTruth(env: Env, overrides: seq<(string, string)>, key: string)
    ensures Truthy(env, key) ==> Truthy(Overridden(env, overrides), key)
  {
    if overrides != [] { OverridesKeepTruth(env, overrides[..|overrides| - 1], key); }
  }

  /** A file with both self-hosted variables puts the child in self-hosted mode, whatever the process holds. */
  lemma SelfHostedFile(source: Env, file: string, c: Option<Credentials>)
    requires Truthy(ParseEnv(file), SELF_HOSTED_URL) && Truthy(ParseEnv(file), SELF_HOSTED_ADMIN_KEY)
    ensures var env := ChildEnv(source, file, c);
            && Truthy(env, SELF_HOSTED_URL) && Truthy(env, SELF_HOSTED_ADMIN_KEY)
            && (CONVEX_DEPLOYMENT in env <==> CONVEX_DEPLOYMENT in ParseEnv(file))
  {
    hide ParseEnv, Filled, Overridden, EnvFromCredentials;
    var fileEnv := ParseEnv(file);
    FilledTwo(source, fileEnv, SELF_HOSTED_URL);
    FilledTwo(source, fileEnv, SELF_HOSTED_ADMIN_KEY);
    OverridesKeepTruth(Filled(source, fileEnv, AuthKeys()), EnvFromCredentials(c), SELF_HOSTED_URL);
    OverridesKeepTruth(Filled(source, fileEnv, AuthKeys()), EnvFromCredentials(c), SELF_HOSTED_ADMIN_KEY);
    KeysDiffer();
  }

  lemma EscapeKeepsNonEmpty(v: string)
    ensures Escape(v) == "" <==> v == ""
  {
  }

  /** The name's later lines do not empty this variable. */
  predicate NotEmptied(content: string, o: EnvOptions, key: string) {
    NameDecides(content, o, key) ==> NameEnv(o)[key] != ""
  }

  /**
   * After a rewrite the child has both self-hosted variables, and Convex's other mode is active as well
   * exactly when the file assigned a deployment and none was named, or a longer name assigns one.
   */
  lemma ModesNeverMix(content: string, o: EnvOptions, source: Env, c: Option<Credentials>)
    requires Usable(o)
    ensures var env := ChildEnv(source, UpdatedText(content, o), c);
            NotEmptied(content, o, SELF_HOSTED_URL) && NotEmptied(content, o, SELF_HOSTED_ADMIN_KEY) ==>
              && Truthy(env, SELF_HOSTED_URL) && Truthy(env, SELF_HOSTED_ADMIN_KEY)
              && (CONVEX_DEPLOYMENT in env <==>
                    NameDecides(content, o, CONVEX_DEPLOYMENT) || (!Named(o) && CONVEX_DEPLOYMENT in ParseEnv(content)))
    ensures CleanName(o) ==> forall k :: !NameDecides(content, o, k) && NotEmptied(content, o, k)
  {
    hide UpdatedText, ParseEnv, Escape, Inherited, NameDecides, NameEnv;
    var file := UpdatedText(content, o);
    UpdatedEnvironment(content, o, SELF_HOSTED_URL);
    UpdatedEnvironment(content, o, SELF_HOSTED_ADMIN_KEY);
    UpdatedEnvironment(content, o, CONVEX_DEPLOYMENT);
    EscapeKeepsNonEmpty(o.convexUrl);
    EscapeKeepsNonEmpty(o.adminKey);
    KeysDiffer();
    ManagedAreNotInherited();
    if CleanName(o) {
      forall k ensures !NameDecides(content, o, k) && NotEmptied(content, o, k) {
        OneLineNameDecidesNothing(content, o, k);
      }
    }
    if NotEmptied(content, o, SELF_HOSTED_URL) && NotEmptied(content, o, SELF_HOSTED_ADMIN_KEY) {
      SelfHostedFile(source, file, c);
    }
  }
}
