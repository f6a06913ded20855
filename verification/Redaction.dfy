/** The redaction both the CLI and the dashboard apply before showing server JSON. */
module Redaction {
  import opened JsText
  import opened JsonTree

  const SENSITIVE := ["token", "secret", "password", "key", "env", "admin", "instance", "database"]

  /** What `"[redacted]"` is as a JSON value. */
  const REDACTED := Scalar("\"[redacted]\"")

  predicate Includes(s: string, part: string) {
    part <= s || (s != "" && Includes(s[1..], part))
  }

  lemma {:induction false} IncludesExactly(s: string, part: string)
    ensures Includes(s, part) <==> exists i :: 0 <= i <= |s| && part <= s[i..]
  {
    assert s[0..] == s;
    if s != "" {
      IncludesExactly(s[1..], part);
      assert forall i :: 0 <= i < |s| ==> s[1..][i..] == s[i + 1..];
      if i :| 0 <= i <= |s| && part <= s[i..] {
        assert i > 0 ==> part <= s[1..][i - 1..];
      }
      if i :| 0 <= i <= |s[1..]| && part <= s[1..][i..] {
        assert part <= s[i + 1..];
      }
    }
  }

  /** `lower` is `toLowerCase`. */
  predicate IsSensitiveKey(lower: string -> string, key: string) {
    exists bad :: bad in SENSITIVE && Includes(lower(key), bad)
  }

  /** A key is sensitive exactly when its lower case holds one of eight words. */
  lemma SensitiveExactly(lower: string -> string, key: string)
    ensures IsSensitiveKey(lower, key) <==>
      || Includes(lower(key), "token") || Includes(lower(key), "secret") || Includes(lower(key), "password")
      || Includes(lower(key), "key") || Includes(lower(key), "env") || Includes(lower(key), "admin")
      || Includes(lower(key), "instance") || Includes(lower(key), "database")
  {
    hide Includes;
    assert SENSITIVE[0] == "token" && SENSITIVE[1] == "secret" && SENSITIVE[2] == "password" && SENSITIVE[3] == "key";
    assert SENSITIVE[4] == "env" && SENSITIVE[5] == "admin" && SENSITIVE[6] == "instance" && SENSITIVE[7] == "database";
  }

  /** A word in the middle of a key is found. */
  lemma WordInside(front: string, word: string, back: string)
    ensures Includes(front + word + back, word)
  {
    var s := front + word + back;
    assert s[|front|..] == word + back;
    IncludesExactly(s, word);
  }

  /** Assigning to `out["__proto__"]` sets a prototype and adds no property. */
  predicate Assignable(key: string) {
    key != "__proto__"
  }

  function Kept(fields: seq<Field>): (kept: seq<Field>)
    ensures forall f :: f in kept ==> f in fields && Assignable(f.key)
  {
    if fields == [] then []
    else
      var n := |fields| - 1;
      Kept(fields[..n]) + if Assignable(fields[n].key) then [fields[n]] else []
  }

  function Redact(lower: string -> string, v: Json): Json
    decreases v
  {
    match v
    case JsonArray(elements) =>
      JsonArray(seq(|elements|, i requires 0 <= i < |elements| => Redact(lower, elements[i])))
    case JsonObject(fields) =>
      JsonObject(Kept(seq(|fields|, i requires 0 <= i < |fields| => RedactField(lower, fields[i]))))
    case Scalar(_) => v
  }

  function RedactField(lower: string -> string, f: Field): (r: Field)
    ensures r.key == f.key
    decreases f
  {
    Field(f.key, if IsSensitiveKey(lower, f.key) then REDACTED else Redact(lower, f.value))
  }

  method RedactJson(lower: string -> string, v: Json) returns (r: Json)
    ensures r == Redact(lower, v)
    decreases v
  {
    hide IsSensitiveKey;
    match v {
      case JsonArray(elements) =>
        var out: seq<Json> := [];
        for i := 0 to |elements|
          invariant |out| == i && forall k :: 0 <= k < i ==> out[k] == Redact(lower, elements[k])
        {
          var x := RedactJson(lower, elements[i]);
          out := out + [x];
        }
        return JsonArray(out);
      case JsonObject(fields) =>
        var out: seq<Field> := [];
        ghost var all := seq(|fields|, i requires 0 <= i < |fields| => RedactField(lower, fields[i]));
        for i := 0 to |fields|
          invariant out == Kept(all[..i])
        {
          var value := REDACTED;
          if !IsSensitiveKey(lower, fields[i].key) {
            value := RedactJson(lower, fields[i].value);
          }
          assert all[..i + 1][..i] == all[..i];
          if Assignable(fields[i].key) {
            out := out + [Field(fields[i].key, value)];
          }
        }
        assert all[..|fields|] == all;
        return JsonObject(out);
      case Scalar(_) =>
        return v;
    }
  }

  // ---- non-interference -------------------------------------------------------------------

  /** Equal but for what stands beneath sensitive keys (and properties named `__proto__`). */
  ghost predicate AgreeOutside(lower: string -> string, a: Json, b: Json)
    decreases a
  {
    match (a, b)
    case (JsonArray(xs), JsonArray(ys)) =>
      |xs| == |ys| && forall i :: 0 <= i < |xs| ==> AgreeOutside(lower, xs[i], ys[i])
    case (JsonObject(fs), JsonObject(gs)) =>
      var kf, kg := Kept(fs), Kept(gs);
      |kf| == |kg| && forall i :: 0 <= i < |kf| ==>
        kf[i].key == kg[i].key && (IsSensitiveKey(lower, kf[i].key) || AgreeOutside(lower, kf[i].value, kg[i].value))
    case (Scalar(_), Scalar(_)) => a == b
    case _ => false
  }

  lemma {:induction false} KeptOfRedacted(lower: string -> string, fields: seq<Field>, all: seq<Field>)
    requires |all| == |fields| && forall i :: 0 <= i < |fields| ==> all[i] == RedactField(lower, fields[i])
    ensures |Kept(all)| == |Kept(fields)|
    ensures forall i :: 0 <= i < |Kept(fields)| ==> Kept(all)[i] == RedactField(lower, Kept(fields)[i])
  {
    hide RedactField, Assignable;
    if fields != [] {
      var n := |fields| - 1;
      KeptOfRedacted(lower, fields[..n], all[..n]);
      assert all[n].key == fields[n].key;
    }
  }

  lemma RedactedFields(lower: string -> string, fields: seq<Field>)
    ensures var r := Redact(lower, JsonObject(fields)); var kept := Kept(fields);
      && r.JsonObject? && |r.fields| == |kept|
      && forall i :: 0 <= i < |kept| ==> r.fields[i] == RedactField(lower, kept[i])
  {
    hide RedactField, Kept;
    var all := seq(|fields|, i requires 0 <= i < |fields| => RedactField(lower, fields[i]));
    KeptOfRedacted(lower, fields, all);
  }

  /** Two trees redact to the same tree exactly when they differ only beneath sensitive keys. */
  lemma {:induction false} RedactHidesExactlySensitive(lower: string -> string, a: Json, b: Json)
    ensures Redact(lower, a) == Redact(lower, b) <==> AgreeOutside(lower, a, b)
    decreases a
  {
    hide IsSensitiveKey, Kept;
    match (a, b)
    case (JsonArray(xs), JsonArray(ys)) =>
      ArrayCase(lower, xs, ys);
      forall i | 0 <= i < |xs| && |xs| == |ys|
        ensures Redact(lower, xs[i]) == Redact(lower, ys[i]) <==> AgreeOutside(lower, xs[i], ys[i])
      {
        RedactHidesExactlySensitive(lower, xs[i], ys[i]);
      }
    case (JsonObject(fs), JsonObject(gs)) =>
      var kf, kg := Kept(fs), Kept(gs);
      ObjectCase(lower, fs, gs);
      forall i | 0 <= i < |kf| && |kf| == |kg|
        ensures Redact(lower, kf[i].value) == Redact(lower, kg[i].value)
          <==> AgreeOutside(lower, kf[i].value, kg[i].value)
      {
        assert kf[i] in fs;
        RedactHidesExactlySensitive(lower, kf[i].value, kg[i].value);
      }
    case _ =>
  }

  lemma ArrayCase(lower: string -> string, xs: seq<Json>, ys: seq<Json>)
    ensures Redact(lower, JsonArray(xs)) == Redact(lower, JsonArray(ys)) <==>
      |xs| == |ys| && forall i :: 0 <= i < |xs| ==> Redact(lower, xs[i]) == Redact(lower, ys[i])
  {
    var a, b := Redact(lower, JsonArray(xs)).elements, Redact(lower, JsonArray(ys)).elements;
    assert forall i :: 0 <= i < |xs| ==> a[i] == Redact(lower, xs[i]);
    assert forall i :: 0 <= i < |ys| ==> b[i] == Redact(lower, ys[i]);
    assert a == b <==> |xs| == |ys| && forall i :: 0 <= i < |xs| ==> a[i] == b[i];
  }

  lemma ObjectCase(lower: string -> string, fs: seq<Field>, gs: seq<Field>)
    ensures var kf, kg := Kept(fs), Kept(gs);
      Redact(lower, JsonObject(fs)) == Redact(lower, JsonObject(gs)) <==>
        |kf| == |kg| && forall i :: 0 <= i < |kf| ==>
          && kf[i].key == kg[i].key
          && (IsSensitiveKey(lower, kf[i].key) || Redact(lower, kf[i].value) == Redact(lower, kg[i].value))
  {
    hide IsSensitiveKey, Kept;
    RedactedFields(lower, fs);
    RedactedFields(lower, gs);
    hide Redact;
    var a, b := Redact(lower, JsonObject(fs)), Redact(lower, JsonObject(gs));
    assert a == b <==> a.fields == b.fields;
  }

  /** Nothing but what stands beneath sensitive keys is changed. */
  lemma {:induction false} RedactKeepsTheRest(lower: string -> string, v: Json)
    ensures AgreeOutside(lower, Redact(lower, v), v)
    ensures Redact(lower, Redact(lower, v)) == Redact(lower, v)
    decreases v
  {
    RedactIsIdempotent(lower, v);
    RedactHidesExactlySensitive(lower, Redact(lower, v), v);
  }

  lemma {:induction false} KeptOfKept(fields: seq<Field>)
    requires forall f :: f in fields ==> Assignable(f.key)
    ensures Kept(fields) == fields
  {
    hide Assignable;
    if fields != [] {
      var n := |fields| - 1;
      assert fields == fields[..n] + [fields[n]] && fields[n] in fields;
      KeptOfKept(fields[..n]);
    }
  }

  lemma {:induction false} RedactIsIdempotent(lower: string -> string, v: Json)
    ensures Redact(lower, Redact(lower, v)) == Redact(lower, v)
    decreases v
  {
    hide IsSensitiveKey, Kept;
    match v
    case JsonArray(xs) =>
      forall i | 0 <= i < |xs| ensures Redact(lower, Redact(lower, xs[i])) == Redact(lower, xs[i]) {
        RedactIsIdempotent(lower, xs[i]);
      }
    case JsonObject(fs) =>
      var kf := Kept(fs);
      RedactedFields(lower, fs);
      var r := Redact(lower, v);
      KeptOfKept(r.fields);
      RedactedFields(lower, r.fields);
      forall i | 0 <= i < |kf| ensures RedactField(lower, r.fields[i]) == r.fields[i] {
        assert kf[i] in fs;
        RedactIsIdempotent(lower, kf[i].value);
      }
      assert Redact(lower, r).fields == r.fields;
    case Scalar(_) =>
  }

  /** Beneath every sensitive key of the result, at any depth, stands the placeholder. */
  ghost predicate Clean(lower: string -> string, v: Json)
    decreases v
  {
    match v
    case JsonArray(elements) => forall i :: 0 <= i < |elements| ==> Clean(lower, elements[i])
    case JsonObject(fields) => forall i :: 0 <= i < |fields| ==>
      if IsSensitiveKey(lower, fields[i].key) then fields[i].value == REDACTED else Clean(lower, fields[i].value)
    case Scalar(_) => true
  }

  lemma {:induction false} RedactedIsClean(lower: string -> string, v: Json)
    ensures Clean(lower, Redact(lower, v))
    decreases v
  {
    hide IsSensitiveKey, Kept;
    match v
    case JsonArray(xs) =>
      forall i | 0 <= i < |xs| ensures Clean(lower, Redact(lower, xs[i])) { RedactedIsClean(lower, xs[i]); }
    case JsonObject(fs) =>
      var kf := Kept(fs);
      RedactedFields(lower, fs);
      forall i | 0 <= i < |kf| ensures Clean(lower, Redact(lower, kf[i].value)) {
        assert kf[i] in fs;
        RedactedIsClean(lower, kf[i].value);
      }
    case Scalar(_) =>
  }

  /** What stands at a path of positions, counted through arrays and properties alike. */
  function Beneath(v: Json, path: seq<nat>): Option<Json>
    decreases |path|
  {
    if path == [] then Some(v)
    else
      match v
      case JsonArray(elements) => if path[0] < |elements| then Beneath(elements[path[0]], path[1..]) else None
      case JsonObject(fields) => if path[0] < |fields| then Beneath(fields[path[0]].value, path[1..]) else None
      case Scalar(_) => None
  }

  /** Wherever one looks in the result, a property with a sensitive key holds the placeholder. */
  lemma PlaceholderEverywhere(lower: string -> string, v: Json, path: seq<nat>)
    ensures match Beneath(Redact(lower, v), path)
            case Some(JsonObject(fields)) =>
              forall f :: f in fields && IsSensitiveKey(lower, f.key) ==> f.value == Scalar("\"[redacted]\"")
            case _ => true
  {
    RedactedIsClean(lower, v);
    CleanBeneath(lower, Redact(lower, v), path);
  }

  lemma {:induction false} CleanBeneath(lower: string -> string, v: Json, path: seq<nat>)
    requires Clean(lower, v)
    ensures match Beneath(v, path)
            case Some(u) => Clean(lower, u)
            case None => true
    decreases |path|
  {
    hide IsSensitiveKey;
    if path != [] {
      match v
      case JsonArray(elements) =>
        if path[0] < |elements| { CleanBeneath(lower, elements[path[0]], path[1..]); }
      case JsonObject(fields) =>
        if path[0] < |fields| {
          assert Clean(lower, fields[path[0]].value);
          CleanBeneath(lower, fields[path[0]].value, path[1..]);
        }
      case Scalar(_) =>
    }
  }

  /** Every property stays in its place under its key, its value redacted or replaced. */
  lemma EveryFieldStays(lower: string -> string, fields: seq<Field>)
    requires forall f :: f in fields ==> f.key != "__proto__"
    ensures var r := Redact(lower, JsonObject(fields));
      && r.JsonObject? && |r.fields| == |fields|
      && forall i :: 0 <= i < |fields| ==>
        && r.fields[i].key == fields[i].key
        && r.fields[i].value ==
             if IsSensitiveKey(lower, fields[i].key) then Scalar("\"[redacted]\"") else Redact(lower, fields[i].value)
  {
    hide IsSensitiveKey, Kept;
    KeptOfKept(fields);
    RedactedFields(lower, fields);
  }

  /** Only a property named `__proto__` is lost. */
  lemma ProtoIsDropped(lower: string -> string, before: seq<Field>, v: Json, after: seq<Field>)
    ensures Redact(lower, JsonObject(before + [Field("__proto__", v)] + after)) ==
      Redact(lower, JsonObject(before + after))
  {
    hide RedactField, Kept;
    var all := before + [Field("__proto__", v)] + after;
    KeptAppend(before, [Field("__proto__", v)]);
    KeptAppend(before + [Field("__proto__", v)], after);
    KeptAppend(before, after);
    KeptOne(Field("__proto__", v));
    RedactedFields(lower, all);
    RedactedFields(lower, before + after);
    assert Redact(lower, JsonObject(all)).fields == Redact(lower, JsonObject(before + after)).fields;
  }

  lemma KeptSnoc(fields: seq<Field>, f: Field)
    ensures Kept(fields + [f]) == Kept(fields) + if Assignable(f.key) then [f] else []
  {
    hide Assignable;
    assert (fields + [f])[..|fields|] == fields;
  }

  lemma KeptOne(f: Field)
    ensures Kept([f]) == if Assignable(f.key) then [f] else []
  {
    hide Assignable;
    assert Kept([f][..0]) == [];
  }

  lemma {:induction false} KeptAppend(a: seq<Field>, b: seq<Field>)
    ensures Kept(a + b) == Kept(a) + Kept(b)
  {
    if b == [] {
      assert a + b == a && Kept(b) == [];
    } else {
      hide Kept, Assignable;
      var init, last := b[..|b| - 1], b[|b| - 1];
      assert b == init + [last] && a + b == (a + init) + [last];
      KeptAppend(a, init);
      KeptSnoc(init, last);
      KeptSnoc(a + init, last);
    }
  }
}
