/**
 * The line rewriter both `.env.local` writers share: the first line of a slot becomes its canonical
 * line, later lines of that slot are dropped, every other line is kept. The last section says what
 * such a rewrite does to the environment the file parses to.
 */
module EnvRules {
  import opened JsText
  import opened EnvLine

  /**
   * The names every plain object inherits. `assignments[key]` and `want[key]` find them like keys
   * of their own, so lines assigning them are claimed by the rewriters as well.
   */
  predicate Inherited(name: string) {
    || name == "constructor" || name == "hasOwnProperty" || name == "isPrototypeOf"
    || name == "propertyIsEnumerable" || name == "toString" || name == "valueOf"
    || name == "toLocaleString" || name == PROTO
    || name == "__defineGetter__" || name == "__defineSetter__"
    || name == "__lookupGetter__" || name == "__lookupSetter__"
  }

  const PROTO := "__proto__"

  /** The own properties of `Object.prototype`. */
  lemma InheritedNames()
    ensures Inherited("__proto__") && PROTO == "__proto__"
    ensures Inherited("constructor") && Inherited("hasOwnProperty") && Inherited("isPrototypeOf")
    ensures Inherited("propertyIsEnumerable") && Inherited("toLocaleString") && Inherited("toString")
    ensures Inherited("valueOf")
  {
  }

  /** The text V8 gives for an inherited member when it is joined into a string. */
  function NativeText(name: string): string {
    if name == PROTO then "[object Object]"
    else "function " + ((if name == "constructor" then "Object" else name) + "() { [native code] }")
  }

  /** Which keys a writer owns, what it does with an inherited name, and its deployment line. */
  datatype Rules = Rules(values: map<string, string>, quoteInherited: bool, deployment: Option<string>) {

    ghost predicate Valid() {
      && CONVEX_DEPLOYMENT !in values && !Inherited(CONVEX_DEPLOYMENT)
      && (forall k :: k in values ==> IsIdent(k) && !Inherited(k))
      && (deployment.Some? ==>
            deployment.value != "" && IsDeploymentLine(deployment.value) && ParseLine(deployment.value) == None)
    }

    predicate Claims(key: string) {
      key in values || Inherited(key) || (key == CONVEX_DEPLOYMENT && deployment.Some?)
    }

    /** The key whose canonical line takes this line's place, if the writer owns the line. */
    function Slot(line: string): (k: Option<string>)
      ensures k.Some? ==> Claims(k.value)
    {
      if IsDeploymentLine(line) then (if deployment.Some? then Some(CONVEX_DEPLOYMENT) else None)
      else match KeyFromLine(line)
        case Some(key) => if key in values || Inherited(key) then Some(key) else None
        case None => None
    }

    function CanonicalLine(key: string): string {
      if key in values then EnvAssignment(key, values[key])
      else if key == CONVEX_DEPLOYMENT && deployment.Some? then deployment.value
      else if quoteInherited then EnvAssignment(key, NativeText(key))
      else NativeText(key)
    }

    function Slots(lines: seq<string>): (s: set<string>)
      ensures forall k :: k in s ==> Claims(k)
    {
      if lines == [] then {}
      else Slots(lines[..|lines| - 1]) + SlotSet(lines[|lines| - 1])
    }

    function SlotSet(line: string): set<string> {
      match Slot(line) case None => {} case Some(k) => {k}
    }

    /** What is written for `line` once the slots in `seen` have been written. */
    function Piece(line: string, seen: set<string>): seq<string> {
      match Slot(line)
      case None => [line]
      case Some(k) => if k in seen then [] else [CanonicalLine(k)]
    }

    function Body(lines: seq<string>): seq<string> {
      if lines == [] then []
      else Body(lines[..|lines| - 1]) + Piece(lines[|lines| - 1], Slots(lines[..|lines| - 1]))
    }

    /** The canonical lines of those `keys` that are not in `seen`, in order. */
    function KeyLines(keys: seq<string>, seen: set<string>): seq<string> {
      if keys == [] then []
      else (if keys[0] in seen then [] else [CanonicalLine(keys[0])]) + KeyLines(keys[1..], seen)
    }

    function Unslotted(lines: seq<string>): (u: seq<string>)
    {
      if lines == [] then []
      else Unslotted(lines[..|lines| - 1])
           + (if Slot(lines[|lines| - 1]).None? then [lines[|lines| - 1]] else [])
    }

    function Count(lines: seq<string>, key: string): nat {
      if lines == [] then 0
      else Count(lines[..|lines| - 1], key) + if Slot(lines[|lines| - 1]) == Some(key) then 1 else 0
    }

    // ---- single lines ---------------------------------------------------------------------

    /** A slotted line assigns its own slot or nothing. */
    lemma SlotIsKey(line: string)
      requires Valid()
      ensures Slot(line).Some? && ParseLine(line).Some? ==> ParseLine(line).value.0 == Slot(line).value
      ensures Slot(line).None? && ParseLine(line).Some? ==> !Claims(ParseLine(line).value.0)
    {
      hide KeyFromLine, ParseLine;
      ParseLineIffKey(line);
      if IsDeploymentLine(line) && KeyFromLine(line) != Some(CONVEX_DEPLOYMENT) {
        CommentHasNoKey(line);
      }
    }

    lemma SlotIsIdent(line: string)
      requires Slot(line).Some?
      ensures IsIdent(Slot(line).value)
    {
      hide KeyFromLine, IsIdent;
      KeyIsIdent(line);
      ManagedIdents();
    }

    lemma ChopKeepsSlot(line: string)
      ensures Slot(ChopCR(line)) == Slot(line)
    {
      hide KeyFromLine, IsDeploymentLine;
      ChopKeepsKey(line);
      ChopKeepsDeployment(line);
    }

    /** An inherited name is written back under its own key only when the writer quotes it. */
    predicate SelfSlotted(key: string) {
      key in values || key == CONVEX_DEPLOYMENT || quoteInherited
    }

    lemma CanonicalSlot(key: string)
      requires Valid() && Claims(key) && IsIdent(key)
      ensures Slot(CanonicalLine(key)) == if SelfSlotted(key) then Some(key) else None
      ensures key != CONVEX_DEPLOYMENT ==> NoLF(CanonicalLine(key)) && !EndsWithCR(CanonicalLine(key))
      ensures CanonicalLine(key) != ""
    {
      hide KeyFromLine, ParseLine, IsIdent, EnvAssignment;
      if key in values {
        PrintedAssignment(key, values[key]);
        AssignmentIsNoDeployment(key, values[key]);
      } else if key == CONVEX_DEPLOYMENT {
      } else if quoteInherited {
        PrintedAssignment(key, NativeText(key));
        AssignmentIsNoDeployment(key, NativeText(key));
      } else {
        NativeTextHasNoKey(key);
      }
    }
  }

  /** A line with a key of its own is a deployment line only by that key. */
  lemma AssignmentIsNoDeployment(key: string, value: string)
    requires IsIdent(key) && KeyFromLine(EnvAssignment(key, value)) == Some(key)
    ensures IsDeploymentLine(EnvAssignment(key, value)) <==> key == CONVEX_DEPLOYMENT
  {
    hide KeyFromLine;
    var line := EnvAssignment(key, value);
    assert line[0] == key[0];
    assert SpaceRun(line) == 0 && SkipSpaces(line) == line;
  }

  lemma NativeTextHasNoKey(name: string)
    requires IsIdent(name)
    ensures KeyFromLine(NativeText(name)) == None && !IsDeploymentLine(NativeText(name))
    ensures NoLF(NativeText(name)) && NativeText(name) != "" && !EndsWithCR(NativeText(name))
  {
    hide KeyFromLine, IsDeploymentLine, NoLF;
    if name == PROTO {
      BracketHasNoKey(NativeText(name));
    } else {
      FunctionTextHasNoKey(if name == "constructor" then "Object" else name, "() { [native code] }") by {
        assert IdentStart("Object"[0]);
      }
    }
    NativeTextIsClean(name);
  }

  lemma NativeTextIsClean(name: string)
    requires IsIdent(name)
    ensures NoLF(NativeText(name)) && NativeText(name) != "" && !EndsWithCR(NativeText(name))
  {
    if name == PROTO {
      assert NoLF("[object Object]");
    } else {
      var shown := if name == "constructor" then "Object" else name;
      var tail := "() { [native code] }";
      assert NoLF(shown) && NoLF(tail) && NoLF("function ");
      NoLFConcat(shown, tail);
      NoLFConcat("function ", shown + tail);
      var text := "function " + (shown + tail);
      assert text[|text| - 1] == tail[|tail| - 1] == '}';
    }
  }

  lemma BracketHasNoKey(text: string)
    requires text != "" && text[0] == '['
    ensures KeyFromLine(text) == None && !IsDeploymentLine(text)
  {
    assert SpaceRun(text) == 0 && SkipSpaces(text) == text;
    assert IdentRun(text) == 0;
  }

  lemma FunctionTextHasNoKey(shown: string, tail: string)
    requires shown != "" && IdentStart(shown[0])
    ensures var text := "function " + (shown + tail); KeyFromLine(text) == None && !IsDeploymentLine(text)
  {
    var after := shown + tail;
    var text := "function " + after;
    assert text[0] == 'f' && text[8] == ' ' && text[9] == after[0] == shown[0];
    assert SpaceRun(text) == 0 && SkipSpaces(text) == text;
    FunctionRun(after);
    assert text[8..] == " " + after;
    SkipIndent(" ", after);
  }

  lemma FunctionRun(after: string)
    ensures IdentRun("function " + after) == 8
  {
    var text := "function " + after;
    assert text[0] == 'f' && text[1] == 'u' && text[2] == 'n' && text[3] == 'c';
    assert text[4] == 't' && text[5] == 'i' && text[6] == 'o' && text[7] == 'n' && text[8] == ' ';
    assert forall i :: 0 <= i < 8 ==> IdentChar(text[i]);
    assert IdentRun(text) >= 8;
  }
}
