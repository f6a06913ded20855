/** The CLI's flag parser, proved against a grammar of tokens and the text each token prints as. */
module Flags {
  import opened JsText

  /** The array form of the source's spec declares its names as strings. */
  datatype Spec = Spec(strings: set<string>, booleans: set<string>)

  /** `On` is the value `true`. */
  datatype Value = On | Text(text: string)

  datatype Token =
    | Assigned(name: string, value: string)  // --name=value
    | Spaced(name: string, value: string)    // --name value
    | Switch(name: string)                   // --name
    | Plain(arg: string)

  datatype Parsed = Parsed(flags: map<string, Value>, rest: seq<string>)

  predicate Known(spec: Spec, name: string) {
    name in spec.strings || name in spec.booleans
  }

  predicate IsDashed(arg: string) {
    "--" <= arg
  }

  /** The name a dashed argument carries, and where its `=` is (`|arg|` for none). */
  function NameOf(arg: string): string
    requires IsDashed(arg)
  {
    EqualsAfterDashes(arg);
    arg[2..IndexOf(arg, '=')]
  }

  lemma EqualsAfterDashes(arg: string)
    requires IsDashed(arg)
    ensures 2 <= IndexOf(arg, '=') <= |arg|
  {
    assert arg[0] == '-' && arg[1] == '-';
  }

  // ---- the grammar ------------------------------------------------------------------------

  function Print(t: Token): seq<string> {
    match t
    case Assigned(name, value) => ["--" + name + "=" + value]
    case Spaced(name, value) => ["--" + name, value]
    case Switch(name) => ["--" + name]
    case Plain(arg) => [arg]
  }

  function PrintAll(tokens: seq<Token>): seq<string> {
    if tokens == [] then [] else Print(tokens[0]) + PrintAll(tokens[1..])
  }

  /** What a token may be, given the arguments that follow it. */
  predicate Fits(spec: Spec, t: Token, following: seq<string>) {
    match t
    case Assigned(name, _) => Known(spec, name) && '=' !in name
    case Spaced(name, value) => name in spec.strings && '=' !in name && !IsDashed(value)
    case Switch(name) =>
      '=' !in name
      && ((name in spec.booleans && name !in spec.strings)
          || (name in spec.strings && (following == [] || IsDashed(following[0]))))
    case Plain(arg) => IsDashed(arg) ==> !Known(spec, NameOf(arg))
  }

  predicate Grammatical(spec: Spec, tokens: seq<Token>) {
    tokens == [] || (Fits(spec, tokens[0], PrintAll(tokens[1..])) && Grammatical(spec, tokens[1..]))
  }

  function ValueOf(t: Token): Value
    requires !t.Plain?
  {
    if t.Switch? then On else Text(t.value)
  }

  /** The last token that names a flag decides its value. */
  function FlagsOf(tokens: seq<Token>): map<string, Value> {
    if tokens == [] then map[]
    else
      var before, t := FlagsOf(tokens[..|tokens| - 1]), tokens[|tokens| - 1];
      if t.Plain? then before else before[t.name := ValueOf(t)]
  }

  function RestOf(tokens: seq<Token>): seq<string> {
    if tokens == [] then []
    else
      RestOf(tokens[..|tokens| - 1])
      + if tokens[|tokens| - 1].Plain? then [tokens[|tokens| - 1].arg] else []
  }

  // ---- the parser -------------------------------------------------------------------------

  /** The token that starts `args`. */
  function First(spec: Spec, args: seq<string>): (t: Token)
    requires args != []
    ensures |Print(t)| <= |args|
  {
    var a := args[0];
    if IsDashed(a) && Known(spec, NameOf(a)) then
      var name, eq := NameOf(a), IndexOf(a, '=');
      if eq < |a| then Assigned(name, a[eq + 1..])
      else if name in spec.booleans && name !in spec.strings then Switch(name)
      else if |args| == 1 || IsDashed(args[1]) then Switch(name)
      else Spaced(name, args[1])
    else Plain(a)
  }

  function Scan(spec: Spec, args: seq<string>): seq<Token>
    decreases |args|
  {
    if args == [] then []
    else
      var t := First(spec, args);
      [t] + Scan(spec, args[|Print(t)|..])
  }

  lemma Advance(spec: Spec, args: seq<string>, i: nat, tokens: seq<Token>)
    requires i < |args| && Scan(spec, args) == tokens + Scan(spec, args[i..])
    ensures var t := First(spec, args[i..]); var n := i + |Print(t)|;
      && n <= |args| && Scan(spec, args) == tokens + [t] + Scan(spec, args[n..])
      && RestOf(tokens + [t]) == RestOf(tokens) + (if t.Plain? then [t.arg] else [])
      && FlagsOf(tokens + [t]) == if t.Plain? then FlagsOf(tokens) else FlagsOf(tokens)[t.name := ValueOf(t)]
  {
    hide First, Print;
    var t := First(spec, args[i..]);
    assert args[i..][|Print(t)|..] == args[i + |Print(t)|..];
    assert (tokens + [t])[..|tokens|] == tokens;
    assert tokens + ([t] + Scan(spec, args[i + |Print(t)|..])) == tokens + [t] + Scan(spec, args[i + |Print(t)|..]);
  }

  lemma FirstAt(spec: Spec, args: seq<string>, i: nat)
    requires i < |args|
    ensures var a := args[i];
      First(spec, args[i..]) == if IsDashed(a) && Known(spec, NameOf(a)) then
        if IndexOf(a, '=') < |a| then Assigned(NameOf(a), a[IndexOf(a, '=') + 1..])
        else if NameOf(a) in spec.booleans && NameOf(a) !in spec.strings then Switch(NameOf(a))
        else if i + 1 == |args| || IsDashed(args[i + 1]) then Switch(NameOf(a))
        else Spaced(NameOf(a), args[i + 1])
      else Plain(a)
  {
    hide NameOf, Known, IsDashed, IndexOf;
  }

  method ExtractFlags(args: seq<string>, spec: Spec) returns (parsed: Parsed)
    ensures parsed == Parsed(FlagsOf(Scan(spec, args)), RestOf(Scan(spec, args)))
  {
    hide First, Scan, FlagsOf, RestOf;
    var flags: map<string, Value> := map[];
    var rest: seq<string> := [];
    var i := 0;
    ghost var tokens: seq<Token> := [];
    NoTokens(spec);
    assert args[0..] == args && [] + Scan(spec, args) == Scan(spec, args);
    while i < |args|
      invariant 0 <= i <= |args|
      invariant Scan(spec, args) == tokens + Scan(spec, args[i..])
      invariant flags == FlagsOf(tokens) && rest == RestOf(tokens)
    {
      var a := args[i];
      Advance(spec, args, i, tokens);
      FirstAt(spec, args, i);
      tokens := tokens + [First(spec, args[i..])];
      if IsDashed(a) {
        EqualsAfterDashes(a);
        var eq := IndexOf(a, '=');
        var name := a[2..eq];
        if name in spec.strings || name in spec.booleans {
          if eq < |a| {
            flags := flags[name := Text(a[eq + 1..])];
            i := i + 1;
            continue;
          }
          if name in spec.booleans && name !in spec.strings {
            flags := flags[name := On];
            i := i + 1;
            continue;
          }
          if i + 1 == |args| || IsDashed(args[i + 1]) {
            flags := flags[name := On];
          } else {
            flags := flags[name := Text(args[i + 1])];
            i := i + 1;
          }
          i := i + 1;
          continue;
        }
      }
      rest := rest + [a];
      i := i + 1;
    }
    assert args[|args|..] == [] && tokens + [] == tokens;
    return Parsed(flags, rest);
  }

  lemma NoTokens(spec: Spec)
    ensures Scan(spec, []) == [] && FlagsOf([]) == map[] && RestOf([]) == []
  {
  }

  // ---- the parser and the grammar are inverse ---------------------------------------------

  lemma IndexOfEquals(arg: string, n: nat)
    requires n < |arg| && arg[n] == '=' && '=' !in arg[..n]
    ensures IndexOf(arg, '=') == n
  {
    assert forall i :: 0 <= i < n ==> arg[..n][i] == arg[i];
  }

  lemma NoEquals(arg: string)
    requires '=' !in arg
    ensures IndexOf(arg, '=') == |arg|
  {
  }

  lemma FirstPrints(spec: Spec, args: seq<string>)
    requires args != []
    ensures var t := First(spec, args); Print(t) == args[..|Print(t)|] && Fits(spec, t, args[|Print(t)|..])
  {
    hide IndexOf;
    var a := args[0];
    assert args[..1] == [a] && (|args| > 1 ==> args[..2] == [a, args[1]] && args[1..][0] == args[1]);
    if IsDashed(a) {
      DashedText(a);
    }
  }

  lemma DashedText(a: string)
    requires IsDashed(a)
    ensures 2 <= IndexOf(a, '=') <= |a| && '=' !in NameOf(a)
    ensures IndexOf(a, '=') == |a| ==> "--" + NameOf(a) == a
    ensures IndexOf(a, '=') < |a| ==> "--" + NameOf(a) + "=" + a[IndexOf(a, '=') + 1..] == a
  {
    hide IndexOf;
    EqualsAfterDashes(a);
    var eq := IndexOf(a, '=');
    DashesFirst(a, eq);
    assert forall i :: 0 <= i < eq - 2 ==> a[2..eq][i] == a[i + 2];
    if eq < |a| { Resplit(a, eq); }
  }

  lemma DashesFirst(a: string, eq: nat)
    requires IsDashed(a) && 2 <= eq <= |a|
    ensures a[..eq] == "--" + a[2..eq]
  {
    assert a[..2] == "--" && a[..eq] == a[..2] + a[2..eq];
  }

  lemma Resplit(a: string, eq: nat)
    requires eq < |a| && a[eq] == '='
    ensures a == a[..eq] + "=" + a[eq + 1..]
  {
  }

  /** Nothing is lost and every token is what the grammar allows: a boolean flag never takes the next argument. */
  lemma {:induction false} ScanPrintsBack(spec: Spec, args: seq<string>)
    ensures PrintAll(Scan(spec, args)) == args && Grammatical(spec, Scan(spec, args))
    decreases |args|
  {
    hide First, Fits, Print;
    if args != [] {
      var t := First(spec, args);
      var later := args[|Print(t)|..];
      FirstPrints(spec, args);
      PrintIsSomething(t);
      ScanPrintsBack(spec, later);
      assert ([t] + Scan(spec, later))[1..] == Scan(spec, later);
      assert args == args[..|Print(t)|] + later;
    }
  }

  lemma PrintIsSomething(t: Token)
    ensures 1 <= |Print(t)| <= 2
  {
  }

  lemma FirstOfPrinted(spec: Spec, t: Token, following: seq<string>)
    requires Fits(spec, t, following)
    ensures First(spec, Print(t) + following) == t
  {
    var args := Print(t) + following;
    var a := args[0];
    match t
    case Assigned(name, value) =>
      assert a == "--" + name + "=" + value;
      assert a[..2 + |name|] == "--" + name && a[2..2 + |name|] == name;
      IndexOfEquals(a, 2 + |name|);
      assert a[3 + |name|..] == value;
    case Spaced(name, value) =>
      assert a == "--" + name && a[2..] == name && a[2..|a|] == name;
      NoEquals(a);
      assert args[1] == value;
    case Switch(name) =>
      assert a == "--" + name && a[2..] == name && a[2..|a|] == name;
      NoEquals(a);
      assert following != [] ==> args[1] == following[0];
    case Plain(_) =>
  }

  /** Every grammatical token list is read back as it was printed, so the reading is the only one. */
  lemma {:induction false} ScanReadsBack(spec: Spec, tokens: seq<Token>)
    requires Grammatical(spec, tokens)
    ensures Scan(spec, PrintAll(tokens)) == tokens
  {
    hide First, Fits, Print;
    if tokens != [] {
      var t, later := tokens[0], PrintAll(tokens[1..]);
      FirstOfPrinted(spec, t, later);
      PrintIsSomething(t);
      ScanReadsBack(spec, tokens[1..]);
      assert (Print(t) + later)[|Print(t)|..] == later;
      assert tokens == [t] + tokens[1..];
    }
  }

  // ---- what the caller gets ---------------------------------------------------------------

  predicate Names(t: Token, name: string) {
    !t.Plain? && t.name == name
  }

  /** A flag is set exactly when a token names it, and then to what the last such token says. */
  lemma {:induction false} LastTokenWins(tokens: seq<Token>, name: string)
    ensures name in FlagsOf(tokens) <==> exists k :: 0 <= k < |tokens| && Names(tokens[k], name)
    ensures name in FlagsOf(tokens) ==>
      exists k :: 0 <= k < |tokens| && Names(tokens[k], name) && FlagsOf(tokens)[name] == ValueOf(tokens[k])
        && forall j :: k < j < |tokens| ==> !Names(tokens[j], name)
  {
    if tokens != [] {
      var n := |tokens| - 1;
      LastTokenWins(tokens[..n], name);
      assert forall k :: 0 <= k < n ==> tokens[..n][k] == tokens[k];
      if !Names(tokens[n], name) && name in FlagsOf(tokens) {
        var k :| 0 <= k < n && Names(tokens[k], name) && FlagsOf(tokens[..n])[name] == ValueOf(tokens[k])
          && forall j :: k < j < n ==> !Names(tokens[..n][j], name);
        assert Names(tokens[k], name) && FlagsOf(tokens)[name] == ValueOf(tokens[k]);
      }
    }
  }

  predicate IsAssigned(spec: Spec, t: Token) {
    (t.Assigned? || t.Plain?) && Fits(spec, t, [])
  }

  /** `--name=value` flags and positionals, interleaved in any way, are read back exactly. */
  lemma {:induction false} AssignedFlagsRoundTrip(spec: Spec, tokens: seq<Token>)
    requires forall k :: 0 <= k < |tokens| ==> IsAssigned(spec, tokens[k])
    ensures Grammatical(spec, tokens) && Scan(spec, PrintAll(tokens)) == tokens
  {
    AssignedIsGrammatical(spec, tokens);
    ScanReadsBack(spec, tokens);
  }

  lemma {:induction false} AssignedIsGrammatical(spec: Spec, tokens: seq<Token>)
    requires forall k :: 0 <= k < |tokens| ==> IsAssigned(spec, tokens[k])
    ensures Grammatical(spec, tokens)
  {
    if tokens != [] {
      assert IsAssigned(spec, tokens[0]);
      forall k | 0 <= k < |tokens[1..]| ensures IsAssigned(spec, tokens[1..][k]) {
        assert IsAssigned(spec, tokens[k + 1]);
      }
      AssignedIsGrammatical(spec, tokens[1..]);
    }
  }

  /** The positionals are picked from the arguments in order. */
  lemma {:induction false} RestIsSubsequence(tokens: seq<Token>) returns (at: seq<nat>)
    ensures |at| == |RestOf(tokens)|
    ensures forall k :: 0 <= k < |at| ==> at[k] < |PrintAll(tokens)| && PrintAll(tokens)[at[k]] == RestOf(tokens)[k]
    ensures forall j, k :: 0 <= j < k < |at| ==> at[j] < at[k]
  {
    if tokens == [] {
      at := [];
    } else {
      var n := |tokens| - 1;
      var t := tokens[n];
      at := RestIsSubsequence(tokens[..n]);
      PrintAllSnoc(tokens[..n], t);
      assert tokens == tokens[..n] + [t];
      if t.Plain? { at := at + [|PrintAll(tokens[..n])|]; }
    }
  }

  lemma {:induction false} PrintAllSnoc(tokens: seq<Token>, t: Token)
    ensures PrintAll(tokens + [t]) == PrintAll(tokens) + Print(t)
  {
    hide Print;
    if tokens == [] {
      assert [] + [t] == [t] && [t][1..] == [];
      assert PrintAll([t]) == Print(t) + PrintAll([t][1..]);
    } else {
      PrintAllSnoc(tokens[1..], t);
      assert (tokens + [t])[1..] == tokens[1..] + [t];
    }
  }

  /** What each way of writing a flag sets, when nothing later names it. */
  lemma WrittenValues(before: seq<Token>, name: string, value: string)
    ensures FlagsOf(before + [Assigned(name, value)]) == FlagsOf(before)[name := Text(value)]
    ensures FlagsOf(before + [Spaced(name, value)]) == FlagsOf(before)[name := Text(value)]
    ensures FlagsOf(before + [Switch(name)]) == FlagsOf(before)[name := On]
    ensures FlagsOf(before + [Plain(value)]) == FlagsOf(before)
    ensures RestOf(before + [Plain(value)]) == RestOf(before) + [value]
    ensures RestOf(before + [Assigned(name, value)]) == RestOf(before)
    ensures RestOf(before + [Spaced(name, value)]) == RestOf(before) == RestOf(before + [Switch(name)])
  {
    assert (before + [Assigned(name, value)])[..|before|] == before;
    assert (before + [Spaced(name, value)])[..|before|] == before;
    assert (before + [Switch(name)])[..|before|] == before;
    assert (before + [Plain(value)])[..|before|] == before;
  }

  /** A command line of a switch, one string flag and a positional, read from its text. */
  lemma CommandLineReads(value: string)
    requires !IsDashed(value)
    ensures var spec := Spec({"type"}, {"yes"}); var args := ["--yes"] + ["--type", value] + ["x"];
      && FlagsOf(Scan(spec, args)) == map["yes" := On, "type" := Text(value)]
      && RestOf(Scan(spec, args)) == ["x"]
  {
    hide Scan, FlagsOf, RestOf, Fits;
    var tokens := [Switch("yes"), Spaced("type", value), Plain("x")];
    CommandLinePrints(value);
    assert tokens == [] + [Switch("yes")] + [Spaced("type", value)] + [Plain("x")];
    NoTokens(Spec({"type"}, {"yes"}));
    WrittenValues([], "yes", "");
    WrittenValues([] + [Switch("yes")], "type", value);
    WrittenValues([] + [Switch("yes")] + [Spaced("type", value)], "", "x");
  }

  lemma CommandLinePrints(value: string)
    requires !IsDashed(value)
    ensures var spec := Spec({"type"}, {"yes"});
      Scan(spec, ["--yes"] + ["--type", value] + ["x"]) == [Switch("yes"), Spaced("type", value), Plain("x")]
  {
    hide Scan;
    var spec, tokens := Spec({"type"}, {"yes"}), [Switch("yes"), Spaced("type", value), Plain("x")];
    var two, one := [Spaced("type", value), Plain("x")], [Plain("x")];
    assert tokens[1..] == two && two[1..] == one && one[1..] == [];
    assert "--" + "yes" == "--yes" && "--" + "type" == "--type";
    assert PrintAll(one) == ["x"] && Grammatical(spec, one);
    assert PrintAll(two) == ["--type", value] + ["x"] && Grammatical(spec, two);
    assert PrintAll(tokens) == ["--yes"] + PrintAll(two) && Grammatical(spec, tokens);
    assert ["--yes"] + ["--type", value] + ["x"] == ["--yes"] + (["--type", value] + ["x"]);
    ScanReadsBack(spec, tokens);
  }
}
