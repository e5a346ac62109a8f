/** The command line: which mapper claims an argv, and how the arguments of a command are parsed. */
module CommandEventMapper {
  import opened Common

  datatype Argument = Flag(flag: bool) | Number(number: real) | Text(text: string) | Many(items: seq<Argument>)

  type Arguments = Record<Argument>

  /** JavaScript's `parseFloat`: None is `NaN`. */
  type ParseFloat = string -> Option<real>

  predicate IsDash(token: string) { |token| >= 1 && token[0] == '-' }

  predicate IsLong(token: string) { |token| >= 2 && token[0] == '-' && token[1] == '-' }

  function NameOf(token: string): string
    requires IsDash(token)
  {
    if IsLong(token) then token[2..] else token[1..]
  }

  /** `indexOf("=")`; the length when there is none. */
  function EqualSign(s: string): (i: nat)
    ensures i <= |s| && (forall j :: 0 <= j < i ==> s[j] != '=') && (i < |s| ==> s[i] == '=')
  {
    if s == [] || s[0] == '=' then 0 else 1 + EqualSign(s[1..])
  }

  /** A token of the form `--name=value`. */
  predicate IsAssignment(token: string) {
    IsLong(token) && EqualSign(NameOf(token)) < |NameOf(token)|
  }

  function Lower(s: string): string {
    seq(|s|, i requires 0 <= i < |s| => if 'A' <= s[i] <= 'Z' then s[i] - 'A' + 'a' else s[i])
  }

  /** Adds one more value under a name: the first stands alone, repeats make an ordered list. */
  function Accumulate(args: Arguments, name: string, value: string): Arguments {
    if !args.Has(name) then args.Set(name, Text(value))
    else
      var existing := args.values[name];
      args.Set(name, Many((if existing.Many? then existing.items else [existing]) + [Text(value)]))
  }

  function AddPositional(args: Arguments, token: string): Arguments {
    var marked := args.Set(token, Flag(true));
    var listed := if marked.Has("_") && marked.values["_"].Many? then marked.values["_"].items else [];
    marked.Set("_", Many(listed + [Text(token)]))
  }

  function AddValued(args: Arguments, name: string, value: string, parseFloat: ParseFloat): Arguments {
    var number := parseFloat(value);
    if number.Some? then args.Set(name, Number(number.value))
    else if Lower(value) == "true" then args.Set(name, Flag(true))
    else if Lower(value) == "false" then args.Set(name, Flag(false))
    else Accumulate(args, name, value)
  }

  // ------------------------------------------------------------- the local window

  datatype Role =
    | Positional(token: string)
    | Consumed
    | Assignment(name: string, value: string)
    | Valued(name: string, value: string)
    | Bare(name: string)

  /** A token that takes the next one, if that one has no dash, as its value. */
  predicate TakesValue(token: string) {
    IsDash(token) && !IsAssignment(token)
  }

  /** What a token means, from itself and its two neighbours alone. */
  function RoleAt(tokens: seq<string>, i: nat): Role
    requires i < |tokens|
  {
    var token := tokens[i];
    if !IsDash(token) then
      if i > 0 && TakesValue(tokens[i - 1]) then Consumed else Positional(token)
    else
      var name := NameOf(token);
      if IsAssignment(token) then Assignment(name[..EqualSign(name)], name[EqualSign(name) + 1..])
      else if i + 1 < |tokens| && !IsDash(tokens[i + 1]) then Valued(name, tokens[i + 1])
      else Bare(name)
  }

  function Apply(args: Arguments, role: Role, parseFloat: ParseFloat): Arguments {
    match role
    case Positional(token) => AddPositional(args, token)
    case Consumed => args
    case Assignment(name, value) => Accumulate(args, name, value)
    case Valued(name, value) => AddValued(args, name, value, parseFloat)
    case Bare(name) => args.Set(name, Flag(true))
  }

  /** Every token in turn, each by its own window. */
  ghost function ParseByWindow(tokens: seq<string>, n: nat, parseFloat: ParseFloat): Arguments
    requires n <= |tokens|
  {
    if n == 0 then Empty() else Apply(ParseByWindow(tokens, n - 1, parseFloat), RoleAt(tokens, n - 1), parseFloat)
  }

  /** The token before `i`, if any, does not take the one at `i` as its value. */
  predicate NotTaken(tokens: seq<string>, i: nat)
    requires i <= |tokens|
  {
    0 < i < |tokens| && TakesValue(tokens[i - 1]) ==> IsDash(tokens[i])
  }

  lemma AssignmentNext(args: Arguments, tokens: seq<string>, i: nat, parseFloat: ParseFloat)
    requires i < |tokens| && IsAssignment(tokens[i])
    ensures var name := NameOf(tokens[i]);
            args == ParseByWindow(tokens, i, parseFloat) ==>
              Accumulate(args, name[..EqualSign(name)], name[EqualSign(name) + 1..])
              == ParseByWindow(tokens, i + 1, parseFloat)
    ensures NotTaken(tokens, i + 1)
  {
    var name := NameOf(tokens[i]);
    assert RoleAt(tokens, i) == Assignment(name[..EqualSign(name)], name[EqualSign(name) + 1..]);
  }

  lemma BareNext(args: Arguments, tokens: seq<string>, i: nat, parseFloat: ParseFloat)
    requires i < |tokens| && TakesValue(tokens[i]) && (i + 1 == |tokens| || IsDash(tokens[i + 1]))
    ensures args == ParseByWindow(tokens, i, parseFloat) ==>
              args.Set(NameOf(tokens[i]), Flag(true)) == ParseByWindow(tokens, i + 1, parseFloat)
    ensures NotTaken(tokens, i + 1)
  {
    assert RoleAt(tokens, i) == Bare(NameOf(tokens[i]));
  }

  lemma ValuedNext(args: Arguments, tokens: seq<string>, i: nat, parseFloat: ParseFloat)
    requires i + 1 < |tokens| && TakesValue(tokens[i]) && !IsDash(tokens[i + 1])
    ensures args == ParseByWindow(tokens, i, parseFloat) ==>
              AddValued(args, NameOf(tokens[i]), tokens[i + 1], parseFloat) == ParseByWindow(tokens, i + 2, parseFloat)
    ensures NotTaken(tokens, i + 2)
  {
    assert RoleAt(tokens, i) == Valued(NameOf(tokens[i]), tokens[i + 1]);
    assert RoleAt(tokens, i + 1) == Consumed;
    assert ParseByWindow(tokens, i + 2, parseFloat) == ParseByWindow(tokens, i + 1, parseFloat);
  }

  /** The loop of `map`, which skips an index when it takes the next token as a value. */
  method ParseArguments(tokens: seq<string>, parseFloat: ParseFloat) returns (args: Arguments)
    ensures args == ParseByWindow(tokens, |tokens|, parseFloat)
  {
    args := Empty();
    var i := 0;
    while i < |tokens|
      invariant 0 <= i <= |tokens| && NotTaken(tokens, i)
      invariant args == ParseByWindow(tokens, i, parseFloat)
    {
      var arg := tokens[i];
      ghost var at := i;
      i := i + 1;
      if !IsDash(arg) {
        args := AddPositional(args, arg);
        continue;
      }
      var name := NameOf(arg);
      var equal := EqualSign(name);
      if IsLong(arg) && equal != |name| {
        AssignmentNext(args, tokens, at, parseFloat);
        var actualName, actualValue := name[..equal], name[equal + 1..];
        args := Accumulate(args, actualName, actualValue);
        continue;
      }
      if i >= |tokens| || IsDash(tokens[i]) {
        BareNext(args, tokens, at, parseFloat);
        args := args.Set(name, Flag(true));
        continue;
      }
      ValuedNext(args, tokens, at, parseFloat);
      var value := tokens[i];
      i := i + 1;
      args := AddValued(args, name, value, parseFloat);
    }
  }

  // ------------------------------------------------------------------ positionals

  /** The positional tokens among the first `n`, in order. */
  ghost function Positionals(tokens: seq<string>, n: nat): seq<string>
    requires n <= |tokens|
  {
    if n == 0 then []
    else if RoleAt(tokens, n - 1).Positional? then Positionals(tokens, n - 1) + [tokens[n - 1]]
    else Positionals(tokens, n - 1)
  }

  /** A positional spelled `_` restarts the list kept under `_`. */
  ghost function Kept(positionals: seq<string>): seq<string> {
    if positionals == [] then []
    else if positionals[|positionals| - 1] == "_" then ["_"]
    else Kept(positionals[..|positionals| - 1]) + [positionals[|positionals| - 1]]
  }

  ghost function Texts(ss: seq<string>): seq<Argument> {
    seq(|ss|, i requires 0 <= i < |ss| => Text(ss[i]))
  }

  ghost function NamedByFlag(role: Role): Option<string> {
    match role
    case Assignment(name, _) => Some(name)
    case Valued(name, _) => Some(name)
    case Bare(name) => Some(name)
    case _ => None
  }

  ghost function Lookup(args: Arguments, k: string): Option<Argument> {
    if args.Has(k) then Some(args.values[k]) else None
  }

  lemma TextsSnoc(ss: seq<string>, s: string)
    ensures Texts(ss + [s]) == Texts(ss) + [Text(s)]
  {
  }

  lemma KeptNext(ps: seq<string>, token: string)
    ensures Texts(Kept(ps + [token])) == (if token == "_" then [] else Texts(Kept(ps))) + [Text(token)]
  {
  }

  lemma ApplyUnderscore(args: Arguments, role: Role, parseFloat: ParseFloat)
    requires NamedByFlag(role) != Some("_")
    ensures Lookup(Apply(args, role, parseFloat), "_") ==
              match role
              case Positional(token) =>
                var listed :=
                  if token != "_" && args.Has("_") && args.values["_"].Many? then args.values["_"].items else [];
                Some(Many(listed + [Text(token)]))
              case _ => Lookup(args, "_")
  {
  }

  /** When no flag is named `_`, the entry `_` holds exactly the positionals since the last one spelled `_`,
      in order; there is no entry without positionals. */
  lemma {:induction false} UnderscoreHoldsPositionals(tokens: seq<string>, n: nat, parseFloat: ParseFloat)
    requires n <= |tokens|
    requires forall i :: 0 <= i < |tokens| ==> NamedByFlag(RoleAt(tokens, i)) != Some("_")
    ensures var ps := Positionals(tokens, n);
            Lookup(ParseByWindow(tokens, n, parseFloat), "_") == if ps == [] then None else Some(Many(Texts(Kept(ps))))
  {
    if n > 0 {
      UnderscoreHoldsPositionals(tokens, n - 1, parseFloat);
      ApplyUnderscore(ParseByWindow(tokens, n - 1, parseFloat), RoleAt(tokens, n - 1), parseFloat);
      if RoleAt(tokens, n - 1).Positional? {
        KeptNext(Positionals(tokens, n - 1), tokens[n - 1]);
      }
    }
  }

  /** The list is the whole list of positionals exactly when `_` is not a positional after the first. */
  lemma {:induction false} KeptAllIff(ps: seq<string>)
    ensures |Kept(ps)| <= |ps|
    ensures Kept(ps) == ps <==> forall i :: 0 < i < |ps| ==> ps[i] != "_"
  {
    if ps != [] {
      var before, last := ps[..|ps| - 1], ps[|ps| - 1];
      KeptAllIff(before);
      assert ps == before + [last];
      if last == "_" {
        if |ps| > 1 {
          assert Kept(ps) != ps;
        }
      } else {
        assert (Kept(before) + [last])[..|Kept(before)|] == Kept(before);
        forall i | 0 < i < |before| ensures before[i] == ps[i] {}
      }
    }
  }

  lemma KeptOfThree(a: string, b: string)
    requires b != "_"
    ensures Kept([a, "_", b]) == ["_", b]
  {
    assert [a, "_", b][..2] == [a, "_"];
  }

  lemma AllPositional(tokens: seq<string>)
    requires |tokens| == 3 && forall i :: 0 <= i < 3 ==> !IsDash(tokens[i])
    ensures forall i :: 0 <= i < 3 ==> RoleAt(tokens, i).Positional?
    ensures Positionals(tokens, 3) == tokens
  {
    assert Positionals(tokens, 1) == [tokens[0]];
    assert Positionals(tokens, 2) == [tokens[0], tokens[1]];
  }

  /** Of three operands, the second one `_`, the list has lost the first. */
  lemma UnderscoreDropsTheFirst(a: string, b: string, parseFloat: ParseFloat)
    requires !IsDash(a) && !IsDash(b) && b != "_"
    ensures Lookup(ParseByWindow([a, "_", b], 3, parseFloat), "_") == Some(Many(Texts(["_", b])))
  {
    AllPositional([a, "_", b]);
    KeptOfThree(a, b);
    UnderscoreHoldsPositionals([a, "_", b], 3, parseFloat);
  }

  // ------------------------------------------------------------------- round trip

  datatype Item = Setting(name: string, value: string) | Operand(token: string)

  function RenderItem(item: Item): string {
    match item
    case Setting(name, value) => "--" + name + "=" + value
    case Operand(token) => token
  }

  function Render(items: seq<Item>): seq<string> {
    seq(|items|, i requires 0 <= i < |items| => RenderItem(items[i]))
  }

  /** Option names have no `=`; operands start with no dash; the two do not meet, nor use the name `_`. */
  ghost predicate WellFormed(items: seq<Item>) {
    && (forall i :: 0 <= i < |items| && items[i].Setting? ==> '=' !in items[i].name && items[i].name != "_")
    && (forall i :: 0 <= i < |items| && items[i].Operand? ==> !IsDash(items[i].token) && items[i].token != "_")
    && (forall i, j :: 0 <= i < |items| && 0 <= j < |items| && items[i].Setting? && items[j].Operand? ==>
          items[i].name != items[j].token)
  }

  /** The values given to a name, in order. */
  ghost function ValuesOf(items: seq<Item>, name: string): seq<string> {
    if items == [] then []
    else
      var last := items[|items| - 1];
      if last.Setting? && last.name == name then ValuesOf(items[..|items| - 1], name) + [last.value]
      else ValuesOf(items[..|items| - 1], name)
  }

  ghost function Operands(items: seq<Item>): seq<string> {
    if items == [] then []
    else if items[|items| - 1].Operand? then Operands(items[..|items| - 1]) + [items[|items| - 1].token]
    else Operands(items[..|items| - 1])
  }

  /** What parsing gives back under each key. */
  ghost function Expected(items: seq<Item>, k: string): Option<Argument> {
    var vs := ValuesOf(items, k);
    if k == "_" then (if Operands(items) == [] then None else Some(Many(Texts(Operands(items)))))
    else if k in Operands(items) then Some(Flag(true))
    else if vs == [] then None
    else if |vs| == 1 then Some(Text(vs[0]))
    else Some(Many(Texts(vs)))
  }

  lemma EqualSignAfter(name: string, value: string)
    requires '=' !in name
    ensures EqualSign(name + "=" + value) == |name|
  {
    var s := name + "=" + value;
    assert s[|name|] == '=';
    forall j | 0 <= j < |name| ensures s[j] != '=' {
      assert s[j] == name[j];
    }
  }

  lemma SettingRole(tokens: seq<string>, i: nat, name: string, value: string)
    requires i < |tokens| && '=' !in name && tokens[i] == "--" + name + "=" + value
    ensures RoleAt(tokens, i) == Assignment(name, value)
    ensures !TakesValue(tokens[i])
  {
    assert tokens[i][2..] == name + "=" + value;
    EqualSignAfter(name, value);
    assert (name + "=" + value)[..|name|] == name && (name + "=" + value)[|name| + 1..] == value;
  }

  lemma ItemTakesNothing(items: seq<Item>, i: nat)
    requires WellFormed(items) && i < |items|
    ensures !TakesValue(Render(items)[i])
  {
    if items[i].Setting? {
      SettingRole(Render(items), i, items[i].name, items[i].value);
    }
  }

  lemma ItemRole(items: seq<Item>, i: nat)
    requires WellFormed(items) && i < |items|
    ensures RoleAt(Render(items), i)
         == match items[i] case Setting(name, value) => Assignment(name, value) case Operand(token) => Positional(token)
  {
    if items[i].Setting? {
      SettingRole(Render(items), i, items[i].name, items[i].value);
    } else {
      if i > 0 {
        ItemTakesNothing(items, i - 1);
      }
    }
  }

  lemma {:induction false} OperandsOf(items: seq<Item>)
    ensures forall k :: k in Operands(items) <==> exists i :: 0 <= i < |items| && items[i] == Operand(k)
  {
    if items != [] {
      var before := items[..|items| - 1];
      OperandsOf(before);
      assert items == before + [items[|items| - 1]];
    }
  }

  lemma {:induction false} ValuesFromSettings(items: seq<Item>, name: string)
    ensures ValuesOf(items, name) != [] ==> exists i :: 0 <= i < |items| && items[i].Setting? && items[i].name == name
  {
    if items != [] && ValuesOf(items[..|items| - 1], name) != [] {
      var before := items[..|items| - 1];
      ValuesFromSettings(before, name);
      var i :| 0 <= i < |before| && before[i].Setting? && before[i].name == name;
      assert items[i] == before[i];
    }
  }

  lemma SettingStep(args: Arguments, items: seq<Item>, name: string, value: string, k: string)
    requires Lookup(args, k) == Expected(items, k) && Lookup(args, name) == Expected(items, name)
    requires name != "_" && name !in Operands(items)
    ensures Lookup(Accumulate(args, name, value), k) == Expected(items + [Setting(name, value)], k)
  {
    var all := items + [Setting(name, value)];
    assert all[..|items|] == items;
    var vs := ValuesOf(items, name);
    TextsSnoc(vs, value);
    if |vs| == 1 {
      assert Texts(vs) == [Text(vs[0])];
    }
    assert Operands(all) == Operands(items);
    assert ValuesOf(all, k) == if k == name then vs + [value] else ValuesOf(items, k);
  }

  lemma OperandStep(args: Arguments, items: seq<Item>, token: string, k: string)
    requires Lookup(args, k) == Expected(items, k) && Lookup(args, "_") == Expected(items, "_")
    requires token != "_" && ValuesOf(items, token) == []
    ensures Lookup(AddPositional(args, token), k) == Expected(items + [Operand(token)], k)
  {
    var all := items + [Operand(token)];
    assert all[..|items|] == items;
    TextsSnoc(Operands(items), token);
    assert Texts([]) == [];
  }

  /** Rendering options and operands, in any interleaving, and parsing the tokens gives back every option with
      its values in order, every operand, and the operands in order; and nothing else. */
  lemma {:induction false} RenderedItemsParseBack(items: seq<Item>, n: nat, parseFloat: ParseFloat, k: string)
    requires WellFormed(items) && n <= |items|
    ensures Lookup(ParseByWindow(Render(items), n, parseFloat), k) == Expected(items[..n], k)
  {
    if n > 0 {
      var before, item := items[..n - 1], items[n - 1];
      assert items[..n] == before + [item];
      var args := ParseByWindow(Render(items), n - 1, parseFloat);
      RenderedItemsParseBack(items, n - 1, parseFloat, k);
      ItemRole(items, n - 1);
      if item.Setting? {
        RenderedItemsParseBack(items, n - 1, parseFloat, item.name);
        OperandsOf(before);
        SettingStep(args, before, item.name, item.value, k);
      } else {
        RenderedItemsParseBack(items, n - 1, parseFloat, "_");
        ValuesFromSettings(before, item.token);
        OperandStep(args, before, item.token, k);
      }
    }
  }

  // ---------------------------------------------------------- which mapper claims it

  /** An element of the raw argv; only strings are looked at. */
  datatype RawArgument = Word(word: string) | Other

  /** `PristineArgv`: the first element recognised as the bin, and the strings after it. */
  datatype PristineArgv = PristineArgv(scriptPath: string, userArgs: seq<string>) {
    predicate IsValid() { scriptPath != "" }
  }

  function FindBin(raw: seq<RawArgument>, isBin: string -> bool): (i: nat)
    ensures i <= |raw|
  {
    if raw == [] || (raw[0].Word? && isBin(raw[0].word)) then 0 else 1 + FindBin(raw[1..], isBin)
  }

  function Words(raw: seq<RawArgument>): seq<string> {
    if raw == [] then []
    else if raw[0].Word? then [raw[0].word] + Words(raw[1..])
    else Words(raw[1..])
  }

  function ParseArgv(raw: seq<RawArgument>, isBin: string -> bool): PristineArgv {
    var i := FindBin(raw, isBin);
    if i == |raw| then PristineArgv("", [])
    else PristineArgv(if raw[i].Word? then raw[i].word else "", Words(raw[i + 1..]))
  }

  /** `None` for a raw event that is not an array. */
  type RawEvent = Option<seq<RawArgument>>

  predicate CommandSupports(isCli: bool, raw: RawEvent, isBin: string -> bool) {
    isCli && raw.Some? &&
    var argv := ParseArgv(raw.value, isBin);
    argv.IsValid() && |argv.userArgs| >= 1 && argv.userArgs[0] != "repl"
  }

  predicate ReplSupports(isCli: bool, raw: RawEvent, isBin: string -> bool) {
    isCli && raw.Some? &&
    var argv := ParseArgv(raw.value, isBin);
    argv.IsValid() && (|argv.userArgs| == 0 || argv.userArgs[0] == "repl")
  }

  /** Under the CLI keyname a recognisable argv is claimed by exactly one mapper; anything else by neither. */
  lemma MappersPartitionArgv(isCli: bool, raw: RawEvent, isBin: string -> bool)
    ensures !(CommandSupports(isCli, raw, isBin) && ReplSupports(isCli, raw, isBin))
    ensures CommandSupports(isCli, raw, isBin) || ReplSupports(isCli, raw, isBin)
       <==> isCli && raw.Some? && exists i :: BinAt(raw.value, isBin, i)
  {
    if raw.Some? {
      FindBinIsFirst(raw.value, isBin);
      var first := FindBin(raw.value, isBin);
      if first < |raw.value| && raw.value[first].word != "" {
        assert BinAt(raw.value, isBin, first);
      }
      forall i | BinAt(raw.value, isBin, i) ensures i == first {
        assert i < first || first < i || i == first;
      }
    }
  }

  /** The first bin token, a non-empty string, is at `i`. */
  ghost predicate BinAt(raw: seq<RawArgument>, isBin: string -> bool, i: int) {
    && 0 <= i < |raw| && raw[i].Word? && isBin(raw[i].word) && raw[i].word != ""
    && forall j :: 0 <= j < i ==> !(raw[j].Word? && isBin(raw[j].word))
  }

  lemma {:induction false} FindBinIsFirst(raw: seq<RawArgument>, isBin: string -> bool)
    ensures var i := FindBin(raw, isBin);
            && (i < |raw| ==> raw[i].Word? && isBin(raw[i].word))
            && forall j :: 0 <= j < i ==> !(raw[j].Word? && isBin(raw[j].word))
  {
    if raw != [] && !(raw[0].Word? && isBin(raw[0].word)) {
      FindBinIsFirst(raw[1..], isBin);
      var i := FindBin(raw, isBin);
      forall j | 0 <= j < i ensures !(raw[j].Word? && isBin(raw[j].word)) {
        if j > 0 {
          assert raw[j] == raw[1..][j - 1];
        }
      }
    }
  }

  datatype Mapped = Thrown | Command(name: string, scriptPath: string, arguments: Arguments)

  /** `map`: it throws on what `supportsMapping` would not have let through, and on nothing that it does. */
  method Map(raw: RawEvent, isBin: string -> bool, parseFloat: ParseFloat) returns (mapped: Mapped)
    ensures CommandSupports(true, raw, isBin) ==> mapped.Command?
    ensures mapped.Thrown? <==>
              raw.None? || !ParseArgv(raw.value, isBin).IsValid() || ParseArgv(raw.value, isBin).userArgs == []
    ensures mapped.Command? ==>
              var argv := ParseArgv(raw.value, isBin);
              && argv.userArgs == [mapped.name] + argv.userArgs[1..] && mapped.scriptPath == argv.scriptPath
              && mapped.arguments == ParseByWindow(argv.userArgs[1..], |argv.userArgs| - 1, parseFloat)
  {
    if raw.None? { return Thrown; }
    var argv := ParseArgv(raw.value, isBin);
    if !argv.IsValid() || |argv.userArgs| == 0 { return Thrown; }
    var first, rest := argv.userArgs[0], argv.userArgs[1..];
    assert argv.userArgs == [first] + rest;
    var arguments := ParseArguments(rest, parseFloat);
    mapped := Command(first, argv.scriptPath, arguments);
  }
}
