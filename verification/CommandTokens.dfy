/** What the tokens of a command line mean, spelled out: the forms an option can take and the values it can have. */
module CommandTokens {
  import opened Common
  import opened CommandEventMapper

  // ------------------------------------------------------------------- the forms

  /** `--name=value`. */
  ghost predicate Assigns(token: string, name: string, value: string) {
    token == "--" + name + "=" + value && '=' !in name
  }

  /** `--name` or `-name`. */
  ghost predicate Names(token: string, name: string) {
    (token == "--" + name && '=' !in name) || (token == "-" + name && !("-" <= name))
  }

  lemma EqualSignIs(s: string)
    ensures EqualSign(s) == |s| <==> '=' !in s
  {
    if '=' in s {
      var i :| 0 <= i < |s| && s[i] == '=';
    }
  }

  lemma SplitAt(s: string, i: nat)
    requires i < |s|
    ensures s == s[..i] + [s[i]] + s[i + 1..]
  {
  }

  lemma AssignedForm(token: string, name: string, value: string)
    requires Assigns(token, name, value)
    ensures IsAssignment(token) && name == NameOf(token)[..EqualSign(NameOf(token))]
    ensures value == NameOf(token)[EqualSign(NameOf(token)) + 1..]
  {
    var rest := name + "=" + value;
    assert token == "--" + rest && token[2..] == rest;
    EqualSignAfter(name, value);
    assert rest[..|name|] == name && rest[|name| + 1..] == value;
  }

  lemma FormAssigned(token: string)
    requires IsAssignment(token)
    ensures Assigns(token, NameOf(token)[..EqualSign(NameOf(token))], NameOf(token)[EqualSign(NameOf(token)) + 1..])
  {
    var rest := NameOf(token);
    var i := EqualSign(rest);
    SplitAt(rest, i);
    assert token == "--" + rest;
    assert "--" + (rest[..i] + "=" + rest[i + 1..]) == "--" + rest[..i] + "=" + rest[i + 1..];
  }

  lemma AssignsExactly(token: string, name: string, value: string)
    ensures Assigns(token, name, value) <==>
              && IsAssignment(token) && name == NameOf(token)[..EqualSign(NameOf(token))]
              && value == NameOf(token)[EqualSign(NameOf(token)) + 1..]
  {
    if Assigns(token, name, value) {
      AssignedForm(token, name, value);
    }
    if IsAssignment(token) {
      FormAssigned(token);
    }
  }

  lemma NamesExactly(token: string, name: string)
    ensures Names(token, name) <==> TakesValue(token) && name == NameOf(token)
  {
    if Names(token, name) {
      assert token[0] == '-' && IsDash(token);
      if token == "--" + name && '=' !in name {
        assert token[2..] == name;
        EqualSignIs(name);
      } else {
        assert token[1..] == name;
      }
    }
    if TakesValue(token) {
      EqualSignIs(NameOf(token));
      assert IsLong(token) ==> token == "--" + NameOf(token);
      assert !IsLong(token) ==> token == "-" + NameOf(token);
    }
  }

  // ------------------------------------------------------------------- the roles

  ghost predicate NamesSome(token: string) {
    exists name :: Names(token, name)
  }

  /** An option that is not an assignment takes the next token as its value, if that has no dash. */
  ghost predicate IsRole(tokens: seq<string>, i: nat, role: Role)
    requires i < |tokens|
  {
    match role
    case Assignment(name, value) => Assigns(tokens[i], name, value)
    case Valued(name, value) =>
      Names(tokens[i], name) && i + 1 < |tokens| && tokens[i + 1] == value && !("-" <= value)
    case Bare(name) => Names(tokens[i], name) && (i + 1 < |tokens| ==> "-" <= tokens[i + 1])
    case Consumed => !("-" <= tokens[i]) && i > 0 && NamesSome(tokens[i - 1])
    case Positional(token) => tokens[i] == token && !("-" <= token) && (i > 0 ==> !NamesSome(tokens[i - 1]))
  }

  lemma RoleIs(tokens: seq<string>, i: nat, role: Role)
    requires i < |tokens|
    ensures IsRole(tokens, i, role) <==> RoleAt(tokens, i) == role
  {
    match role {
      case Assignment(name, value) => AssignsExactly(tokens[i], name, value);
      case Valued(name, _) => NamesExactly(tokens[i], name);
      case Bare(name) => NamesExactly(tokens[i], name);
      case _ =>
        if i > 0 {
          TakenIff(tokens[i - 1]);
        }
    }
  }

  lemma TakenIff(token: string)
    ensures TakesValue(token) <==> NamesSome(token)
  {
    forall name ensures Names(token, name) <==> TakesValue(token) && name == NameOf(token) {
      NamesExactly(token, name);
    }
    assert TakesValue(token) ==> Names(token, NameOf(token));
  }

  // ------------------------------------------------------------------- the values

  /** The word in any mixture of cases. */
  ghost predicate SaysTrue(value: string) {
    |value| == 4 && value[0] in "tT" && value[1] in "rR" && value[2] in "uU" && value[3] in "eE"
  }

  ghost predicate SaysFalse(value: string) {
    |value| == 5 && value[0] in "fF" && value[1] in "aA" && value[2] in "lL" && value[3] in "sS" && value[4] in "eE"
  }

  lemma LowersTo(c: char, low: char)
    requires 'a' <= low <= 'z'
    ensures Lower([c])[0] == low <==> c == low || c == low - 'a' + 'A'
  {
  }

  lemma LowerAt(s: string, i: nat)
    requires i < |s|
    ensures Lower(s)[i] == Lower([s[i]])[0]
  {
  }

  lemma TrueIs(value: string)
    ensures Lower(value) == "true" <==> SaysTrue(value)
  {
    if |value| == 4 {
      forall i: nat | i < 4 ensures Lower(value)[i] == Lower([value[i]])[0] {
        LowerAt(value, i);
      }
      LowersTo(value[0], 't');
      LowersTo(value[1], 'r');
      LowersTo(value[2], 'u');
      LowersTo(value[3], 'e');
    }
  }

  lemma FalseIs(value: string)
    ensures Lower(value) == "false" <==> SaysFalse(value)
  {
    if |value| == 5 {
      forall i: nat | i < 5 ensures Lower(value)[i] == Lower([value[i]])[0] {
        LowerAt(value, i);
      }
      LowersTo(value[0], 'f');
      LowersTo(value[1], 'a');
      LowersTo(value[2], 'l');
      LowersTo(value[3], 's');
      LowersTo(value[4], 'e');
    }
  }

  /** One more text under a name: alone at first, then behind what was there. */
  ghost function Joined(was: Option<Argument>, value: string): Argument {
    match was
    case None => Text(value)
    case Some(Many(items)) => Many(items + [Text(value)])
    case Some(one) => Many([one, Text(value)])
  }

  /** A number when it parses as one, then a truth value, then a text; the first two replace what was there. */
  ghost predicate IsValue(was: Option<Argument>, value: string, parseFloat: ParseFloat, now: Argument) {
    match parseFloat(value)
    case Some(number) => now == Number(number)
    case None =>
      && (SaysTrue(value) ==> now == Flag(true))
      && (SaysFalse(value) ==> now == Flag(false))
      && (!SaysTrue(value) && !SaysFalse(value) ==> now == Joined(was, value))
  }

  /** A positional is put behind the list under `_`; without one, or when it is itself called `_`, it begins one. */
  ghost predicate IsListed(was: Option<Argument>, token: string, now: Argument) {
    match was
    case Some(Many(items)) => now == Many((if token == "_" then [] else items) + [Text(token)])
    case _ => now == Many([Text(token)])
  }

  /** What one role does to the entry of a name, when the entry was `was`. */
  ghost predicate Leaves(role: Role, k: string, was: Option<Argument>, parseFloat: ParseFloat, now: Option<Argument>) {
    match role
    case Consumed => now == was
    case Bare(name) => now == if k == name then Some(Flag(true)) else was
    case Assignment(name, value) => now == if k == name then Some(Joined(was, value)) else was
    case Valued(name, value) =>
      if k == name then now.Some? && IsValue(was, value, parseFloat, now.value) else now == was
    case Positional(token) =>
      if k == "_" then now.Some? && IsListed(was, token, now.value)
      else now == if k == token then Some(Flag(true)) else was
  }

  lemma AccumulateJoins(args: Arguments, name: string, value: string)
    ensures Accumulate(args, name, value) == args.Set(name, Joined(Lookup(args, name), value))
  {
    if args.Has(name) && !args.values[name].Many? {
      assert [args.values[name]] + [Text(value)] == [args.values[name], Text(value)];
    }
  }

  lemma ApplyLeaves(args: Arguments, role: Role, parseFloat: ParseFloat, k: string)
    ensures Leaves(role, k, Lookup(args, k), parseFloat, Lookup(Apply(args, role, parseFloat), k))
  {
    match role {
      case Valued(name, value) =>
        TrueIs(value);
        FalseIs(value);
        AccumulateJoins(args, name, value);
      case Assignment(name, value) => AccumulateJoins(args, name, value);
      case Positional(token) => assert [] + [Text(token)] == [Text(token)];
      case _ =>
    }
  }

  /** The entries after each token, whatever the tokens: none at first, and then what the form of that token makes of
      the entry before. */
  lemma EachTokenCounts(tokens: seq<string>, n: nat, role: Role, parseFloat: ParseFloat, k: string)
    requires n < |tokens| && IsRole(tokens, n, role)
    ensures Lookup(ParseByWindow(tokens, 0, parseFloat), k) == None
    ensures Leaves(role, k, Lookup(ParseByWindow(tokens, n, parseFloat), k), parseFloat,
                   Lookup(ParseByWindow(tokens, n + 1, parseFloat), k))
  {
    RoleIs(tokens, n, role);
    ApplyLeaves(ParseByWindow(tokens, n, parseFloat), role, parseFloat, k);
  }

  lemma EachTokenHasOneRole(tokens: seq<string>, n: nat, role: Role, other: Role)
    requires n < |tokens|
    ensures exists r :: IsRole(tokens, n, r)
    ensures IsRole(tokens, n, role) && IsRole(tokens, n, other) ==> role == other
  {
    RoleIs(tokens, n, role);
    RoleIs(tokens, n, other);
    RoleIs(tokens, n, RoleAt(tokens, n));
  }

  // ------------------------------------------------------------------- the raw argv

  lemma {:induction false} WordsConcat(a: seq<RawArgument>, b: seq<RawArgument>)
    ensures Words(a + b) == Words(a) + Words(b)
    ensures |a| == 1 ==> Words(a) == match a[0] case Word(w) => [w] case Other => []
  {
    if a == [] {
      assert a + b == b;
    } else {
      WordsConcat(a[1..], b);
      assert (a + b)[1..] == a[1..] + b;
    }
  }

  ghost predicate IsBinHere(x: RawArgument, isBin: string -> bool) {
    x.Word? && isBin(x.word)
  }

  lemma {:induction false} FindsBin(before: seq<RawArgument>, bin: RawArgument, after: seq<RawArgument>,
      isBin: string -> bool)
    requires IsBinHere(bin, isBin) && forall x :: x in before ==> !IsBinHere(x, isBin)
    ensures FindBin(before + [bin] + after, isBin) == |before|
  {
    var raw := before + [bin] + after;
    if before == [] {
      assert raw[0] == bin;
    } else {
      FindsBin(before[1..], bin, after, isBin);
      assert raw[0] == before[0] && before[0] in before && raw[1..] == before[1..] + [bin] + after;
    }
  }

  lemma {:induction false} FindsNoBin(raw: seq<RawArgument>, isBin: string -> bool)
    requires forall x :: x in raw ==> !IsBinHere(x, isBin)
    ensures FindBin(raw, isBin) == |raw|
  {
    if raw != [] {
      assert raw[0] in raw;
      FindsNoBin(raw[1..], isBin);
    }
  }

  /** The script is the first bin, and the arguments are the strings after it. */
  lemma ParsesAroundTheBin(before: seq<RawArgument>, bin: string, after: seq<RawArgument>, isBin: string -> bool)
    requires isBin(bin) && forall x :: x in before ==> !IsBinHere(x, isBin)
    ensures ParseArgv(before + [Word(bin)] + after, isBin) == PristineArgv(bin, Words(after))
  {
    FindsBin(before, Word(bin), after, isBin);
    var raw := before + [Word(bin)] + after;
    assert raw[|before|] == Word(bin) && raw[|before| + 1..] == after;
  }

  lemma ParsesWithoutABin(raw: seq<RawArgument>, isBin: string -> bool)
    requires forall x :: x in raw ==> !IsBinHere(x, isBin)
    ensures ParseArgv(raw, isBin) == PristineArgv("", [])
  {
    FindsNoBin(raw, isBin);
  }

  /** Behind the bin, no argument or `repl` starts the session, and any other first argument is a command. */
  lemma FirstArgumentDecides(before: seq<RawArgument>, bin: string, after: seq<RawArgument>, isBin: string -> bool)
    requires isBin(bin) && bin != "" && forall x :: x in before ==> !IsBinHere(x, isBin)
    ensures var raw := Some(before + [Word(bin)] + after);
            && (ReplSupports(true, raw, isBin) <==> Words(after) == [] || Words(after)[0] == "repl")
            && (CommandSupports(true, raw, isBin) <==> Words(after) != [] && Words(after)[0] != "repl")
  {
    ParsesAroundTheBin(before, bin, after, isBin);
  }
}
