/** Reading keys until a prompt is answered: the reader's settle-once protocol, the menu, and the secret. */
module TerminalPrompts {
  import opened Common
  import opened TerminalKeys

  /** What a key handler does with one key: its new state, the value it resolves with, and whether it throws. */
  datatype Step<+S, +T> = Step(state: S, resolved: Option<T>, threw: bool)

  type Handler<!S, !T> = (S, TerminalKey) -> Step<S, T>

  datatype Outcome<+T> = Resolved(value: T) | Cancelled | Failed

  datatype Progress<+S, +T> = Progress(state: S, outcome: Option<Outcome<T>>, delivered: seq<TerminalKey>)

  /** A resolved read stays resolved when the handler throws afterwards. */
  function Ending<S, T>(step: Step<S, T>): Option<Outcome<T>> {
    if step.resolved.Some? then Some(Resolved(step.resolved.value))
    else if step.threw then Some(Failed)
    else None
  }

  ghost function Deliver<S, T>(h: Handler<S, T>, p: Progress<S, T>, key: TerminalKey): Progress<S, T> {
    if key.name == CtrlC then Progress(p.state, Some(Cancelled), p.delivered)
    else
      var step := h(p.state, key);
      Progress(step.state, Ending(step), p.delivered + [key])
  }

  ghost function Consume<S, T>(h: Handler<S, T>, p: Progress<S, T>, keys: seq<TerminalKey>): Progress<S, T>
    decreases |keys|
  {
    if keys == [] || p.outcome.Some? then p
    else Consume(h, Deliver(h, p, keys[0]), keys[1..])
  }

  lemma {:induction false} ConsumeConcat<S, T>(
      h: Handler<S, T>, p: Progress<S, T>, a: seq<TerminalKey>, b: seq<TerminalKey>)
    ensures Consume(h, p, a + b) == Consume(h, Consume(h, p, a), b)
    decreases |a|
  {
    if a == [] {
      assert a + b == b;
    } else if p.outcome.None? {
      ConsumeConcat(h, Deliver(h, p, a[0]), a[1..], b);
      assert (a + b)[1..] == a[1..] + b;
    }
  }

  ghost function Keys(chunks: seq<Text>): seq<TerminalKey> {
    if chunks == [] then [] else Decoded(chunks[0]) + Keys(chunks[1..])
  }

  /** The input stream. */
  class Terminal {
    /** Whether it is a terminal whose raw mode can be set. */
    const canSetRaw: bool
    var isRaw: bool
    var paused: bool
    var listeners: nat

    constructor (canSetRaw: bool, isRaw: bool)
      ensures this.canSetRaw == canSetRaw && this.isRaw == isRaw && paused && listeners == 0
    {
      this.canSetRaw := canSetRaw;
      this.isRaw := isRaw;
      paused := true;
      listeners := 0;
    }
  }

  /** One call of `read`, from its start until it settles. */
  class KeyRead<S, T> {
    const input: Terminal
    const wasRaw: bool
    const handler: Handler<S, T>
    /** The listeners that were there before. */
    ghost const others: nat
    var settled: bool
    var outcome: Option<Outcome<T>>
    var state: S
    var delivered: seq<TerminalKey>

    /** While reading, the terminal is raw and one listener is attached; once settled, the terminal is as it
        was before, paused, and the listener is gone. */
    ghost predicate Valid()
      reads this, input
    {
      && (settled <==> outcome.Some?)
      && input.isRaw == (if settled || !input.canSetRaw then wasRaw else true)
      && input.paused == settled
      && input.listeners == others + (if settled then 0 else 1)
    }

    ghost function Now(): Progress<S, T>
      reads this
    {
      Progress(state, outcome, delivered)
    }

    constructor (input: Terminal, handler: Handler<S, T>, state: S)
      modifies input
      ensures Valid() && !settled
      ensures this.input == input && this.handler == handler
      ensures wasRaw == old(input.isRaw) && others == old(input.listeners)
      ensures Now() == Progress(state, None, [])
    {
      this.input := input;
      this.handler := handler;
      this.state := state;
      wasRaw := input.isRaw;
      others := input.listeners;
      settled := false;
      outcome := None;
      delivered := [];
      new;
      if input.canSetRaw { input.isRaw := true; }
      input.paused := false;
      input.listeners := input.listeners + 1;
    }

    /** The first outcome is kept; any later one is ignored. */
    method Settle(result: Outcome<T>)
      requires Valid()
      modifies this, input
      ensures Valid() && settled
      ensures outcome == if old(outcome).Some? then old(outcome) else Some(result)
      ensures state == old(state) && delivered == old(delivered)
    {
      if settled { return; }
      settled := true;
      input.listeners := input.listeners - 1;
      if input.canSetRaw { input.isRaw := wasRaw; }
      input.paused := true;
      outcome := Some(result);
    }

    method OnKey(key: TerminalKey)
      requires Valid() && !settled
      modifies this, input
      ensures Valid() && Now() == Deliver(handler, old(Now()), key)
    {
      if key.name == CtrlC {
        Settle(Cancelled);
        return;
      }
      var step := handler(state, key);
      state := step.state;
      delivered := delivered + [key];
      if step.resolved.Some? { Settle(Resolved(step.resolved.value)); }
      if step.threw { Settle(Failed); }
    }

    method OnData(data: Text)
      requires Valid() && !settled
      modifies this, input
      ensures Valid() && Now() == Consume(handler, old(Now()), Decoded(data))
    {
      var keys := Decode(data);
      var rest := keys;
      while rest != []
        invariant Valid() && !settled
        invariant Consume(handler, Now(), rest) == Consume(handler, old(Now()), keys)
        decreases |rest|
      {
        OnKey(rest[0]);
        if settled { return; }
        rest := rest[1..];
      }
    }

    /** The stream hands its chunks to the listener for as long as it is attached. */
    method Feed(chunks: seq<Text>)
      requires Valid()
      modifies this, input
      ensures Valid() && Now() == Consume(handler, old(Now()), Keys(chunks))
    {
      var rest := chunks;
      while rest != []
        invariant Valid()
        invariant Consume(handler, Now(), Keys(rest)) == Consume(handler, old(Now()), Keys(chunks))
        decreases |rest|
      {
        ConsumeConcat(handler, Now(), Decoded(rest[0]), Keys(rest[1..]));
        if !settled { OnData(rest[0]); }
        rest := rest[1..];
      }
    }
  }

  // ------------------------------------------------------------------- the settle-once protocol

  /** The handler's state after keys that do not end the read. */
  ghost function StateAfter<S, T>(h: Handler<S, T>, s: S, keys: seq<TerminalKey>): S {
    if keys == [] then s else StateAfter(h, h(s, keys[0]).state, keys[1..])
  }

  /** Ctrl+C cancels; a handler that has resolved is not failed by throwing afterwards. */
  ghost function KeyEnds<S, T>(h: Handler<S, T>, s: S, key: TerminalKey): Option<Outcome<T>> {
    if key.name == CtrlC then Some(Cancelled)
    else
      match h(s, key)
      case Step(_, Some(value), _) => Some(Resolved(value))
      case Step(_, None, true) => Some(Failed)
      case Step(_, None, false) => None
  }

  /** None of the first `e` keys ends the read. */
  ghost predicate Quiet<S, T>(h: Handler<S, T>, s: S, keys: seq<TerminalKey>, e: nat)
    requires e <= |keys|
  {
    forall k :: 0 <= k < e ==> KeyEnds(h, StateAfter(h, s, keys[..k]), keys[k]).None?
  }

  lemma QuietNext<S, T>(h: Handler<S, T>, s: S, keys: seq<TerminalKey>, e: nat)
    requires 0 < e <= |keys| && Quiet(h, s, keys, e)
    ensures KeyEnds(h, s, keys[0]).None?
    ensures Quiet(h, h(s, keys[0]).state, keys[1..], e - 1)
    ensures StateAfter(h, h(s, keys[0]).state, keys[1..][..e - 1]) == StateAfter(h, s, keys[..e])
  {
    assert keys[..0] == [];
    assert KeyEnds(h, StateAfter(h, s, keys[..0]), keys[0]).None?;
    forall k | 0 <= k < e - 1
      ensures KeyEnds(h, StateAfter(h, h(s, keys[0]).state, keys[1..][..k]), keys[1..][k]).None?
    {
      StateAfterNext(h, s, keys, k);
      assert KeyEnds(h, StateAfter(h, s, keys[..k + 1]), keys[k + 1]).None?;
    }
    StateAfterNext(h, s, keys, e - 1);
  }

  lemma StateAfterNext<S, T>(h: Handler<S, T>, s: S, keys: seq<TerminalKey>, k: nat)
    requires k < |keys|
    ensures StateAfter(h, h(s, keys[0]).state, keys[1..][..k]) == StateAfter(h, s, keys[..k + 1])
  {
    assert keys[..k + 1][1..] == keys[1..][..k];
  }

  /** The read ends at the first key that ends it, with what that key says; keys after it reach nobody, and a
      cancelling key does not reach the handler either. */
  lemma {:induction false} EndsAtTheFirst<S, T>(
      h: Handler<S, T>, p: Progress<S, T>, keys: seq<TerminalKey>, e: nat)
    requires p.outcome.None? && e < |keys| && Quiet(h, p.state, keys, e)
    requires KeyEnds(h, StateAfter(h, p.state, keys[..e]), keys[e]).Some?
    ensures var q := Consume(h, p, keys);
            && q.outcome == KeyEnds(h, StateAfter(h, p.state, keys[..e]), keys[e])
            && q.delivered == p.delivered + keys[..e] + (if keys[e].name == CtrlC then [] else [keys[e]])
    decreases e
  {
    var next := Deliver(h, p, keys[0]);
    if e == 0 {
      assert keys[..0] == [];
      assert Consume(h, next, keys[1..]) == next;
      assert p.delivered + [] == p.delivered;
    } else {
      QuietNext(h, p.state, keys, e);
      EndsAtTheFirst(h, next, keys[1..], e - 1);
      assert p.delivered + [keys[0]] + keys[1..][..e - 1] == p.delivered + keys[..e];
    }
  }

  /** While no key ends it, the read goes on: the handler has had every key. */
  lemma {:induction false} GoesOnWhileQuiet<S, T>(h: Handler<S, T>, p: Progress<S, T>, keys: seq<TerminalKey>)
    requires p.outcome.None? && Quiet(h, p.state, keys, |keys|)
    ensures Consume(h, p, keys) == Progress(StateAfter(h, p.state, keys), None, p.delivered + keys)
    decreases |keys|
  {
    if keys == [] {
      assert p.delivered + [] == p.delivered;
    } else {
      QuietNext(h, p.state, keys, |keys|);
      GoesOnWhileQuiet(h, Deliver(h, p, keys[0]), keys[1..]);
      assert p.delivered + [keys[0]] + keys[1..] == p.delivered + keys;
    }
  }

  lemma EndsAtOnce<S, T>(h: Handler<S, T>, p: Progress<S, T>, keys: seq<TerminalKey>)
    requires p.outcome.None? && keys != [] && KeyEnds(h, p.state, keys[0]).Some?
    ensures Consume(h, p, keys) == Deliver(h, p, keys[0])
  {
  }

  // ------------------------------------------------------------------- the menu

  datatype Choice<T> = Choice(name: string, value: T)

  function SelectKey(n: nat): Handler<int, int>
    requires n > 0
  {
    (active: int, key: TerminalKey) =>
      match key.name
      case Up => Step((active - 1 + n) % n, None, false)
      case Down => Step((active + 1) % n, None, false)
      case Enter => Step(active, Some(active), false)
      case _ => Step(active, None, false)
  }

  function FindIndex<T(==)>(choices: seq<Choice<T>>, value: T): (i: nat)
    ensures i <= |choices|
    ensures forall j :: 0 <= j < i ==> choices[j].value != value
    ensures i < |choices| ==> choices[i].value == value
  {
    if choices == [] || choices[0].value == value then 0 else 1 + FindIndex(choices[1..], value)
  }

  function StartIndex<T(==)>(choices: seq<Choice<T>>, defaultValue: T): (i: nat)
    requires choices != []
    ensures i < |choices| && (choices[i].value == defaultValue || i == 0)
    ensures (exists j :: 0 <= j < |choices| && choices[j].value == defaultValue) ==>
              choices[i].value == defaultValue && forall j :: 0 <= j < i ==> choices[j].value != defaultValue
  {
    var i := FindIndex(choices, defaultValue);
    if i < |choices| then i else 0
  }

  datatype Selected<+T> = NoChoices | Waiting | Chosen(value: T) | Dismissed

  method Select<T(==)>(input: Terminal, choices: seq<Choice<T>>, defaultValue: T, chunks: seq<Text>)
      returns (r: Selected<T>)
    modifies input
    ensures choices == [] ==> r == NoChoices
    ensures choices != [] ==>
      var p := Consume(SelectKey(|choices|), Progress(StartIndex(choices, defaultValue), None, []), Keys(chunks));
      match p.outcome
      case None => r == Waiting
      case Some(Cancelled) => r == Dismissed
      case Some(Resolved(active)) => 0 <= active < |choices| && r == Chosen(choices[active].value)
      case Some(Failed) => false
    ensures !r.Waiting? ==> input.isRaw == old(input.isRaw) && input.listeners == old(input.listeners)
  {
    if choices == [] { return NoChoices; }
    var start := StartIndex(choices, defaultValue);
    var reading := new KeyRead(input, SelectKey(|choices|), start);
    reading.Feed(chunks);
    SelectNeverFails(|choices|, Progress(start, None, []), Keys(chunks));
    match reading.outcome {
      case None => r := Waiting;
      case Some(Cancelled) => r := Dismissed;
      case Some(Resolved(active)) => r := Chosen(choices[active].value);
      case Some(Failed) => assert false;
    }
  }

  lemma {:induction false} SelectNeverFails(n: nat, p: Progress<int, int>, keys: seq<TerminalKey>)
    requires n > 0 && 0 <= p.state < n && p.outcome.None?
    ensures var q := Consume(SelectKey(n), p, keys);
            q.outcome != Some(Failed)
              && (q.outcome.Some? && q.outcome.value.Resolved? ==> 0 <= q.outcome.value.value < n)
    decreases |keys|
  {
    if keys != [] {
      var next := Deliver(SelectKey(n), p, keys[0]);
      if next.outcome.None? {
        SelectNeverFails(n, next, keys[1..]);
      } else {
        assert Consume(SelectKey(n), next, keys[1..]) == next;
      }
    }
  }

  /** Steps down minus steps up. */
  ghost function Moves(keys: seq<TerminalKey>): int {
    if keys == [] then 0
    else (match keys[0].name case Up => -1 case Down => 1 case _ => 0) + Moves(keys[1..])
  }

  lemma ProductAtLeast(t: int, n: nat)
    requires t >= 1 && n > 0
    ensures t * n >= n
  {
  }

  lemma ProductSplits(k: int, q: int, n: nat)
    ensures (k - q) * n == k * n - q * n
  {
  }

  /** The one remainder there is. */
  lemma RemainderIs(x: int, n: nat, k: int, y: int)
    requires n > 0 && 0 <= y < n && x == y + k * n
    ensures x % n == y
  {
    var q, r := x / n, x % n;
    assert x == q * n + r && 0 <= r < n;
    if k > q {
      ProductSplits(k, q, n);
      ProductAtLeast(k - q, n);
    } else if k < q {
      ProductSplits(q, k, n);
      ProductAtLeast(q - k, n);
    }
  }

  lemma RemainderShifts(x: int, d: int, n: nat)
    requires n > 0
    ensures (x % n + d) % n == (x + d) % n
  {
    var y := (x + d) % n;
    assert x + d == (x + d) / n * n + y;
    assert x == x / n * n + x % n;
    ProductSplits((x + d) / n, x / n, n);
    RemainderIs(x % n + d, n, (x + d) / n - x / n, y);
  }

  ghost predicate NoEnding(keys: seq<TerminalKey>) {
    forall k :: 0 <= k < |keys| ==> keys[k].name != Enter && keys[k].name != CtrlC
  }

  /** Arrows move around the menu, wrapping at both ends: the highlight is the start plus the steps down minus
      the steps up, modulo the number of choices. */
  lemma {:induction false} ArrowsMoveAround(n: nat, start: int, keys: seq<TerminalKey>, delivered: seq<TerminalKey>)
    requires n > 0 && NoEnding(keys)
    ensures Consume(SelectKey(n), Progress(start % n, None, delivered), keys)
         == Progress((start + Moves(keys)) % n, None, delivered + keys)
    decreases |keys|
  {
    if keys == [] {
      assert delivered + [] == delivered;
    } else {
      var d := match keys[0].name case Up => -1 case Down => 1 case _ => 0;
      RemainderShifts(start, d, n);
      RemainderShifts(start, -1 + n, n);
      RemainderIs(start - 1 + n, n, (start - 1) / n + 1, (start - 1) % n);
      ArrowsMoveAround(n, start + d, keys[1..], delivered + [keys[0]]);
      assert delivered + [keys[0]] + keys[1..] == delivered + keys;
    }
  }

  /** How many of the keys have a name. */
  ghost function Count(keys: seq<TerminalKey>, name: KeyName): nat {
    if keys == [] then 0 else (if keys[0].name == name then 1 else 0) + Count(keys[1..], name)
  }

  lemma {:induction false} MovesCount(keys: seq<TerminalKey>)
    ensures Moves(keys) == Count(keys, Down) - Count(keys, Up)
  {
    if keys != [] {
      MovesCount(keys[1..]);
    }
  }

  /** Selecting lands on (start + downs - ups) mod n, whatever else was typed before Enter. */
  lemma SelectLands(n: nat, start: nat, keys: seq<TerminalKey>, e: nat)
    requires start < n && e < |keys| && NoEnding(keys[..e]) && keys[e].name == Enter
    ensures Consume(SelectKey(n), Progress(start, None, []), keys).outcome
         == Some(Resolved((start + Count(keys[..e], Down) - Count(keys[..e], Up)) % n))
  {
    MovesCount(keys[..e]);
    RemainderIs(start, n, 0, start);
    ArrowsMoveAround(n, start, keys[..e], []);
    assert keys == keys[..e] + keys[e..];
    EnterSelects(n, Progress(start, None, []), keys[..e], keys[e..]);
  }

  lemma EnterSelects(n: nat, p: Progress<int, int>, moves: seq<TerminalKey>, rest: seq<TerminalKey>)
    requires n > 0 && Consume(SelectKey(n), p, moves).outcome.None?
    requires rest != [] && rest[0].name == Enter
    ensures Consume(SelectKey(n), p, moves + rest).outcome == Some(Resolved(Consume(SelectKey(n), p, moves).state))
  {
    ConsumeConcat(SelectKey(n), p, moves, rest);
    EndsAtOnce(SelectKey(n), Consume(SelectKey(n), p, moves), rest);
  }

  const HIGHLIGHT: Text := [0x276f, 0x20]
  const MARGIN: Text := [0x20, 0x20]
  const ELLIPSIS: Unit := 0x2026

  /** The columns a row may use, for a terminal that may not say how wide it is (0). */
  function Width(columns: nat): (w: nat)
    ensures w >= 1
    ensures columns == 0 ==> w == 79
    ensures columns == 1 ==> w == 1
    ensures columns >= 2 ==> w == columns - 1
  {
    var known := if columns == 0 then 80 else columns;
    if known <= 2 then 1 else known - 1
  }

  /** The visible part of a row: the whole text when it fits, and otherwise as much of it as leaves room for an
      ellipsis; never wider than the terminal, so the rows on screen are as many as the choices. */
  function FormatChoiceRow(name: Text, isActive: bool, columns: nat): (row: Text)
    ensures |row| <= Width(columns)
    ensures var text := (if isActive then [0x276f, 0x20] else [0x20, 0x20]) + name;
            && (|text| <= Width(columns) ==> row == text)
            && (|text| > Width(columns) ==>
                  |row| == Width(columns) && row[|row| - 1] == 0x2026 && row[..|row| - 1] < text)
  {
    var text := (if isActive then HIGHLIGHT else MARGIN) + name;
    if |text| > Width(columns) then text[..Width(columns) - 1] + [ELLIPSIS] else text
  }

  // ------------------------------------------------------------------- the secret

  function DropLast(value: Text): Text {
    if value == [] then [] else value[..|value| - 1]
  }

  function SecretKey(): Handler<Text, ()> {
    (value: Text, key: TerminalKey) =>
      match key.name
      case Enter => Step(value, Some(()), false)
      case Backspace => Step(DropLast(value), None, false)
      case Character => Step(value + key.sequence, None, false)
      case _ => Step(value, None, false)
  }

  /** The secret while it is typed, one code unit at a time. */
  datatype Typed = Typing(value: Text) | Submitted(value: Text) | Aborted

  predicate IsEnter(u: Unit) { u == RETURN || u == NEWLINE }

  predicate IsBackspace(u: Unit) { u == DELETE || u == BACK }

  predicate IsPrintable(u: Unit) { u >= 0x20 && u != DELETE }

  /** What a unit that does not end the reading does to the value. */
  function Press(value: Text, u: Unit): Text {
    if IsBackspace(u) then DropLast(value)
    else if IsPrintable(u) then value + [u]
    else value
  }

  ghost function TypedFrom(value: Text, units: Text): Typed
    decreases |units|
  {
    if units == [] then Typing(value)
    else if IsEnter(units[0]) then Submitted(value)
    else if units[0] == INTERRUPT then Aborted
    else TypedFrom(Press(value, units[0]), units[1..])
  }

  ghost function View(p: Progress<Text, ()>): Typed
    requires p.outcome != Some(Failed)
  {
    match p.outcome
    case None => Typing(p.state)
    case Some(Cancelled) => Aborted
    case Some(Resolved(_)) => Submitted(p.state)
  }

  lemma PairTypes(value: Text, pair: Text, rest: Text)
    requires |pair| == 2 && IsHigh(pair[0]) && IsLow(pair[1])
    ensures KeyOf(pair).name == Character
    ensures TypedFrom(value, pair + rest) == TypedFrom(value + pair, rest)
  {
    assert pair + rest == [pair[0]] + ([pair[1]] + rest);
    assert (pair + rest)[1..] == [pair[1]] + rest;
    assert ([pair[1]] + rest)[1..] == rest;
    assert value + [pair[0]] + [pair[1]] == value + pair;
    assert |UP| == 3 && |DOWN| == 3;
  }

  lemma UnitTypes(u: Unit)
    ensures var name := KeyOf([u]).name;
            && (name == Enter <==> IsEnter(u))
            && (name == Backspace <==> IsBackspace(u))
            && (name == CtrlC <==> u == INTERRUPT)
            && (name == Character <==> IsPrintable(u))
            && KeyOf([u]).sequence == [u]
  {
  }

  /** Keys and units agree: taking one key for each character types what the units type one by one. */
  lemma {:induction false} EachTypes(p: Progress<Text, ()>, data: Text)
    requires p.outcome.None?
    ensures var q := Consume(SecretKey(), p, Each(data));
            q.outcome != Some(Failed) && View(q) == TypedFrom(p.state, data)
    decreases |data|
  {
    if data != [] {
      var n := FirstLength(data);
      var c, rest := data[..n], data[n..];
      var next := Deliver(SecretKey(), p, KeyOf(c));
      assert data == c + rest && Each(data)[1..] == Each(rest);
      if n == 2 {
        PairTypes(p.state, c, rest);
        EachTypes(next, rest);
      } else {
        assert c == [data[0]];
        UnitTypes(data[0]);
        if next.outcome.None? {
          EachTypes(next, rest);
        } else {
          assert Consume(SecretKey(), next, Each(rest)) == next;
        }
      }
    }
  }

  /** The text of the chunks that are not taken for escape sequences. */
  ghost function PlainText(chunks: seq<Text>): Text {
    if chunks == [] then []
    else (if Plain(chunks[0]) then chunks[0] else []) + PlainText(chunks[1..])
  }

  lemma {:induction false} TypedConcat(value: Text, a: Text, b: Text)
    ensures TypedFrom(value, a + b)
         == match TypedFrom(value, a) case Typing(v) => TypedFrom(v, b) case other => other
    decreases |a|
  {
    if a == [] {
      assert a + b == b;
    } else {
      assert (a + b)[1..] == a[1..] + b;
      if !IsEnter(a[0]) && a[0] != INTERRUPT {
        TypedConcat(Press(value, a[0]), a[1..], b);
      }
    }
  }

  lemma ChunkTypes(p: Progress<Text, ()>, chunk: Text)
    requires p.outcome.None?
    ensures var q := Consume(SecretKey(), p, Decoded(chunk));
            q.outcome != Some(Failed) && View(q) == TypedFrom(p.state, if Plain(chunk) then chunk else [])
  {
    if Plain(chunk) {
      PlainDecodesEach(chunk);
      EachTypes(p, chunk);
    } else {
      EscapeIsOneKey(chunk);
      EscapeTypesNothing(p, Decoded(chunk));
    }
  }

  lemma EscapeTypesNothing(p: Progress<Text, ()>, keys: seq<TerminalKey>)
    requires p.outcome.None? && |keys| == 1 && keys[0].name in {Up, Down, Other}
    ensures var q := Consume(SecretKey(), p, keys); q.outcome.None? && q.state == p.state
  {
    assert keys[1..] == [];
  }

  /** The secret is what the text of the chunks types, however it is cut, even inside a surrogate pair; only a
      chunk that starts with an escape types nothing at all, not even its Enter. */
  lemma {:induction false} SecretIsPlainText(p: Progress<Text, ()>, chunks: seq<Text>)
    requires p.outcome.None?
    ensures var q := Consume(SecretKey(), p, Keys(chunks));
            q.outcome != Some(Failed) && View(q) == TypedFrom(p.state, PlainText(chunks))
    decreases |chunks|
  {
    if chunks != [] {
      ChunkTypes(p, chunks[0]);
      var next := Consume(SecretKey(), p, Decoded(chunks[0]));
      ConsumeConcat(SecretKey(), p, Decoded(chunks[0]), Keys(chunks[1..]));
      TypedConcat(p.state, if Plain(chunks[0]) then chunks[0] else [], PlainText(chunks[1..]));
      if next.outcome.None? {
        SecretIsPlainText(next, chunks[1..]);
      }
    }
  }

  /** The value that is left of a text: control characters leave nothing, a backspace takes one unit back. */
  ghost function Erased(units: Text): Text {
    if units == [] then [] else Press(Erased(units[..|units| - 1]), units[|units| - 1])
  }

  predicate Ends(u: Unit) { IsEnter(u) || u == INTERRUPT }

  lemma {:induction false} TypingErases(units: Text)
    requires forall u :: u in units ==> !Ends(u)
    ensures TypedFrom([], units) == Typing(Erased(units))
  {
    if units != [] {
      var before, last := units[..|units| - 1], units[|units| - 1];
      assert units == before + [last] && last in units;
      TypingErases(before);
      TypedConcat([], before, [last]);
      assert [last][1..] == [];
    }
  }

  /** The secret is what is left of the text before the first Enter, if no interruption comes before it. */
  lemma SecretIsErasedText(units: Text, e: nat)
    requires e < |units| && Ends(units[e]) && forall k :: 0 <= k < e ==> !Ends(units[k])
    ensures TypedFrom([], units) == if IsEnter(units[e]) then Submitted(Erased(units[..e])) else Aborted
  {
    TypingErases(units[..e]);
    TypedConcat([], units[..e], units[e..]);
    assert units == units[..e] + units[e..];
  }

  lemma {:induction false} PrintableIsKept(units: Text)
    requires forall k :: 0 <= k < |units| ==> IsPrintable(units[k])
    ensures Erased(units) == units
  {
    if units != [] {
      PrintableIsKept(units[..|units| - 1]);
      assert units == units[..|units| - 1] + [units[|units| - 1]];
    }
  }

  /** Backspace undoes the character before it exactly when that character is one code unit; of a surrogate pair
      it leaves half behind. */
  lemma BackspaceUndoesIff(value: Text, character: Text, erase: Text)
    requires character != [] && FirstLength(character) == |character| && KeyOf(character).name == Character
    requires erase != [] && KeyOf(erase).name == Backspace
    ensures var typed := SecretKey()(value, KeyOf(character)).state;
            var erased := SecretKey()(typed, KeyOf(erase)).state;
            && (erased == value <==> |character| == 1)
            && (|character| == 2 ==> erased == value + [character[0]])
  {
  }

  datatype SecretResult = Secret(value: Text) | Interrupted | Unfinished

  method ReadSecret(input: Terminal, chunks: seq<Text>) returns (r: SecretResult)
    modifies input
    ensures r == match TypedFrom([], PlainText(chunks))
                 case Typing(_) => Unfinished
                 case Submitted(value) => Secret(value)
                 case Aborted => Interrupted
    ensures !r.Unfinished? ==> input.isRaw == old(input.isRaw) && input.listeners == old(input.listeners)
  {
    var reading := new KeyRead(input, SecretKey(), []);
    reading.Feed(chunks);
    SecretIsPlainText(Progress([], None, []), chunks);
    match reading.outcome {
      case None => r := Unfinished;
      case Some(Resolved(_)) => r := Secret(reading.state);
      case Some(_) => r := Interrupted;
    }
  }
}
