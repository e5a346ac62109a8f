/** Raw terminal input: how chunks of text become keys, as UTF-16 code units. */
module TerminalKeys {

  type Unit = x: int | 0 <= x < 0x10000

  type Text = seq<Unit>

  const ESCAPE: Unit := 0x1b
  const RETURN: Unit := 0x0d
  const NEWLINE: Unit := 0x0a
  const DELETE: Unit := 0x7f
  const BACK: Unit := 0x08
  const INTERRUPT: Unit := 0x03
  const UP: Text := [0x1b, 0x5b, 0x41]
  const DOWN: Text := [0x1b, 0x5b, 0x42]

  datatype KeyName = Up | Down | Enter | Backspace | CtrlC | Character | Other

  datatype TerminalKey = TerminalKey(name: KeyName, sequence: Text)

  datatype Recognised = Unknown | Known(name: KeyName)

  function DecodeControl(sequence: Text): Recognised {
    if sequence == UP then Known(Up)
    else if sequence == DOWN then Known(Down)
    else if sequence == [RETURN] || sequence == [NEWLINE] then Known(Enter)
    else if sequence == [DELETE] || sequence == [BACK] then Known(Backspace)
    else if sequence == [INTERRUPT] then Known(CtrlC)
    else Unknown
  }

  predicate IsHigh(u: Unit) { 0xd800 <= u <= 0xdbff }

  predicate IsLow(u: Unit) { 0xdc00 <= u <= 0xdfff }

  /** How many units the first character has: a surrogate pair is one character. */
  function FirstLength(data: Text): (n: nat)
    requires data != []
    ensures 1 <= n <= |data|
  {
    if |data| >= 2 && IsHigh(data[0]) && IsLow(data[1]) then 2 else 1
  }

  function KeyOf(character: Text): TerminalKey
    requires character != []
  {
    match DecodeControl(character)
    case Known(name) => TerminalKey(name, character)
    case Unknown => TerminalKey(if character[0] < 0x20 then Other else Character, character)
  }

  /** One key for each character. */
  function Each(data: Text): seq<TerminalKey> {
    if data == [] then []
    else [KeyOf(data[..FirstLength(data)])] + Each(data[FirstLength(data)..])
  }

  function Decoded(data: Text): seq<TerminalKey> {
    match DecodeControl(data)
    case Known(name) => [TerminalKey(name, data)]
    case Unknown =>
      if data != [] && data[0] == ESCAPE then [TerminalKey(Other, data)] else Each(data)
  }

  method Decode(data: Text) returns (keys: seq<TerminalKey>)
    ensures keys == Decoded(data)
  {
    var whole := DecodeControl(data);
    if whole.Known? { return [TerminalKey(whole.name, data)]; }
    if data != [] && data[0] == ESCAPE { return [TerminalKey(Other, data)]; }
    keys := [];
    var rest := data;
    while rest != []
      invariant keys + Each(rest) == Each(data)
      decreases |rest|
    {
      var n := FirstLength(rest);
      keys := keys + [KeyOf(rest[..n])];
      rest := rest[n..];
    }
  }

  // ------------------------------------------------------------------- laws of decoding

  ghost function Sequences(keys: seq<TerminalKey>): Text {
    if keys == [] then [] else keys[0].sequence + Sequences(keys[1..])
  }

  lemma {:induction false} EachKeepsText(data: Text)
    ensures Sequences(Each(data)) == data
    decreases |data|
  {
    if data != [] {
      var n := FirstLength(data);
      EachKeepsText(data[n..]);
      assert Each(data)[1..] == Each(data[n..]);
      assert data == data[..n] + data[n..];
    }
  }

  /** No input is lost or reordered: the sequences of the keys spell the chunk, escapes included. */
  lemma DecodingKeepsText(data: Text)
    ensures Sequences(Decoded(data)) == data
  {
    if DecodeControl(data).Unknown? && !(data != [] && data[0] == ESCAPE) {
      EachKeepsText(data);
    } else {
      assert Decoded(data)[1..] == [];
    }
  }

  /** The key that one code unit stands for. */
  ghost predicate StandsFor(u: Unit, name: KeyName) {
    match name
    case Enter => u == 0x0d || u == 0x0a
    case Backspace => u == 0x7f || u == 0x08
    case CtrlC => u == 0x03
    case Character => u >= 0x20 && u != 0x7f
    case Other => u < 0x20 && u != 0x0d && u != 0x0a && u != 0x08 && u != 0x03
    case Up => false
    case Down => false
  }

  ghost predicate IsPair(a: Unit, b: Unit) {
    0xd800 <= a <= 0xdbff && 0xdc00 <= b <= 0xdfff
  }

  /** One character: a surrogate pair, or a unit that is none. */
  ghost predicate IsOneKey(key: TerminalKey) {
    || (|key.sequence| == 2 && IsPair(key.sequence[0], key.sequence[1]) && key.name == Character)
    || (|key.sequence| == 1 && StandsFor(key.sequence[0], key.name))
  }

  /** No pair is torn. */
  ghost predicate PairStays(keys: seq<TerminalKey>, i: nat) {
    i + 1 < |keys| && |keys[i].sequence| == 1 && keys[i + 1].sequence != [] ==>
      !IsPair(keys[i].sequence[0], keys[i + 1].sequence[0])
  }

  lemma OneKey(character: Text)
    requires |character| == 1 || (|character| == 2 && IsPair(character[0], character[1]))
    ensures IsOneKey(KeyOf(character)) && KeyOf(character).sequence == character
  {
    assert |UP| == 3 && |DOWN| == 3;
  }

  lemma {:induction false} EachIsOneKey(data: Text)
    ensures forall key :: key in Each(data) ==> IsOneKey(key)
    ensures forall i: nat :: PairStays(Each(data), i)
    ensures data != [] ==> Each(data) != [] && Each(data)[0].sequence == data[..FirstLength(data)]
    decreases |data|
  {
    if data != [] {
      var n, keys := FirstLength(data), Each(data);
      var rest := data[n..];
      EachIsOneKey(rest);
      OneKey(data[..n]);
      assert keys[1..] == Each(rest);
      forall i: nat ensures PairStays(keys, i) {
        if i > 0 {
          assert PairStays(Each(rest), i - 1);
        }
      }
    }
  }

  /** What the keys of a chunk are: an arrow or a meaningless key when it starts with an escape, and otherwise a key
      for each character. */
  lemma DecodesExactly(data: Text)
    ensures data == [0x1b, 0x5b, 0x41] ==> Decoded(data) == [TerminalKey(Up, data)]
    ensures data == [0x1b, 0x5b, 0x42] ==> Decoded(data) == [TerminalKey(Down, data)]
    ensures data != [] && data[0] == 0x1b && data != [0x1b, 0x5b, 0x41] && data != [0x1b, 0x5b, 0x42] ==>
              Decoded(data) == [TerminalKey(Other, data)]
    ensures data == [] || data[0] != 0x1b ==>
              && (forall key :: key in Decoded(data) ==> IsOneKey(key))
              && forall i: nat :: PairStays(Decoded(data), i)
  {
    if data == [] || data[0] != 0x1b {
      EachIsOneKey(data);
    }
  }

  /** The cut falls inside a surrogate pair. */
  predicate Straddles(a: Text, b: Text) {
    a != [] && b != [] && IsHigh(a[|a| - 1]) && IsLow(b[0])
  }

  lemma FirstSplit(a: Text, b: Text) returns (c: Text, rest: Text)
    requires a != [] && !Straddles(a, b)
    ensures c != [] && a == c + rest && a + b == c + (rest + b)
    ensures FirstLength(c + rest) == |c| && FirstLength(c + (rest + b)) == |c| && !Straddles(rest, b)
  {
    c, rest := a[..FirstLength(a)], a[FirstLength(a)..];
    assert a == c + rest;
    assert rest != [] ==> rest[|rest| - 1] == a[|a| - 1];
  }

  lemma {:induction false} EachAddsUp(a: Text, b: Text)
    requires !Straddles(a, b)
    ensures Each(a + b) == Each(a) + Each(b)
    decreases |a|
  {
    if a == [] {
      assert a + b == b;
    } else {
      var c, rest := FirstSplit(a, b);
      EachAddsUp(rest, b);
    }
  }

  /** Not taken for an escape sequence. */
  predicate Plain(data: Text) { data == [] || data[0] != ESCAPE }

  lemma PlainDecodesEach(data: Text)
    requires Plain(data)
    ensures Decoded(data) == Each(data)
  {
  }

  lemma PairIsOneKey(a: Text, b: Text)
    requires Straddles(a, b)
    ensures |Each(a + b)| == |Each(a)| + |Each(b)| - 1
  {
    var high, low := a[|a| - 1], b[0];
    var a', b' := a[..|a| - 1], b[1..];
    Rejoined(a, b, a', b', high, low);
    EachAddsUp(a', [high, low] + b');
    EachAddsUp(a', [high]);
  }

  lemma Rejoined(a: Text, b: Text, a': Text, b': Text, high: Unit, low: Unit)
    requires a == a' + [high] && b == [low] + b'
    ensures a + b == a' + ([high, low] + b')
  {
  }

  lemma EscapeIsOneKey(data: Text)
    requires !Plain(data)
    ensures |Decoded(data)| == 1 && Decoded(data)[0].sequence == data
    ensures Decoded(data)[0].name in {Up, Down, Other}
  {
  }

  /** An escape that ends a chunk is a key of its own, as it would be between two characters. */
  lemma LoneEscape()
    ensures Decoded([ESCAPE]) == Each([ESCAPE])
  {
    assert [ESCAPE][..1] == [ESCAPE] && [ESCAPE][1..] == [];
  }

  /** Decoding two chunks is decoding their concatenation exactly when the first is not taken for an escape
      sequence, the cut does not split a surrogate pair, and an escape that starts the second is all of it. */
  lemma DecodingAddsUpIff(a: Text, b: Text)
    ensures Decoded(a + b) == Decoded(a) + Decoded(b)
      <==> a == [] || b == [] || (Plain(a) && !Straddles(a, b) && (Plain(b) || b == [ESCAPE]))
  {
    if a == [] {
      assert a + b == b;
    } else if b == [] {
      assert a + b == a;
    } else if !Plain(a) {
      EscapeIsOneKey(a);
      EscapeIsOneKey(a + b);
      DecodingKeepsText(b);
    } else {
      PlainDecodesEach(a);
      PlainDecodesEach(a + b);
      if Straddles(a, b) {
        PlainDecodesEach(b);
        PairIsOneKey(a, b);
      } else {
        EachAddsUp(a, b);
        AfterPlain(Each(a), b);
      }
    }
  }

  lemma AfterPlain(before: seq<TerminalKey>, b: Text)
    requires b != []
    ensures before + Each(b) == before + Decoded(b) <==> Plain(b) || b == [ESCAPE]
  {
    if Plain(b) {
      PlainDecodesEach(b);
    } else if b == [ESCAPE] {
      LoneEscape();
    } else {
      EscapeIsOneKey(b);
    }
  }

  /** Two arrows that arrive in one chunk are one key that nobody acts on. */
  lemma TwoArrowsAreLost()
    ensures Decoded(UP) + Decoded(UP) == [TerminalKey(Up, UP), TerminalKey(Up, UP)]
    ensures Decoded(UP + UP) == [TerminalKey(Other, UP + UP)]
  {
  }

  /** A key moves a menu only when it has its chunk to itself. */
  lemma {:induction false} ArrowsNeedTheirOwnChunk(data: Text, key: TerminalKey)
    requires key in Decoded(data) && (key.name == Up || key.name == Down)
    ensures data == key.sequence && (data == UP || data == DOWN)
  {
    if DecodeControl(data).Unknown? {
      if data != [] && data[0] == ESCAPE {
        assert false;
      } else {
        EachHasNoArrow(data, key);
      }
    }
  }

  lemma {:induction false} EachHasNoArrow(data: Text, key: TerminalKey)
    requires key in Each(data)
    ensures key.name != Up && key.name != Down
    decreases |data|
  {
    var n := FirstLength(data);
    if key in Each(data[n..]) {
      EachHasNoArrow(data[n..], key);
    } else {
      assert key == KeyOf(data[..n]) && |data[..n]| <= 2;
      assert |UP| == 3 && |DOWN| == 3;
    }
  }
}
