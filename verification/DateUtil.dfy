/** `DateUtil.formatDuration`: a duration printed in mixed radix, and read back from the text alone. */
module DateUtil {
  import opened Common

  datatype Unit = Unit(name: string, duration: nat)

  function DurationOf(i: nat): (d: nat)
    ensures d > 0
  {
    if i == 0 then 31536000000 else if i == 1 then 86400000 else if i == 2 then 3600000
    else if i == 3 then 60000 else if i == 4 then 1000 else 1
  }

  function NameOf(i: nat): string {
    if i == 0 then "year" else if i == 1 then "day" else if i == 2 then "hour"
    else if i == 3 then "minute" else if i == 4 then "second" else "ms"
  }

  /** The table of units, from the largest. */
  function UnitAt(i: nat): Unit {
    Unit(NameOf(i), DurationOf(i))
  }

  const UnitCount: nat := 6

  /** How many of a unit make one of the next larger unit; years are unbounded. */
  function Radix(i: nat): nat {
    if i == 1 then 365 else if i == 2 then 24 else if i == 3 then 60 else if i == 4 then 60 else 1000
  }

  /** The values printed for `ms` from unit `i` down. */
  ghost function Digits(ms: nat, i: nat, started: bool): seq<nat>
    requires i <= 6
    decreases 6 - i
  {
    if i == 6 then []
    else
      var value := ms / DurationOf(i);
      if value > 0 || started then [value] + Digits(ms % DurationOf(i), i + 1, true)
      else Digits(ms, i + 1, false)
  }

  /** Digits aligned with the smallest unit. */
  ghost function Total(digits: seq<nat>): nat
  {
    if digits == [] then 0
    else digits[0] * DurationOf(if |digits| <= 6 then 6 - |digits| else 0) + Total(digits[1..])
  }

  lemma Divided(ms: nat, i: nat)
    ensures ms - (ms / DurationOf(i)) * DurationOf(i) == ms % DurationOf(i) < DurationOf(i)
    ensures ms / DurationOf(i) == 0 ==> ms < DurationOf(i)
  {
  }

  lemma {:induction false} DigitsTotal(ms: nat, i: nat, started: bool)
    requires i <= 6 && (i > 0 ==> ms < DurationOf(i - 1))
    ensures |Digits(ms, i, started)| <= 6 - i && (started ==> |Digits(ms, i, started)| == 6 - i)
    ensures Total(Digits(ms, i, started)) == ms
    decreases 6 - i
  {
    if i < 6 {
      var d := DurationOf(i);
      var value := ms / d;
      assert ms == value * d + ms % d;
      if value > 0 || started {
        DigitsTotal(ms % d, i + 1, true);
      } else {
        DigitsTotal(ms, i + 1, false);
      }
    }
  }

  /** Every digit below the year is less than its radix. */
  ghost predicate InRadix(digits: seq<nat>) {
    |digits| <= 6 && forall j :: 0 <= j < |digits| && 6 - |digits| + j > 0 ==> digits[j] < Radix(6 - |digits| + j)
  }

  lemma DigitInRadix(ms: nat, i: nat)
    requires 0 < i < 6 && ms < DurationOf(i - 1)
    ensures ms / DurationOf(i) < Radix(i)
  {
  }

  lemma InRadixCons(value: nat, rest: seq<nat>)
    requires InRadix(rest) && |rest| < 6 && (|rest| < 5 ==> value < Radix(5 - |rest|))
    ensures InRadix([value] + rest)
  {
  }

  lemma {:induction false} DigitsInRadix(ms: nat, i: nat, started: bool)
    requires i <= 6 && (i > 0 ==> ms < DurationOf(i - 1))
    ensures InRadix(Digits(ms, i, started))
    ensures !started && Digits(ms, i, started) != [] ==> Digits(ms, i, started)[0] > 0
    decreases 6 - i
  {
    DigitsTotal(ms, i, started);
    if i < 6 {
      if i > 0 {
        DigitInRadix(ms, i);
      }
      if ms / DurationOf(i) > 0 || started {
        DigitsTotal(ms % DurationOf(i), i + 1, true);
        DigitsInRadix(ms % DurationOf(i), i + 1, true);
        InRadixCons(ms / DurationOf(i), Digits(ms % DurationOf(i), i + 1, true));
      } else {
        DigitsInRadix(ms, i + 1, false);
      }
    }
  }

  // ------------------------------------------------------------------------ text

  function Decimal(n: nat): (s: string)
    ensures s != [] && forall c :: c in s ==> '0' <= c <= '9'
  {
    if n < 10 then ['0' + n as char] else Decimal(n / 10) + ['0' + (n % 10) as char]
  }

  function Label(value: nat, unit: Unit): string {
    " " + unit.name + (if value > 1 && unit.name != "ms" then "s" else "")
  }

  function Part(value: nat, unit: Unit): string {
    Decimal(value) + Label(value, unit)
  }

  function Join(parts: seq<string>): string {
    if parts == [] then "" else if |parts| == 1 then parts[0] else parts[0] + ", " + Join(parts[1..])
  }

  /** The character class `[a-zA-Z0-9 ]`. */
  predicate InClass(c: char) {
    'a' <= c <= 'z' || 'A' <= c <= 'Z' || '0' <= c <= '9' || c == ' '
  }

  predicate AllInClass(s: string) {
    forall i :: 0 <= i < |s| ==> InClass(s[i])
  }

  /** `replace(/, ([a-zA-Z0-9 ]*)$/, " and $1")`. */
  function ReplaceLastComma(s: string): string {
    if s == [] then []
    else if |s| >= 2 && s[0] == ',' && s[1] == ' ' && AllInClass(s[2..]) then " and " + s[2..]
    else [s[0]] + ReplaceLastComma(s[1..])
  }

  /** The unit of the first of `n` digits, aligned with the smallest unit. */
  function UnitOfFirst(n: nat): Unit {
    UnitAt(if 0 < n <= 6 then 6 - n else 0)
  }

  ghost function Labelled(digits: seq<nat>): seq<string> {
    if digits == [] then [] else [Part(digits[0], UnitOfFirst(|digits|))] + Labelled(digits[1..])
  }

  /** The text of a duration, from its digits. */
  ghost function Formatted(digits: seq<nat>): string {
    if digits == [] then "0 ms" else ReplaceLastComma(Join(Labelled(digits)))
  }

  method FormatDuration(milliseconds: nat) returns (text: string)
    ensures text == Formatted(Digits(milliseconds, 0, false))
  {
    var parts: seq<string>, ms: nat := [], milliseconds;
    ghost var digits := Digits(milliseconds, 0, false);
    ghost var rest := Labelled(digits);
    var i := 0;
    while i < UnitCount
      invariant 0 <= i <= 6 && (i > 0 ==> ms < DurationOf(i - 1))
      invariant Labelled(digits) == parts + rest
      invariant rest == Labelled(Digits(ms, i, parts != []))
    {
      LabelledNext(ms, i, parts != []);
      var value, left := Divide(ms, i);
      if value > 0 || |parts| > 0 {
        var part := Part(value, UnitAt(i));
        rest := Labelled(Digits(left, i + 1, true));
        DigitMoves(parts, part, rest);
        parts := parts + [part];
        ms := left;
      }
      i := i + 1;
    }
    assert rest == [];
    assert parts == Labelled(digits);
    text := ReplaceLastComma(Join(parts));
    if text == "" {
      text := "0 ms";
    }
  }

  /** How often the unit fits, and what is left. */
  method Divide(ms: nat, i: nat) returns (value: nat, left: nat)
    ensures value == ms / DurationOf(i) && left == ms % DurationOf(i)
    ensures left < DurationOf(i) && (value == 0 ==> left == ms)
  {
    var unit := UnitAt(i);
    Divided(ms, i);
    value := ms / unit.duration;
    left := ms - value * unit.duration;
  }

  lemma DigitMoves(parts: seq<string>, part: string, rest: seq<string>)
    ensures parts + ([part] + rest) == (parts + [part]) + rest
  {
  }

  /** One unit of the loop. */
  lemma LabelledNext(ms: nat, i: nat, started: bool)
    requires i < 6 && (i > 0 ==> ms < DurationOf(i - 1))
    ensures Labelled(Digits(ms, i, started))
         == if ms / DurationOf(i) > 0 || started
            then [Part(ms / DurationOf(i), UnitAt(i))] + Labelled(Digits(ms % DurationOf(i), i + 1, true))
            else Labelled(Digits(ms, i + 1, false))
  {
    if ms / DurationOf(i) > 0 || started {
      var rest := Digits(ms % DurationOf(i), i + 1, true);
      DigitsTotal(ms % DurationOf(i), i + 1, true);
      assert ([ms / DurationOf(i)] + rest)[1..] == rest;
    }
  }

  // -------------------------------------------------------------- the last comma

  /** The text without the regular expression: commas, and `and` before the last part. */
  ghost function Spelled(digits: seq<nat>): string {
    if digits == [] then ""
    else Part(digits[0], UnitOfFirst(|digits|)) + (Separator(|digits|) + Spelled(digits[1..]))
  }

  /** What follows the first of `n` parts. */
  ghost function Separator(n: nat): string {
    if n == 1 then "" else if n == 2 then " and " else ", "
  }

  lemma InClassConcat(a: string, b: string)
    ensures AllInClass(a + b) <==> AllInClass(a) && AllInClass(b)
  {
    if AllInClass(a + b) {
      forall i | 0 <= i < |a| ensures InClass(a[i]) { assert InClass((a + b)[i]); }
      forall i | 0 <= i < |b| ensures InClass(b[i]) { assert InClass((a + b)[|a| + i]); }
    }
  }

  lemma NameInClass(unit: Unit)
    requires exists i: nat :: unit == UnitAt(i)
    ensures AllInClass(unit.name) && NoDigits(unit.name)
  {
  }

  lemma DecimalInClass(n: nat)
    ensures AllInClass(Decimal(n))
  {
  }

  lemma PartInClass(value: nat, unit: Unit)
    requires exists i: nat :: unit == UnitAt(i)
    ensures AllInClass(Part(value, unit))
  {
    var plural := if value > 1 && unit.name != "ms" then "s" else "";
    NameInClass(unit);
    DecimalInClass(value);
    InClassConcat(" ", unit.name);
    InClassConcat(" " + unit.name, plural);
    InClassConcat(Decimal(value), Label(value, unit));
  }

  lemma {:induction false} ReplacePasses(p: string, rest: string)
    requires AllInClass(p)
    ensures ReplaceLastComma(p + rest) == p + ReplaceLastComma(rest)
  {
    if p == [] {
      assert p + rest == rest;
    } else {
      assert InClass(p[0]);
      assert p == [p[0]] + p[1..];
      Associative([p[0]], p[1..], rest);
      ReplacePasses(p[1..], rest);
      Associative([p[0]], p[1..], ReplaceLastComma(rest));
    }
  }

  lemma {:induction false} NothingToReplace(p: string)
    requires AllInClass(p)
    ensures ReplaceLastComma(p) == p
  {
    ReplacePasses(p, []);
    assert p + [] == p;
  }

  lemma ReplaceNotYet(s: string)
    requires !AllInClass(s)
    ensures ReplaceLastComma(", " + s) == ", " + ReplaceLastComma(s)
  {
  }

  lemma {:induction false} LabelledLength(digits: seq<nat>)
    ensures |Labelled(digits)| == |digits|
  {
    if digits != [] {
      LabelledLength(digits[1..]);
    }
  }

  lemma JoinFirst(digits: seq<nat>)
    requires |digits| > 1
    ensures Join(Labelled(digits)) == Part(digits[0], UnitOfFirst(|digits|)) + (", " + Join(Labelled(digits[1..])))
  {
    LabelledLength(digits);
    assert Labelled(digits)[1..] == Labelled(digits[1..]);
    var part, rest := Part(digits[0], UnitOfFirst(|digits|)), Join(Labelled(digits[1..]));
    assert part + ", " + rest == part + (", " + rest);
  }

  lemma JoinHasComma(digits: seq<nat>)
    requires |digits| > 1
    ensures !AllInClass(Join(Labelled(digits)))
  {
    JoinFirst(digits);
    var rest := ", " + Join(Labelled(digits[1..]));
    InClassConcat(Part(digits[0], UnitOfFirst(|digits|)), rest);
    assert !InClass(rest[0]);
  }

  lemma {:induction false} JoinSpelled(digits: seq<nat>)
    ensures ReplaceLastComma(Join(Labelled(digits))) == Spelled(digits)
  {
    if digits != [] {
      var part := Part(digits[0], UnitOfFirst(|digits|));
      PartInClass(digits[0], UnitOfFirst(|digits|));
      if |digits| == 1 {
        assert Join(Labelled(digits)) == part && Spelled(digits) == part;
        NothingToReplace(part);
      } else {
        var rest := Join(Labelled(digits[1..]));
        JoinFirst(digits);
        ReplacePasses(part, ", " + rest);
        JoinSpelled(digits[1..]);
        if |digits| == 2 {
          PartInClass(digits[1], UnitOfFirst(1));
          assert rest == Part(digits[1], UnitOfFirst(1));
        } else {
          JoinHasComma(digits[1..]);
          ReplaceNotYet(rest);
        }
      }
    }
  }

  // --------------------------------------------------------------------- parsing

  predicate IsDigit(c: char) { '0' <= c <= '9' }

  /** The maximal runs of decimal digits of a text, as numbers; `pending` is the run being read. */
  function Scan(s: string, reading: bool, pending: nat): seq<nat> {
    if s == [] then (if reading then [pending] else [])
    else if IsDigit(s[0]) then
      Scan(s[1..], true, (if reading then pending * 10 else 0) + (s[0] as int - '0' as int))
    else (if reading then [pending] else []) + Scan(s[1..], false, 0)
  }

  /** Reads a duration back: its numbers, aligned with the smallest unit. */
  ghost function ParseDuration(text: string): nat {
    Total(Scan(text, false, 0))
  }

  lemma {:induction false} ScanDecimal(n: nat, rest: string)
    ensures Scan(Decimal(n) + rest, false, 0) == Scan(rest, true, n)
  {
    if n < 10 {
      assert (Decimal(n) + rest)[1..] == rest;
    } else {
      var last := ['0' + (n % 10) as char];
      ScanDecimal(n / 10, last + rest);
      assert Decimal(n) + rest == Decimal(n / 10) + (last + rest);
      assert (last + rest)[1..] == rest;
    }
  }

  ghost predicate NoDigits(s: string) {
    forall i :: 0 <= i < |s| ==> !IsDigit(s[i])
  }

  lemma {:induction false} ScanSkips(s: string, rest: string)
    requires NoDigits(s)
    ensures Scan(s + rest, false, 0) == Scan(rest, false, 0)
  {
    if s == [] {
      assert s + rest == rest;
    } else {
      assert !IsDigit(s[0]);
      assert (s + rest)[1..] == s[1..] + rest;
      ScanSkips(s[1..], rest);
    }
  }

  lemma ScanEnds(s: string, rest: string, n: nat)
    requires NoDigits(s) && s != []
    ensures Scan(s + rest, true, n) == [n] + Scan(rest, false, 0)
  {
    assert !IsDigit(s[0]);
    assert (s + rest)[1..] == s[1..] + rest;
    ScanSkips(s[1..], rest);
  }

  lemma NoDigitsConcat(a: string, b: string)
    requires NoDigits(a) && NoDigits(b)
    ensures NoDigits(a + b)
  {
  }

  lemma LabelHasNoDigits(value: nat, unit: Unit, n: nat)
    requires exists i: nat :: unit == UnitAt(i)
    ensures NoDigits(Label(value, unit) + Separator(n))
  {
    NameInClass(unit);
    NoDigitsConcat(" ", unit.name);
    NoDigitsConcat(" " + unit.name, if value > 1 && unit.name != "ms" then "s" else "");
    NoDigitsConcat(Label(value, unit), Separator(n));
  }

  lemma Regroup(a: string, b: string, c: string, d: string)
    ensures (a + b) + (c + d) == a + ((b + c) + d)
  {
  }

  lemma {:induction false} ScanSpelled(digits: seq<nat>)
    ensures Scan(Spelled(digits), false, 0) == digits
  {
    if digits != [] {
      var unit, rest := UnitOfFirst(|digits|), Spelled(digits[1..]);
      var between := Label(digits[0], unit) + Separator(|digits|);
      ScanSpelled(digits[1..]);
      LabelHasNoDigits(digits[0], unit, |digits|);
      Regroup(Decimal(digits[0]), Label(digits[0], unit), Separator(|digits|), rest);
      ScanDecimal(digits[0], between + rest);
      ScanEnds(between, rest, digits[0]);
    }
  }

  lemma ScanZero()
    ensures Scan("0 ms", false, 0) == [0]
  {
  }

  /** The printed text determines the duration: reading its numbers back, aligned with milliseconds, gives the
      input; so no two durations print alike. */
  lemma FormatDurationReadsBack(ms: nat)
    ensures ParseDuration(Formatted(Digits(ms, 0, false))) == ms
  {
    var digits := Digits(ms, 0, false);
    DigitsTotal(ms, 0, false);
    if digits == [] {
      ScanZero();
      assert [0][1..] == [];
    } else {
      JoinSpelled(digits);
      ScanSpelled(digits);
    }
  }

  lemma FormatDurationInjective(a: nat, b: nat)
    requires Formatted(Digits(a, 0, false)) == Formatted(Digits(b, 0, false))
    ensures a == b
  {
    FormatDurationReadsBack(a);
    FormatDurationReadsBack(b);
  }

  /** The digits are those of the mixed-radix expansion, from the first non-zero one down. */
  lemma DigitsAreMixedRadix(ms: nat)
    ensures var digits := Digits(ms, 0, false);
            && Total(digits) == ms && InRadix(digits)
            && (digits == [] <==> ms == 0) && (digits != [] ==> digits[0] > 0)
  {
    DigitsTotal(ms, 0, false);
    DigitsInRadix(ms, 0, false);
    if Digits(ms, 0, false) != [] {
      assert Digits(ms, 0, false)[0] * DurationOf(6 - |Digits(ms, 0, false)|) > 0;
    }
  }

  // ------------------------------------------------------------------- the text, spelled out

  /** `3 days`, `1 hour`, `0 minute`. */
  ghost function Said(n: nat, name: string): string {
    Decimal(n) + " " + name + (if n > 1 then "s" else "")
  }

  lemma PartIsSaid(n: nat, i: nat)
    requires i < 5
    ensures i == 0 ==> Part(n, UnitAt(i)) == Said(n, "year")
    ensures i == 1 ==> Part(n, UnitAt(i)) == Said(n, "day")
    ensures i == 2 ==> Part(n, UnitAt(i)) == Said(n, "hour")
    ensures i == 3 ==> Part(n, UnitAt(i)) == Said(n, "minute")
    ensures i == 4 ==> Part(n, UnitAt(i)) == Said(n, "second")
  {
    var name, plural := UnitAt(i).name, if n > 1 then "s" else "";
    Associative(Decimal(n), " " + name, plural);
    Associative(Decimal(n), " ", name);
  }

  lemma LastPart(n: nat)
    ensures Spelled([n]) == Decimal(n) + " ms"
  {
    assert [n][1..] == [];
    assert " " + "ms" + "" == " ms";
    assert Decimal(n) + " ms" + ("" + "") == Decimal(n) + " ms";
  }

  lemma DivisionIs(ms: nat, q: nat, r: nat, i: nat)
    requires i < 6 && r < DurationOf(i) && ms == q * DurationOf(i) + r
    ensures ms / DurationOf(i) == q && ms % DurationOf(i) == r
  {
    if i == 0 {
      assert ms / 31536000000 == q;
    } else if i == 1 {
      assert ms / 86400000 == q;
    } else if i == 2 {
      assert ms / 3600000 == q;
    } else if i == 3 {
      assert ms / 60000 == q;
    } else if i == 4 {
      assert ms / 1000 == q;
    }
  }

  lemma DigitsUnfold(ms: nat, value: nat, left: nat, i: nat, started: bool)
    requires i < 6 && ms / DurationOf(i) == value && ms % DurationOf(i) == left
    ensures Digits(ms, i, started)
         == if value > 0 || started then [value] + Digits(left, i + 1, true) else Digits(ms, i + 1, false)
  {
  }

  /** One number read, and what is left of it. */
  lemma DigitIs(ms: nat, value: nat, left: nat, i: nat, started: bool)
    requires i < 6 && left < DurationOf(i) && ms == value * DurationOf(i) + left
    ensures Digits(ms, i, started)
         == if value > 0 || started then [value] + Digits(left, i + 1, true) else Digits(ms, i + 1, false)
  {
    DivisionIs(ms, value, left, i);
    DigitsUnfold(ms, value, left, i, started);
  }

  // A duration from each unit down, and its text when that unit comes first.

  ghost function Seconds(s: nat, u: nat): nat { s * 1000 + u }

  ghost function Minutes(m: nat, s: nat, u: nat): nat { m * 60000 + Seconds(s, u) }

  ghost function Hours(h: nat, m: nat, s: nat, u: nat): nat { h * 3600000 + Minutes(m, s, u) }

  ghost function Days(d: nat, h: nat, m: nat, s: nat, u: nat): nat { d * 86400000 + Hours(h, m, s, u) }

  ghost function Years(y: nat, d: nat, h: nat, m: nat, s: nat, u: nat): nat { y * 31536000000 + Days(d, h, m, s, u) }

  ghost function SecondsText(s: nat, u: nat): string {
    Said(s, "second") + (" and " + (Decimal(u) + " ms"))
  }

  ghost function MinutesText(m: nat, s: nat, u: nat): string {
    Said(m, "minute") + (", " + SecondsText(s, u))
  }

  ghost function HoursText(h: nat, m: nat, s: nat, u: nat): string {
    Said(h, "hour") + (", " + MinutesText(m, s, u))
  }

  ghost function DaysText(d: nat, h: nat, m: nat, s: nat, u: nat): string {
    Said(d, "day") + (", " + HoursText(h, m, s, u))
  }

  ghost function YearsText(y: nat, d: nat, h: nat, m: nat, s: nat, u: nat): string {
    Said(y, "year") + (", " + DaysText(d, h, m, s, u))
  }

  /** From unit `i` on, `ms` has these digits if nothing came before; they are `text`. */
  ghost predicate Spells(ms: nat, i: nat, digits: seq<nat>, text: string)
    requires i <= 6
  {
    |digits| == 6 - i && Digits(ms, i, true) == digits && Spelled(digits) == text
  }

  /** One more unit in front. */
  lemma SpellsNext(ms: nat, i: nat, value: nat, left: nat, digits: seq<nat>, text: string)
    requires i < 5 && left < DurationOf(i) && ms == value * DurationOf(i) + left && Spells(left, i + 1, digits, text)
    ensures Spells(ms, i, [value] + digits, Part(value, UnitAt(i)) + ((if i == 4 then " and " else ", ") + text))
    ensures Digits(ms, i, false) == if value > 0 then [value] + digits else Digits(ms, i + 1, false)
  {
    DigitIs(ms, value, left, i, true);
    DigitIs(ms, value, left, i, false);
    assert ([value] + digits)[1..] == digits;
  }

  lemma MillisSpell(u: nat)
    requires u < 1000
    ensures Spells(u, 5, [u], Decimal(u) + " ms") && Digits(u, 5, false) == if u > 0 then [u] else []
  {
    DigitIs(u, u, 0, 5, true);
    DigitIs(u, u, 0, 5, false);
    LastPart(u);
  }

  lemma SecondsSpell(s: nat, u: nat)
    requires s < 60 && u < 1000
    ensures Seconds(s, u) < 60000 && Spells(Seconds(s, u), 4, [s] + [u], SecondsText(s, u))
    ensures Digits(Seconds(s, u), 4, false) == if s > 0 then [s] + [u] else Digits(Seconds(s, u), 5, false)
  {
    MillisSpell(u);
    SpellsNext(Seconds(s, u), 4, s, u, [u], Decimal(u) + " ms");
    PartIsSaid(s, 4);
  }

  lemma MinutesSpell(m: nat, s: nat, u: nat)
    requires m < 60 && s < 60 && u < 1000
    ensures Minutes(m, s, u) < 3600000 && Spells(Minutes(m, s, u), 3, [m] + ([s] + [u]), MinutesText(m, s, u))
    ensures Digits(Minutes(m, s, u), 3, false)
         == if m > 0 then [m] + ([s] + [u]) else Digits(Minutes(m, s, u), 4, false)
  {
    SecondsSpell(s, u);
    SpellsNext(Minutes(m, s, u), 3, m, Seconds(s, u), [s] + [u], SecondsText(s, u));
    PartIsSaid(m, 3);
  }

  lemma HoursSpell(h: nat, m: nat, s: nat, u: nat)
    requires h < 24 && m < 60 && s < 60 && u < 1000
    ensures Hours(h, m, s, u) < 86400000
    ensures Spells(Hours(h, m, s, u), 2, [h] + ([m] + ([s] + [u])), HoursText(h, m, s, u))
    ensures Digits(Hours(h, m, s, u), 2, false)
         == if h > 0 then [h] + ([m] + ([s] + [u])) else Digits(Hours(h, m, s, u), 3, false)
  {
    MinutesSpell(m, s, u);
    SpellsNext(Hours(h, m, s, u), 2, h, Minutes(m, s, u), [m] + ([s] + [u]), MinutesText(m, s, u));
    PartIsSaid(h, 2);
  }

  lemma DaysSpell(d: nat, h: nat, m: nat, s: nat, u: nat)
    requires d < 365 && h < 24 && m < 60 && s < 60 && u < 1000
    ensures Days(d, h, m, s, u) < 31536000000
    ensures Spells(Days(d, h, m, s, u), 1, [d] + ([h] + ([m] + ([s] + [u]))), DaysText(d, h, m, s, u))
    ensures Digits(Days(d, h, m, s, u), 1, false)
         == if d > 0 then [d] + ([h] + ([m] + ([s] + [u]))) else Digits(Days(d, h, m, s, u), 2, false)
  {
    HoursSpell(h, m, s, u);
    SpellsNext(Days(d, h, m, s, u), 1, d, Hours(h, m, s, u), [h] + ([m] + ([s] + [u])), HoursText(h, m, s, u));
    PartIsSaid(d, 1);
  }

  /** Units that do not fit leave no digit. */
  lemma {:induction false} FromTheTop(ms: nat, i: nat)
    requires i <= 6 && (i > 0 ==> ms < DurationOf(i - 1))
    ensures Digits(ms, 0, false) == Digits(ms, i, false)
  {
    if i > 0 {
      DigitIs(ms, 0, ms, i - 1, false);
      FromTheTop(ms, i - 1);
    }
  }

  lemma FormattedIs(ms: nat, digits: seq<nat>, text: string)
    requires digits != [] && Digits(ms, 0, false) == digits && Spelled(digits) == text
    ensures Formatted(Digits(ms, 0, false)) == text
  {
    JoinSpelled(digits);
  }

  lemma YearsFormat(ms: nat, y: nat, d: nat, h: nat, m: nat, s: nat, u: nat)
    requires ms == Years(y, d, h, m, s, u) && d < 365 && h < 24 && m < 60 && s < 60 && u < 1000 && y > 0
    ensures Formatted(Digits(ms, 0, false)) == YearsText(y, d, h, m, s, u)
  {
    var rest := [d] + ([h] + ([m] + ([s] + [u])));
    DaysSpell(d, h, m, s, u);
    SpellsNext(Years(y, d, h, m, s, u), 0, y, Days(d, h, m, s, u), rest, DaysText(d, h, m, s, u));
    PartIsSaid(y, 0);
    FormattedIs(ms, [y] + rest, YearsText(y, d, h, m, s, u));
  }

  lemma DaysFormat(ms: nat, d: nat, h: nat, m: nat, s: nat, u: nat)
    requires ms == Days(d, h, m, s, u) && d < 365 && h < 24 && m < 60 && s < 60 && u < 1000 && d > 0
    ensures Formatted(Digits(ms, 0, false)) == DaysText(d, h, m, s, u)
  {
    DaysSpell(d, h, m, s, u);
    FromTheTop(ms, 1);
    FormattedIs(ms, [d] + ([h] + ([m] + ([s] + [u]))), DaysText(d, h, m, s, u));
  }

  lemma HoursFormat(ms: nat, h: nat, m: nat, s: nat, u: nat)
    requires ms == Hours(h, m, s, u) && h < 24 && m < 60 && s < 60 && u < 1000 && h > 0
    ensures Formatted(Digits(ms, 0, false)) == HoursText(h, m, s, u)
  {
    HoursSpell(h, m, s, u);
    FromTheTop(ms, 2);
    FormattedIs(ms, [h] + ([m] + ([s] + [u])), HoursText(h, m, s, u));
  }

  lemma MinutesFormat(ms: nat, m: nat, s: nat, u: nat)
    requires ms == Minutes(m, s, u) && m < 60 && s < 60 && u < 1000 && m > 0
    ensures Formatted(Digits(ms, 0, false)) == MinutesText(m, s, u)
  {
    MinutesSpell(m, s, u);
    FromTheTop(ms, 3);
    FormattedIs(ms, [m] + ([s] + [u]), MinutesText(m, s, u));
  }

  lemma SecondsFormat(ms: nat, s: nat, u: nat)
    requires ms == Seconds(s, u) && s < 60 && u < 1000 && s > 0
    ensures Formatted(Digits(ms, 0, false)) == SecondsText(s, u)
  {
    SecondsSpell(s, u);
    FromTheTop(ms, 4);
    FormattedIs(ms, [s] + [u], SecondsText(s, u));
  }

  lemma MillisFormat(ms: nat, u: nat)
    requires ms == u < 1000
    ensures Formatted(Digits(ms, 0, false)) == if u > 0 then Decimal(u) + " ms" else "0 ms"
  {
    MillisSpell(u);
    FromTheTop(u, 5);
    if u > 0 {
      FormattedIs(u, [u], Decimal(u) + " ms");
    }
  }

  ghost function DurationText(y: nat, d: nat, h: nat, m: nat, s: nat, u: nat): string {
    if y > 0 then YearsText(y, d, h, m, s, u)
    else if d > 0 then DaysText(d, h, m, s, u)
    else if h > 0 then HoursText(h, m, s, u)
    else if m > 0 then MinutesText(m, s, u)
    else if s > 0 then SecondsText(s, u)
    else if u > 0 then Decimal(u) + " ms"
    else "0 ms"
  }

  lemma HoursOrLess(ms: nat, h: nat, m: nat, s: nat, u: nat)
    requires h < 24 && m < 60 && s < 60 && u < 1000 && ms == h * 3600000 + m * 60000 + s * 1000 + u
    ensures Formatted(Digits(ms, 0, false)) == DurationText(0, 0, h, m, s, u)
  {
    if h > 0 {
      HoursFormat(ms, h, m, s, u);
    } else if m > 0 {
      MinutesFormat(ms, m, s, u);
    } else if s > 0 {
      SecondsFormat(ms, s, u);
    } else {
      MillisFormat(ms, u);
    }
  }

  /** The text of a duration given in years, days, hours, minutes, seconds and milliseconds: it begins with the first
      of these that is not zero, and names every smaller one. */
  lemma TextIs(ms: nat, y: nat, d: nat, h: nat, m: nat, s: nat, u: nat)
    requires d < 365 && h < 24 && m < 60 && s < 60 && u < 1000
    requires ms == y * 31536000000 + d * 86400000 + h * 3600000 + m * 60000 + s * 1000 + u
    ensures Formatted(Digits(ms, 0, false)) == DurationText(y, d, h, m, s, u)
  {
    if y > 0 {
      YearsFormat(ms, y, d, h, m, s, u);
    } else if d > 0 {
      DaysFormat(ms, d, h, m, s, u);
    } else {
      HoursOrLess(ms, h, m, s, u);
    }
  }

  /** Numbers are written without leading zeros. */
  lemma {:induction false} NoLeadingZero(n: nat)
    ensures Decimal(n)[0] == '0' ==> n == 0
  {
    if n >= 10 {
      NoLeadingZero(n / 10);
    }
  }
}
