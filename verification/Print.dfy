/**
 Number printing of code/lib/print.c: a buffer is filled from its end with the
 digits of the number, and goes to the screen as a string. Parsing inverts it.
*/
module Print {
  import opened Tty

  const INT64_MIN: int := -0x8000_0000_0000_0000
  const INT64_MAX: int := 0x7FFF_FFFF_FFFF_FFFF

  type Int64 = x: int | INT64_MIN <= x <= INT64_MAX
  type UInt64 = x: int | 0 <= x < 0x1_0000_0000_0000_0000

  datatype Option<T> = Some(value: T) | None

  // C divides towards zero, and the remainder has the sign of the dividend.
  function Quotient(n: int, d: int): int
    requires d > 0
  {
    if n >= 0 then n / d else -((-n) / d)
  }

  function Remainder(n: int, d: int): int
    requires d > 0
  {
    n - Quotient(n, d) * d
  }

  // Negation on 64 bits leaves the least number as it is.
  function Negate(n: Int64): Int64 { if n == INT64_MIN then n else -n }

  predicate Base(b: nat) { b == 10 || b == 16 }

  // The character the code stores for a remainder r, which may be negative.
  function DigitOf(r: int): Byte
    requires -16 < r < 16
  {
    if r >= 10 then r - 10 + 'a' as int else r + '0' as int
  }

  lemma QuotientSmaller(n: int, b: nat)
    requires Base(b)
    ensures var q, r := Quotient(n, b), Remainder(n, b);
      && -16 < r < 16
      && (n > 0 ==> 0 <= q < n) && (n < 0 ==> n < q <= 0)
      && (n >= 0 ==> q == n / b && r == n % b)
  {
  }

  // The digits that the loops produce, first digit first.
  function Digits(n: int, b: nat): seq<Byte>
    requires Base(b)
    decreases if n < 0 then -n else n, b
  {
    QuotientSmaller(n, b);
    var q := Quotient(n, b);
    (if q == 0 then [] else Digits(q, b)) + [DigitOf(Remainder(n, b))]
  }

  lemma DigitsStep(n: int, b: nat)
    requires Base(b)
    ensures var q, r := Quotient(n, b), Remainder(n, b);
      -16 < r < 16 && Digits(n, b) == (if q == 0 then [] else Digits(q, b)) + [DigitOf(r)] && DigitOf(r) > 0
  {
    QuotientSmaller(n, b);
  }

  // What kprintnum puts on the screen.
  function NumText(n: Int64): seq<Byte> {
    if n < 0 then ['-' as int] + Digits(Negate(n), 10) else Digits(n, 10)
  }

  // -------------------------------------------------------------------- parsing

  function DigitValue(c: Byte, b: nat): (r: Option<nat>)
    requires Base(b)
    ensures r.Some? ==> r.value < b && DigitOf(r.value) == c
  {
    if '0' as int <= c <= '9' as int then Some(c - '0' as int)
    else if b == 16 && 'a' as int <= c <= 'f' as int then Some(c - 'a' as int + 10)
    else None
  }

  // The value of digits in base b; None if some character is not a digit.
  function Value(s: seq<Byte>, b: nat): Option<nat>
    requires Base(b)
    decreases |s|, b
  {
    if s == [] then Some(0)
    else
      var m := |s| - 1;
      match (Value(s[..m], b), DigitValue(s[m], b))
      case (Some(v), Some(d)) => Some(v * b + d)
      case _ => None
  }

  function ParseNat(s: seq<Byte>, b: nat): Option<nat>
    requires Base(b)
  {
    if s == [] then None else Value(s, b)
  }

  function ParseInt(s: seq<Byte>): Option<int> {
    if s != [] && s[0] == '-' as int then
      match ParseNat(s[1..], 10)
      case Some(v) => Some(0 - v as int)
      case None => None
    else
      match ParseNat(s, 10)
      case Some(v) => Some(v)
      case None => None
  }

  // No zero before another digit.
  predicate Canonical(s: seq<Byte>) { |s| > 1 ==> s[0] != '0' as int }

  lemma {:induction false} DigitsParse(n: nat, b: nat)
    requires Base(b)
    ensures var s := Digits(n, b);
      && s != [] && s[0] != '-' as int && Canonical(s)
      && (n > 0 ==> s[0] != '0' as int)
      && Value(s, b) == Some(n)
    decreases n, b
  {
    hide Quotient, Remainder, Digits, Value;
    QuotientSmaller(n, b);
    DigitsStep(n, b);
    var q, c := n / b, DigitOf(n % b);
    assert DigitValue(c, b) == Some(n % b);
    WholeIsParts(n, b);
    if q == 0 {
      ParseMore([], c, b, 0, n % b);
      assert [] + [c] == [c];
    } else {
      DigitsParse(q, b);
      ParseMore(Digits(q, b), c, b, q, n % b);
    }
  }

  lemma WholeIsParts(n: nat, b: nat)
    requires Base(b)
    ensures n / b * b + n % b == n
  {
  }

  // One digit more.
  lemma ParseMore(s: seq<Byte>, c: Byte, b: nat, v: nat, d: nat)
    requires Base(b) && (s == [] ==> v == 0) && (s != [] ==> Value(s, b) == Some(v)) && DigitValue(c, b) == Some(d)
    ensures Value(s + [c], b) == Some(v * b + d)
  {
    assert (s + [c])[..|s|] == s;
    assert Value([], b) == Some(0);
  }

  // The digits of a number are those of its quotient, and its last digit.
  lemma DigitsLast(v: nat, d: nat, b: nat)
    requires Base(b) && d < b
    ensures Digits(v * b + d, b) == (if v == 0 then [] else Digits(v, b)) + [DigitOf(d)]
  {
    assert (v * b + d) / b == v && (v * b + d) % b == d;
    QuotientSmaller(v * b + d, b);
  }

  // There is no other canonical text for n.
  lemma {:induction false} DigitsUnique(s: seq<Byte>, b: nat, n: nat)
    requires Base(b) && ParseNat(s, b) == Some(n) && Canonical(s)
    ensures s == Digits(n, b)
    decreases |s|, b
  {
    hide Digits, DigitValue;
    var m := |s| - 1;
    var t := s[..m];
    var v, d := Value(t, b).value, DigitValue(s[m], b).value;
    DigitsLast(v, d, b);
    assert s == t + [s[m]];
    if m > 0 {
      assert s[0] == t[0];
      DigitsUnique(t, b, v);
      ZeroAlone(b);
    }
  }

  lemma ZeroAlone(b: nat)
    requires Base(b)
    ensures Digits(0, b) == ['0' as int]
  {
  }

  // The least number does not fit in 64 bits with its sign changed: its digits
  // come out negative, and the last of them is not a digit.
  lemma LeastNumber()
    ensures ParseInt(NumText(INT64_MIN)) == None
  {
    var s := Digits(INT64_MIN, 10);
    assert s[|s| - 1] == '(' as int;
    assert NumText(INT64_MIN)[1..] == s;
  }

  // Printing, then parsing, gives the number back, except for the least one.
  lemma PrintedParses(n: Int64)
    ensures ParseInt(NumText(n)) == Some(n) <==> n != INT64_MIN
    ensures n != INT64_MIN ==> Canonical(if n < 0 then NumText(n)[1..] else NumText(n))
  {
    hide Digits, Value;
    if n == INT64_MIN {
      LeastNumber();
    } else if n < 0 {
      DigitsParse(-n, 10);
      assert NumText(n)[1..] == Digits(-n, 10);
    } else {
      DigitsParse(n, 10);
    }
  }

  // The same in base 16, for every number, and for no other canonical text.
  lemma HexParses(n: UInt64, s: seq<Byte>)
    ensures ParseNat(s, 16) == Some(n) && Canonical(s) <==> s == Digits(n, 16)
  {
    DigitsParse(n, 16);
    if ParseNat(s, 16) == Some(n) && Canonical(s) {
      DigitsUnique(s, 16, n);
    }
  }

  // --------------------------------------------------------------- on the page

  // The characters of n cells of the page from position i on.
  function Characters(g: Page, i: nat, n: nat): seq<Byte> {
    seq(n, k requires 0 <= k < n => CellAt(g, i + k) % 256)
  }

  lemma {:induction false} DigitsPlain(n: int, b: nat)
    requires Base(b)
    ensures Digits(n, b) != [] && forall i :: 0 <= i < |Digits(n, b)| ==> Plain(Digits(n, b)[i])
    decreases if n < 0 then -n else n, b
  {
    QuotientSmaller(n, b);
    if Quotient(n, b) != 0 {
      DigitsPlain(Quotient(n, b), b);
    }
  }

  // A printed number is read back from the cells it was printed to.
  lemma NumberOnPage(g: Page, n: Int64)
    ensures var h := Puts(g, NumText(n));
      && h.pos > g.pos
      && (n != INT64_MIN ==> ParseInt(Characters(h, g.pos, h.pos - g.pos)) == Some(n))
  {
    hide Digits, ParseInt, Puts;
    var text := NumText(n);
    DigitsPlain(if n < 0 then Negate(n) else n, 10);
    PutsPlain(g, text);
    var h := Puts(g, text);
    assert Characters(h, g.pos, h.pos - g.pos) == text by {
      forall k | 0 <= k < |text| ensures Characters(h, g.pos, |text|)[k] == text[k] {
        assert CellAt(h, g.pos + k) == CellOf(DEFAULT_COLOR, text[k]);
      }
    }
    PrintedParses(n);
  }

  // ------------------------------------------------------------------- printing

  const BUFFER: nat := 30

  // What is left of n after the digits from idx on fits into the places before.
  function Power(b: nat, e: nat): (r: nat)
    requires Base(b)
    ensures r > 0
    decreases e, b
  {
    if e == 0 then 1 else b * Power(b, e - 1)
  }

  ghost predicate Room(n: int, b: nat, places: int)
    requires Base(b)
  {
    places >= 0 && 0 - Power(b, places) < n < Power(b, places)
  }

  lemma RoomAfter(n: int, b: nat, places: int)
    requires Base(b) && Room(n, b, places) && places > 0
    ensures Room(Quotient(n, b), b, places - 1)
    ensures Quotient(n, b) != 0 ==> places - 1 > 0
  {
  }

  lemma RoomFor64Bits(n: int)
    ensures INT64_MIN <= n <= INT64_MAX ==> Room(n, 10, 19)
    ensures 0 <= n < 0x1_0000_0000_0000_0000 ==> Room(n, 16, 16)
  {
    assert Power(10, 8) == 100_000_000;
    assert Power(10, 14) == 100_000_000_000_000;
    assert Power(10, 19) == 10_000_000_000_000_000_000;
    assert Power(16, 8) == 0x1_0000_0000;
    assert Power(16, 16) == 0x1_0000_0000_0000_0000;
  }

  // The state of the digit loops at position idx: what is still to come of the
  // digits of the number, and those in the buffer; more says if the loop goes on.
  ghost predicate Filling(all: seq<Byte>, str: seq<Byte>, idx: int, n: int, b: nat, more: bool, spare: nat)
    requires Base(b)
  {
    && |str| == BUFFER && spare <= idx < BUFFER && str[BUFFER - 1] == 0
    && (forall k :: idx <= k < BUFFER - 1 ==> str[k] != 0)
    && all == (if more then Digits(n, b) else []) + str[idx..BUFFER - 1]
    && (more ==> idx > spare && Room(n, b, idx - spare))
  }

  lemma FillStart(str: seq<Byte>, idx: int, n: int, b: nat, spare: nat)
    requires |str| == BUFFER && idx == BUFFER - 1 && str[idx] == 0
    requires || (b == 10 && spare == 10 && INT64_MIN <= n <= INT64_MAX)
             || (b == 16 && spare == 13 && 0 <= n < 0x1_0000_0000_0000_0000)
    ensures Filling(Digits(n, b), str, idx, n, b, true, spare)
  {
    RoomFor64Bits(n);
  }

  lemma FillNext(all: seq<Byte>, str: seq<Byte>, idx: int, n: int, b: nat, spare: nat, d: Byte, str': seq<Byte>)
    requires Base(b) && Filling(all, str, idx, n, b, true, spare)
    requires -16 < Remainder(n, b) < 16 && d == DigitOf(Remainder(n, b)) && str' == str[idx - 1 := d]
    ensures Filling(all, str', idx - 1, Quotient(n, b), b, Quotient(n, b) != 0, spare)
  {
    hide Digits, Quotient, Remainder, DigitOf, Room;
    DigitsStep(n, b);
    RoomAfter(n, b, idx - spare);
    assert str'[idx - 1..BUFFER - 1] == [d] + str[idx..BUFFER - 1];
  }

  // kprintstr, from position i of a buffer on; there is a terminator at end.
  method Kprintstr(scr: Screen, str: array<Byte>, i: nat, ghost end: nat)
    requires scr.Valid() && i <= end < str.Length
    requires str[end] == 0 && 0 !in str[i..end]
    modifies scr`cursorLoc, scr`page, scr.textMem
    ensures scr.Valid() && scr.page == Puts(old(scr.page), old(str[i..end]))
  {
    var j := i;
    while str[j] != 0
      invariant i <= j <= end && str[..] == old(str[..]) && scr.Valid()
      invariant scr.page == Puts(old(scr.page), old(str[i..j]))
      decreases end - j
    {
      scr.Kputchar(str[j]);
      assert str[i..j + 1][..j - i] == str[i..j];
      j := j + 1;
    }
  }

  // A buffer whose string from idx on is the given text.
  ghost predicate HoldsText(str: array<Byte>, idx: int, text: seq<Byte>)
    reads str
  {
    && str.Length == BUFFER && 0 <= idx < BUFFER && str[BUFFER - 1] == 0
    && str[idx..BUFFER - 1] == text && 0 !in text
  }

  // The buffer of kprintnum and its loop. At least ten places stay unused.
  method FillDecimal(num: Int64) returns (str: array<Byte>, idx: int)
    ensures fresh(str) && idx >= 10 && HoldsText(str, idx, Digits(num, 10))
  {
    var n: Int64 := num;
    str := new Byte[BUFFER];
    idx := BUFFER - 1;
    str[idx] := 0;
    FillStart(str[..], idx, n, 10, 10);
    var more := true;
    while more
      invariant Filling(Digits(num, 10), str[..], idx, n, 10, more, 10)
      decreases more, idx
    {
      QuotientSmaller(n, 10);
      var d := DigitOf(Remainder(n, 10));
      FillNext(Digits(num, 10), str[..], idx, n, 10, 10, d, str[..][idx - 1 := d]);
      idx := idx - 1;
      str[idx] := d;
      n := Quotient(n, 10);
      more := n != 0;
    }
  }

  // kprintnum
  method Kprintnum(scr: Screen, num: Int64)
    requires scr.Valid()
    modifies scr`cursorLoc, scr`page, scr.textMem
    ensures scr.Valid() && scr.page == Puts(old(scr.page), NumText(num))
  {
    var n: Int64 := num;
    if n < 0 {
      scr.Kputchar('-' as int);
      n := Negate(n);
    }
    var str, idx := FillDecimal(n);
    Kprintstr(scr, str, idx, BUFFER - 1);
    PutsAppend(old(scr.page), if num < 0 then ['-' as int] else [], Digits(n, 10));
  }

  // The buffer of kprinthex and its loop. At least thirteen places stay unused.
  method FillHex(num: UInt64) returns (str: array<Byte>, idx: int)
    ensures fresh(str) && idx >= 13 && HoldsText(str, idx, Digits(num, 16))
  {
    var n: UInt64 := num;
    str := new Byte[BUFFER];
    idx := BUFFER - 1;
    str[idx] := 0;
    FillStart(str[..], idx, n, 16, 13);
    var more := true;
    while more
      invariant Filling(Digits(num, 16), str[..], idx, n, 16, more, 13)
      decreases more, idx
    {
      QuotientSmaller(n, 16);
      var curr := n % 16;
      var d: Byte;
      if curr >= 10 {
        d := curr - 10 + 'a' as int;
      } else {
        d := curr + '0' as int;
      }
      FillNext(Digits(num, 16), str[..], idx, n, 16, 13, d, str[..][idx - 1 := d]);
      idx := idx - 1;
      str[idx] := d;
      n := n / 16;
      more := n != 0;
    }
  }

  // kprinthex
  method Kprinthex(scr: Screen, num: UInt64)
    requires scr.Valid()
    modifies scr`cursorLoc, scr`page, scr.textMem
    ensures scr.Valid() && scr.page == Puts(old(scr.page), Digits(num, 16))
  {
    var str, idx := FillHex(num);
    Kprintstr(scr, str, idx, BUFFER - 1);
  }
}
