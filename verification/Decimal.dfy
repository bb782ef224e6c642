/** Decimal text as C prints and reads it: sprintf("%d"), is_integer and parse_int (src/util.c). */
module Decimal {
  import opened Bytes

  const INT_MAX: int := 0x7fff_ffff

  /** A 32-bit `int` wraps. */
  function Wrap(n: int): int {
    (n + 0x8000_0000) % 0x1_0000_0000 - 0x8000_0000
  }

  predicate IsDigit(c: Byte) {
    48 <= c <= 57
  }

  function Digit(d: nat): Chr
    requires d < 10
  {
    48 + d
  }

  function DigitValue(c: Byte): nat
    requires IsDigit(c)
  {
    (c as int) - 48
  }

  /** The canonical decimal text of a number. */
  function Digits(n: nat): (s: Key)
    ensures s != []
  {
    if n < 10 then [Digit(n)] else Digits(n / 10) + [Digit(n % 10)]
  }

  /** sprintf("%d") */
  function Text(n: int): Key {
    if n < 0 then [45] + Digits(-n) else Digits(n)
  }

  /** is_integer */
  predicate IsInteger(s: Key) {
    forall i | 0 <= i < |s| :: IsDigit(s[i])
  }

  /** The number an all-digit text stands for. */
  function Number(s: Key): nat
    requires IsInteger(s)
  {
    if s == [] then 0 else Number(s[..|s| - 1]) * 10 + DigitValue(s[|s| - 1])
  }

  /** The digits a text starts with. */
  function LeadingDigits(s: Key): (r: Key)
    ensures r <= s && IsInteger(r)
    ensures r == s <==> IsInteger(s)
  {
    if s == [] || !IsDigit(s[0]) then [] else [s[0]] + LeadingDigits(s[1..])
  }

  lemma LeadingDigitsAre(s: Key, i: nat)
    requires i <= |s| && IsInteger(s[..i]) && (i < |s| ==> !IsDigit(s[i]))
    ensures LeadingDigits(s) == s[..i]
  {
    if i > 0 {
      assert s[..i][0] == s[0] && s[1..][..i - 1] == s[..i][1..];
      LeadingDigitsAre(s[1..], i - 1);
    }
  }

  /** parse_int: reads digits up to the first other character, in wrapping arithmetic. */
  method ParseInt(s: Key) returns (n: int)
    ensures n == Wrap(Number(LeadingDigits(s)))
  {
    n := 0;
    var i := 0;
    while i < |s| && 48 <= s[i] <= 57
      invariant 0 <= i <= |s| && IsInteger(s[..i]) && n == Wrap(Number(s[..i]))
    {
      ghost var m := Number(s[..i]);
      assert s[..i + 1][..i] == s[..i];
      assert Number(s[..i + 1]) == m * 10 + DigitValue(s[i]);
      WrapStep(m, DigitValue(s[i]));
      n := Wrap(n * 10 + ((s[i] as int) - 48));
      i := i + 1;
    }
    LeadingDigitsAre(s, i);
  }

  /** parse_int of a text that is_integer has accepted. */
  method ParseWhole(s: Key) returns (n: int)
    requires IsInteger(s)
    ensures n == Wrap(Number(s))
  {
    n := ParseInt(s);
    assert LeadingDigits(s) == s;
  }

  /** Wrapping gives the one 32-bit number that is the same modulo 2^32. */
  lemma WrapIs(n: int, w: int)
    ensures Wrap(n) == w <==> -0x8000_0000 <= w < 0x8000_0000 && (w - n) % 0x1_0000_0000 == 0
  {
  }

  lemma WrapStep(m: int, d: int)
    ensures Wrap(Wrap(m) * 10 + d) == Wrap(m * 10 + d)
  {
    var q := (m + 0x8000_0000) / 0x1_0000_0000;
    assert m == Wrap(m) + q * 0x1_0000_0000;
    var x := Wrap(m) * 10 + d + 0x8000_0000;
    assert m * 10 + d + 0x8000_0000 == x + (10 * q) * 0x1_0000_0000;
    ModShift(x, 10 * q);
  }

  lemma WrapTwice(m: int, d: int)
    ensures Wrap(Wrap(m) + d) == Wrap(m + d)
  {
    var q := (m + 0x8000_0000) / 0x1_0000_0000;
    assert m == Wrap(m) + q * 0x1_0000_0000;
    ModShift(Wrap(m) + d + 0x8000_0000, q);
  }

  lemma ModShift(x: int, q: int)
    ensures (x + q * 0x1_0000_0000) % 0x1_0000_0000 == x % 0x1_0000_0000
  {
  }

  lemma {:induction false} DigitsRead(n: nat)
    ensures IsInteger(Digits(n)) && Number(Digits(n)) == n
  {
    var s := Digits(n);
    if n >= 10 {
      DigitsRead(n / 10);
      assert s[..|s| - 1] == Digits(n / 10);
    } else {
      assert s[..0] == [];
      assert Number(s) == Number(s[..|s| - 1]) * 10 + DigitValue(s[|s| - 1]);
    }
  }

  /** A number from its text, with a sign. */
  function Signed(s: Key): int
    requires IsInteger(s) || (s[0] == 45 && IsInteger(s[1..]))
  {
    if IsInteger(s) then Number(s) else -(Number(s[1..]) as int)
  }

  /** Printing loses nothing. */
  lemma {:induction false} TextRead(n: int)
    ensures var s := Text(n);
      (IsInteger(s) <==> n >= 0) && (n < 0 ==> s[0] == 45 && IsInteger(s[1..])) && Signed(s) == n
  {
    if n < 0 {
      DigitsRead(-n);
      assert Text(n)[1..] == Digits(-n);
      assert !IsDigit(Text(n)[0]);
    } else {
      DigitsRead(n);
    }
  }

  /** The text INC (or DEC) leaves: all-digit texts are renumbered, others stay. */
  function Bumped(s: Key, step: int): Key {
    if IsInteger(s) then Text(Wrap(Wrap(Number(s)) + step)) else s
  }

  lemma WrapSmall(n: int)
    requires -0x8000_0000 <= n <= INT_MAX
    ensures Wrap(n) == n
  {
  }

  lemma BumpDigits(n: nat, step: int)
    requires n <= INT_MAX && -1 <= n + step <= INT_MAX
    ensures Bumped(Digits(n), step) == Text(n + step)
  {
    DigitsRead(n);
    WrapSmall(n);
    WrapSmall(n + step);
  }

  /** A canonical decimal below INT_MAX. */
  predicate Counts(s: Key) {
    IsInteger(s) && Number(s) < INT_MAX && s == Digits(Number(s))
  }

  /** DEC undoes INC exactly on the texts it leaves alone and on the canonical decimals below INT_MAX. */
  lemma IncThenDec(s: Key)
    ensures Bumped(Bumped(s, 1), -1) == s <==> !IsInteger(s) || Counts(s)
  {
    if IsInteger(s) {
      var k := Wrap(Wrap(Number(s)) + 1);
      if k < 0 {
        assert !IsDigit(Text(k)[0]);
        assert Bumped(s, 1) == Text(k);
      } else {
        BumpDigits(k, -1);
        if k == 0 {
          assert !IsDigit(Text(-1)[0]);
        } else {
          DigitsRead(k - 1);
        }
      }
      if Counts(s) {
        WrapSmall(Number(s));
        WrapSmall(Number(s) + 1);
      }
    }
  }
}
