/** The table-driven CRC-32 of src/hashtable.c against the bit-serial division it stands for.

    The polynomial is 0xedb88320, reflected, as in section 8 of RFC 1952; unlike there, the register starts at
    zero and is not complemented at the end.  The source keeps the register in 64 bits.

    Everything that does not depend on individual bits is proved for an arbitrary addition `plus` and an
    arbitrary step of the register. */
module Crc32 {

  type Step = bv64 -> bv64

  const POLYNOMIAL: bv64 := 0xedb88320

  /** One step of the shift register. */
  function Bit(c: bv64): bv64 {
    if c & 1 == 1 then (c >> 1) ^ POLYNOMIAL else c >> 1
  }

  function Half(c: bv64): bv64 {
    c >> 1
  }

  function Tap(c: bv64): bv64 {
    if c & 1 == 1 then POLYNOMIAL else 0
  }

  function Then<T>(f: T -> T, g: T -> T): T -> T {
    x => g(f(x))
  }

  function TwoBits(): Step {
    Then(Bit, Bit)
  }

  function FourBits(): Step {
    Then(TwoBits(), TwoBits())
  }

  function EightBits(): Step {
    Then(FourBits(), FourBits())
  }

  /** The CRC of a message: each byte is added to the register, which then makes the step `g`. */
  function Serial<T>(g: T -> T, plus: (T, T) -> T, zero: T, s: seq<T>): T {
    if s == [] then zero else g(plus(Serial(g, plus, zero, s[..|s| - 1]), s[|s| - 1]))
  }

  function Sum(x: bv64, y: bv64): bv64 {
    x ^ y
  }

  // ---------------------------------------------------------------- steps and addition

  ghost predicate Additive<T(!new)>(f: T -> T, plus: (T, T) -> T) {
    forall x, y :: f(plus(x, y)) == plus(f(x), f(y))
  }

  lemma ThenAdditive<T(!new)>(f: T -> T, g: T -> T, plus: (T, T) -> T)
    requires Additive(f, plus) && Additive(g, plus)
    ensures Additive(Then(f, g), plus)
  {
  }

  lemma EightBitsAdditive()
    ensures Additive(EightBits(), Sum)
  {
    BitAdditive();
    ThenAdditive(Bit, Bit, Sum);
    ThenAdditive(TwoBits(), TwoBits(), Sum);
    ThenAdditive(FourBits(), FourBits(), Sum);
  }

  lemma BitAdditive()
    ensures Additive(Bit, Sum)
  {
    HalfAdditive();
    TapAdditive();
    SumRegroups();
    BitIsBoth();
    BothAdditive(Half, Tap, Bit, Sum);
  }

  ghost predicate IsBoth<T(!new)>(g: T -> T, f: T -> T, h: T -> T, plus: (T, T) -> T) {
    forall x :: g(x) == plus(f(x), h(x))
  }

  lemma BitIsBoth()
    ensures IsBoth(Bit, Half, Tap, Sum)
  {
    forall x: bv64
      ensures Bit(x) == Sum(Half(x), Tap(x))
    {
      BitSum(x);
    }
  }

  lemma BitSum(x: bv64)
    ensures Bit(x) == Sum(Half(x), Tap(x))
  {
    if x & 1 == 1 {
      assert Tap(x) == POLYNOMIAL;
    } else {
      XorZero(Half(x), Tap(x));
    }
  }

  lemma XorZero(x: bv64, z: bv64)
    requires z == 0
    ensures Sum(x, z) == x
  {
  }

  lemma BothAdditive<T(!new)>(f: T -> T, h: T -> T, g: T -> T, plus: (T, T) -> T)
    requires Additive(f, plus) && Additive(h, plus) && Regroups(plus)
    requires IsBoth(g, f, h, plus)
    ensures Additive(g, plus)
  {
    forall x, y
      ensures g(plus(x, y)) == plus(g(x), g(y))
    {
      assert f(plus(x, y)) == plus(f(x), f(y)) && h(plus(x, y)) == plus(h(x), h(y));
      assert plus(plus(f(x), f(y)), plus(h(x), h(y))) == plus(plus(f(x), h(x)), plus(f(y), h(y)));
    }
  }

  lemma HalfAdditive()
    ensures Additive(Half, Sum)
  {
    forall x: bv64, y: bv64
      ensures Half(Sum(x, y)) == Sum(Half(x), Half(y))
    {
      ShiftXor(x, y, Sum(x, y), Half(x), Half(y));
    }
  }

  lemma ShiftXor(x: bv64, y: bv64, s: bv64, h: bv64, k: bv64)
    requires s == x ^ y && h == x >> 1 && k == y >> 1
    ensures s >> 1 == h ^ k
  {
  }

  lemma TapAdditive()
    ensures Additive(Tap, Sum)
  {
    forall x: bv64, y: bv64
      ensures Tap(Sum(x, y)) == Sum(Tap(x), Tap(y))
    {
      LowBitXor(x, y, Sum(x, y));
      assert POLYNOMIAL ^ POLYNOMIAL == 0;
    }
  }

  lemma LowBitXor(x: bv64, y: bv64, s: bv64)
    requires s == x ^ y
    ensures s & 1 == 1 <==> (x & 1 == 1) != (y & 1 == 1)
  {
  }

  /** The step `g` maps registers that fit to registers that fit, no two of them to the same one. */
  ghost predicate Permutes<T(!new)>(g: T -> T, fits: T -> bool) {
    forall x, y :: fits(x) && fits(y) ==> fits(g(x)) && (g(x) == g(y) ==> x == y)
  }

  predicate In32(x: bv64) {
    x <= 0xffffffff
  }

  lemma ThenPermutes<T(!new)>(f: T -> T, g: T -> T, fits: T -> bool)
    requires Permutes(f, fits) && Permutes(g, fits)
    ensures Permutes(Then(f, g), fits)
  {
  }

  lemma EightBitsPermutes()
    ensures Permutes(EightBits(), In32)
  {
    BitPermutes();
    ThenPermutes(Bit, Bit, In32);
    ThenPermutes(TwoBits(), TwoBits(), In32);
    ThenPermutes(FourBits(), FourBits(), In32);
  }

  lemma BitPermutes()
    ensures Permutes(Bit, In32)
  {
    forall x: bv64, y: bv64 | In32(x) && In32(y)
      ensures In32(Bit(x)) && (Bit(x) == Bit(y) ==> x == y)
    {
      BitInjective(x, y);
    }
  }

  lemma BitInjective(x: bv64, y: bv64)
    requires In32(x) && In32(y)
    ensures In32(Bit(x)) && (Bit(x) == Bit(y) ==> x == y)
  {
  }

  /** Addition keeps registers that fit and can be undone on either side. */
  ghost predicate Cancels<T(!new)>(plus: (T, T) -> T, fits: T -> bool) {
    && (forall x, y :: fits(x) && fits(y) ==> fits(plus(x, y)))
    && (forall x, y, b :: plus(x, b) == plus(y, b) ==> x == y)
    && (forall x, y, b :: plus(b, x) == plus(b, y) ==> x == y)
  }

  lemma SumCancels()
    ensures Cancels(Sum, In32)
  {
    forall x: bv64, y: bv64, b: bv64
      ensures Sum(x, b) == Sum(y, b) ==> x == y
      ensures Sum(b, x) == Sum(b, y) ==> x == y
    {
      XorBack(x, b);
      XorBack(y, b);
    }
  }

  lemma XorBack(x: bv64, b: bv64)
    ensures Sum(Sum(x, b), b) == x
    ensures Sum(Sum(b, x), b) == x
  {
  }

  // ---------------------------------------------------------------- the table

  // crc32_tab, sixteen entries to a row.

  function Row0(n: bv64): bv64 {
    if n == 0 then 0x00000000 else if n == 1 then 0x77073096 else
    if n == 2 then 0xee0e612c else if n == 3 then 0x990951ba else
    if n == 4 then 0x076dc419 else if n == 5 then 0x706af48f else
    if n == 6 then 0xe963a535 else if n == 7 then 0x9e6495a3 else
    if n == 8 then 0x0edb8832 else if n == 9 then 0x79dcb8a4 else
    if n == 10 then 0xe0d5e91e else if n == 11 then 0x97d2d988 else
    if n == 12 then 0x09b64c2b else if n == 13 then 0x7eb17cbd else if n == 14 then 0xe7b82d07 else 0x90bf1d91
  }

  function Row1(n: bv64): bv64 {
    if n == 0 then 0x1db71064 else if n == 1 then 0x6ab020f2 else
    if n == 2 then 0xf3b97148 else if n == 3 then 0x84be41de else
    if n == 4 then 0x1adad47d else if n == 5 then 0x6ddde4eb else
    if n == 6 then 0xf4d4b551 else if n == 7 then 0x83d385c7 else
    if n == 8 then 0x136c9856 else if n == 9 then 0x646ba8c0 else
    if n == 10 then 0xfd62f97a else if n == 11 then 0x8a65c9ec else
    if n == 12 then 0x14015c4f else if n == 13 then 0x63066cd9 else if n == 14 then 0xfa0f3d63 else 0x8d080df5
  }

  function Row2(n: bv64): bv64 {
    if n == 0 then 0x3b6e20c8 else if n == 1 then 0x4c69105e else
    if n == 2 then 0xd56041e4 else if n == 3 then 0xa2677172 else
    if n == 4 then 0x3c03e4d1 else if n == 5 then 0x4b04d447 else
    if n == 6 then 0xd20d85fd else if n == 7 then 0xa50ab56b else
    if n == 8 then 0x35b5a8fa else if n == 9 then 0x42b2986c else
    if n == 10 then 0xdbbbc9d6 else if n == 11 then 0xacbcf940 else
    if n == 12 then 0x32d86ce3 else if n == 13 then 0x45df5c75 else if n == 14 then 0xdcd60dcf else 0xabd13d59
  }

  function Row3(n: bv64): bv64 {
    if n == 0 then 0x26d930ac else if n == 1 then 0x51de003a else
    if n == 2 then 0xc8d75180 else if n == 3 then 0xbfd06116 else
    if n == 4 then 0x21b4f4b5 else if n == 5 then 0x56b3c423 else
    if n == 6 then 0xcfba9599 else if n == 7 then 0xb8bda50f else
    if n == 8 then 0x2802b89e else if n == 9 then 0x5f058808 else
    if n == 10 then 0xc60cd9b2 else if n == 11 then 0xb10be924 else
    if n == 12 then 0x2f6f7c87 else if n == 13 then 0x58684c11 else if n == 14 then 0xc1611dab else 0xb6662d3d
  }

  function Row4(n: bv64): bv64 {
    if n == 0 then 0x76dc4190 else if n == 1 then 0x01db7106 else
    if n == 2 then 0x98d220bc else if n == 3 then 0xefd5102a else
    if n == 4 then 0x71b18589 else if n == 5 then 0x06b6b51f else
    if n == 6 then 0x9fbfe4a5 else if n == 7 then 0xe8b8d433 else
    if n == 8 then 0x7807c9a2 else if n == 9 then 0x0f00f934 else
    if n == 10 then 0x9609a88e else if n == 11 then 0xe10e9818 else
    if n == 12 then 0x7f6a0dbb else if n == 13 then 0x086d3d2d else if n == 14 then 0x91646c97 else 0xe6635c01
  }

  function Row5(n: bv64): bv64 {
    if n == 0 then 0x6b6b51f4 else if n == 1 then 0x1c6c6162 else
    if n == 2 then 0x856530d8 else if n == 3 then 0xf262004e else
    if n == 4 then 0x6c0695ed else if n == 5 then 0x1b01a57b else
    if n == 6 then 0x8208f4c1 else if n == 7 then 0xf50fc457 else
    if n == 8 then 0x65b0d9c6 else if n == 9 then 0x12b7e950 else
    if n == 10 then 0x8bbeb8ea else if n == 11 then 0xfcb9887c else
    if n == 12 then 0x62dd1ddf else if n == 13 then 0x15da2d49 else if n == 14 then 0x8cd37cf3 else 0xfbd44c65
  }

  function Row6(n: bv64): bv64 {
    if n == 0 then 0x4db26158 else if n == 1 then 0x3ab551ce else
    if n == 2 then 0xa3bc0074 else if n == 3 then 0xd4bb30e2 else
    if n == 4 then 0x4adfa541 else if n == 5 then 0x3dd895d7 else
    if n == 6 then 0xa4d1c46d else if n == 7 then 0xd3d6f4fb else
    if n == 8 then 0x4369e96a else if n == 9 then 0x346ed9fc else
    if n == 10 then 0xad678846 else if n == 11 then 0xda60b8d0 else
    if n == 12 then 0x44042d73 else if n == 13 then 0x33031de5 else if n == 14 then 0xaa0a4c5f else 0xdd0d7cc9
  }

  function Row7(n: bv64): bv64 {
    if n == 0 then 0x5005713c else if n == 1 then 0x270241aa else
    if n == 2 then 0xbe0b1010 else if n == 3 then 0xc90c2086 else
    if n == 4 then 0x5768b525 else if n == 5 then 0x206f85b3 else
    if n == 6 then 0xb966d409 else if n == 7 then 0xce61e49f else
    if n == 8 then 0x5edef90e else if n == 9 then 0x29d9c998 else
    if n == 10 then 0xb0d09822 else if n == 11 then 0xc7d7a8b4 else
    if n == 12 then 0x59b33d17 else if n == 13 then 0x2eb40d81 else if n == 14 then 0xb7bd5c3b else 0xc0ba6cad
  }

  function Row8(n: bv64): bv64 {
    if n == 0 then 0xedb88320 else if n == 1 then 0x9abfb3b6 else
    if n == 2 then 0x03b6e20c else if n == 3 then 0x74b1d29a else
    if n == 4 then 0xead54739 else if n == 5 then 0x9dd277af else
    if n == 6 then 0x04db2615 else if n == 7 then 0x73dc1683 else
    if n == 8 then 0xe3630b12 else if n == 9 then 0x94643b84 else
    if n == 10 then 0x0d6d6a3e else if n == 11 then 0x7a6a5aa8 else
    if n == 12 then 0xe40ecf0b else if n == 13 then 0x9309ff9d else if n == 14 then 0x0a00ae27 else 0x7d079eb1
  }

  function Row9(n: bv64): bv64 {
    if n == 0 then 0xf00f9344 else if n == 1 then 0x8708a3d2 else
    if n == 2 then 0x1e01f268 else if n == 3 then 0x6906c2fe else
    if n == 4 then 0xf762575d else if n == 5 then 0x806567cb else
    if n == 6 then 0x196c3671 else if n == 7 then 0x6e6b06e7 else
    if n == 8 then 0xfed41b76 else if n == 9 then 0x89d32be0 else
    if n == 10 then 0x10da7a5a else if n == 11 then 0x67dd4acc else
    if n == 12 then 0xf9b9df6f else if n == 13 then 0x8ebeeff9 else if n == 14 then 0x17b7be43 else 0x60b08ed5
  }

  function Row10(n: bv64): bv64 {
    if n == 0 then 0xd6d6a3e8 else if n == 1 then 0xa1d1937e else
    if n == 2 then 0x38d8c2c4 else if n == 3 then 0x4fdff252 else
    if n == 4 then 0xd1bb67f1 else if n == 5 then 0xa6bc5767 else
    if n == 6 then 0x3fb506dd else if n == 7 then 0x48b2364b else
    if n == 8 then 0xd80d2bda else if n == 9 then 0xaf0a1b4c else
    if n == 10 then 0x36034af6 else if n == 11 then 0x41047a60 else
    if n == 12 then 0xdf60efc3 else if n == 13 then 0xa867df55 else if n == 14 then 0x316e8eef else 0x4669be79
  }

  function Row11(n: bv64): bv64 {
    if n == 0 then 0xcb61b38c else if n == 1 then 0xbc66831a else
    if n == 2 then 0x256fd2a0 else if n == 3 then 0x5268e236 else
    if n == 4 then 0xcc0c7795 else if n == 5 then 0xbb0b4703 else
    if n == 6 then 0x220216b9 else if n == 7 then 0x5505262f else
    if n == 8 then 0xc5ba3bbe else if n == 9 then 0xb2bd0b28 else
    if n == 10 then 0x2bb45a92 else if n == 11 then 0x5cb36a04 else
    if n == 12 then 0xc2d7ffa7 else if n == 13 then 0xb5d0cf31 else if n == 14 then 0x2cd99e8b else 0x5bdeae1d
  }

  function Row12(n: bv64): bv64 {
    if n == 0 then 0x9b64c2b0 else if n == 1 then 0xec63f226 else
    if n == 2 then 0x756aa39c else if n == 3 then 0x026d930a else
    if n == 4 then 0x9c0906a9 else if n == 5 then 0xeb0e363f else
    if n == 6 then 0x72076785 else if n == 7 then 0x05005713 else
    if n == 8 then 0x95bf4a82 else if n == 9 then 0xe2b87a14 else
    if n == 10 then 0x7bb12bae else if n == 11 then 0x0cb61b38 else
    if n == 12 then 0x92d28e9b else if n == 13 then 0xe5d5be0d else if n == 14 then 0x7cdcefb7 else 0x0bdbdf21
  }

  function Row13(n: bv64): bv64 {
    if n == 0 then 0x86d3d2d4 else if n == 1 then 0xf1d4e242 else
    if n == 2 then 0x68ddb3f8 else if n == 3 then 0x1fda836e else
    if n == 4 then 0x81be16cd else if n == 5 then 0xf6b9265b else
    if n == 6 then 0x6fb077e1 else if n == 7 then 0x18b74777 else
    if n == 8 then 0x88085ae6 else if n == 9 then 0xff0f6a70 else
    if n == 10 then 0x66063bca else if n == 11 then 0x11010b5c else
    if n == 12 then 0x8f659eff else if n == 13 then 0xf862ae69 else if n == 14 then 0x616bffd3 else 0x166ccf45
  }

  function Row14(n: bv64): bv64 {
    if n == 0 then 0xa00ae278 else if n == 1 then 0xd70dd2ee else
    if n == 2 then 0x4e048354 else if n == 3 then 0x3903b3c2 else
    if n == 4 then 0xa7672661 else if n == 5 then 0xd06016f7 else
    if n == 6 then 0x4969474d else if n == 7 then 0x3e6e77db else
    if n == 8 then 0xaed16a4a else if n == 9 then 0xd9d65adc else
    if n == 10 then 0x40df0b66 else if n == 11 then 0x37d83bf0 else
    if n == 12 then 0xa9bcae53 else if n == 13 then 0xdebb9ec5 else if n == 14 then 0x47b2cf7f else 0x30b5ffe9
  }

  function Row15(n: bv64): bv64 {
    if n == 0 then 0xbdbdf21c else if n == 1 then 0xcabac28a else
    if n == 2 then 0x53b39330 else if n == 3 then 0x24b4a3a6 else
    if n == 4 then 0xbad03605 else if n == 5 then 0xcdd70693 else
    if n == 6 then 0x54de5729 else if n == 7 then 0x23d967bf else
    if n == 8 then 0xb3667a2e else if n == 9 then 0xc4614ab8 else
    if n == 10 then 0x5d681b02 else if n == 11 then 0x2a6f2b94 else
    if n == 12 then 0xb40bbe37 else if n == 13 then 0xc30c8ea1 else if n == 14 then 0x5a05df1b else 0x2d02ef8d
  }

  function Entry(i: bv64): bv64 {
    if i >> 4 == 0 then Row0(i & 15) else if i >> 4 == 1 then Row1(i & 15) else if i >> 4 == 2 then Row2(i & 15) else
    if i >> 4 == 3 then Row3(i & 15) else if i >> 4 == 4 then Row4(i & 15) else if i >> 4 == 5 then Row5(i & 15) else
    if i >> 4 == 6 then Row6(i & 15) else if i >> 4 == 7 then Row7(i & 15) else if i >> 4 == 8 then Row8(i & 15) else
    if i >> 4 == 9 then Row9(i & 15) else if i >> 4 == 10 then Row10(i & 15) else
    if i >> 4 == 11 then Row11(i & 15) else
    if i >> 4 == 12 then Row12(i & 15) else if i >> 4 == 13 then Row13(i & 15) else
    if i >> 4 == 14 then Row14(i & 15) else
    Row15(i & 15)
  }

  /** Two register steps and ... */
  function Pair(c: bv64): bv64 {
    Bit(Bit(c))
  }

  /** ... eight, applied to bits.  `EightBits` is the same step as a value that the abstract proofs about `Then` and
      `Serial` can take; OctetIsEightBits connects the two. */
  function Octet(c: bv64): bv64 {
    Pair(Pair(Pair(Pair(c))))
  }

  lemma OctetIsEightBits(c: bv64)
    ensures EightBits()(c) == Octet(c)
  {
    PairIsTwoBits(c);
    PairIsTwoBits(Pair(c));
    PairIsTwoBits(Pair(Pair(c)));
    PairIsTwoBits(Pair(Pair(Pair(c))));
  }

  lemma PairIsTwoBits(c: bv64)
    ensures TwoBits()(c) == Pair(c)
  {
  }

  lemma Row0Right(n: bv64)
    requires n < 16
    ensures Row0(n) == Octet(0x0 | n)
  {
  }

  lemma Row1Right(n: bv64)
    requires n < 16
    ensures Row1(n) == Octet(0x10 | n)
  {
  }

  lemma Row2Right(n: bv64)
    requires n < 16
    ensures Row2(n) == Octet(0x20 | n)
  {
  }

  lemma Row3Right(n: bv64)
    requires n < 16
    ensures Row3(n) == Octet(0x30 | n)
  {
  }

  lemma Row4Right(n: bv64)
    requires n < 16
    ensures Row4(n) == Octet(0x40 | n)
  {
  }

  lemma Row5Right(n: bv64)
    requires n < 16
    ensures Row5(n) == Octet(0x50 | n)
  {
  }

  lemma Row6Right(n: bv64)
    requires n < 16
    ensures Row6(n) == Octet(0x60 | n)
  {
  }

  lemma Row7Right(n: bv64)
    requires n < 16
    ensures Row7(n) == Octet(0x70 | n)
  {
  }

  lemma Row8Right(n: bv64)
    requires n < 16
    ensures Row8(n) == Octet(0x80 | n)
  {
  }

  lemma Row9Right(n: bv64)
    requires n < 16
    ensures Row9(n) == Octet(0x90 | n)
  {
  }

  lemma Row10Right(n: bv64)
    requires n < 16
    ensures Row10(n) == Octet(0xa0 | n)
  {
  }

  lemma Row11Right(n: bv64)
    requires n < 16
    ensures Row11(n) == Octet(0xb0 | n)
  {
  }

  lemma Row12Right(n: bv64)
    requires n < 16
    ensures Row12(n) == Octet(0xc0 | n)
  {
  }

  lemma Row13Right(n: bv64)
    requires n < 16
    ensures Row13(n) == Octet(0xd0 | n)
  {
  }

  lemma Row14Right(n: bv64)
    requires n < 16
    ensures Row14(n) == Octet(0xe0 | n)
  {
  }

  lemma Row15Right(n: bv64)
    requires n < 16
    ensures Row15(n) == Octet(0xf0 | n)
  {
  }

  lemma EntryRight(i: bv64)
    requires i < 256
    ensures Entry(i) == Octet(i)
  {
    assert i == (((i >> 4) << 4) | (i & 15));
    if i >> 4 == 0 {
      Row0Right(i & 15);
    } else if i >> 4 == 1 {
      Row1Right(i & 15);
    } else if i >> 4 == 2 {
      Row2Right(i & 15);
    } else if i >> 4 == 3 {
      Row3Right(i & 15);
    } else if i >> 4 == 4 {
      Row4Right(i & 15);
    } else if i >> 4 == 5 {
      Row5Right(i & 15);
    } else if i >> 4 == 6 {
      Row6Right(i & 15);
    } else if i >> 4 == 7 {
      Row7Right(i & 15);
    } else if i >> 4 == 8 {
      Row8Right(i & 15);
    } else if i >> 4 == 9 {
      Row9Right(i & 15);
    } else if i >> 4 == 10 {
      Row10Right(i & 15);
    } else if i >> 4 == 11 {
      Row11Right(i & 15);
    } else if i >> 4 == 12 {
      Row12Right(i & 15);
    } else if i >> 4 == 13 {
      Row13Right(i & 15);
    } else if i >> 4 == 14 {
      Row14Right(i & 15);
    } else {
      Row15Right(i & 15);
    }
  }

  function Low(x: bv64): bv64 {
    x & 0xff
  }

  function High(x: bv64): bv64 {
    x & !0xff
  }

  function Shifted(x: bv64): bv64 {
    x >> 8
  }

  /** The table holds the effect of the step `g` on every byte. */
  ghost predicate Tabulates<T(!new)>(e: T -> T, g: T -> T, low: T -> T) {
    forall x {:trigger low(x)} :: e(low(x)) == g(low(x))
  }

  lemma EntryTabulates()
    ensures Tabulates(Entry, EightBits(), Low)
  {
    forall x: bv64
      ensures Entry(Low(x)) == EightBits()(Low(x))
    {
      EntryRight(Low(x));
      OctetIsEightBits(Low(x));
    }
  }

  /** The step `g` only shifts a register whose low byte is clear. */
  ghost predicate Shifts<T(!new)>(g: T -> T, high: T -> T, shifted: T -> T) {
    forall x {:trigger high(x)} :: g(high(x)) == shifted(x)
  }

  lemma EightBitsShifts()
    ensures Shifts(EightBits(), High, Shifted)
  {
    forall x: bv64
      ensures EightBits()(High(x)) == Shifted(x)
    {
      OctetShifts(x);
      OctetIsEightBits(High(x));
    }
  }

  lemma OctetShifts(x: bv64)
    ensures Octet(High(x)) == Shifted(x)
  {
  }

  // ---------------------------------------------------------------- the loop

  lemma Parts(x: bv64)
    ensures Sum(Low(x), High(x)) == x
  {
  }

  lemma HighKept(c: bv64, b: bv8)
    ensures High(Sum(c, Widen(b))) == High(c)
  {
  }

  /** One turn of the table-driven loop is one step of the bit-serial division. */
  lemma TableStep<T(!new)>(e: T -> T, g: T -> T, plus: (T, T) -> T, low: T -> T, high: T -> T, shifted: T -> T,
                           c: T, x: T)
    requires Additive(g, plus) && Tabulates(e, g, low) && Shifts(g, high, shifted)
    requires plus(low(x), high(x)) == x && high(x) == high(c)
    ensures plus(e(low(x)), shifted(c)) == g(x)
  {
    assert g(plus(low(x), high(x))) == plus(g(low(x)), g(high(x)));
  }

  function Widen(b: bv8): bv64 {
    b as bv64
  }

  function Each<A, B>(f: A -> B, s: seq<A>): (r: seq<B>)
    ensures |r| == |s| && forall i :: 0 <= i < |s| ==> r[i] == f(s[i])
  {
    seq(|s|, i requires 0 <= i < |s| => f(s[i]))
  }

  lemma EachFirst<A, B>(f: A -> B, a: A, s: seq<A>)
    ensures Each(f, [a] + s) == [f(a)] + Each(f, s)
  {
  }

  lemma EachChanged<A, B>(f: A -> B, s: seq<A>, i: nat, a: A)
    requires i < |s|
    ensures Each(f, s[i := a]) == Each(f, s)[i := f(a)]
  {
  }

  function Wide(s: seq<bv8>): (w: seq<bv64>)
    ensures |w| == |s|
  {
    Each(Widen, s)
  }

  /** Adding a byte of `s` to a register leaves the high part alone, and a register is the sum of its parts. */
  ghost predicate Splits<T(!new)>(plus: (T, T) -> T, low: T -> T, high: T -> T, s: seq<T>) {
    && (forall x {:trigger low(x)} :: plus(low(x), high(x)) == x)
    && (forall i, c {:trigger plus(c, s[i])} :: 0 <= i < |s| ==> high(plus(c, s[i])) == high(c))
  }

  lemma WideSplits(s: seq<bv8>)
    ensures Splits(Sum, Low, High, Wide(s))
  {
    forall x: bv64
      ensures Sum(Low(x), High(x)) == x
    {
      Parts(x);
    }
    forall i, c: bv64 | 0 <= i < |s|
      ensures High(Sum(c, Wide(s)[i])) == High(c)
    {
      HighKept(c, s[i]);
    }
  }

  /** The loop of crc32, over the operations on the register: `plus` is exclusive or, `low` keeps the low byte
      and `shifted` drops it. */
  method Fold<T(!new)>(table: T -> T, plus: (T, T) -> T, low: T -> T, shifted: T -> T, zero: T, s: seq<T>,
                       ghost g: T -> T, ghost high: T -> T) returns (c: T)
    requires Additive(g, plus) && Tabulates(table, g, low) && Shifts(g, high, shifted) && Splits(plus, low, high, s)
    ensures c == Serial(g, plus, zero, s)
  {
    c := zero;
    var i := 0;
    while i < |s|
      invariant 0 <= i <= |s|
      invariant c == Serial(g, plus, zero, s[..i])
    {
      TableStep(table, g, plus, low, high, shifted, c, plus(c, s[i]));
      assert s[..i + 1][..i] == s[..i];
      c := plus(table(low(plus(c, s[i]))), shifted(c));
      i := i + 1;
    }
    assert s[..i] == s;
  }

  function Crc(s: seq<bv8>): bv64 {
    Serial(EightBits(), Sum, 0, Wide(s))
  }

  /** The shift register takes one bit of the message. */
  function ShiftIn(c: bv64, bit: bv8): bv64 {
    if (c & 1 == 1) != (bit == 1) then (c >> 1) ^ 0xedb88320 else c >> 1
  }

  /** A byte shifted right j times, and its lowest bit then. */
  function Rest(b: bv8, j: nat): bv8 {
    if j == 0 then b else Rest(b, j - 1) >> 1
  }

  function BitAt(b: bv8, j: nat): bv8 {
    Rest(b, j) & 1
  }

  /** The register after the first n bits of a byte, the least significant first. */
  function TakeBits(c: bv64, b: bv8, n: nat): bv64 {
    if n == 0 then c else ShiftIn(TakeBits(c, b, n - 1), BitAt(b, n - 1))
  }

  /** The register, empty at first, after the bits of a message. */
  function Register(s: seq<bv8>): bv64 {
    if s == [] then 0 else TakeBits(Register(s[..|s| - 1]), s[|s| - 1], 8)
  }

  /** Adding a byte and then shifting comes to shifting in its lowest bit and adding the rest of it. */
  lemma BitTaken(c: bv64, b: bv8)
    ensures Bit(Sum(c, Widen(b))) == Sum(ShiftIn(c, b & 1), Widen(b >> 1))
  {
    SumHalves(c, b);
    SumOdd(c, b);
    Assembled(Sum(c, Widen(b)), Half(c), Widen(b >> 1));
  }

  lemma SumHalves(c: bv64, b: bv8)
    ensures Half(Sum(c, Widen(b))) == Sum(Half(c), Widen(b >> 1))
  {
    HalfAdditive();
    ShiftWide(b);
    HalfOfSum(Half, Sum, c, Widen(b), Widen(b >> 1));
  }

  lemma HalfOfSum<T(!new)>(half: T -> T, plus: (T, T) -> T, c: T, x: T, y: T)
    requires Additive(half, plus) && half(x) == y
    ensures half(plus(c, x)) == plus(half(c), y)
  {
  }

  lemma ShiftWide(b: bv8)
    ensures Half(Widen(b)) == Widen(b >> 1)
  {
  }

  lemma SumOdd(c: bv64, b: bv8)
    ensures Sum(c, Widen(b)) & 1 == 1 <==> (c & 1 == 1) != (b & 1 == 1)
  {
  }

  lemma Assembled(s: bv64, h: bv64, y: bv64)
    ensures Half(s) == Sum(h, y) && s & 1 == 1 ==> Bit(s) == Sum(h ^ 0xedb88320, y)
    ensures Half(s) == Sum(h, y) && s & 1 != 1 ==> Bit(s) == Sum(h, y)
  {
    TapLast(h, y, Sum(h, y), h ^ 0xedb88320);
  }

  lemma TapLast(h: bv64, y: bv64, z: bv64, t: bv64)
    requires z == h ^ y && t == h ^ 0xedb88320
    ensures z ^ 0xedb88320 == t ^ y
  {
  }

  function Times<T>(f: T -> T, n: nat, x: T): T {
    if n == 0 then x else f(Times(f, n - 1, x))
  }

  lemma EightTimes<T>(f: T -> T, x: T)
    ensures var four := Then(Then(f, f), Then(f, f)); Then(four, four)(x) == Times(f, 8, x)
  {
    assert Times(f, 2, x) == f(f(x));
    assert Times(f, 4, x) == f(f(Times(f, 2, x)));
    assert Times(f, 6, x) == f(f(Times(f, 4, x)));
    assert Times(f, 8, x) == f(f(Times(f, 6, x)));
  }

  /** n steps after adding a byte take its first n bits; what is left of it stays added. */
  lemma {:induction false} StepsTake(c: bv64, b: bv8, n: nat)
    ensures Times(Bit, n, Sum(c, Widen(b))) == Sum(TakeBits(c, b, n), Widen(Rest(b, n)))
  {
    if n > 0 {
      StepsTake(c, b, n - 1);
      BitTaken(TakeBits(c, b, n - 1), Rest(b, n - 1));
    }
  }

  lemma RestIs(b: bv8)
    ensures Rest(b, 0) == b && Rest(b, 1) == b >> 1 && Rest(b, 2) == b >> 2 && Rest(b, 3) == b >> 3
    ensures Rest(b, 4) == b >> 4 && Rest(b, 5) == b >> 5 && Rest(b, 6) == b >> 6 && Rest(b, 7) == b >> 7
    ensures Rest(b, 8) == 0
  {
    assert Rest(b, 1) == b >> 1;
    assert Rest(b, 2) == b >> 2;
    assert Rest(b, 3) == b >> 3;
    assert Rest(b, 4) == b >> 4;
    assert Rest(b, 5) == b >> 5;
    assert Rest(b, 6) == b >> 6;
    assert Rest(b, 7) == b >> 7;
  }

  lemma ByteTaken(c: bv64, b: bv8)
    ensures EightBits()(Sum(c, Widen(b))) == TakeBits(c, b, 8)
  {
    EightTimes(Bit, Sum(c, Widen(b)));
    StepsTake(c, b, 8);
    RestIs(b);
    XorZero(TakeBits(c, b, 8), Widen(Rest(b, 8)));
  }

  lemma EachLast<A, B>(f: A -> B, s: seq<A>)
    requires s != []
    ensures var n := |s| - 1; Each(f, s)[..n] == Each(f, s[..n]) && Each(f, s)[n] == f(s[n])
  {
  }

  /** The CRC is the register after the bits of the message. */
  lemma {:induction false} CrcIsRegister(s: seq<bv8>)
    ensures Crc(s) == Register(s)
  {
    if s != [] {
      var n := |s| - 1;
      CrcIsRegister(s[..n]);
      EachLast(Widen, s);
      ByteTaken(Register(s[..n]), s[n]);
    }
  }

  /** crc32: the loop over the table computes the bit-serial CRC, a 32-bit number. */
  method Crc32(s: array<bv8>) returns (c: bv64)
    ensures c == Crc(s[..]) == Register(s[..]) && c <= 0xffffffff
  {
    CrcIsRegister(s[..]);
    EightBitsAdditive();
    EntryTabulates();
    EightBitsShifts();
    WideSplits(s[..]);
    c := Fold(Entry, Sum, Low, Shifted, 0, Wide(s[..]), EightBits(), High);
    CrcFits(s[..]);
  }

  // ---------------------------------------------------------------- laws of the CRC

  ghost predicate AllFit<T>(fits: T -> bool, s: seq<T>) {
    forall i :: 0 <= i < |s| ==> fits(s[i])
  }

  lemma {:induction false} SerialFits<T(!new)>(g: T -> T, plus: (T, T) -> T, zero: T, fits: T -> bool, s: seq<T>)
    requires Permutes(g, fits) && Cancels(plus, fits) && fits(zero) && AllFit(fits, s)
    ensures fits(Serial(g, plus, zero, s))
  {
    if s != [] {
      SerialFits(g, plus, zero, fits, s[..|s| - 1]);
    }
  }

  lemma CrcFits(s: seq<bv8>)
    ensures In32(Crc(s))
  {
    EightBitsPermutes();
    SumCancels();
    SerialFits(EightBits(), Sum, 0, In32, Wide(s));
  }

  lemma {:induction false} ChangeDetected<T(!new)>(g: T -> T, plus: (T, T) -> T, zero: T, fits: T -> bool,
                                                   s: seq<T>, i: nat, b: T)
    requires Permutes(g, fits) && Cancels(plus, fits) && fits(zero) && AllFit(fits, s) && fits(b)
    requires i < |s| && s[i] != b
    ensures Serial(g, plus, zero, s[i := b]) != Serial(g, plus, zero, s)
  {
    var n, t := |s| - 1, s[i := b];
    SerialFits(g, plus, zero, fits, s[..n]);
    SerialFits(g, plus, zero, fits, t[..n]);
    if i < n {
      assert t[..n] == s[..n][i := b];
      ChangeDetected(g, plus, zero, fits, s[..n], i, b);
    } else {
      assert t[..n] == s[..n];
    }
  }

  /** Changing exactly one byte of a message always changes its CRC. */
  lemma ByteChangeDetected(s: seq<bv8>, i: nat, b: bv8)
    requires i < |s| && s[i] != b
    ensures Crc(s[i := b]) != Crc(s)
  {
    EightBitsPermutes();
    SumCancels();
    EachChanged(Widen, s, i, b);
    WideInjective(s[i], b);
    ChangeDetected(EightBits(), Sum, 0, In32, Wide(s), i, Widen(b));
  }

  lemma WideInjective(b: bv8, c: bv8)
    requires b != c
    ensures Widen(b) != Widen(c)
  {
  }

  function Added<T>(plus: (T, T) -> T, s: seq<T>, t: seq<T>): (r: seq<T>)
    requires |s| == |t|
  {
    seq(|s|, i requires 0 <= i < |s| => plus(s[i], t[i]))
  }

  ghost predicate Regroups<T(!new)>(plus: (T, T) -> T) {
    forall x, y, b, c :: plus(plus(x, y), plus(b, c)) == plus(plus(x, b), plus(y, c))
  }

  lemma SumRegroups()
    ensures Regroups(Sum)
  {
    SumAssociates();
    SumCommutes();
    RegroupsFor(Sum);
  }

  ghost predicate Associates<T(!new)>(plus: (T, T) -> T) {
    forall x, y, z :: plus(plus(x, y), z) == plus(x, plus(y, z))
  }

  ghost predicate Commutes<T(!new)>(plus: (T, T) -> T) {
    forall x, y :: plus(x, y) == plus(y, x)
  }

  lemma SumAssociates()
    ensures Associates(Sum)
  {
    forall x: bv64, y: bv64, z: bv64
      ensures Sum(Sum(x, y), z) == Sum(x, Sum(y, z))
    {
    }
  }

  lemma SumCommutes()
    ensures Commutes(Sum)
  {
  }

  lemma RegroupsFor<T(!new)>(plus: (T, T) -> T)
    requires Associates(plus) && Commutes(plus)
    ensures Regroups(plus)
  {
    forall x, y, b, c
      ensures plus(plus(x, y), plus(b, c)) == plus(plus(x, b), plus(y, c))
    {
      calc {
        plus(plus(x, y), plus(b, c));
        plus(x, plus(y, plus(b, c)));
        plus(x, plus(plus(y, b), c));
        plus(x, plus(plus(b, y), c));
        plus(x, plus(b, plus(y, c)));
        plus(plus(x, b), plus(y, c));
      }
    }
  }

  lemma {:induction false} SerialLinear<T(!new)>(g: T -> T, plus: (T, T) -> T, zero: T, s: seq<T>, t: seq<T>)
    requires |s| == |t|
    requires Additive(g, plus) && Regroups(plus) && plus(zero, zero) == zero
    ensures Serial(g, plus, zero, Added(plus, s, t)) == plus(Serial(g, plus, zero, s), Serial(g, plus, zero, t))
  {
    if s == [] {
    } else {
      var n := |s| - 1;
      SerialLinear(g, plus, zero, s[..n], t[..n]);
      assert Added(plus, s, t)[..n] == Added(plus, s[..n], t[..n]);
    }
  }

  function Xored(s: seq<bv8>, t: seq<bv8>): (r: seq<bv8>)
    requires |s| == |t|
  {
    seq(|s|, i requires 0 <= i < |s| => s[i] ^ t[i])
  }

  /** The CRC of the exclusive or of two messages is the exclusive or of their CRCs. */
  lemma CrcLinear(s: seq<bv8>, t: seq<bv8>)
    requires |s| == |t|
    ensures Crc(Xored(s, t)) == Crc(s) ^ Crc(t)
  {
    EightBitsAdditive();
    SumRegroups();
    WideXored(s, t);
    SerialLinear(EightBits(), Sum, 0, Wide(s), Wide(t));
  }

  lemma WideXored(s: seq<bv8>, t: seq<bv8>)
    requires |s| == |t|
    ensures Wide(Xored(s, t)) == Added(Sum, Wide(s), Wide(t))
  {
    forall i | 0 <= i < |s|
      ensures Wide(Xored(s, t))[i] == Added(Sum, Wide(s), Wide(t))[i]
    {
      WideXor(s[i], t[i]);
    }
  }

  lemma WideXor(b: bv8, c: bv8)
    ensures Widen(b ^ c) == Sum(Widen(b), Widen(c))
  {
  }

  lemma {:induction false} SerialLeading<T>(g: T -> T, plus: (T, T) -> T, zero: T, s: seq<T>)
    requires g(plus(zero, zero)) == zero
    ensures Serial(g, plus, zero, [zero] + s) == Serial(g, plus, zero, s)
  {
    if s == [] {
      assert [zero] + s == [zero] && [zero][..0] == [];
    } else {
      assert ([zero] + s)[..|s|] == [zero] + s[..|s| - 1];
      SerialLeading(g, plus, zero, s[..|s| - 1]);
    }
  }

  /** The register starts at zero, so a leading zero byte is invisible. */
  lemma LeadingZero(s: seq<bv8>)
    ensures Crc([0] + s) == Crc(s)
  {
    ZeroStays();
    EachFirst(Widen, 0, s);
    SerialLeading(EightBits(), Sum, 0, Wide(s));
  }

  lemma ZeroStays()
    ensures EightBits()(Sum(0, 0)) == 0
  {
    OctetIsEightBits(Sum(0, 0));
  }
}
