/** Packets: the Remaining Length field and PUT requests (src/protocol.c). */
module Protocol {
  import opened Bytes
  import opened Decimal
  import opened Pack

  // ---------------------------------------------------------------- Remaining Length

  const MAX_LEN_BYTES: nat := 4

  /** The first length that four bytes cannot hold. */
  const LENGTH_LIMIT: nat := 0x1000_0000

  /** The bytes encode_length writes when it may still write `budget` of them. */
  function Length(len: nat, budget: nat): (s: seq<Byte>)
    ensures |s| <= budget
    decreases budget
  {
    if budget == 0 then []
    else if len / 128 > 0 then [len % 128 + 128] + Length(len / 128, budget - 1)
    else [len % 128]
  }

  function Encoded(len: nat): seq<Byte> {
    Length(len, MAX_LEN_BYTES)
  }

  predicate More(c: Byte) {
    c >= 128
  }

  /** Some byte ends the length field. */
  predicate Terminated(s: seq<Byte>) {
    s != [] && (More(s[0]) ==> Terminated(s[1..]))
  }

  /** What decode_length accumulates in an `unsigned long long`, with its `int` multiplier. */
  function Accumulated(value: nat, c: Byte, multiplier: int): nat {
    (value + Wrap((c % 128) * multiplier)) % 0x1_0000_0000_0000_0000
  }

  function Decoded(s: seq<Byte>, multiplier: int, value: nat): (r: (nat, nat))
    requires Terminated(s)
    ensures 1 <= r.1 <= |s|
    decreases |s|
  {
    var next := Accumulated(value, s[0], multiplier);
    if More(s[0]) then
      var (v, n) := Decoded(s[1..], Wrap(multiplier * 128), next);
      (v, n + 1)
    else (next, 1)
  }

  /** encode_length */
  method EncodeLength(buf: array<Byte>, at: nat, len: nat) returns (bytes: nat)
    requires at + |Encoded(len)| <= buf.Length
    modifies buf
    ensures bytes == |Encoded(len)|
    ensures buf[..] == Written(old(buf[..]), at, Encoded(len))
  {
    var rest := len;
    bytes := 0;
    ghost var was, all := buf[..], Encoded(len);
    while true
      invariant 0 <= bytes <= |all| && bytes <= MAX_LEN_BYTES
      invariant all[bytes..] == Length(rest, MAX_LEN_BYTES - bytes)
      invariant buf[..] == Written(was, at, all[..bytes])
      decreases MAX_LEN_BYTES - bytes
    {
      if bytes + 1 > MAX_LEN_BYTES {
        break;
      }
      var d := rest % 128;
      rest := rest / 128;
      if rest > 0 {
        d := d + 128;
      }
      assert all[bytes] == d && all[bytes..][1..] == all[bytes + 1..];
      WrittenByte(was, at, all, bytes);
      buf[at + bytes] := d;
      bytes := bytes + 1;
      if rest == 0 {
        break;
      }
    }
    assert all[..bytes] == all;
  }

  method Accumulate(value: nat, c: Byte, multiplier: int) returns (next: nat)
    ensures next == Accumulated(value, c, multiplier)
  {
    next := (value + Wrap((c % 128) * multiplier)) % 0x1_0000_0000_0000_0000;
  }

  /** decode_length, from the offset `at` of the buffer. */
  method DecodeLength(buf: array<Byte>, at: nat) returns (value: nat, pos: nat)
    requires at <= buf.Length && Terminated(buf[at..])
    ensures (value, pos) == Decoded(buf[at..], 1, 0)
  {
    var multiplier := 1;
    value, pos := 0, 0;
    ghost var all := Decoded(buf[at..], 1, 0);
    while true
      invariant at + pos <= buf.Length && Terminated(buf[at + pos..])
      invariant var (v, n) := Decoded(buf[at + pos..], multiplier, value); all == (v, pos + n)
      decreases buf.Length - pos
    {
      var c := buf[at + pos];
      assert buf[at + pos..][1..] == buf[at + pos + 1..];
      value := Accumulate(value, c, multiplier);
      multiplier := Wrap(multiplier * 128);
      pos := pos + 1;
      if c < 128 {
        break;
      }
    }
  }

  /** 128 to the n. */
  function Power(n: nat): nat {
    if n == 0 then 1 else 128 * Power(n - 1)
  }

  /** The number of bytes is the least that can hold the length, and never more than four. */
  lemma {:induction false} LengthMinimal(len: nat, budget: nat)
    requires budget > 0
    ensures |Length(len, budget)| >= 1
    ensures forall n :: 0 < n < |Length(len, budget)| ==> len >= Power(n)
    ensures len < Power(budget) ==> len < Power(|Length(len, budget)|)
    decreases budget
  {
    if len / 128 > 0 && budget > 1 {
      LengthMinimal(len / 128, budget - 1);
      forall n | 0 < n < |Length(len, budget)|
        ensures len >= Power(n)
      {
        if n == 1 {
          assert Power(1) == 128;
        } else {
          assert len / 128 >= Power(n - 1);
        }
      }
    } else {
      assert Power(1) == 128;
    }
  }

  /** The multiplier of decode_length after k bytes. */
  predicate Stage(budget: nat, multiplier: int) {
    || (budget == 4 && multiplier == 1)
    || (budget == 3 && multiplier == 0x80)
    || (budget == 2 && multiplier == 0x4000)
    || (budget == 1 && multiplier == 0x20_0000)
  }

  lemma StageNext(budget: nat, multiplier: int)
    requires Stage(budget, multiplier) && budget > 1
    ensures Stage(budget - 1, multiplier * 128) && Wrap(multiplier * 128) == multiplier * 128
  {
  }

  lemma AccumulatedIs(value: nat, c: Byte, budget: nat, multiplier: int)
    requires Stage(budget, multiplier) && value < LENGTH_LIMIT
    ensures Accumulated(value, c, multiplier) == value + (c % 128) * multiplier
  {
    TermSmall(c % 128, budget, multiplier);
    WrapSmall((c % 128) * multiplier);
  }

  lemma TermSmall(d: nat, budget: nat, multiplier: int)
    requires Stage(budget, multiplier) && d < 128
    ensures 0 <= d * multiplier < LENGTH_LIMIT
  {
    if budget == 4 {
    } else if budget == 3 {
    } else if budget == 2 {
    } else {
    }
  }

  /** While there is budget, a length below 128^4 is read back and the reader stops right behind it. */
  lemma {:induction false} LengthRead(len: nat, budget: nat, multiplier: int, value: nat, total: nat, rest: seq<Byte>)
    requires Stage(budget, multiplier) && value < multiplier && len * multiplier < LENGTH_LIMIT
    requires total == value + len * multiplier
    ensures Terminated(Length(len, budget) + rest)
    ensures Decoded(Length(len, budget) + rest, multiplier, value) == (total, |Length(len, budget)|)
    decreases budget
  {
    var s := Length(len, budget) + rest;
    var d, q, m := len % 128, len / 128, multiplier * 128;
    Placed(len, budget, multiplier, value, d, q, m);
    assert s[0] % 128 == d;
    AccumulatedIs(value, s[0], budget, multiplier);
    if q > 0 {
      var budget1, value1 := budget - 1, value + d * multiplier;
      StageNext(budget, multiplier);
      LengthRead(q, budget1, m, value1, total, rest);
      assert s[1..] == Length(q, budget1) + rest;
      DecodedMore(s, multiplier, value, m, value1);
    }
  }

  lemma DecodedMore(s: seq<Byte>, multiplier: int, value: nat, m: int, value1: nat)
    requires s != [] && More(s[0]) && Terminated(s[1..])
    requires m == Wrap(multiplier * 128) && value1 == Accumulated(value, s[0], multiplier)
    ensures Decoded(s, multiplier, value) == (Decoded(s[1..], m, value1).0, Decoded(s[1..], m, value1).1 + 1)
  {
  }

  /** The arithmetic of one base-128 digit, stage by stage. */
  lemma Placed(len: nat, budget: nat, multiplier: int, value: nat, d: nat, q: nat, m: int)
    requires Stage(budget, multiplier) && value < multiplier && len * multiplier < LENGTH_LIMIT
    requires d == len % 128 && q == len / 128 && m == multiplier * 128
    ensures value < LENGTH_LIMIT && value + d * multiplier < m && q * m < LENGTH_LIMIT
    ensures (value + d * multiplier) + q * m == value + len * multiplier
    ensures budget == 1 ==> q == 0
  {
    assert len == q * 128 + d;
    if budget == 4 {
    } else if budget == 3 {
    } else if budget == 2 {
    } else {
    }
  }

  /** A length that does not fit leaves its continuation bit set, so the reader runs on into what follows. */
  lemma {:induction false} LengthRunsOn(len: nat, budget: nat, multiplier: int, value: nat, rest: seq<Byte>)
    requires len >= Power(budget) && Terminated(Length(len, budget) + rest)
    ensures |Length(len, budget)| == budget
    ensures Decoded(Length(len, budget) + rest, multiplier, value).1 > budget
    decreases budget
  {
    var s := Length(len, budget) + rest;
    if budget > 0 {
      assert len / 128 >= Power(budget - 1) >= 1 by {
        PowerPositive(budget - 1);
      }
      assert s[1..] == Length(len / 128, budget - 1) + rest;
      LengthRunsOn(len / 128, budget - 1, Wrap(multiplier * 128), Accumulated(value, s[0], multiplier), rest);
    }
  }

  lemma PowerPositive(n: nat)
    ensures Power(n) >= 1
  {
  }

  /** decode_length inverts encode_length, and stops right behind the field, exactly for lengths below 128^4. */
  lemma LengthRoundTrip(len: nat, rest: seq<Byte>)
    ensures len < LENGTH_LIMIT ==> Terminated(Encoded(len) + rest)
    ensures Terminated(Encoded(len) + rest) ==>
              (Decoded(Encoded(len) + rest, 1, 0) == (len, |Encoded(len)|) <==> len < LENGTH_LIMIT)
  {
    assert Power(4) == 128 * Power(3) && Power(3) == 128 * Power(2) && Power(2) == 128 * Power(1);
    if len < LENGTH_LIMIT {
      LengthRead(len, 4, 1, 0, len, rest);
    } else if Terminated(Encoded(len) + rest) {
      LengthRunsOn(len, 4, 1, 0, rest);
    }
  }

  // ---------------------------------------------------------------- printed lengths

  const UINT: nat := 0x1_0000_0000

  /** The limit unpack has tracked behind the digits `ds`. */
  function Spelled(limit: nat, ds: Key): nat
    requires IsInteger(ds)
  {
    if ds == [] then limit else (Spelled(limit, ds[..|ds| - 1]) * 10 + DigitValue(ds[|ds| - 1])) % UINT
  }

  lemma {:induction false} SpelledDigits(n: nat)
    ensures IsInteger(Digits(n)) && Spelled(0, Digits(n)) == n % UINT
  {
    DigitsRead(n);
    var ds := Digits(n);
    if n >= 10 {
      SpelledDigits(n / 10);
      assert ds[..|ds| - 1] == Digits(n / 10);
      ModTen(n);
    } else {
      assert ds[..0] == [];
    }
  }

  lemma ModTen(n: nat)
    ensures (n / 10 % UINT * 10 + n % 10) % UINT == n % UINT
  {
    var q, x := n / 10 / UINT, n / 10 % UINT * 10 + n % 10;
    assert n == x + (10 * q) * UINT;
    ModShift(x, 10 * q);
  }

  ghost predicate Prints(items: seq<Item>, k: nat, ds: Key) {
    && k + |ds| <= |items| && IsInteger(ds)
    && forall i :: 0 <= i < |ds| ==> items[k + i] == Digit(DigitValue(ds[i]))
  }

  lemma SkipDigit(values: seq<Value>, s: seq<Byte>, at: nat, items: seq<Item>, k: nat, next: nat, limit: nat, d: nat)
    requires at <= |s| && k < |items| && next == k + 1 && d < 10 && items[k] == Digit(d)
    ensures Needed(items, k, limit) == Needed(items, next, Limit(limit, items[k]))
    ensures Needed(items, k, limit) <= |s| - at ==>
              UnpackedFrom(values, s, at, items, k, limit) ==
              UnpackedFrom(values, s, at, items, next, Limit(limit, items[k]))
  {
    assert s[at..at] == [] && values + [] == values;
  }

  /** Reading digits only moves the limit. */
  lemma {:induction false} SkipDigits(values: seq<Value>, s: seq<Byte>, at: nat, items: seq<Item>, k: nat, limit: nat,
                                      ds: Key)
    requires at <= |s| && Prints(items, k, ds)
    ensures Needed(items, k, limit) == Needed(items, k + |ds|, Spelled(limit, ds))
    ensures Needed(items, k, limit) <= |s| - at ==>
              UnpackedFrom(values, s, at, items, k, limit) ==
              UnpackedFrom(values, s, at, items, k + |ds|, Spelled(limit, ds))
  {
    if ds != [] {
      var n := |ds| - 1;
      var last := k + n;
      SkipDigits(values, s, at, items, k, limit, ds[..n]);
      SkipDigit(values, s, at, items, last, k + |ds|, Spelled(limit, ds[..n]), DigitValue(ds[n]));
    }
  }

  /** unpack recovers the printed length of a string digit by digit and then reads that many bytes. */
  lemma {:induction false} PrintedString(values: seq<Value>, s: seq<Byte>, at: nat, items: seq<Item>, k: nat, ds: Key)
    requires Prints(items, k, ds) && k + |ds| < |items| && items[k + |ds|] == Chars
    requires at + Spelled(0, ds) <= |s|
    ensures var n, e := Spelled(0, ds), k + |ds| + 1;
      && Needed(items, k, 0) == n + Needed(items, e, 0)
      && (Needed(items, k, 0) <= |s| - at ==>
            UnpackedFrom(values, s, at, items, k, 0) ==
            UnpackedFrom(values + [Str(s[at..at + n])], s, at + n, items, e, 0))
  {
    SkipDigits(values, s, at, items, k, 0, ds);
  }

  // ---------------------------------------------------------------- PUT

  datatype Put = Put(ttl: int, key: seq<Byte>, val: seq<Byte>)

  /** "iH" and "iHss" */
  const PUT_HEADER: Key := [105, 72]
  const PUT_FORMAT: Key := [105, 72, 115, 115]

  /** sprintf("%ds%lds") */
  function BodyFormat(keylen: nat, vallen: nat): Key {
    Text(keylen) + [115] + Text(vallen) + [115]
  }

  /** The packet has room for the fixed fields and for the key they announce. */
  predicate HoldsPut(raw: seq<Byte>, len: nat) {
    |raw| >= 6 && 6 + FromBig(raw[4..6]) <= len <= |raw|
  }

  /** The request that the bytes stand for: a big-endian ttl and key length, the key, and in the rest of the packet
      the value. */
  function ReadPut(raw: seq<Byte>, len: nat): Put
    requires HoldsPut(raw, len)
  {
    var at := 6 + FromBig(raw[4..6]);
    Put(Decode(true, raw[..4]), raw[6..at], raw[at..at + (len - at) % UINT])
  }

  lemma {:induction false} HeaderRead(raw: seq<Byte>, items: seq<Item>)
    requires |raw| >= 6 && |items| == 2 && items[0] == Number(4, true) && items[1] == Number(2, false)
    ensures Needed(items, 0, 0) == 6
    ensures Unpacked(raw, 0, items) == [Int(Decode(true, raw[..4])), Int(FromBig(raw[4..6]))]
  {
    var one, two := [Int(Decode(true, raw[..4]))], [Int(FromBig(raw[4..6]))];
    assert Needed(items, 2, 0) == 0 && Needed(items, 1, 0) == 2;
    assert raw[0..4] == raw[..4] && [] + one == one;
    assert UnpackedFrom([], raw, 0, items, 0, 0) == UnpackedFrom(one, raw, 4, items, 1, 0);
    assert UnpackedFrom(one, raw, 4, items, 1, 0) == UnpackedFrom(one + two, raw, 6, items, 2, 0);
  }

  lemma DigitItem(c: Byte)
    requires IsDigit(c)
    ensures ItemOf(c) == Digit(DigitValue(c))
  {
  }

  lemma PrintsAt(format: Key, k: nat, ds: Key)
    requires k + |ds| <= |format| && format[k..k + |ds|] == ds && IsInteger(ds)
    ensures Prints(Items(format), k, ds)
  {
    forall i | 0 <= i < |ds|
      ensures Items(format)[k + i] == Digit(DigitValue(ds[i]))
    {
      assert format[k + i] == format[k..k + |ds|][i];
      ItemAt(format, k + i);
      DigitItem(ds[i]);
    }
  }

  /** A format made of two printed lengths, each followed by an `s`. */
  ghost predicate TwoStrings(items: seq<Item>, a: Key, b: Key) {
    && Prints(items, 0, a) && |items| == |a| + |b| + 2 && items[|a|] == Chars
    && Prints(items, |a| + 1, b) && items[|items| - 1] == Chars
  }

  lemma {:induction false} BodyPrints(a: Key, b: Key)
    requires IsInteger(a) && IsInteger(b)
    ensures TwoStrings(Items(a + [115] + b + [115]), a, b)
  {
    var f := a + [115] + b + [115];
    assert f[..|a|] == a && f[|a|] == 115 && f[|a| + 1..|a| + 1 + |b|] == b && f[|f| - 1] == 115;
    PrintsAt(f, 0, a);
    ItemAt(f, |a|);
    PrintsAt(f, |a| + 1, b);
    ItemAt(f, |f| - 1);
  }

  lemma {:induction false} BodyRead(raw: seq<Byte>, items: seq<Item>, a: Key, b: Key, n: nat, m: nat)
    requires TwoStrings(items, a, b) && Spelled(0, a) == n && Spelled(0, b) == m && 6 + n + m <= |raw|
    ensures Needed(items, 0, 0) == n + m
    ensures Unpacked(raw, 6, items) == [Str(raw[6..6 + n]), Str(raw[6 + n..6 + n + m])]
  {
    var key := [Str(raw[6..6 + n])];
    PrintedString([], raw, 6, items, 0, a);
    PrintedString(key, raw, 6 + n, items, |a| + 1, b);
    assert [] + key == key;
  }

  lemma {:induction false} FormatRead(raw: seq<Byte>, keylen: nat, vallen: nat)
    requires keylen < 0x1_0000 && 6 + keylen + vallen <= |raw|
    ensures Needed(Items(BodyFormat(keylen, vallen)), 0, 0) <= |raw| - 6
    ensures Unpacked(raw, 6, Items(BodyFormat(keylen, vallen))) ==
            [Str(raw[6..6 + keylen]), Str(raw[6 + keylen..6 + keylen + vallen % UINT])]
  {
    var a, b := FormatSpells(keylen, vallen);
    assert keylen % UINT == keylen;
    BodyRead(raw, Items(BodyFormat(keylen, vallen)), a, b, keylen, vallen % UINT);
  }

  lemma {:induction false} FormatSpells(keylen: nat, vallen: nat) returns (a: Key, b: Key)
    ensures TwoStrings(Items(BodyFormat(keylen, vallen)), a, b)
    ensures Spelled(0, a) == keylen % UINT && Spelled(0, b) == vallen % UINT
  {
    a, b := Digits(keylen), Digits(vallen);
    SpelledDigits(keylen);
    SpelledDigits(vallen);
    BodyPrints(a, b);
  }

  /** The ttl and the length of the key. */
  method UnpackHeader(raw: array<Byte>) returns (ttl: int, keylen: nat)
    requires raw.Length >= 6
    ensures ttl == Decode(true, raw[..][..4]) && keylen == FromBig(raw[..][4..6])
  {
    ItemAt(PUT_HEADER, 0);
    ItemAt(PUT_HEADER, 1);
    HeaderRead(raw[..], Items(PUT_HEADER));
    var header := Unpack(raw, 0, PUT_HEADER);
    ttl, keylen := header[0].v, header[1].v;
  }

  /** unpack_triedb_put */
  method UnpackPut(raw: array<Byte>, len: nat) returns (put: Put)
    requires HoldsPut(raw[..], len)
    ensures put == ReadPut(raw[..], len)
  {
    var ttl, keylen := UnpackHeader(raw);
    var vallen := len - 6 - keylen;
    FormatRead(raw[..], keylen, vallen);
    var body := Unpack(raw, 6, BodyFormat(keylen, vallen));
    put := Put(ttl, body[0].s, body[1].s);
  }

  ghost predicate IsPutFormat(items: seq<Item>) {
    |items| == 4 && items[0] == Number(4, true) && items[1] == Number(2, false) && items[2] == Chars == items[3]
  }

  function PutArgs(put: Put): seq<Value> {
    [Int(put.ttl), Int(|put.key|), Str(put.key), Str(put.val)]
  }

  predicate CString(s: seq<Byte>) {
    0 !in s
  }

  lemma {:induction false} PutMatches(items: seq<Item>, put: Put)
    requires IsPutFormat(items) && CString(put.key) && CString(put.val)
    ensures Matches(items, 0, PutArgs(put), 0)
    ensures Packed(items, PutArgs(put)) == BigEndian(put.ttl, 4) + BigEndian(|put.key|, 2) + put.key + put.val
  {
    var args := PutArgs(put);
    assert Matches(items, 4, args, 4);
    assert Matches(items, 3, args, 3);
    assert Matches(items, 2, args, 2);
    assert Matches(items, 1, args, 1);
    var a, b, c, d := Field(items[0], args[0]), Field(items[1], args[1]), put.key, put.val;
    assert [] + a == a;
    assert PackedFrom([], items, 0, args, 0) == PackedFrom(a, items, 1, args, 1);
    assert PackedFrom(a, items, 1, args, 1) == PackedFrom(a + b, items, 2, args, 2);
    assert PackedFrom(a + b, items, 2, args, 2) == PackedFrom(a + b + c, items, 3, args, 3);
    assert PackedFrom(a + b + c, items, 3, args, 3) == PackedFrom(a + b + c + d, items, 4, args, 4);
  }

  lemma PutFormat()
    ensures IsPutFormat(Items(PUT_FORMAT))
  {
    ItemAt(PUT_FORMAT, 0);
    ItemAt(PUT_FORMAT, 1);
    ItemAt(PUT_FORMAT, 2);
    ItemAt(PUT_FORMAT, 3);
  }

  /** The bytes of a PUT request: what packing "iHss" writes. */
  function PutBytes(put: Put): seq<Byte> {
    BigEndian(put.ttl, 4) + BigEndian(|put.key|, 2) + put.key + put.val
  }

  /** Packing "iHss" and unpacking it with the two printed lengths gives the request back exactly when the ttl is a
      32-bit number, the key length a 16-bit one and the value length a 32-bit one. */
  lemma {:induction false} PutRoundTrip(put: Put, rest: seq<Byte>)
    requires CString(put.key) && CString(put.val)
    ensures Matches(Items(PUT_FORMAT), 0, PutArgs(put), 0) && Packed(Items(PUT_FORMAT), PutArgs(put)) == PutBytes(put)
    ensures HoldsPut(PutBytes(put) + rest, |PutBytes(put)|)
    ensures ReadPut(PutBytes(put) + rest, |PutBytes(put)|) == put <==>
            -0x8000_0000 <= put.ttl < 0x8000_0000 && |put.key| < 0x1_0000 && |put.val| < 0x1_0000_0000
  {
    PutFormat();
    PutMatches(Items(PUT_FORMAT), put);
    var raw := PutBytes(put) + rest;
    assert raw[..4] == BigEndian(put.ttl, 4) && raw[4..6] == BigEndian(|put.key|, 2);
    FieldRoundTrip(4, true, put.ttl);
    FieldRoundTrip(2, false, |put.key|);
    BigEndianLess(|put.key|, 2);
    if |put.key| < 0x1_0000 {
      assert raw[6..6 + |put.key|] == put.key;
      assert raw[6 + |put.key|..6 + |put.key| + |put.val|] == put.val;
    }
  }

  lemma {:induction false} BigEndianLess(v: nat, n: nat)
    ensures FromBig(BigEndian(v, n)) <= v
    decreases n
  {
    if n > 0 {
      BigEndianStep(v, n);
      BigEndianLess(v / 256, n - 1);
    }
  }
}
