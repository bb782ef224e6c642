/** Numbers and strings in network byte order under a format string (src/pack.c). */
module Pack {
  import opened Bytes
  import opened Decimal

  // ---------------------------------------------------------------- big-endian integers

  /** 256 to the n. */
  function Base(n: nat): (p: nat)
    ensures p >= 1
  {
    if n == 0 then 1 else 256 * Base(n - 1)
  }

  /** v >> 8 * n */
  function Shr(v: int, n: nat): int
    decreases n
  {
    if n == 0 then v else Shr(v / 256, n - 1)
  }

  /** The low n bytes of v, the most significant first. */
  function BigEndian(v: int, n: nat): (s: seq<Byte>)
    ensures |s| == n
  {
    seq(n, i requires 0 <= i < n => Shr(v, n - 1 - i) % 256)
  }

  /** The number a big-endian byte string stands for. */
  function FromBig(s: seq<Byte>): (v: nat)
    ensures v < Base(|s|)
  {
    if s == [] then 0 else FromBig(s[..|s| - 1]) * 256 + s[|s| - 1]
  }

  lemma BigEndianStep(v: int, n: nat)
    requires n > 0
    ensures BigEndian(v, n)[..n - 1] == BigEndian(v / 256, n - 1)
    ensures BigEndian(v, n)[n - 1] == v % 256
  {
    forall i | 0 <= i < n - 1
      ensures BigEndian(v, n)[i] == BigEndian(v / 256, n - 1)[i]
    {
      assert Shr(v, n - 1 - i) == Shr(v / 256, n - 2 - i);
    }
    assert Shr(v, 0) == v;
  }

  lemma {:induction false} BigEndianRead(v: int, n: nat)
    requires 0 <= v < Base(n)
    ensures FromBig(BigEndian(v, n)) == v
  {
    if n > 0 {
      BigEndianStep(v, n);
      BigEndianRead(v / 256, n - 1);
    }
  }

  lemma {:induction false} BigEndianWraps(v: int, n: nat)
    ensures BigEndian(v + Base(n), n) == BigEndian(v, n)
    decreases n
  {
    if n > 0 {
      BigEndianStep(v, n);
      BigEndianStep(v + Base(n), n);
      BigEndianWraps(v / 256, n - 1);
    }
  }

  // ---------------------------------------------------------------- formats

  /** What the switch makes of one character of a format: a number of some width, a string, a digit of the next
      string's length, or nothing. */
  datatype Item = Number(width: nat, signed: bool) | Chars | Digit(d: nat) | Skip

  function ItemOf(c: Byte): Item {
    if c == 98 then Number(1, true)
    else if c == 66 then Number(1, false)
    else if c == 104 then Number(2, true)
    else if c == 72 then Number(2, false)
    else if c == 105 then Number(4, true)
    else if c == 73 then Number(4, false)
    else if c == 113 then Number(8, true)
    else if c == 81 then Number(8, false)
    else if c == 115 then Chars
    else if IsDigit(c) then Digit(DigitValue(c))
    else Skip
  }

  function Items(format: Key): (items: seq<Item>)
    ensures |items| == |format|
    ensures Sound(items)
  {
    if format == [] then [] else Items(format[..|format| - 1]) + [ItemOf(format[|format| - 1])]
  }

  lemma {:induction false} ItemAt(format: Key, i: nat)
    requires i < |format|
    ensures Items(format)[i] == ItemOf(format[i])
  {
    if i < |format| - 1 {
      ItemAt(format[..|format| - 1], i);
    }
  }

  predicate HasWidth(item: Item) {
    item.Number? ==> item.width == 1 || item.width == 2 || item.width == 4 || item.width == 8
  }

  ghost predicate Sound(items: seq<Item>) {
    forall i :: 0 <= i < |items| ==> HasWidth(items[i])
  }

  function Width(item: Item): nat {
    if item.Number? then item.width else 0
  }

  predicate Takes(item: Item) {
    item.Number? || item.Chars?
  }

  /** unpacki16, unpacki32, unpacki64 and their unsigned twins. */
  function Decode(signed: bool, s: seq<Byte>): int {
    var u := FromBig(s);
    if signed && 2 * u >= Base(|s|) then -1 - (Base(|s|) - 1 - u) else u
  }

  predicate InRange(width: nat, signed: bool, v: int) {
    var m: int := Base(width);
    if signed then -m <= 2 * v < m else 0 <= v < m
  }

  /** A number survives packing and unpacking exactly when it is in the range of its field. */
  lemma FieldRoundTrip(width: nat, signed: bool, v: int)
    requires width > 0
    ensures Decode(signed, BigEndian(v, width)) == v <==> InRange(width, signed, v)
  {
    EvenBase(width);
    if InRange(width, signed, v) {
      if v >= 0 {
        BigEndianRead(v, width);
      } else {
        BigEndianWraps(v, width);
        BigEndianRead(v + Base(width), width);
      }
    }
  }

  lemma {:induction false} EvenBase(n: nat)
    requires n > 0
    ensures Base(n) % 2 == 0
  {
    assert Base(n) == 2 * (128 * Base(n - 1));
  }

  // ---------------------------------------------------------------- the format interpreter

  /** An argument of pack or a result of unpack. */
  datatype Value = Int(v: int) | Str(s: seq<Byte>)

  predicate Typed(item: Item, arg: Value) {
    if item.Number? then arg.Int? else arg.Str?
  }

  /** The variable arguments from `a` on agree with the format from `k` on; a string argument is a C string. */
  predicate Matches(items: seq<Item>, k: nat, args: seq<Value>, a: nat)
    requires k <= |items| && a <= |args|
    decreases |items| - k
  {
    if k == |items| then a == |args|
    else if Takes(items[k]) then
      && a < |args|
      && Typed(items[k], args[a])
      && (args[a].Str? ==> 0 !in args[a].s)
      && Matches(items, k + 1, args, a + 1)
    else Matches(items, k + 1, args, a)
  }

  function Field(item: Item, arg: Value): seq<Byte> {
    if arg.Int? then BigEndian(arg.v, Width(item)) else arg.s
  }

  /** What pack has written in the end when it has written `out` and stands at `k` and `a`. */
  function PackedFrom(out: seq<Byte>, items: seq<Item>, k: nat, args: seq<Value>, a: nat): seq<Byte>
    requires k <= |items| && a <= |args| && Matches(items, k, args, a)
    decreases |items| - k
  {
    if k == |items| then out
    else if Takes(items[k]) then PackedFrom(out + Field(items[k], args[a]), items, k + 1, args, a + 1)
    else PackedFrom(out, items, k + 1, args, a)
  }

  /** The bytes pack writes. */
  function Packed(items: seq<Item>, args: seq<Value>): seq<Byte>
    requires Matches(items, 0, args, 0)
  {
    PackedFrom([], items, 0, args, 0)
  }

  lemma {:induction false} PackedExtends(out: seq<Byte>, items: seq<Item>, k: nat, args: seq<Value>, a: nat)
    requires k <= |items| && a <= |args| && Matches(items, k, args, a)
    ensures out <= PackedFrom(out, items, k, args, a)
    decreases |items| - k
  {
    if k == |items| {
    } else if Takes(items[k]) {
      PackedExtends(out + Field(items[k], args[a]), items, k + 1, args, a + 1);
    } else {
      PackedExtends(out, items, k + 1, args, a);
    }
  }

  /** What pack returns: the widths of the numeric fields. */
  function Size(items: seq<Item>, k: nat): nat
    requires k <= |items|
    decreases |items| - k
  {
    if k == |items| then 0 else Width(items[k]) + Size(items, k + 1)
  }

  /** The number spelled by the digits just before a field, in an `unsigned int`. */
  function Limit(limit: nat, item: Item): nat {
    if item.Digit? then (limit * 10 + item.d) % 0x1_0000_0000 else 0
  }

  /** A string is as long as the number before it says. */
  function FieldLength(item: Item, limit: nat): nat {
    if item.Chars? then limit else Width(item)
  }

  /** How many bytes unpack reads. */
  function Needed(items: seq<Item>, k: nat, limit: nat): nat
    requires k <= |items|
    decreases |items| - k
  {
    if k == |items| then 0 else FieldLength(items[k], limit) + Needed(items, k + 1, Limit(limit, items[k]))
  }

  function ReadField(item: Item, s: seq<Byte>): seq<Value> {
    match item
    case Number(_, signed) => [Int(Decode(signed, s))]
    case Chars => [Str(s)]
    case _ => []
  }

  /** What unpack has stored in the end when it has stored `values` and stands at `at` in the bytes and at `k` in
      the format. */
  function UnpackedFrom(values: seq<Value>, s: seq<Byte>, at: nat, items: seq<Item>, k: nat, limit: nat): seq<Value>
    requires at <= |s| && k <= |items| && Needed(items, k, limit) <= |s| - at
    decreases |items| - k
  {
    if k == |items| then values
    else
      var n := FieldLength(items[k], limit);
      UnpackedFrom(values + ReadField(items[k], s[at..at + n]), s, at + n, items, k + 1, Limit(limit, items[k]))
  }

  /** The values unpack stores. */
  function Unpacked(s: seq<Byte>, at: nat, items: seq<Item>): seq<Value>
    requires at <= |s| && Needed(items, 0, 0) <= |s| - at
  {
    UnpackedFrom([], s, at, items, 0, 0)
  }

  lemma {:induction false} UnpackedExtends(values: seq<Value>, s: seq<Byte>, at: nat, items: seq<Item>, k: nat,
                                           limit: nat)
    requires at <= |s| && k <= |items| && Needed(items, k, limit) <= |s| - at
    ensures values <= UnpackedFrom(values, s, at, items, k, limit)
    decreases |items| - k
  {
    if k < |items| {
      var n := FieldLength(items[k], limit);
      UnpackedExtends(values + ReadField(items[k], s[at..at + n]), s, at + n, items, k + 1, Limit(limit, items[k]));
    }
  }

  // ---------------------------------------------------------------- round trip

  /** Every string has the length the digits before it announce. */
  predicate Announced(items: seq<Item>, k: nat, args: seq<Value>, a: nat, limit: nat)
    requires k <= |items| && a <= |args| && Matches(items, k, args, a)
    decreases |items| - k
  {
    if k == |items| then true
    else if Takes(items[k]) then
      (items[k].Chars? ==> |args[a].s| == limit) && Announced(items, k + 1, args, a + 1, Limit(limit, items[k]))
    else Announced(items, k + 1, args, a, Limit(limit, items[k]))
  }

  predicate Fits(item: Item, arg: Value)
    requires Typed(item, arg)
  {
    item.Number? ==> InRange(item.width, item.signed, arg.v)
  }

  predicate AllFit(items: seq<Item>, k: nat, args: seq<Value>, a: nat)
    requires k <= |items| && a <= |args| && Matches(items, k, args, a)
    decreases |items| - k
  {
    if k == |items| then true
    else if Takes(items[k]) then Fits(items[k], args[a]) && AllFit(items, k + 1, args, a + 1)
    else AllFit(items, k + 1, args, a)
  }

  lemma {:induction false} NeededIsPacked(out: seq<Byte>, items: seq<Item>, k: nat, args: seq<Value>, a: nat,
                                          limit: nat)
    requires k <= |items| && a <= |args| && Matches(items, k, args, a) && Announced(items, k, args, a, limit)
    ensures |out| + Needed(items, k, limit) == |PackedFrom(out, items, k, args, a)|
    decreases |items| - k
  {
    if k == |items| {
    } else if Takes(items[k]) {
      NeededIsPacked(out + Field(items[k], args[a]), items, k + 1, args, a + 1, Limit(limit, items[k]));
    } else {
      NeededIsPacked(out, items, k + 1, args, a, Limit(limit, items[k]));
    }
  }

  /** unpack inverts pack, whatever follows in the buffer, exactly when every number is in the range of its
      field. */
  lemma RoundTrip(items: seq<Item>, args: seq<Value>, rest: seq<Byte>)
    requires Sound(items) && Matches(items, 0, args, 0) && Announced(items, 0, args, 0, 0)
    ensures Needed(items, 0, 0) == |Packed(items, args)|
    ensures Unpacked(Packed(items, args) + rest, 0, items) == args <==> AllFit(items, 0, args, 0)
  {
    NeededIsPacked([], items, 0, args, 0, 0);
    RoundTripFrom([], [], items, 0, args, 0, 0, Packed(items, args) + rest);
    assert args[0..] == args;
  }

  lemma {:induction false} RoundTripFrom(out: seq<Byte>, values: seq<Value>, items: seq<Item>, k: nat,
                                         args: seq<Value>, a: nat, limit: nat, s: seq<Byte>)
    requires k <= |items| && a <= |args| && Sound(items) && Matches(items, k, args, a)
    requires Announced(items, k, args, a, limit) && PackedFrom(out, items, k, args, a) <= s
    ensures |out| + Needed(items, k, limit) <= |s|
    ensures UnpackedFrom(values, s, |out|, items, k, limit) == values + args[a..] <==> AllFit(items, k, args, a)
    decreases |items| - k
  {
    NeededIsPacked(out, items, k, args, a, limit);
    if k == |items| {
      assert args[a..] == [];
    } else {
      var k1, limit1 := k + 1, Limit(limit, items[k]);
      if Takes(items[k]) {
        var field, a1 := Field(items[k], args[a]), a + 1;
        var x := TakenRead(out, field, values, items, k, k1, args, a, limit, limit1, s);
        RoundTripFrom(out + field, values + [x], items, k1, args, a1, limit1, s);
        UnpackedExtends(values + [x], s, |out + field|, items, k1, limit1);
        OneMore(values, x, args, a, UnpackedFrom(values + [x], s, |out + field|, items, k1, limit1));
      } else {
        assert s[|out|..|out|] == [];
        assert values + [] == values;
        RoundTripFrom(out, values, items, k1, args, a, limit1, s);
      }
    }
  }

  /** Reading the field of an argument gives one value, the argument exactly when it fits, and goes on behind it. */
  lemma {:induction false} TakenRead(out: seq<Byte>, field: seq<Byte>, values: seq<Value>, items: seq<Item>, k: nat,
                                     k1: nat, args: seq<Value>, a: nat, limit: nat, limit1: nat, s: seq<Byte>)
    returns (x: Value)
    requires k < |items| && k1 == k + 1 && a < |args| && Sound(items) && Matches(items, k, args, a) && Takes(items[k])
    requires Announced(items, k, args, a, limit) && PackedFrom(out, items, k, args, a) <= s
    requires field == Field(items[k], args[a]) && limit1 == Limit(limit, items[k])
    requires |out| + Needed(items, k, limit) <= |s|
    ensures |out + field| + Needed(items, k1, limit1) <= |s|
    ensures UnpackedFrom(values, s, |out|, items, k, limit) ==
            UnpackedFrom(values + [x], s, |out + field|, items, k1, limit1)
    ensures x == args[a] <==> Fits(items[k], args[a])
  {
    PackedExtends(out + field, items, k1, args, a + 1);
    FieldFound(out, field, s);
    ReadBack(items[k], args[a]);
    x := ReadField(items[k], field)[0];
    assert |field| == FieldLength(items[k], limit);
    UnpackedNext(values, s, |out|, |out + field|, items, k, k1, limit, limit1, field, x);
  }

  lemma {:induction false} UnpackedNext(values: seq<Value>, s: seq<Byte>, at: nat, next: nat, items: seq<Item>, k: nat,
                                        k1: nat, limit: nat, limit1: nat, field: seq<Byte>, x: Value)
    requires k < |items| && k1 == k + 1 && limit1 == Limit(limit, items[k]) && at + Needed(items, k, limit) <= |s|
    requires next == at + FieldLength(items[k], limit) && s[at..next] == field && ReadField(items[k], field) == [x]
    ensures next + Needed(items, k1, limit1) <= |s|
    ensures UnpackedFrom(values, s, at, items, k, limit) == UnpackedFrom(values + [x], s, next, items, k1, limit1)
  {
  }

  lemma FieldFound(out: seq<Byte>, field: seq<Byte>, s: seq<Byte>)
    requires out + field <= s
    ensures s[|out|..|out| + |field|] == field
  {
    assert (out + field)[|out|..] == field;
  }

  lemma OneMore(values: seq<Value>, x: Value, args: seq<Value>, a: nat, all: seq<Value>)
    requires a < |args| && values + [x] <= all
    ensures all == values + args[a..] <==> x == args[a] && all == (values + [x]) + args[a + 1..]
  {
    assert all[|values|] == x;
    assert args[a..] == [args[a]] + args[a + 1..];
  }

  lemma ReadBack(item: Item, arg: Value)
    requires Takes(item) && Typed(item, arg) && HasWidth(item)
    ensures |ReadField(item, Field(item, arg))| == 1
    ensures ReadField(item, Field(item, arg))[0] == arg <==> Fits(item, arg)
  {
    if item.Number? {
      FieldRoundTrip(item.width, item.signed, arg.v);
    }
  }

  /** The format characters of numbers, with their widths and signs: b B h H i I q Q. */
  predicate Codes(c: Byte, width: nat, signed: bool) {
    || (c == 98 && width == 1 && signed) || (c == 66 && width == 1 && !signed)
    || (c == 104 && width == 2 && signed) || (c == 72 && width == 2 && !signed)
    || (c == 105 && width == 4 && signed) || (c == 73 && width == 4 && !signed)
    || (c == 113 && width == 8 && signed) || (c == 81 && width == 8 && !signed)
  }

  /** Under a format of one such character pack writes the low bytes of the number, and unpack reads them as one. */
  lemma {:induction false} OneNumber(c: Chr, width: nat, signed: bool, v: int, s: seq<Byte>)
    requires Codes(c, width, signed) && |s| == width
    ensures Matches(Items([c]), 0, [Int(v)], 0) && Packed(Items([c]), [Int(v)]) == BigEndian(v, width)
    ensures Needed(Items([c]), 0, 0) == width && Unpacked(s, 0, Items([c])) == [Int(Decode(signed, s))]
  {
    var items := Items([c]);
    ItemAt([c], 0);
    assert items == [Number(width, signed)];
    assert Matches(items, 1, [Int(v)], 1);
    assert [] + BigEndian(v, width) == BigEndian(v, width);
    assert PackedFrom([], items, 0, [Int(v)], 0) == PackedFrom(BigEndian(v, width), items, 1, [Int(v)], 1);
    assert Needed(items, 1, 0) == 0;
    assert s[0..0 + width] == s && [] + [Int(Decode(signed, s))] == [Int(Decode(signed, s))];
    assert UnpackedFrom([], s, 0, items, 0, 0) == UnpackedFrom([Int(Decode(signed, s))], s, width, items, 1, 0);
  }

  /** The numbers that a format character stands for. */
  predicate Holds(c: Byte, v: int) {
    || (c == 98 && -0x80 <= v < 0x80) || (c == 66 && 0 <= v < 0x100)
    || (c == 104 && -0x8000 <= v < 0x8000) || (c == 72 && 0 <= v < 0x1_0000)
    || (c == 105 && -0x8000_0000 <= v < 0x8000_0000) || (c == 73 && 0 <= v < 0x1_0000_0000)
    || (c == 113 && -0x8000_0000_0000_0000 <= v < 0x8000_0000_0000_0000)
    || (c == 81 && 0 <= v < 0x1_0000_0000_0000_0000)
  }

  /** A number packed under one such character is unpacked exactly when it is one of those. */
  lemma {:induction false} NumberKept(c: Chr, width: nat, signed: bool, v: int)
    requires Codes(c, width, signed)
    ensures Matches(Items([c]), 0, [Int(v)], 0)
    ensures var s := Packed(Items([c]), [Int(v)]);
      && |s| == width == Needed(Items([c]), 0, 0)
      && (Unpacked(s, 0, Items([c])) == [Int(v)] <==> Holds(c, v))
  {
    OneNumber(c, width, signed, v, BigEndian(v, width));
    FieldRoundTrip(width, signed, v);
    Bases();
  }

  // ---------------------------------------------------------------- what pack returns

  /** The bytes that come from string arguments. */
  function StringBytes(args: seq<Value>, a: nat): nat
    requires a <= |args|
    decreases |args| - a
  {
    if a == |args| then 0 else (if args[a].Str? then |args[a].s| else 0) + StringBytes(args, a + 1)
  }

  lemma {:induction false} SizeLeavesStrings(out: seq<Byte>, items: seq<Item>, k: nat, args: seq<Value>, a: nat)
    requires k <= |items| && a <= |args| && Matches(items, k, args, a)
    ensures |PackedFrom(out, items, k, args, a)| == |out| + Size(items, k) + StringBytes(args, a)
    decreases |items| - k
  {
    if k == |items| {
    } else if Takes(items[k]) {
      SizeLeavesStrings(out + Field(items[k], args[a]), items, k + 1, args, a + 1);
    } else {
      SizeLeavesStrings(out, items, k + 1, args, a);
    }
  }

  lemma {:induction false} NoStringBytes(args: seq<Value>, a: nat)
    requires a <= |args|
    ensures StringBytes(args, a) == 0 <==> forall i :: a <= i < |args| && args[i].Str? ==> args[i].s == []
    decreases |args| - a
  {
    if a < |args| {
      NoStringBytes(args, a + 1);
    }
  }

  /** pack returns the number of bytes it writes exactly when every string it writes is empty. */
  lemma SizeIsLength(items: seq<Item>, args: seq<Value>)
    requires Matches(items, 0, args, 0)
    ensures Size(items, 0) == |Packed(items, args)| <==>
            forall i :: 0 <= i < |args| && args[i].Str? ==> args[i].s == []
  {
    SizeLeavesStrings([], items, 0, args, 0);
    NoStringBytes(args, 0);
  }

  // ---------------------------------------------------------------- the code

  /** A buffer after the bytes s were stored at an offset. */
  function Written(was: seq<Byte>, at: nat, s: seq<Byte>): (now: seq<Byte>)
    requires at + |s| <= |was|
    ensures |now| == |was|
  {
    was[..at] + s + was[at + |s|..]
  }

  lemma WrittenByte(was: seq<Byte>, at: nat, s: seq<Byte>, k: nat)
    requires k < |s| && at + |s| <= |was|
    ensures Written(was, at, s[..k])[at + k := s[k]] == Written(was, at, s[..k + 1])
  {
  }

  lemma Joined(s: seq<Byte>, at: nat, n: nat)
    requires at + n <= |s|
    ensures s == s[..at] + s[at..at + n] + s[at + n..]
  {
  }

  method PackI16(buf: array<Byte>, at: nat, v: int)
    requires at + 2 <= buf.Length
    modifies buf
    ensures buf[..] == Written(old(buf[..]), at, BigEndian(v, 2))
  {
    ghost var was := buf[..];
    buf[at] := Shr(v, 1) % 256;
    buf[at + 1] := v % 256;
    assert Shr(v, 0) == v;
    assert buf[at..at + 2] == BigEndian(v, 2);
    assert buf[..at] == was[..at] && buf[at + 2..] == was[at + 2..];
    Joined(buf[..], at, 2);
  }

  method PackI32(buf: array<Byte>, at: nat, v: int)
    requires at + 4 <= buf.Length
    modifies buf
    ensures buf[..] == Written(old(buf[..]), at, BigEndian(v, 4))
  {
    ghost var was := buf[..];
    buf[at] := Shr(v, 3) % 256;
    buf[at + 1] := Shr(v, 2) % 256;
    buf[at + 2] := Shr(v, 1) % 256;
    buf[at + 3] := v % 256;
    assert Shr(v, 0) == v;
    assert buf[at..at + 4] == BigEndian(v, 4);
    assert buf[..at] == was[..at] && buf[at + 4..] == was[at + 4..];
    Joined(buf[..], at, 4);
  }

  method PackI64(buf: array<Byte>, at: nat, v: int)
    requires at + 8 <= buf.Length
    modifies buf
    ensures buf[..] == Written(old(buf[..]), at, BigEndian(v, 8))
  {
    ghost var was := buf[..];
    buf[at] := Shr(v, 7) % 256;
    buf[at + 1] := Shr(v, 6) % 256;
    buf[at + 2] := Shr(v, 5) % 256;
    buf[at + 3] := Shr(v, 4) % 256;
    buf[at + 4] := Shr(v, 3) % 256;
    buf[at + 5] := Shr(v, 2) % 256;
    buf[at + 6] := Shr(v, 1) % 256;
    buf[at + 7] := v % 256;
    assert Shr(v, 0) == v;
    assert buf[at..at + 8] == BigEndian(v, 8);
    assert buf[..at] == was[..at] && buf[at + 8..] == was[at + 8..];
    Joined(buf[..], at, 8);
  }

  /** memcpy of a string argument. */
  method PackString(buf: array<Byte>, at: nat, s: seq<Byte>)
    requires at + |s| <= buf.Length
    modifies buf
    ensures buf[..] == Written(old(buf[..]), at, s)
  {
    var i := 0;
    while i < |s|
      invariant 0 <= i <= |s|
      invariant buf[..] == Written(old(buf[..]), at, s[..i])
    {
      WrittenByte(old(buf[..]), at, s, i);
      buf[at + i] := s[i];
      i := i + 1;
    }
    assert s[..i] == s;
  }

  method PackField(buf: array<Byte>, at: nat, item: Item, arg: Value) returns (n: nat)
    requires Takes(item) && HasWidth(item) && Typed(item, arg) && at + |Field(item, arg)| <= buf.Length
    modifies buf
    ensures buf[..] == Written(old(buf[..]), at, Field(item, arg))
    ensures n == |Field(item, arg)|
  {
    if item.Chars? {
      PackString(buf, at, arg.s);
      n := |arg.s|;
    } else {
      n := item.width;
      if n == 1 {
        assert Shr(arg.v, 0) == arg.v;
        buf[at] := arg.v % 256;
      } else if n == 2 {
        PackI16(buf, at, arg.v);
      } else if n == 4 {
        PackI32(buf, at, arg.v);
      } else {
        PackI64(buf, at, arg.v);
      }
    }
  }

  lemma WrittenMore(was: seq<Byte>, start: nat, out: seq<Byte>, field: seq<Byte>)
    requires start + |out| + |field| <= |was|
    ensures Written(Written(was, start, out), start + |out|, field) == Written(was, start, out + field)
  {
  }

  /** pack, from the offset `start` of the buffer: interprets the format from left to right. */
  method Pack(buf: array<Byte>, start: nat, format: Key, args: seq<Value>) returns (size: nat)
    requires Matches(Items(format), 0, args, 0) && start + |Packed(Items(format), args)| <= buf.Length
    modifies buf
    ensures buf[..] == Written(old(buf[..]), start, Packed(Items(format), args))
    ensures size == Size(Items(format), 0)
  {
    var items := Items(format);
    var at: nat, a: nat, k: nat := start, 0, 0;
    size := 0;
    ghost var was, out := buf[..], [];
    while k < |items|
      invariant k <= |items| && a <= |args| && at == start + |out| <= |was| && Matches(items, k, args, a)
      invariant PackedFrom(out, items, k, args, a) == Packed(items, args)
      invariant buf[..] == Written(was, start, out)
      invariant size + Size(items, k) == Size(items, 0)
    {
      if Takes(items[k]) {
        ghost var field := Field(items[k], args[a]);
        PackedExtends(out + field, items, k + 1, args, a + 1);
        WrittenMore(was, start, out, field);
        var n := PackField(buf, at, items[k], args[a]);
        out, size, at, a := out + field, size + Width(items[k]), at + n, a + 1;
      }
      k := k + 1;
    }
  }

  lemma Horner(s: seq<Byte>, k: nat)
    requires k < |s|
    ensures FromBig(s[..k + 1]) == FromBig(s[..k]) * 256 + s[k]
  {
    assert s[..k + 1][..k] == s[..k];
  }

  /** unpacku16: two bytes, shifted and combined. */
  function Word16(s: seq<Byte>): (v: nat)
    requires |s| == 2
    ensures v == FromBig(s)
  {
    Horner(s, 0); Horner(s, 1);
    assert s[..2] == s;
    (s[0] as int) * 0x100 + s[1]
  }

  lemma FourBytes(s: seq<Byte>, k: nat)
    requires k + 4 <= |s|
    ensures FromBig(s[..k + 4]) == FromBig(s[..k]) * 0x1_0000_0000 + (s[k] as int) * 0x100_0000
                                   + (s[k + 1] as int) * 0x1_0000 + (s[k + 2] as int) * 0x100 + s[k + 3]
  {
    Horner(s, k);
    Horner(s, k + 1);
    Horner(s, k + 2);
    Horner(s, k + 3);
  }

  /** unpacku32 */
  function Word32(s: seq<Byte>): (v: nat)
    requires |s| == 4
    ensures v == FromBig(s)
  {
    FourBytes(s, 0);
    assert s[..4] == s;
    (s[0] as int) * 0x100_0000 + (s[1] as int) * 0x1_0000 + (s[2] as int) * 0x100 + s[3]
  }

  /** unpacku64 */
  function Word64(s: seq<Byte>): (v: nat)
    requires |s| == 8
    ensures v == FromBig(s)
  {
    FourBytes(s, 0);
    FourBytes(s, 4);
    assert s[..8] == s;
    (s[0] as int) * 0x100_0000_0000_0000 + (s[1] as int) * 0x1_0000_0000_0000
    + (s[2] as int) * 0x100_0000_0000 + (s[3] as int) * 0x1_0000_0000
    + (s[4] as int) * 0x100_0000 + (s[5] as int) * 0x1_0000 + (s[6] as int) * 0x100 + s[7]
  }

  /** The branch that turns unsigned numbers into signed ones. */
  function Resigned(u: nat, most: nat): int {
    if u <= most then u else -1 - (2 * most + 1 - u)
  }

  /** The decoders as the source writes them. */
  function ReadNumber(signed: bool, s: seq<Byte>): (v: int)
    requires HasWidth(Number(|s|, signed))
    ensures v == Decode(signed, s)
  {
    Bases();
    Horner(s, 0);
    assert |s| == 1 ==> s[..1] == s;
    var u: nat, most: nat :=
      if |s| == 1 then s[0] else if |s| == 2 then Word16(s) else if |s| == 4 then Word32(s) else Word64(s),
      if |s| == 1 then 0x7f
      else if |s| == 2 then 0x7fff else if |s| == 4 then 0x7fff_ffff else 0x7fff_ffff_ffff_ffff;
    if signed then Resigned(u, most) else u
  }

  lemma Bases()
    ensures Base(1) == 0x100 && Base(2) == 0x1_0000 && Base(4) == 0x1_0000_0000
    ensures Base(8) == 0x1_0000_0000_0000_0000
  {
    assert Base(3) == 256 * Base(2) && Base(5) == 256 * Base(4) && Base(6) == 256 * Base(5);
    assert Base(7) == 256 * Base(6);
  }

  /** One turn of unpack's loop: the values it stores, the bytes it consumes and the next length limit. */
  method UnpackField(buf: array<Byte>, at: nat, item: Item, limit: nat)
    returns (values: seq<Value>, n: nat, next: nat)
    requires HasWidth(item) && at + FieldLength(item, limit) <= buf.Length
    ensures n == FieldLength(item, limit) && next == Limit(limit, item)
    ensures values == ReadField(item, buf[..][at..at + n])
  {
    values, n, next := [], 0, 0;
    match item {
      case Number(width, signed) =>
        n := width;
        values := [Int(ReadNumber(signed, buf[at..at + n]))];
      case Chars =>
        n := limit;
        values := [Str(buf[at..at + n])];
      case Digit(d) =>
        next := (limit * 10 + d) % 0x1_0000_0000;
      case Skip =>
    }
  }

  /** unpack, from the offset `start` of the buffer: interprets the format from left to right, tracking the length
      limit of the next string. */
  method Unpack(buf: array<Byte>, start: nat, format: Key) returns (values: seq<Value>)
    requires start <= buf.Length && Needed(Items(format), 0, 0) <= buf.Length - start
    ensures values == Unpacked(buf[..], start, Items(format))
  {
    var items := Items(format);
    var at: nat, k: nat, limit: nat := start, 0, 0;
    values := [];
    while k < |items|
      invariant k <= |items| && at <= buf.Length && Needed(items, k, limit) <= buf.Length - at
      invariant Unpacked(buf[..], start, items) == UnpackedFrom(values, buf[..], at, items, k, limit)
    {
      var more, n, next := UnpackField(buf, at, items[k], limit);
      values, at, k, limit := values + more, at + n, k + 1, next;
    }
  }
}
