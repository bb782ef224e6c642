/** The responses that list keys: pack_response_get and pack_response_join (src/protocol.c). */
module Responses {
  import opened Bytes
  import opened Pack
  import opened Protocol

  /** struct tuple: the key length is an unsigned short. */
  datatype Tuple = Tuple(ttl: int, key: seq<Byte>, val: seq<Byte>) {
    predicate Valid() {
      CString(key) && CString(val) && |key| < 0x1_0000
    }

    /** The fields survive the widths they are sent in. */
    predicate Sendable() {
      Valid() && InRange(4, true, ttl) && |val| < 0x1_0000
    }
  }

  predicate AllValid(tuples: seq<Tuple>) {
    forall i :: 0 <= i < |tuples| ==> tuples[i].Valid()
  }

  predicate AllSendable(tuples: seq<Tuple>) {
    forall i :: 0 <= i < |tuples| ==> tuples[i].Sendable()
  }

  /** A ttl, a key with its length before it and a value with its length before it. */
  function TupleBytes(t: Tuple): seq<Byte> {
    BigEndian(t.ttl, 4) + BigEndian(|t.key|, 2) + t.key + BigEndian(|t.val|, 2) + t.val
  }

  function TupleSize(t: Tuple): (n: nat)
    ensures n == |TupleBytes(t)|
  {
    |t.key| + |t.val| + 4 + 2 * 2
  }

  /** The payload when `out` is written and the tuples from i on are not. */
  function BodyFrom(out: seq<Byte>, tuples: seq<Tuple>, i: nat): seq<Byte>
    requires i <= |tuples|
    decreases |tuples| - i
  {
    if i == |tuples| then out else BodyFrom(out + TupleBytes(tuples[i]), tuples, i + 1)
  }

  /** The number of tuples and then the tuples. */
  function Payload(tuples: seq<Tuple>): seq<Byte> {
    BodyFrom(BigEndian(|tuples|, 2), tuples, 0)
  }

  lemma {:induction false} BodyExtends(out: seq<Byte>, tuples: seq<Tuple>, i: nat)
    requires i <= |tuples|
    ensures out <= BodyFrom(out, tuples, i)
    decreases |tuples| - i
  {
    if i < |tuples| {
      BodyExtends(out + TupleBytes(tuples[i]), tuples, i + 1);
    }
  }

  lemma {:induction false} BodyAfter(head: seq<Byte>, out: seq<Byte>, tuples: seq<Tuple>, i: nat)
    requires i <= |tuples|
    ensures BodyFrom(head + out, tuples, i) == head + BodyFrom(out, tuples, i)
    decreases |tuples| - i
  {
    if i < |tuples| {
      BodyAfter(head, out + TupleBytes(tuples[i]), tuples, i + 1);
      assert head + out + TupleBytes(tuples[i]) == head + (out + TupleBytes(tuples[i]));
    }
  }

  // ---------------------------------------------------------------- packing

  /** "iHsHs" */
  const TUPLE_FORMAT: Key := [105, 72, 115, 72, 115]

  ghost predicate IsTupleFormat(items: seq<Item>) {
    && |items| == 5 && items[0] == Number(4, true) && items[1] == Number(2, false) && items[2] == Chars
    && items[3] == Number(2, false) && items[4] == Chars
  }

  function TupleArgs(t: Tuple): seq<Value> {
    [Int(t.ttl), Int(|t.key|), Str(t.key), Int(|t.val|), Str(t.val)]
  }

  lemma {:induction false} TupleMatches(items: seq<Item>, t: Tuple)
    requires IsTupleFormat(items) && CString(t.key) && CString(t.val)
    ensures Matches(items, 0, TupleArgs(t), 0)
  {
    var args := TupleArgs(t);
    assert Matches(items, 5, args, 5);
    assert Matches(items, 4, args, 4);
    assert Matches(items, 3, args, 3);
    assert Matches(items, 2, args, 2);
    assert Matches(items, 1, args, 1);
  }

  lemma {:induction false} TuplePacked(items: seq<Item>, t: Tuple)
    requires IsTupleFormat(items) && CString(t.key) && CString(t.val)
    ensures Matches(items, 0, TupleArgs(t), 0) && Packed(items, TupleArgs(t)) == TupleBytes(t)
  {
    TupleMatches(items, t);
    var args := TupleArgs(t);
    var a, b, c, d, e := Field(items[0], args[0]), Field(items[1], args[1]), t.key, Field(items[3], args[3]), t.val;
    assert [] + a == a;
    assert PackedFrom([], items, 0, args, 0) == PackedFrom(a, items, 1, args, 1);
    assert PackedFrom(a, items, 1, args, 1) == PackedFrom(a + b, items, 2, args, 2);
    assert PackedFrom(a + b, items, 2, args, 2) == PackedFrom(a + b + c, items, 3, args, 3);
    assert PackedFrom(a + b + c, items, 3, args, 3) == PackedFrom(a + b + c + d, items, 4, args, 4);
    assert PackedFrom(a + b + c + d, items, 4, args, 4) == PackedFrom(a + b + c + d + e, items, 5, args, 5);
  }

  lemma TupleFormat()
    ensures IsTupleFormat(Items(TUPLE_FORMAT))
  {
    ItemAt(TUPLE_FORMAT, 0);
    ItemAt(TUPLE_FORMAT, 1);
    ItemAt(TUPLE_FORMAT, 2);
    ItemAt(TUPLE_FORMAT, 3);
    ItemAt(TUPLE_FORMAT, 4);
  }

  /** A format of one unsigned field, "B" or "H". */
  lemma {:induction false} OnePacked(items: seq<Item>, width: nat, v: int)
    requires |items| == 1 && items[0] == Number(width, false)
    ensures Matches(items, 0, [Int(v)], 0) && Packed(items, [Int(v)]) == BigEndian(v, width)
  {
    assert Matches(items, 1, [Int(v)], 1);
    var field := BigEndian(v, width);
    assert [] + field == field;
    assert PackedFrom([], items, 0, [Int(v)], 0) == PackedFrom(field, items, 1, [Int(v)], 1);
  }

  /** The first loop of the packers: the length of the payload. */
  method PayloadLength(tuples: seq<Tuple>) returns (length: nat)
    ensures length == |Payload(tuples)|
  {
    length := 2;
    ghost var out := BigEndian(|tuples|, 2);
    var i := 0;
    while i < |tuples|
      invariant 0 <= i <= |tuples| && length == |out| && BodyFrom(out, tuples, i) == Payload(tuples)
    {
      out, length, i := out + TupleBytes(tuples[i]), length + TupleSize(tuples[i]), i + 1;
    }
  }

  /** pack with the format "B" or "H". */
  method PackOne(raw: array<Byte>, at: nat, c: Chr, v: nat)
    requires ItemOf(c).Number? && !ItemOf(c).signed && at + ItemOf(c).width <= raw.Length
    modifies raw
    ensures raw[..] == Written(old(raw[..]), at, BigEndian(v, ItemOf(c).width))
  {
    ItemAt([c], 0);
    OnePacked(Items([c]), ItemOf(c).width, v);
    var _ := Pack.Pack(raw, at, [c], [Int(v)]);
  }

  /** The header byte and the length of the payload; tells how many bytes the length took. */
  method PackStart(raw: array<Byte>, header: Byte, length: nat) returns (steps: nat)
    requires 1 + |Encoded(length)| <= raw.Length
    modifies raw
    ensures steps == |Encoded(length)|
    ensures raw[..] == Written(old(raw[..]), 0, [header] + Encoded(length))
  {
    ghost var was := raw[..];
    PackOne(raw, 0, 66, header);
    assert BigEndian(header, 1) == [header];
    WrittenMore(was, 0, [header], Encoded(length));
    steps := EncodeLength(raw, 1, length);
  }

  /** The header byte, the length of the payload and the number of tuples; tells how many bytes the length took. */
  method PackHead(raw: array<Byte>, header: Byte, length: nat, count: nat) returns (steps: nat)
    requires 1 + |Encoded(length)| + 2 <= raw.Length
    modifies raw
    ensures steps == |Encoded(length)|
    ensures raw[..] == Written(old(raw[..]), 0, [header] + Encoded(length) + BigEndian(count, 2))
  {
    ghost var was := raw[..];
    steps := PackStart(raw, header, length);
    WrittenMore(was, 0, [header] + Encoded(length), BigEndian(count, 2));
    PackOne(raw, 1 + steps, 72, count);
  }

  /** pack with the format "iHsHs". */
  method PackTuple(raw: array<Byte>, at: nat, t: Tuple)
    requires t.Valid() && at + |TupleBytes(t)| <= raw.Length
    modifies raw
    ensures raw[..] == Written(old(raw[..]), at, TupleBytes(t))
  {
    TupleFormat();
    TuplePacked(Items(TUPLE_FORMAT), t);
    var _ := Pack.Pack(raw, at, TUPLE_FORMAT, TupleArgs(t));
  }

  /** The second loop of the packers, from the offset p on; `out` is what has been written before it. */
  method PackBody(raw: array<Byte>, p: nat, tuples: seq<Tuple>, ghost was: seq<Byte>, ghost out: seq<Byte>)
    requires AllValid(tuples) && p == |out| && |BodyFrom(out, tuples, 0)| <= |was|
    requires |out| <= |was| && raw[..] == Written(was, 0, out)
    modifies raw
    ensures raw[..] == Written(was, 0, BodyFrom(out, tuples, 0))
  {
    var pos, i := 0, 0;
    ghost var done := out;
    while i < |tuples|
      invariant 0 <= i <= |tuples| && 0 <= pos && p + pos == |done| <= |was|
      invariant BodyFrom(done, tuples, i) == BodyFrom(out, tuples, 0)
      invariant raw[..] == Written(was, 0, done)
    {
      var at, next := p + pos, i + 1;
      ghost var more := done + TupleBytes(tuples[i]);
      BodyExtends(more, tuples, next);
      WrittenNext(was, done, at, TupleBytes(tuples[i]));
      PackTuple(raw, at, tuples[i]);
      pos, i, done := pos + TupleSize(tuples[i]), next, more;
    }
  }

  lemma WrittenNext(was: seq<Byte>, done: seq<Byte>, at: nat, more: seq<Byte>)
    requires at == |done| && |done + more| <= |was|
    ensures Written(Written(was, 0, done), at, more) == Written(was, 0, done + more)
  {
    WrittenMore(was, 0, done, more);
  }

  /** A header byte, the length of the payload, the payload. */
  function Message(header: Byte, payload: seq<Byte>): seq<Byte> {
    [header] + Encoded(|payload|) + payload
  }

  /** pack_response_get for a prefix, and pack_response_join: the payload takes exactly the length that was computed
      and encoded before it was written. */
  method PackTuples(header: Byte, tuples: seq<Tuple>) returns (raw: array<Byte>)
    requires |tuples| < 0x1_0000 && AllValid(tuples)
    ensures fresh(raw) && raw[..] == Message(header, Payload(tuples))
  {
    var length := PayloadLength(tuples);
    raw := new Byte[1 + |Encoded(length)| + length];
    ghost var was, head := raw[..], [header] + Encoded(length);
    BodyExtends(BigEndian(|tuples|, 2), tuples, 0);
    BodyAfter(head, BigEndian(|tuples|, 2), tuples, 0);
    var steps := PackHead(raw, header, length, |tuples|);
    PackBody(raw, 3 + steps, tuples, was, head + BigEndian(|tuples|, 2));
  }

  /** pack with the format "iHss". */
  method PackEntry(raw: array<Byte>, at: nat, t: Tuple)
    requires t.Valid() && at + |EntryBytes(t)| <= raw.Length
    modifies raw
    ensures raw[..] == Written(old(raw[..]), at, EntryBytes(t))
  {
    PutFormat();
    PutMatches(Items(PUT_FORMAT), Put(t.ttl, t.key, t.val));
    var _ := Pack.Pack(raw, at, PUT_FORMAT, PutArgs(Put(t.ttl, t.key, t.val)));
  }

  /** The payload of a single reply is laid out as a PUT request. */
  function EntryBytes(t: Tuple): seq<Byte> {
    PutBytes(Put(t.ttl, t.key, t.val))
  }

  /** pack_response_get for a single key. */
  method PackValue(header: Byte, t: Tuple) returns (raw: array<Byte>)
    requires t.Valid()
    ensures fresh(raw) && raw[..] == Message(header, EntryBytes(t))
  {
    var length := |t.key| + |t.val| + 4 + 2;
    raw := new Byte[1 + |Encoded(length)| + length];
    ghost var was := raw[..];
    ghost var head := [header] + Encoded(length);
    var steps := PackStart(raw, header, length);
    var at := 1 + steps;
    WrittenNext(was, head, at, EntryBytes(t));
    PackEntry(raw, at, t);
  }

  // ---------------------------------------------------------------- reading

  /** Reads the tuple in s at the offset `at`, and tells where it ends; none when the bytes run out. */
  function ReadOne(s: seq<Byte>, at: nat): (r: Option<(Tuple, nat)>)
    requires at <= |s|
    ensures r.Some? ==> at < r.value.1 <= |s|
  {
    if at + 6 > |s| then None
    else
      var k := at + 6 + FromBig(s[at + 4..at + 6]);
      if k + 2 > |s| then None
      else
        var e := k + 2 + FromBig(s[k..k + 2]);
        if e > |s| then None else Some((Tuple(Decode(true, s[at..at + 4]), s[at + 6..k], s[k + 2..e]), e))
  }

  /** Reads n tuples. */
  function ReadTuples(tuples: seq<Tuple>, s: seq<Byte>, at: nat, n: nat): Option<(seq<Tuple>, nat)>
    requires at <= |s|
    decreases n
  {
    if n == 0 then Some((tuples, at))
    else match ReadOne(s, at)
      case None => None
      case Some((t, e)) => ReadTuples(tuples + [t], s, e, n - 1)
  }

  /** Where the parts of a tuple lie in the bytes s. */
  lemma {:induction false} TupleParts(out: seq<Byte>, t: Tuple, s: seq<Byte>)
    requires out + TupleBytes(t) <= s
    ensures var at := |out|; var k := at + 6 + |t.key|;
      && k + 2 + |t.val| <= |s| && s[at..at + 4] == BigEndian(t.ttl, 4) && s[at + 4..at + 6] == BigEndian(|t.key|, 2)
      && s[at + 6..k] == t.key && s[k..k + 2] == BigEndian(|t.val|, 2) && s[k + 2..k + 2 + |t.val|] == t.val
  {
    var a, b, c, d, e := BigEndian(t.ttl, 4), BigEndian(|t.key|, 2), t.key, BigEndian(|t.val|, 2), t.val;
    assert out + TupleBytes(t) == out + a + b + c + d + e;
    FieldFound(out, a, s);
    FieldFound(out + a, b, s);
    FieldFound(out + a + b, c, s);
    FieldFound(out + a + b + c, d, s);
    FieldFound(out + a + b + c + d, e, s);
  }

  lemma {:induction false} TupleRead(out: seq<Byte>, t: Tuple, s: seq<Byte>, end: nat)
    requires t.Sendable() && out + TupleBytes(t) <= s && end == |out| + |TupleBytes(t)|
    ensures ReadOne(s, |out|) == Some((t, end))
  {
    TupleParts(out, t, s);
    Bases();
    FieldRoundTrip(4, true, t.ttl);
    FieldRoundTrip(2, false, |t.key|);
    FieldRoundTrip(2, false, |t.val|);
  }

  /** A tuple with a field beyond its width is not read back: either the bytes run out or another tuple is read. */
  lemma {:induction false} TupleGarbled(out: seq<Byte>, t: Tuple, s: seq<Byte>)
    requires t.Valid() && !t.Sendable() && out + TupleBytes(t) <= s
    ensures var r := ReadOne(s, |out|); r.Some? ==> r.value.0 != t
  {
    TupleParts(out, t, s);
    Bases();
    FieldRoundTrip(4, true, t.ttl);
    FieldRoundTrip(2, false, |t.key|);
    FieldRoundTrip(2, false, |t.val|);
  }

  /** A tuple starts as a request without a value would: with the ttl, the length of the key and the key. */
  lemma {:induction false} TupleStarts(t: Tuple)
    requires t.Valid()
    ensures var n := 6 + |t.key|;
      && n <= |TupleBytes(t)| && HoldsPut(TupleBytes(t)[..n], n)
      && (ReadPut(TupleBytes(t)[..n], n) == Put(t.ttl, t.key, []) <==> -0x8000_0000 <= t.ttl < 0x8000_0000)
  {
    var n, put := 6 + |t.key|, Put(t.ttl, t.key, []);
    assert TupleBytes(t)[..n] == PutBytes(put);
    assert PutBytes(put) + [] == PutBytes(put);
    PutRoundTrip(put, []);
  }

  lemma TakeMore(tuples: seq<Tuple>, i: nat)
    requires i < |tuples|
    ensures tuples[..i] + [tuples[i]] == tuples[..i + 1]
  {
  }

  /** The tuples that were packed are the tuples that are read, and nothing is left of the payload. */
  lemma {:induction false} BodyRead(out: seq<Byte>, tuples: seq<Tuple>, i: nat, n: nat, s: seq<Byte>)
    requires i + n == |tuples| && AllSendable(tuples) && BodyFrom(out, tuples, i) <= s
    ensures |out| <= |s|
    ensures ReadTuples(tuples[..i], s, |out|, n) == Some((tuples, |BodyFrom(out, tuples, i)|))
    decreases n
  {
    if n == 0 {
      assert tuples[..i] == tuples;
    } else {
      var next := out + TupleBytes(tuples[i]);
      BodyExtends(next, tuples, i + 1);
      BodyRead(next, tuples, i + 1, n - 1, s);
      TakeMore(tuples, i);
      TupleRead(out, tuples[i], s, |next|);
    }
  }

  lemma {:induction false} ReadExtends(ts: seq<Tuple>, s: seq<Byte>, at: nat, n: nat)
    requires at <= |s|
    ensures var r := ReadTuples(ts, s, at, n); r.Some? ==> ts <= r.value.0
    decreases n
  {
    if n > 0 && ReadOne(s, at).Some? {
      var (t, e) := ReadOne(s, at).value;
      ReadExtends(ts + [t], s, e, n - 1);
    }
  }

  /** What is read first stays first. */
  lemma {:induction false} ReadFirst(ts: seq<Tuple>, s: seq<Byte>, at: nat, n: nat)
    requires at <= |s| && n > 0 && ReadOne(s, at).Some?
    ensures var r := ReadTuples(ts, s, at, n);
      r.Some? ==> |r.value.0| > |ts| && r.value.0[|ts|] == ReadOne(s, at).value.0
  {
    var (t, e) := ReadOne(s, at).value;
    ReadExtends(ts + [t], s, e, n - 1);
    assert (ts + [t])[|ts|] == t;
  }

  /** With such a tuple among them, the tuples are not what is read. */
  lemma {:induction false} BodyGarbled(out: seq<Byte>, tuples: seq<Tuple>, i: nat, j: nat, n: nat, s: seq<Byte>)
    requires i + n == |tuples| && i <= j < |tuples| && AllValid(tuples) && !tuples[j].Sendable()
    requires BodyFrom(out, tuples, i) <= s
    ensures |out| <= |s|
    ensures var r := ReadTuples(tuples[..i], s, |out|, n); r.Some? ==> r.value.0 != tuples
    decreases n
  {
    var next := out + TupleBytes(tuples[i]);
    BodyExtends(next, tuples, i + 1);
    if tuples[i].Sendable() {
      BodyGarbled(next, tuples, i + 1, j, n - 1, s);
      TakeMore(tuples, i);
      TupleRead(out, tuples[i], s, |next|);
    } else {
      TupleGarbled(out, tuples[i], s);
      if ReadOne(s, |out|).Some? {
        ReadFirst(tuples[..i], s, |out|, n);
      }
    }
  }

  lemma CountRead(tuples: seq<Tuple>)
    requires |tuples| < 0x1_0000
    ensures |Payload(tuples)| >= 2 && FromBig(Payload(tuples)[..2]) == |tuples|
  {
    Bases();
    FieldRoundTrip(2, false, |tuples|);
    BodyExtends(BigEndian(|tuples|, 2), tuples, 0);
    assert Payload(tuples)[..2] == BigEndian(|tuples|, 2);
  }

  /** Behind the header byte the length field reads as the length of the payload and ends where the payload begins,
      exactly when that length is below 128^4; the payload then yields its number of tuples and, exactly when every
      field fits its width, the tuples. */
  lemma MessageRead(header: Byte, tuples: seq<Tuple>)
    requires |tuples| < 0x1_0000 && AllValid(tuples)
    ensures var m, p := Message(header, Payload(tuples)), Payload(tuples);
      && m[0] == header
      && (|p| < LENGTH_LIMIT ==> Terminated(m[1..]))
      && (Terminated(m[1..]) ==> (Decoded(m[1..], 1, 0) == (|p|, |Encoded(|p|)|) <==> |p| < LENGTH_LIMIT))
      && m[1 + |Encoded(|p|)|..] == p
      && |p| >= 2 && FromBig(p[..2]) == |tuples|
      && (ReadTuples([], p, 2, |tuples|) == Some((tuples, |p|)) <==> AllSendable(tuples))
  {
    var m, p := Message(header, Payload(tuples)), Payload(tuples);
    assert m[1..] == Encoded(|p|) + p;
    LengthRoundTrip(|p|, p);
    BodyExtends(BigEndian(|tuples|, 2), tuples, 0);
    CountRead(tuples);
    assert tuples[..0] == [];
    if AllSendable(tuples) {
      BodyRead(BigEndian(|tuples|, 2), tuples, 0, |tuples|, p);
    } else {
      var j :| 0 <= j < |tuples| && !tuples[j].Sendable();
      BodyGarbled(BigEndian(|tuples|, 2), tuples, 0, j, |tuples|, p);
    }
  }

  /** So with the response for a single key: its payload yields the ttl, the key and the value exactly when the ttl is a
      32-bit number and the length of the value an unsigned one. */
  lemma ValueRead(header: Byte, t: Tuple)
    requires t.Valid()
    ensures var m, p := Message(header, EntryBytes(t)), EntryBytes(t);
      && m[0] == header
      && (|p| < LENGTH_LIMIT ==> Terminated(m[1..]))
      && (Terminated(m[1..]) ==> (Decoded(m[1..], 1, 0) == (|p|, |Encoded(|p|)|) <==> |p| < LENGTH_LIMIT))
      && m[1 + |Encoded(|p|)|..] == p && HoldsPut(p, |p|)
      && (ReadPut(p, |p|) == Put(t.ttl, t.key, t.val) <==>
            -0x8000_0000 <= t.ttl < 0x8000_0000 && |t.val| < 0x1_0000_0000)
  {
    var m, p := Message(header, EntryBytes(t)), EntryBytes(t);
    assert m[1..] == Encoded(|p|) + p;
    LengthRoundTrip(|p|, p);
    PutRoundTrip(Put(t.ttl, t.key, t.val), []);
    assert p + [] == p;
  }

  /** The source allocates two bytes more than the payload takes, which is enough exactly for the payloads whose length
      is encoded in one byte. */
  lemma AllocationSuffices(header: Byte, payload: seq<Byte>)
    ensures |Message(header, payload)| <= |payload| + 2 <==> |payload| < 128
  {
  }
}
