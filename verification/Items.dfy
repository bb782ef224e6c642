/** The record a trie node points to (struct db_item, src/db.h) and what the prefix commands of src/db.c do
    to it in place. */
module Items {
  import opened Bytes
  import opened Decimal

  datatype Record = Record(ttl: int, data: Key, ctime: int, lstime: int)

  /** What a trie binds. */
  type Bindings = map<Key, DbItem>

  /** The prefix commands: INC and DEC, PUT with its value and ttl, TTL. */
  datatype Update = Inc | Dec | Set(val: Key, ttl: int) | Expire(ttl: int)

  ghost function Applied(u: Update, r: Record, now: int): Record {
    match u
    case Inc => if IsInteger(r.data) then r.(data := Bumped(r.data, 1), lstime := now) else r
    case Dec => if IsInteger(r.data) then r.(data := Bumped(r.data, -1), lstime := now) else r
    case Set(val, ttl) => r.(data := val, ttl := ttl, lstime := now)
    case Expire(ttl) => r.(ttl := ttl, lstime := now)
  }

  /** What INC (or DEC) does to a record: a text that is not all digits stays, any other becomes the text of the number
      it stands for plus (or minus) one, as a 32-bit number. */
  ghost predicate Counted(r: Record, r': Record, step: int, now: int) {
    && r'.ttl == r.ttl && r'.ctime == r.ctime
    && (!IsInteger(r.data) ==> r' == r)
    && (IsInteger(r.data) ==>
          && r'.lstime == now
          && var n := Number(r.data) + step;
             forall w {:trigger Text(w)} ::
               -0x8000_0000 <= w < 0x8000_0000 && (w - n) % 0x1_0000_0000 == 0 ==> r'.data == Text(w))
  }

  /** What a prefix command does to a record. */
  ghost predicate Meets(u: Update, r: Record, r': Record, now: int) {
    match u
    case Inc => Counted(r, r', 1, now)
    case Dec => Counted(r, r', -1, now)
    case Set(val, ttl) => r'.data == val && r'.ttl == ttl && r'.lstime == now && r'.ctime == r.ctime
    case Expire(ttl) => r'.ttl == ttl && r'.lstime == now && r'.data == r.data && r'.ctime == r.ctime
  }

  lemma CountedRight(r: Record, step: int, now: int)
    requires IsInteger(r.data)
    ensures Counted(r, r.(data := Bumped(r.data, step), lstime := now), step, now)
  {
    var n := Number(r.data);
    WrapTwice(n, step);
    forall w | -0x8000_0000 <= w < 0x8000_0000 && (w - (n + step)) % 0x1_0000_0000 == 0
      ensures Bumped(r.data, step) == Text(w)
    {
      WrapIs(n + step, w);
    }
  }

  lemma AppliedMeets(u: Update, r: Record, now: int)
    ensures Meets(u, r, Applied(u, r, now), now)
  {
    if (u.Inc? || u.Dec?) && IsInteger(r.data) {
      CountedRight(r, if u.Inc? then 1 else -1, now);
    }
  }

  /** Counting a canonical decimal within the range of an int gives the next or the previous one. */
  lemma {:induction false} CountsOn(u: Update, r: Record, r': Record, now: int, n: nat)
    requires Meets(u, r, r', now) && r.data == Digits(n) && n <= INT_MAX
    ensures u.Inc? && n < INT_MAX ==> r'.data == Digits(n + 1)
    ensures u.Dec? && n > 0 ==> r'.data == Digits(n - 1)
    ensures u.Dec? && n == 0 ==> r'.data == [45, 49]
  {
    DigitsRead(n);
    var m := if u.Inc? then n + 1 else n - 1;
    assert Text(m) == if m < 0 then [45] + Digits(1) else Digits(m);
  }

  class DbItem {
    var ttl: int
    var data: Key
    var ctime: int
    var lstime: int

    constructor (data: Key, ttl: int, now: int)
      ensures Value() == Record(ttl, data, now, now)
    {
      this.data, this.ttl, ctime, lstime := data, ttl, now, now;
    }

    ghost function Value(): Record
      reads this
    {
      Record(ttl, data, ctime, lstime)
    }

    /** The body of trie_node_integer_mod, trie_node_prefix_set and trie_node_prefix_ttl for one item. */
    method Touch(u: Update, now: int)
      modifies this
      ensures Value() == Applied(u, old(Value()), now) && Meets(u, old(Value()), Value(), now)
    {
      AppliedMeets(u, Value(), now);
      match u
      case Set(val, t) =>
        data, ttl, lstime := val, t, now;
      case Expire(t) =>
        ttl, lstime := t, now;
      case _ =>
        if IsInteger(data) {
          var n := ParseWhole(data);
          data := Text(Wrap(if u.Inc? then n + 1 else n - 1));
          lstime := now;
        }
    }
  }
}
