/**
 The response cache with expiry (HTTP-server-cpp/src/cache.cpp), with the clock reading
 as an argument.  Expired entries are erased lazily by `get` and in bulk by `cleanup`.
 */
module TtlCache {
  import opened Wrappers

  const NOT_FOUND := "Not Founded"

  datatype Entry = Entry(value: string, expiresAt: int)

  type Data = map<string, Entry>

  predicate Alive(e: Entry, now: int) { now < e.expiresAt }

  /** The answer of a lookup in `data` at time `now`. */
  function Answer(data: Data, key: string, now: int): string {
    if key in data && Alive(data[key], now) then data[key].value else NOT_FOUND
  }

  function AfterGet(data: Data, key: string, now: int): Data {
    if key in data && !Alive(data[key], now) then data - {key} else data
  }

  function AfterCleanup(data: Data, now: int): Data {
    map k | k in data && Alive(data[k], now) :: data[k]
  }

  datatype Op = Put(key: string, value: string, ttl: int) | Get(key: string) | Cleanup

  /** An operation and the clock reading it makes. */
  datatype Timed = At(now: int, op: Op)

  function AfterOp(data: Data, t: Timed): Data {
    match t.op
    case Put(k, v, ttl) => data[k := Entry(v, t.now + ttl)]
    case Get(k) => AfterGet(data, k, t.now)
    case Cleanup => AfterCleanup(data, t.now)
  }

  /** What the lookups of a sequence of operations answer. */
  function Answers(data: Data, ops: seq<Timed>): seq<string>
    decreases |ops|
  {
    if ops == [] then []
    else (if ops[0].op.Get? then [Answer(data, ops[0].op.key, ops[0].now)] else [])
         + Answers(AfterOp(data, ops[0]), ops[1..])
  }

  // ---------- The reference: remember the last put of each key for ever ----------

  function LastPuts(puts: Data, t: Timed): Data {
    match t.op
    case Put(k, v, ttl) => puts[k := Entry(v, t.now + ttl)]
    case _ => puts
  }

  function ReferenceAnswers(puts: Data, ops: seq<Timed>): seq<string>
    decreases |ops|
  {
    if ops == [] then []
    else (if ops[0].op.Get? then [Answer(puts, ops[0].op.key, ops[0].now)] else [])
         + ReferenceAnswers(LastPuts(puts, ops[0]), ops[1..])
  }

  ghost predicate ClockFrom(now: int, ops: seq<Timed>)
    decreases |ops|
  {
    ops != [] ==> now <= ops[0].now && ClockFrom(ops[0].now, ops[1..])
  }

  /** The cache lacks a put only when that put has expired. */
  ghost predicate Covers(data: Data, puts: Data, now: int) {
    && (forall k | k in data :: k in puts && data[k] == puts[k])
    && (forall k | k in puts && k !in data :: !Alive(puts[k], now))
  }

  /** Under a clock that does not go back, every lookup in every sequence of operations answers as if nothing
      were ever erased: the last value put, until that put expires. */
  lemma {:induction false} ErasureUnobservable(data: Data, puts: Data, now: int, ops: seq<Timed>)
    requires Covers(data, puts, now) && ClockFrom(now, ops)
    ensures Answers(data, ops) == ReferenceAnswers(puts, ops)
    decreases |ops|
  {
    if ops != [] {
      ErasureUnobservable(AfterOp(data, ops[0]), LastPuts(puts, ops[0]), ops[0].now, ops[1..]);
    }
  }

  /** What the reference remembers of a key: its last put. */
  function LastPut(ops: seq<Timed>, key: string): Data {
    if ops == [] then map[]
    else
      var t := ops[|ops| - 1];
      if t.op.Put? && t.op.key == key then map[key := Entry(t.op.value, t.now + t.op.ttl)]
      else LastPut(ops[..|ops| - 1], key)
  }

  lemma {:induction false} AnswersConcat(data: Data, a: seq<Timed>, t: Timed)
    ensures ReferenceAnswers(data, a + [t]) ==
            ReferenceAnswers(data, a) +
            if t.op.Get? then [Answer(Remembered(data, a), t.op.key, t.now)] else []
    decreases |a|
  {
    if a == [] {
      assert a + [t] == [t];
      assert ReferenceAnswers(LastPuts(data, t), [t][1..]) == [];
    } else {
      assert (a + [t])[1..] == a[1..] + [t];
      AnswersConcat(LastPuts(data, a[0]), a[1..], t);
    }
  }

  function Remembered(puts: Data, ops: seq<Timed>): Data
    decreases |ops|
  {
    if ops == [] then puts else Remembered(LastPuts(puts, ops[0]), ops[1..])
  }

  lemma {:induction false} RememberedSnoc(puts: Data, ops: seq<Timed>, t: Timed)
    ensures Remembered(puts, ops + [t]) == LastPuts(Remembered(puts, ops), t)
    decreases |ops|
  {
    if ops == [] {
      assert ops + [t] == [t];
      assert Remembered(LastPuts(puts, t), [t][1..]) == LastPuts(puts, t);
    } else {
      assert (ops + [t])[1..] == ops[1..] + [t];
      RememberedSnoc(LastPuts(puts, ops[0]), ops[1..], t);
    }
  }

  lemma {:induction false} RememberedIsLastPut(ops: seq<Timed>, key: string)
    ensures var last := LastPut(ops, key);
            (key in Remembered(map[], ops) <==> key in last)
            && (key in last ==> Remembered(map[], ops)[key] == last[key])
    decreases |ops|
  {
    if ops != [] {
      var init, t := ops[..|ops| - 1], ops[|ops| - 1];
      assert init + [t] == ops;
      RememberedSnoc(map[], init, t);
      RememberedIsLastPut(init, key);
    }
  }

  /** From an empty cache: a lookup of `key` at `now` after `ops` answers the value of the last put of `key`
      if `now` is before the expiry of that put, and the sentinel otherwise. */
  lemma GetReturnsLastPut(ops: seq<Timed>, key: string, now: int)
    requires ops != [] ==> ClockFrom(ops[0].now, ops + [At(now, Get(key))])
    ensures var all := Answers(map[], ops + [At(now, Get(key))]);
            all != [] && all[|all| - 1] == Answer(LastPut(ops, key), key, now)
  {
    var t := At(now, Get(key));
    var all := ops + [t];
    ErasureUnobservable(map[], map[], all[0].now, all);
    AnswersConcat(map[], ops, t);
    RememberedIsLastPut(ops, key);
  }

  /** Never before did the clock show more. */
  ghost predicate Monotone(ops: seq<Timed>) {
    forall i, j | 0 <= i < j < |ops| :: ops[i].now <= ops[j].now
  }

  lemma {:induction false} MonotoneIsClock(now: int, ops: seq<Timed>)
    requires Monotone(ops) && (ops != [] ==> now <= ops[0].now)
    ensures ClockFrom(now, ops)
    decreases |ops|
  {
    if ops != [] {
      assert forall i, j | 0 <= i < j < |ops[1..]| :: ops[1..][i] == ops[i + 1] && ops[1..][j] == ops[j + 1];
      MonotoneIsClock(ops[0].now, ops[1..]);
    }
  }

  /** The last put of a key is the one at `i`. */
  ghost predicate LastPutAt(ops: seq<Timed>, key: string, i: nat) {
    && i < |ops| && ops[i].op.Put? && ops[i].op.key == key
    && forall j | i < j < |ops| :: !(ops[j].op.Put? && ops[j].op.key == key)
  }

  lemma {:induction false} LastPutIs(ops: seq<Timed>, key: string, i: nat)
    requires LastPutAt(ops, key, i)
    ensures LastPut(ops, key) == map[key := Entry(ops[i].op.value, ops[i].now + ops[i].op.ttl)]
  {
    if i < |ops| - 1 { LastPutIs(ops[..|ops| - 1], key, i); }
  }

  lemma {:induction false} NoPut(ops: seq<Timed>, key: string)
    requires forall j | 0 <= j < |ops| :: !(ops[j].op.Put? && ops[j].op.key == key)
    ensures LastPut(ops, key) == map[]
  {
    if ops != [] { NoPut(ops[..|ops| - 1], key); }
  }

  /** The last answer of a sequence that ends with a lookup of `key` at `now`. */
  function LastAnswer(ops: seq<Timed>, key: string, now: int): Option<string> {
    var all := Answers(map[], ops + [At(now, Get(key))]);
    if all == [] then None else Some(all[|all| - 1])
  }

  /** A value put at time t for ttl seconds is found strictly before t + ttl, and not from then on. */
  lemma FoundUntilExpiry(ops: seq<Timed>, key: string, now: int, i: nat)
    requires Monotone(ops + [At(now, Get(key))]) && LastPutAt(ops, key, i)
    ensures LastAnswer(ops, key, now)
            == Some(if now < ops[i].now + ops[i].op.ttl then ops[i].op.value else "Not Founded")
  {
    MonotoneIsClock(ops[0].now, ops + [At(now, Get(key))]);
    GetReturnsLastPut(ops, key, now);
    LastPutIs(ops, key, i);
  }

  /** What was never put is not found. */
  lemma NeverPutNotFound(ops: seq<Timed>, key: string, now: int)
    requires Monotone(ops + [At(now, Get(key))])
    requires forall j | 0 <= j < |ops| :: !(ops[j].op.Put? && ops[j].op.key == key)
    ensures LastAnswer(ops, key, now) == Some("Not Founded")
  {
    var all := ops + [At(now, Get(key))];
    MonotoneIsClock(all[0].now, all);
    GetReturnsLastPut(ops, key, now);
    NoPut(ops, key);
  }

  /** Sweeping leaves exactly the entries that have not expired, and a lookup erases its own key exactly if that has. */
  lemma ErasedIff(data: Data, key: string, now: int)
    ensures var swept := AfterOp(data, At(now, Cleanup));
            && (key in swept <==> key in data && now < data[key].expiresAt)
            && (key in swept ==> swept[key] == data[key])
    ensures var after := AfterOp(data, At(now, Get(key)));
            && (key in after <==> key in data && now < data[key].expiresAt)
            && forall k | k != key :: (k in after <==> k in data) && (k in data ==> after[k] == data[k])
  {
  }

  /** The clock has to be monotone: an entry erased late in the day is missing when the clock goes back. */
  lemma ClockMustNotGoBack()
    ensures var ops := [At(0, Put("k", "v", 10)), At(20, Get("k")), At(5, Get("k"))];
            !ClockFrom(0, ops) && Answers(map[], ops) != ReferenceAnswers(map[], ops)
  {
    var ops := [At(0, Put("k", "v", 10)), At(20, Get("k")), At(5, Get("k"))];
    var entry: Data := map["k" := Entry("v", 10)];
    assert ops[1..] == [ops[1], ops[2]] && ops[1..][1..] == [ops[2]];
    assert !ClockFrom(20, [ops[2]]);
    assert AfterOp(map[], ops[0]) == entry && AfterOp(entry, ops[1]) == map[];
    assert Answers(map[], ops) == [NOT_FOUND, NOT_FOUND];
    assert ReferenceAnswers(map[], ops) == [NOT_FOUND, "v"];
    assert |NOT_FOUND| != |"v"|;
    assert Answers(map[], ops)[1] != ReferenceAnswers(map[], ops)[1];
  }

  class Cache {
    var data: Data

    constructor ()
      ensures data == map[]
    {
      data := map[];
    }

    method Put(key: string, value: string, ttl: int, now: int)
      modifies this
      ensures data == AfterOp(old(data), At(now, Op.Put(key, value, ttl)))
    {
      data := data[key := Entry(value, now + ttl)];
    }

    method Get(key: string, now: int) returns (value: string)
      modifies this
      ensures value == Answer(old(data), key, now)
      ensures data == AfterOp(old(data), At(now, Op.Get(key)))
    {
      value := NOT_FOUND;
      if key in data {
        if now < data[key].expiresAt {
          return data[key].value;
        }
        data := data - {key};
      }
    }

    /** Visits every entry once, in no particular order, and erases the expired ones. */
    method Cleanup(now: int)
      modifies this
      ensures data == AfterOp(old(data), At(now, Op.Cleanup))
    {
      var unvisited := data.Keys;
      while unvisited != {}
        invariant unvisited <= data.Keys <= old(data).Keys
        invariant forall k | k in data :: data[k] == old(data)[k]
        invariant forall k | k in old(data) && k !in unvisited :: k in data <==> Alive(old(data)[k], now)
        decreases |unvisited|
      {
        var k :| k in unvisited;
        unvisited := unvisited - {k};
        if now >= data[k].expiresAt {
          data := data - {k};
        }
      }
    }
  }
}
