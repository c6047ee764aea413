/**
  The key-value store behind counters, locks and caches: values that expire, under
  a clock given in seconds with each call.  Expired entries stay in the map and are
  only hidden; `SweepIsInvisible` shows that nobody can tell.
 */
module TimedStore {
  import opened Optional

  /** A counter, or a stored document. */
  datatype Cell<T> = Num(count: nat) | Doc(value: T)

  datatype Entry<T> = Entry(cell: Cell<T>, expiresAt: Option<int>)

  type Data<K(==), T> = map<K, Entry<T>>

  predicate Alive<T>(e: Entry<T>, now: int)
  {
    e.expiresAt.None? || now < e.expiresAt.value
  }

  function Find<K, T>(d: Data<K, T>, key: K, now: int): (e: Option<Entry<T>>)
    ensures e.Some? <==> key in d && Alive(d[key], now)
    ensures e.Some? ==> e.value == d[key]
  {
    if key in d && Alive(d[key], now) then Some(d[key]) else None
  }

  /** A time to live of zero is no time to live. */
  function Expiry(ttl: nat, now: int): (at: Option<int>)
  {
    if ttl == 0 then None else Some(now + ttl)
  }

  function Put<K, T>(d: Data<K, T>, key: K, value: T, ttl: nat, now: int): (d': Data<K, T>)
  {
    d[key := Entry(Doc(value), Expiry(ttl, now))]
  }

  function Del<K, T>(d: Data<K, T>, key: K): (d': Data<K, T>)
  {
    d - {key}
  }

  /** The entry after an increment; a count of one starts the window. */
  function Counted<T>(e: Option<Entry<T>>, ttl: nat, now: int): (r: (Entry<T>, nat))
    requires e.Some? ==> e.value.cell.Num?
  {
    var count := if e.Some? then e.value.cell.count + 1 else 1;
    var kept := if e.Some? then e.value.expiresAt else None;
    (Entry(Num(count), if count == 1 && ttl != 0 then Some(now + ttl) else kept), count)
  }

  /** Incrementing a document is an error of the server, which the service answers with 1. */
  function Incr<K, T>(d: Data<K, T>, key: K, ttl: nat, now: int): (r: (Data<K, T>, nat))
  {
    var e := Find(d, key, now);
    if e.Some? && e.value.cell.Doc? then (d, 1)
    else
      var (e', count) := Counted(e, ttl, now);
      (d[key := e'], count)
  }

  function Expire<K, T>(d: Data<K, T>, key: K, seconds: nat, now: int): (d': Data<K, T>)
  {
    var e := Find(d, key, now);
    if e.None? then d
    else if seconds == 0 then Del(d, key)
    else d[key := e.value.(expiresAt := Some(now + seconds))]
  }

  /** -2 for a missing key, -1 for one that never expires. */
  function Ttl<K, T>(d: Data<K, T>, key: K, now: int): (seconds: int)
    ensures seconds > 0 <==> key in d && d[key].expiresAt.Some? && now < d[key].expiresAt.value
    ensures seconds > 0 ==> seconds == d[key].expiresAt.value - now
  {
    var e := Find(d, key, now);
    if e.None? then -2 else if e.value.expiresAt.None? then -1 else e.value.expiresAt.value - now
  }

  // ------------------------------------------------------------------ expiry is hidden removal

  /** The store with everything expired at `now` removed. */
  function Sweep<K, T>(d: Data<K, T>, now: int): (d': Data<K, T>)
  {
    map key | key in d && Alive(d[key], now) :: d[key]
  }

  datatype Command<K, T> =
    | DoPut(key: K, value: T, ttl: nat)
    | DoDel(key: K)
    | DoIncr(key: K, ttl: nat)
    | DoExpire(key: K, ttl: nat)
    | DoGet(key: K)
    | DoTtl(key: K)

  datatype Reply<T> = Done | Number(n: int) | Read(cell: Option<Cell<T>>)

  function Serve<K, T>(d: Data<K, T>, c: Command<K, T>, now: int): (r: (Data<K, T>, Reply<T>))
  {
    match c
    case DoPut(key, value, ttl) => (Put(d, key, value, ttl, now), Done)
    case DoDel(key) => (Del(d, key), Done)
    case DoIncr(key, ttl) => (Incr(d, key, ttl, now).0, Number(Incr(d, key, ttl, now).1))
    case DoExpire(key, ttl) => (Expire(d, key, ttl, now), Done)
    case DoGet(key) => (d, Read(if Find(d, key, now).Some? then Some(Find(d, key, now).value.cell) else None))
    case DoTtl(key) => (d, Number(Ttl(d, key, now)))
  }

  /** Commands at given times; the clock does not go back. */
  datatype Timed<K, T> = At(now: int, command: Command<K, T>)

  predicate Ordered<K, T>(start: int, cs: seq<Timed<K, T>>)
  {
    && (forall i :: 0 <= i < |cs| ==> start <= cs[i].now)
    && forall i, j :: 0 <= i < j < |cs| ==> cs[i].now <= cs[j].now
  }

  function Replies<K, T>(d: Data<K, T>, cs: seq<Timed<K, T>>): (r: seq<Reply<T>>)
    decreases |cs|
  {
    if cs == [] then []
    else
      var (d', reply) := Serve(d, cs[0].command, cs[0].now);
      [reply] + Replies(d', cs[1..])
  }

  /** The two stores have the same live entries from `now` on. */
  ghost predicate Alike<K(!new), T(!new)>(a: Data<K, T>, b: Data<K, T>, now: int)
  {
    forall key: K :: Find(a, key, now) == Find(b, key, now)
  }

  lemma AlikeLater<K(!new), T(!new)>(a: Data<K, T>, b: Data<K, T>, now: int, later: int)
    requires Alike(a, b, now) && now <= later
    ensures Alike(a, b, later)
  {
    forall key: K
      ensures Find(a, key, later) == Find(b, key, later)
    {
      assert Find(a, key, now) == Find(b, key, now);
    }
  }

  lemma ServedAlike<K(!new), T(!new)>(a: Data<K, T>, b: Data<K, T>, c: Command<K, T>, now: int)
    requires Alike(a, b, now)
    ensures Serve(a, c, now).1 == Serve(b, c, now).1
    ensures Alike(Serve(a, c, now).0, Serve(b, c, now).0, now)
  {
    assert Find(a, c.key, now) == Find(b, c.key, now);
    var a', b' := Serve(a, c, now).0, Serve(b, c, now).0;
    forall key: K
      ensures Find(a', key, now) == Find(b', key, now)
    {
      assert Find(a, key, now) == Find(b, key, now);
    }
  }

  lemma {:induction false} RepliesAlike<K(!new), T(!new)>(a: Data<K, T>, b: Data<K, T>, now: int, cs: seq<Timed<K, T>>)
    requires Alike(a, b, now) && Ordered(now, cs)
    ensures Replies(a, cs) == Replies(b, cs)
    decreases |cs|
  {
    if cs != [] {
      AlikeLater(a, b, now, cs[0].now);
      ServedAlike(a, b, cs[0].command, cs[0].now);
      RepliesAlike(Serve(a, cs[0].command, cs[0].now).0, Serve(b, cs[0].command, cs[0].now).0, cs[0].now, cs[1..]);
    }
  }

  /** A store that removes what has expired answers every later sequence of commands the same. */
  lemma SweepIsInvisible<K(!new), T(!new)>(d: Data<K, T>, now: int, cs: seq<Timed<K, T>>)
    requires Ordered(now, cs)
    ensures Replies(Sweep(d, now), cs) == Replies(d, cs)
  {
    assert Alike(Sweep(d, now), d, now);
    RepliesAlike(Sweep(d, now), d, now, cs);
  }

  // ------------------------------------------------------------------ the service

  // ------------------------------------------------------------------ what the commands do

  /** A value that was set is found until its time to live is over, or for good without one. */
  lemma PutDoes<K, T>(d: Data<K, T>, key: K, value: T, ttl: nat, now: int, k: K, later: int)
    ensures var d' := Put(d, key, value, ttl, now);
      && (Find(d', key, later).Some? <==> ttl == 0 || later < now + ttl)
      && (Find(d', key, later).Some? ==> Find(d', key, later).value.cell == Doc(value))
      && (k != key ==> Find(d', k, later) == Find(d, k, later))
  {
  }

  lemma DelDoes<K, T>(d: Data<K, T>, key: K, k: K, later: int)
    ensures Find(Del(d, key), k, later) == if k == key then None else Find(d, k, later)
  {
  }

  /**
    A counter counts up while it is alive and keeps its window; a missing or expired one
    starts at 1 with a window of its own.
   */
  lemma IncrDoes<K, T>(d: Data<K, T>, key: K, ttl: nat, now: int, k: K, later: int)
    requires Find(d, key, now).Some? ==> Find(d, key, now).value.cell.Num?
    ensures var (d', count) := Incr(d, key, ttl, now);
      && count == (if Find(d, key, now).Some? then Find(d, key, now).value.cell.count + 1 else 1)
      && key in d' && d'[key].cell == Num(count)
      && (count > 1 ==> d'[key].expiresAt == d[key].expiresAt)
      && (Find(d, key, now).None? ==> d'[key].expiresAt == if ttl == 0 then None else Some(now + ttl))
      && (k != key ==> Find(d', k, later) == Find(d, k, later))
  {
  }

  /** Incrementing a document changes nothing and counts as 1. */
  lemma IncrOfDocument<K, T>(d: Data<K, T>, key: K, ttl: nat, now: int)
    requires Find(d, key, now).Some? && Find(d, key, now).value.cell.Doc?
    ensures Incr(d, key, ttl, now) == (d, 1)
  {
  }

  /** The seconds a key has left: -2 when there is no such key, -1 when it never expires. */
  lemma TtlIs<K, T>(d: Data<K, T>, key: K, now: int)
    ensures Ttl(d, key, now) == -2 <==> key !in d || (d[key].expiresAt.Some? && d[key].expiresAt.value <= now)
    ensures Ttl(d, key, now) == -1 <==> key in d && d[key].expiresAt.None?
    ensures key in d && d[key].expiresAt.Some? && now < d[key].expiresAt.value ==>
      Ttl(d, key, now) == d[key].expiresAt.value - now
  {
  }

  /** Every call falls back quietly while the connection is not ready. */
  class RedisService<K(==), T> {
    var data: Data<K, T>
    var ready: bool

    constructor ()
      ensures data == map[] && ready && fresh(this)
    {
      data := map[];
      ready := true;
    }

    method Get(key: K, now: int) returns (cell: Option<Cell<T>>)
      ensures cell == if !ready || Find(data, key, now).None? then None else Some(Find(data, key, now).value.cell)
    {
      if !ready {
        return None;
      }
      if key in data && Alive(data[key], now) {
        return Some(data[key].cell);
      }
      cell := None;
    }

    method Set(key: K, value: T, ttlSeconds: nat, now: int)
      modifies this`data
      ensures data == if ready then Put(old(data), key, value, ttlSeconds, now) else old(data)
    {
      if ready {
        if ttlSeconds != 0 {
          data := data[key := Entry(Doc(value), Some(now + ttlSeconds))];
        } else {
          data := data[key := Entry(Doc(value), None)];
        }
      }
    }

    method Delete(key: K)
      modifies this`data
      ensures data == if ready then Del(old(data), key) else old(data)
    {
      if ready {
        data := data - {key};
      }
    }

    method Increment(key: K, ttlSeconds: nat, now: int) returns (count: nat)
      modifies this`data
      ensures (data, count) == if ready then Incr(old(data), key, ttlSeconds, now) else (old(data), 1)
    {
      if !ready {
        return 1;
      }
      var expiresAt := None;
      count := 1;
      if key in data && Alive(data[key], now) {
        if data[key].cell.Doc? {
          return 1;
        }
        count := data[key].cell.count + 1;
        expiresAt := data[key].expiresAt;
      }
      data := data[key := Entry(Num(count), expiresAt)];
      if count == 1 && ttlSeconds != 0 {
        data := data[key := data[key].(expiresAt := Some(now + ttlSeconds))];
      }
      assert data == Incr(old(data), key, ttlSeconds, now).0;
    }

    method TimeToLive(key: K, now: int) returns (seconds: int)
      ensures seconds == if ready then Ttl(data, key, now) else -1
    {
      if !ready {
        return -1;
      }
      if key !in data || !Alive(data[key], now) {
        return -2;
      }
      if data[key].expiresAt.None? {
        return -1;
      }
      seconds := data[key].expiresAt.value - now;
    }
  }
}
