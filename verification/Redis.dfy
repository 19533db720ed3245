/** The Redis commands the server relies on. Times are milliseconds of the Redis clock, and a key lives
    up to, not including, the instant at which it expires. */
module Redis {
  import opened Outcomes

  datatype Counter = Counter(count: nat, expiresAt: Option<int>)

  datatype Lease = Lease(token: string, expiresAt: int)

  predicate CounterLives(counter: Counter, now: int) {
    counter.expiresAt.None? || now < counter.expiresAt.value
  }

  /** INCR on a key that may be absent or expired. */
  function Incremented(counter: Option<Counter>, now: int): Counter {
    match counter
    case Some(c) => if CounterLives(c, now) then c.(count := c.count + 1) else Counter(1, None)
    case None => Counter(1, None)
  }

  /** EXPIRE with NX on a key that exists: only a key without an expiry gets one. */
  function Expiring(counter: Counter, milliseconds: int, now: int): Option<Counter> {
    if counter.expiresAt.Some? then Some(counter)
    else if milliseconds <= 0 then None
    else Some(counter.(expiresAt := Some(now + milliseconds)))
  }

  function Lookup<V>(table: map<string, V>, key: string): Option<V> {
    if key in table then Some(table[key]) else None
  }

  function Store<V>(table: map<string, V>, key: string, value: Option<V>): map<string, V> {
    match value
    case Some(v) => table[key := v]
    case None => table - {key}
  }

  class Client {
    var counters: map<string, Counter>
    var leases: map<string, Lease>

    constructor ()
      ensures counters == map[] && leases == map[]
    {
      counters, leases := map[], map[];
    }

    method Incr(key: string, now: int) returns (count: nat)
      modifies this`counters
      ensures var after := Incremented(Lookup(old(counters), key), now);
        counters == old(counters)[key := after] && count == after.count
    {
      var after := Incremented(Lookup(counters, key), now);
      counters := counters[key := after];
      count := after.count;
    }

    method ExpireNx(key: string, milliseconds: int, now: int)
      requires key in counters
      modifies this`counters
      ensures counters == Store(old(counters), key, Expiring(old(counters)[key], milliseconds, now))
    {
      counters := Store(counters, key, Expiring(counters[key], milliseconds, now));
    }

    /** SET with NX and EX. */
    method SetNxEx(key: string, token: string, milliseconds: int, now: int) returns (acquired: bool)
      modifies this`leases
      ensures acquired <==> key !in old(leases) || now >= old(leases)[key].expiresAt
      ensures leases == if acquired then old(leases)[key := Lease(token, now + milliseconds)] else old(leases)
    {
      acquired := key !in leases || now >= leases[key].expiresAt;
      if acquired {
        leases := leases[key := Lease(token, now + milliseconds)];
      }
    }
  }
}
