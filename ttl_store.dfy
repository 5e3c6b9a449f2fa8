// The Redis instance the verification service talks to, reduced to the six
// commands it uses (GET, TTL, SETEX, DEL, INCR, EXPIRE) over string values
// with an explicit clock in whole seconds. A key whose expiry time has come is
// dead: it reads as absent whether or not it is still in the map.
module TtlStore {
  import opened Common

  /** A stored string and, when the key has one, the instant it stops being live. */
  datatype Entry = Entry(value: string, expireAt: Option<int>)

  type Entries = map<string, Entry>

  /** The key holds a value that has not expired at `now`. */
  predicate Live(m: Entries, now: int, key: string)
  {
    key in m && (m[key].expireAt.None? || now < m[key].expireAt.value)
  }

  /** GET: the value of a live key, None otherwise. */
  function Lookup(m: Entries, now: int, key: string): Option<string>
  {
    if Live(m, now, key) then Some(m[key].value) else None
  }

  /** TTL: -2 for a missing or expired key, -1 for a key without expiry, otherwise the seconds left. */
  function Remaining(m: Entries, now: int, key: string): (t: int)
    ensures t == -2 <==> !Live(m, now, key)
    ensures t == -1 <==> Live(m, now, key) && m[key].expireAt.None?
    ensures t > 0 <==> Live(m, now, key) && m[key].expireAt.Some?
    ensures t > 0 ==> now + t == m[key].expireAt.value
  {
    if !Live(m, now, key) then -2
    else if m[key].expireAt.None? then -1
    else m[key].expireAt.value - now
  }

  /** SETEX key seconds value: the value, live for the next `seconds` seconds. */
  function Put(m: Entries, now: int, key: string, value: string, seconds: int): Entries
  {
    m[key := Entry(value, Some(now + seconds))]
  }

  /**
   * INCR key: a missing or expired key becomes "1" without expiry; a live
   * decimal value goes up by one and keeps its expiry. None stands for the
   * error Redis answers when the live value is not an integer; then nothing changes.
   */
  function Increment(m: Entries, now: int, key: string): Option<(Entries, nat)>
  {
    if !Live(m, now, key) then Some((m[key := Entry("1", None)], 1))
    else
      match ParseNat(m[key].value)
      case None => None
      case Some(n) => Some((m[key := Entry(NatToString(n + 1), m[key].expireAt)], n + 1))
  }

  /**
   * EXPIRE key seconds: false and no change for a key that is not live;
   * otherwise true, and the key expires `seconds` from now (at once when
   * `seconds` is not positive).
   */
  function Reexpire(m: Entries, now: int, key: string, seconds: int): (Entries, bool)
  {
    if !Live(m, now, key) then (m, false)
    else if seconds <= 0 then (m - {key}, true)
    else (m[key := m[key].(expireAt := Some(now + seconds))], true)
  }

  /** A value set with SETEX reads back, with exactly its TTL, until that many seconds have passed. */
  lemma PutThenRead(m: Entries, now: int, key: string, value: string, seconds: int, later: int)
    requires seconds > 0 && now <= later
    ensures Lookup(Put(m, now, key, value, seconds), later, key) == if later < now + seconds then Some(value) else None
    ensures Remaining(Put(m, now, key, value, seconds), now, key) == seconds
  {
  }

  /** INCR on a counter that reads n makes it read n + 1 and leaves its TTL alone. */
  lemma IncrementCounts(m: Entries, now: int, key: string, n: nat)
    requires Lookup(m, now, key) == Some(NatToString(n))
    ensures Increment(m, now, key).Some?
    ensures Increment(m, now, key).value.1 == n + 1
    ensures Lookup(Increment(m, now, key).value.0, now, key) == Some(NatToString(n + 1))
    ensures Remaining(Increment(m, now, key).value.0, now, key) == Remaining(m, now, key)
  {
    ParseNatToString(n);
  }

  /** INCR on a key that is not live starts a counter at 1 with no expiry. */
  lemma IncrementStarts(m: Entries, now: int, key: string)
    requires !Live(m, now, key)
    ensures Increment(m, now, key).Some?
    ensures Lookup(Increment(m, now, key).value.0, now, key) == Some("1")
    ensures Remaining(Increment(m, now, key).value.0, now, key) == -1
  {
  }

  /** EXPIRE with a positive time on a live key keeps its value and sets its TTL. */
  lemma ReexpireSetsTtl(m: Entries, now: int, key: string, seconds: int)
    requires Live(m, now, key) && seconds > 0
    ensures Reexpire(m, now, key, seconds).1
    ensures Lookup(Reexpire(m, now, key, seconds).0, now, key) == Lookup(m, now, key)
    ensures Remaining(Reexpire(m, now, key, seconds).0, now, key) == seconds
  {
  }

  /** The Redis server: its keyspace and its clock. */
  class Store {
    var entries: Entries
    var now: int

    /** An empty keyspace at the given time. */
    constructor (start: int)
      ensures entries == map[] && now == start
    {
      entries := map[];
      now := start;
    }

    /** GET key. */
    function Get(key: string): Option<string>
      reads this
    {
      Lookup(entries, now, key)
    }

    /** TTL key. */
    function Ttl(key: string): int
      reads this
    {
      Remaining(entries, now, key)
    }

    /** SETEX key seconds value; Redis refuses a TTL that is not positive. */
    method SetEx(key: string, seconds: int, value: string)
      requires seconds > 0
      modifies this
      ensures entries == Put(old(entries), now, key, value, seconds)
      ensures now == old(now)
    {
      entries := entries[key := Entry(value, Some(now + seconds))];
    }

    /** DEL key: how many live keys were removed. */
    method Delete(key: string) returns (removed: nat)
      modifies this
      ensures removed == if Live(old(entries), now, key) then 1 else 0
      ensures entries == old(entries) - {key}
      ensures now == old(now)
    {
      removed := if Live(entries, now, key) then 1 else 0;
      entries := entries - {key};
    }

    /** INCR key: the new count, or None (and no change) when the value is not an integer. */
    method Incr(key: string) returns (count: Option<nat>)
      modifies this
      ensures Increment(old(entries), now, key).None? ==> count.None? && entries == old(entries)
      ensures Increment(old(entries), now, key).Some? ==>
        count == Some(Increment(old(entries), now, key).value.1) &&
        entries == Increment(old(entries), now, key).value.0
      ensures now == old(now)
    {
      if !Live(entries, now, key) {
        entries := entries[key := Entry("1", None)];
        count := Some(1);
      } else {
        var parsed := ParseNat(entries[key].value);
        if parsed.None? {
          count := None;
        } else {
          entries := entries[key := Entry(NatToString(parsed.value + 1), entries[key].expireAt)];
          count := Some(parsed.value + 1);
        }
      }
    }

    /** EXPIRE key seconds. */
    method Expire(key: string, seconds: int) returns (applied: bool)
      modifies this
      ensures (entries, applied) == Reexpire(old(entries), now, key, seconds)
      ensures now == old(now)
    {
      if !Live(entries, now, key) {
        applied := false;
      } else if seconds <= 0 {
        entries := entries - {key};
        applied := true;
      } else {
        entries := entries[key := entries[key].(expireAt := Some(now + seconds))];
        applied := true;
      }
    }

    /** The clock moves forward; keys whose time has come stop being live. */
    method Tick(seconds: nat)
      modifies this
      ensures now == old(now) + seconds
      ensures entries == old(entries)
    {
      now := now + seconds;
    }
  }
}
