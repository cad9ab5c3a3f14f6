/** The expiring cache of go-cache v2.1.0, which both registry caches are instances of. */
module GoCache {
  import opened GoText

  /** Durations and instants are nanoseconds. */
  const SECOND: int := 1_000_000_000
  const MINUTE: int := 60 * SECOND
  const HOUR: int := 60 * MINUTE

  const DEFAULT_EXPIRATION: int := 0
  const NO_EXPIRATION: int := -1

  datatype Item<V> = Item(value: V, deadline: Option<int>)

  /** When an entry stored at `now` expires: zero means the default, and only a positive duration expires at all. */
  function Deadline(duration: int, default: int, now: int): Option<int> {
    var d := if duration == DEFAULT_EXPIRATION then default else duration;
    if d > 0 then Some(now + d) else None
  }

  function Lookup<V>(items: map<string, Item<V>>, key: string, now: int): Option<V> {
    if key !in items then None
    else
      match items[key].deadline
      case None => Some(items[key].value)
      case Some(t) => if now > t then None else Some(items[key].value)
  }

  class Cache<V> {
    const defaultExpiration: int
    var items: map<string, Item<V>>

    constructor (defaultExpiration: int)
      ensures this.defaultExpiration == defaultExpiration && items == map[]
    {
      this.defaultExpiration := defaultExpiration;
      items := map[];
    }

    method Set(key: string, value: V, duration: int, now: int)
      modifies this
      ensures items == old(items)[key := Item(value, Deadline(duration, defaultExpiration, now))]
      ensures duration > 0 ==> items[key].deadline == Some(now + duration)
      ensures duration == 0 && defaultExpiration > 0 ==> items[key].deadline == Some(now + defaultExpiration)
      ensures duration < 0 || (duration == 0 && defaultExpiration <= 0) ==> items[key].deadline == None
    {
      var d := duration;
      if d == DEFAULT_EXPIRATION {
        d := defaultExpiration;
      }
      var deadline := None;
      if d > 0 {
        deadline := Some(now + d);
      }
      items := items[key := Item(value, deadline)];
    }

    method Fetch(key: string, now: int) returns (r: Option<V>)
      ensures r == Lookup(items, key, now)
      ensures r.Some? <==> key in items && (items[key].deadline.None? || now <= items[key].deadline.value)
      ensures r.Some? ==> r.value == items[key].value
    {
      if key !in items {
        return None;
      }
      var item := items[key];
      if item.deadline.Some? {
        if now > item.deadline.value {
          return None;
        }
      }
      return Some(item.value);
    }
  }
}
