/** The key-value store behind app/utils/redis_db.py, as the rest of the
    application uses it: string keys mapped to stored text with an expiry
    instant. A key is live while the current time is before its expiry;
    `GET` of an expired or absent key gives nothing. The client, its
    connection and its failure modes are not modelled. */
module KeyValue {
  import opened Common
  import opened Json

  datatype Entry = Entry(value: Text, expiresAt: int)

  /** `set_redis_key`'s default expiration, in seconds. */
  const DefaultExpiration := 3600

  /** `GET key` at time `now`. */
  function Lookup(entries: map<string, Entry>, key: string, now: int): (r: Option<Text>)
    ensures r.Some? <==> key in entries && now < entries[key].expiresAt
    ensures r.Some? ==> r.value == entries[key].value
  {
    if key in entries && now < entries[key].expiresAt then Some(entries[key].value) else None
  }

  /** `SET key value EX ttl` at time `now`. */
  function Put(entries: map<string, Entry>, key: string, value: Text, ttl: nat, now: int)
    : (r: map<string, Entry>)
    ensures r.Keys == entries.Keys + {key}
    ensures r[key] == Entry(value, now + ttl)
    ensures forall k :: k in entries && k != key ==> r[k] == entries[k]
  {
    entries[key := Entry(value, now + ttl)]
  }

  /** `DEL key`: removing an absent key is not an error. */
  function Remove(entries: map<string, Entry>, key: string): (r: map<string, Entry>)
    ensures r.Keys == entries.Keys - {key}
    ensures forall k :: k in r ==> r[k] == entries[k]
  {
    entries - {key}
  }

  /** After `SET`, the key reads back its value until the TTL runs out and
      nothing afterwards; every other key reads as before. */
  lemma LookupAfterPut(entries: map<string, Entry>, key: string, value: Text, ttl: nat,
                       now: int, later: int, other: string)
    ensures now <= later < now + ttl ==> Lookup(Put(entries, key, value, ttl, now), key, later) == Some(value)
    ensures now + ttl <= later ==> Lookup(Put(entries, key, value, ttl, now), key, later) == None
    ensures other != key ==>
      Lookup(Put(entries, key, value, ttl, now), other, later) == Lookup(entries, other, later)
  {
  }

  /** After `DEL`, the key reads as absent at every time; every other key
      reads as before. Deleting twice is the same as deleting once. */
  lemma LookupAfterRemove(entries: map<string, Entry>, key: string, later: int, other: string)
    ensures Lookup(Remove(entries, key), key, later) == None
    ensures other != key ==> Lookup(Remove(entries, key), other, later) == Lookup(entries, other, later)
    ensures Remove(Remove(entries, key), key) == Remove(entries, key)
  {
  }

  /** The store: one map from key to entry, replaced by every write. */
  class Store {
    var entries: map<string, Entry>

    constructor ()
      ensures entries == map[]
    {
      entries := map[];
    }

    /** `get_redis_key(key)` at time `now`. */
    function Get(key: string, now: int): (r: Option<Text>)
      reads this
      ensures r == Lookup(entries, key, now)
    {
      Lookup(entries, key, now)
    }

    /** `set_redis_key(key, value, expiration)` at time `now`; Redis refuses a
        zero expiration, and every caller passes a positive constant. */
    method Set(key: string, value: Text, expiration: nat, now: int)
      requires expiration > 0
      modifies this
      ensures entries == Put(old(entries), key, value, expiration, now)
    {
      entries := entries[key := Entry(value, now + expiration)];
    }

    /** `delete_redis_key(key)`. */
    method Delete(key: string)
      modifies this
      ensures entries == Remove(old(entries), key)
    {
      entries := entries - {key};
    }
  }
}
