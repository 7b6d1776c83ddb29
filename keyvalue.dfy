/**
 The key-value client the page talks to, reduced to the two operations it
 uses: a prefix query and a keyed write. The client's implementation is not
 part of this model; the store is an abstract map from keys to values.
 */
module KeyValue {
  import opened Strings

  /** One `{key, value}` pair of a prefix query's answer. */
  datatype Entry<V> = Entry(key: string, value: V)

  /** The keys of an answer: `data.map((d) => d.key)` as a set. */
  function Keys<V>(data: seq<Entry<V>>): set<string> {
    set i | 0 <= i < |data| :: data[i].key
  }

  /**
   What `getWithPrefix(prefix)` may answer for a store: every binding whose key
   starts with `prefix`, each exactly once, in some order, and nothing else.
   */
  ghost predicate IsPrefixListing<V>(data: seq<Entry<V>>, store: map<string, V>, prefix: string)
    ensures IsPrefixListing(data, store, prefix) ==>
      Keys(data) == (set k | k in store && StartsWith(k, prefix))
  {
    (forall i, j :: 0 <= i < j < |data| ==> data[i].key != data[j].key) &&
    (forall i :: 0 <= i < |data| ==> StartsWith(data[i].key, prefix) && data[i].key in store && store[data[i].key] == data[i].value) &&
    (forall k :: k in store && StartsWith(k, prefix) ==> k in Keys(data))
  }

  /** An answer for a store without key `k` stays an answer once a binding at a non-matching `k` is added. */
  lemma ListingSkip<V>(data: seq<Entry<V>>, store: map<string, V>, prefix: string, k: string)
    requires k in store && !StartsWith(k, prefix)
    requires IsPrefixListing(data, store - {k}, prefix)
    ensures IsPrefixListing(data, store, prefix)
  {
  }

  /** An answer for a store without key `k`, with `k`'s binding appended, answers for the whole store. */
  lemma ListingAppend<V>(data: seq<Entry<V>>, store: map<string, V>, prefix: string, k: string)
    requires k in store && StartsWith(k, prefix)
    requires IsPrefixListing(data, store - {k}, prefix)
    ensures IsPrefixListing(data + [Entry(k, store[k])], store, prefix)
  {
    var r := data + [Entry(k, store[k])];
    assert forall i :: 0 <= i < |data| ==> r[i] == data[i];
    assert r[|data|] == Entry(k, store[k]);
    assert Keys(r) == Keys(data) + {k};
  }

  /** Every store has at least one answer to a prefix query (the order is the store's choice). */
  ghost function PrefixListing<V>(store: map<string, V>, prefix: string): (r: seq<Entry<V>>)
    ensures IsPrefixListing(r, store, prefix)
    decreases |store|
  {
    if store == map[] then []
    else
      var k :| k in store;
      var rest := PrefixListing(store - {k}, prefix);
      if StartsWith(k, prefix) then
        ListingAppend(rest, store, prefix, k);
        rest + [Entry(k, store[k])]
      else
        ListingSkip(rest, store, prefix, k);
        rest
  }

  /** The client: its contents are the map `entries`. */
  class Store<V> {
    var entries: map<string, V>

    constructor (initial: map<string, V>)
      ensures entries == initial
    {
      entries := initial;
    }

    /**
     `set(key, value)`: the store's own answer `accepted` is an input here. A
     truthy answer means `value` now sits at `key`, replacing what was there;
     a falsy one means nothing was written.
     */
    method Set(key: string, value: V, accepted: bool) returns (ok: bool)
      modifies this
      ensures ok == accepted
      ensures entries == if ok then old(entries)[key := value] else old(entries)
    {
      ok := accepted;
      if ok {
        entries := entries[key := value];
      }
    }
  }
}
