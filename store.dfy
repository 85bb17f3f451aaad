/**
 * The table the service keeps its redirects in: items of named attributes,
 * indexed by their key. Only what the request handlers read and write is
 * modelled; the table's own query language is not.
 */
module Store {
  import opened Wrappers

  /** An attribute value; every kind other than string and number is folded into OtherValue. */
  datatype AttrValue = S(s: string) | N(n: string) | OtherValue

  type Item = map<string, AttrValue>

  /** Attribute names. Their spelling is not part of the modelled files; only their being distinct matters. */
  const KEY := "key"
  const URL := "url"
  const CREATED := "created"
  const UPDATED := "updated"
  const HITS := "hits"

  /** The table, shared by every handler and changed by upserts and deletes. */
  class Table {
    var items: map<string, Item>

    constructor (items: map<string, Item>)
      ensures this.items == items
    {
      this.items := items;
    }
  }

  /** The value of a string attribute, or None when the attribute is missing or not a string. */
  function StringAttr(item: Item, name: string): (v: Option<string>)
    ensures v.Some? <==> name in item && item[name].S?
    ensures v.Some? ==> item[name] == S(v.value)
  {
    if name in item && item[name].S? then Some(item[name].s) else None
  }

  /** A get_item with a projection: the item under `key`, reduced to the attributes in `projection`. */
  function GetItem(items: map<string, Item>, key: string, projection: set<string>): (r: Option<Item>)
    ensures r.Some? <==> key in items
    ensures r.Some? ==> r.value.Keys == items[key].Keys * projection
    ensures r.Some? ==> forall a :: a in r.value ==> r.value[a] == items[key][a]
  {
    if key in items then Some(map a | a in items[key] && a in projection :: items[key][a]) else None
  }

  /**
   * The two readings of the clock an upsert takes, one after the other: the
   * one offered for `created` and the one written to `updated`.
   */
  datatype Stamp = Stamp(created: string, updated: string)

  /**
   * The item an upsert of (`key`, `url`) leaves at `now`: `url` and
   * `updated` are set, `created` and `hits` are kept when present and set to
   * the first clock reading and 0 when absent, and every other attribute is kept.
   */
  function Upserted(prior: Option<Item>, key: string, url: string, now: Stamp): (item: Item)
    ensures item.Keys == {KEY, URL, UPDATED, CREATED, HITS} + (if prior.Some? then prior.value.Keys else {})
    ensures item[KEY] == S(key) && item[URL] == S(url) && item[UPDATED] == S(now.updated)
    ensures item[CREATED] == if prior.Some? && CREATED in prior.value then prior.value[CREATED] else S(now.created)
    ensures item[HITS] == if prior.Some? && HITS in prior.value then prior.value[HITS] else N("0")
    ensures prior.Some? ==> prior.value.Keys <= item.Keys
    ensures prior.Some? ==> forall a :: a in prior.value && a != KEY && a != URL && a != UPDATED ==> item[a] == prior.value[a]
  {
    var base := prior.GetOr(map[]);
    base[KEY := S(key)][URL := S(url)][UPDATED := S(now.updated)]
        [CREATED := if CREATED in base then base[CREATED] else S(now.created)]
        [HITS := if HITS in base then base[HITS] else N("0")]
  }

  /** The table after an upsert: only the item under `key` changes. */
  function AfterUpsert(items: map<string, Item>, key: string, url: string, now: Stamp): (r: map<string, Item>)
    ensures r.Keys == items.Keys + {key}
    ensures r[key] == Upserted(if key in items then Some(items[key]) else None, key, url, now)
    ensures forall k :: k in items && k != key ==> r[k] == items[k]
  {
    items[key := Upserted(if key in items then Some(items[key]) else None, key, url, now)]
  }

  /** The table after a delete: the item under `key` is gone, if there was one, and nothing else changes. */
  function AfterDelete(items: map<string, Item>, key: string): (r: map<string, Item>)
    ensures r.Keys == items.Keys - {key}
    ensures forall k :: k in r ==> r[k] == items[k]
  {
    items - {key}
  }

  /** Upserting twice keeps the creation time of the first upsert and the url of the second. */
  lemma UpsertKeepsCreated(items: map<string, Item>, key: string, u1: string, u2: string, t1: Stamp, t2: Stamp)
    ensures var once := AfterUpsert(items, key, u1, t1);
            var twice := AfterUpsert(once, key, u2, t2);
            twice[key][CREATED] == once[key][CREATED] && twice[key][URL] == S(u2) && twice[key][HITS] == once[key][HITS]
  {
  }
}
