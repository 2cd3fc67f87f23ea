/**
 * The `lookups` table both feeds write to, keyed by (category, key), and the staleness protocol
 * that replaces one category with the contents of a feed: mark every row of the category stale,
 * upsert every accepted record as fresh, then delete the rows that are still stale.
 */
module Lookups {
  import opened Wrappers
  import opened Text

  /** The table's conflict key. */
  datatype RowKey = RowKey(category: string, key: string)

  /** The other columns; `updated` is the staleness flag (1 or 0). */
  datatype Row = Row(subCategory: string, name: Option<string>, data: string, lat: real, lon: real, flags: int, updated: bool)

  type Table = map<RowKey, Row>

  /** The values one upsert binds: the key and the columns it writes. */
  datatype Entry = Entry(key: string, subCategory: string, name: Option<string>, data: string, lat: real, lon: real, flags: int)

  /** The row an upsert leaves behind: the insert and the conflict update write the same columns, with `updated = 1`. */
  function RowOf(e: Entry): Row {
    Row(e.subCategory, e.name, e.data, e.lat, e.lon, e.flags, true)
  }

  /** `UPDATE lookups SET updated = 0 WHERE category = ?` */
  function Stale(t: Table, c: string): (r: Table)
    ensures r.Keys == t.Keys
  {
    map k | k in t :: if k.category == c then t[k].(updated := false) else t[k]
  }

  /** `INSERT INTO lookups ... ON CONFLICT DO UPDATE SET ...` for one entry of category `c`. */
  function Upserted(t: Table, c: string, e: Entry): (r: Table)
    ensures r.Keys == t.Keys + {RowKey(c, e.key)}
  {
    t[RowKey(c, e.key) := RowOf(e)]
  }

  /** The entries upserted in order. */
  function UpsertedAll(t: Table, c: string, es: seq<Entry>): Table {
    if es == [] then t else Upserted(UpsertedAll(t, c, es[..|es| - 1]), c, es[|es| - 1])
  }

  /** Upserting one more entry of the feed. */
  lemma UpsertedAllSnoc(t: Table, c: string, es: seq<Entry>, k: nat)
    requires k < |es|
    ensures UpsertedAll(t, c, es[..k + 1]) == Upserted(UpsertedAll(t, c, es[..k]), c, es[k])
  {
    assert es[..k + 1][..k] == es[..k];
  }

  /** `DELETE FROM lookups WHERE category = ? AND updated = 0` */
  function Pruned(t: Table, c: string): (r: Table)
    ensures r.Keys <= t.Keys
  {
    map k | k in t && (k.category != c || t[k].updated) :: t[k]
  }

  /** `DELETE FROM lookups WHERE category = ?` */
  function WithoutCategory(t: Table, c: string): (r: Table)
    ensures r.Keys <= t.Keys
  {
    map k | k in t && k.category != c :: t[k]
  }

  /** A completed pass of the staleness protocol with the feed's entries `es`. */
  function Synced(t: Table, c: string, es: seq<Entry>): Table {
    Pruned(UpsertedAll(Stale(t, c), c, es), c)
  }

  /** The keys the feed supplies. */
  function KeysOf(es: seq<Entry>): set<string> {
    set i | 0 <= i < |es| :: es[i].key
  }

  /** The last entry of the feed with the given key: the one whose upsert is not overwritten. */
  function Latest(es: seq<Entry>, key: string): (r: Entry)
    requires key in KeysOf(es)
    ensures r.key == key
    ensures exists i :: 0 <= i < |es| && es[i] == r && forall j :: i < j < |es| ==> es[j].key != key
  {
    var n := |es| - 1;
    if es[n].key == key then es[n]
    else
      KeysOfInit(es, key);
      var r := Latest(es[..n], key);
      LastOfInit(es, es[..n], key, r);
      r
  }

  /** A key the feed supplies, but not in its last entry, is supplied by the entries before it. */
  lemma KeysOfInit(es: seq<Entry>, key: string)
    requires key in KeysOf(es) && es[|es| - 1].key != key
    ensures key in KeysOf(es[..|es| - 1])
  {
    var i :| 0 <= i < |es| && es[i].key == key;
    assert es[..|es| - 1][i].key == key;
  }

  /** The last entry with a key among all but the last entry stays the last when that entry has another key. */
  lemma LastOfInit(es: seq<Entry>, init: seq<Entry>, key: string, r: Entry)
    requires |es| > 0 && init == es[..|es| - 1] && es[|es| - 1].key != key
    requires exists i :: 0 <= i < |init| && init[i] == r && forall j :: i < j < |init| ==> init[j].key != key
    ensures exists i :: 0 <= i < |es| && es[i] == r && forall j :: i < j < |es| ==> es[j].key != key
  {
    var i :| 0 <= i < |init| && init[i] == r && forall j :: i < j < |init| ==> init[j].key != key;
    assert es[i] == r;
    forall j | i < j < |es|
      ensures es[j].key != key
    {
      if j < |init| {
        assert init[j] == es[j];
      }
    }
  }

  lemma KeysOfSnoc(es: seq<Entry>, e: Entry)
    ensures KeysOf(es + [e]) == KeysOf(es) + {e.key}
  {
    var s := es + [e];
    assert forall i :: 0 <= i < |es| ==> s[i] == es[i];
    assert s[|es|] == e;
  }

  /**
   * After the upserts, the row of key `k` of category `c` exists iff it existed or the feed has
   * the key; it holds the feed's last entry for the key, and any other row is untouched.
   */
  lemma {:induction false} UpsertedAllAt(t: Table, c: string, es: seq<Entry>, k: RowKey)
    ensures k in UpsertedAll(t, c, es) <==> k in t || (k.category == c && k.key in KeysOf(es))
    ensures k.category == c && k.key in KeysOf(es) ==> UpsertedAll(t, c, es)[k] == RowOf(Latest(es, k.key))
    ensures !(k.category == c && k.key in KeysOf(es)) && k in t ==> UpsertedAll(t, c, es)[k] == t[k]
  {
    if es != [] {
      var n := |es| - 1;
      UpsertedAllAt(t, c, es[..n], k);
      assert es == es[..n] + [es[n]];
      KeysOfSnoc(es[..n], es[n]);
    }
  }

  /**
   * A completed pass: rows of other categories are exactly as before; category `c` holds a row
   * exactly for each key of the feed, with the feed's last entry for that key, marked fresh.
   */
  lemma SyncedAt(t: Table, c: string, es: seq<Entry>, k: RowKey)
    ensures k.category != c ==> (k in Synced(t, c, es) <==> k in t)
    ensures k.category != c && k in t ==> Synced(t, c, es)[k] == t[k]
    ensures k.category == c ==> (k in Synced(t, c, es) <==> k.key in KeysOf(es))
    ensures k.category == c && k.key in KeysOf(es) ==> Synced(t, c, es)[k] == RowOf(Latest(es, k.key))
  {
    UpsertedAllAt(Stale(t, c), c, es, k);
  }

  /** The category ends holding exactly the keys the feed supplied. */
  lemma SyncedCategoryKeys(t: Table, c: string, es: seq<Entry>)
    ensures (set k | k in Synced(t, c, es) && k.category == c :: k.key) == KeysOf(es)
  {
    var s := Synced(t, c, es);
    forall key | key in KeysOf(es)
      ensures key in (set k | k in s && k.category == c :: k.key)
    {
      SyncedAt(t, c, es, RowKey(c, key));
    }
    forall k | k in s && k.category == c
      ensures k.key in KeysOf(es)
    {
      SyncedAt(t, c, es, k);
    }
  }

  /** Other categories are untouched by a pass. */
  lemma SyncedOthersUnchanged(t: Table, c: string, es: seq<Entry>)
    ensures WithoutCategory(Synced(t, c, es), c) == WithoutCategory(t, c)
  {
    var a := WithoutCategory(Synced(t, c, es), c);
    var b := WithoutCategory(t, c);
    forall k | true
      ensures k in a <==> k in b
      ensures k in a ==> a[k] == b[k]
    {
      SyncedAt(t, c, es, k);
    }
  }

  /** Every row left in the category is fresh after a pass. */
  lemma SyncedAllFresh(t: Table, c: string, es: seq<Entry>, k: RowKey)
    requires k in Synced(t, c, es) && k.category == c
    ensures Synced(t, c, es)[k].updated
  {
    SyncedAt(t, c, es, k);
  }

  /** Running the same pass twice gives the table one pass gives. */
  lemma SyncedIdempotent(t: Table, c: string, es: seq<Entry>)
    ensures Synced(Synced(t, c, es), c, es) == Synced(t, c, es)
  {
    var once := Synced(t, c, es);
    var twice := Synced(once, c, es);
    forall k | true
      ensures k in twice <==> k in once
      ensures k in once ==> twice[k] == once[k]
    {
      SyncedAt(t, c, es, k);
      SyncedAt(once, c, es, k);
    }
  }

  /** A feed with no accepted record empties the category. */
  lemma SyncedEmptyFeed(t: Table, c: string)
    ensures Synced(t, c, []) == WithoutCategory(t, c)
  {
    var s := Synced(t, c, []);
    var w := WithoutCategory(t, c);
    forall k | true
      ensures k in s <==> k in w
      ensures k in s ==> s[k] == w[k]
    {
      SyncedAt(t, c, [], k);
    }
  }

  /** A pass that stops before its delete step has removed nothing: marking and upserting only add rows. */
  lemma {:induction false} InterruptedPassKeepsRows(t: Table, c: string, es: seq<Entry>)
    ensures t.Keys <= UpsertedAll(Stale(t, c), c, es).Keys
  {
    forall k | k in t
      ensures k in UpsertedAll(Stale(t, c), c, es)
    {
      UpsertedAllAt(Stale(t, c), c, es, k);
    }
  }

  /** `lat BETWEEN lat - delta AND lat + delta AND lon BETWEEN lon - delta AND lon + delta` */
  predicate InBox(lat: real, lon: real, delta: real, rowLat: real, rowLon: real) {
    lat - delta <= rowLat <= lat + delta && lon - delta <= rowLon <= lon + delta
  }

  /** The rows the by-location query selects: of the category and sub-category, in the box, with `flags = 1`. */
  function FindAllByLocation(t: Table, c: string, sub: string, lat: real, lon: real, delta: real): set<RowKey> {
    set k | k in t && k.category == c && t[k].subCategory == sub && InBox(lat, lon, delta, t[k].lat, t[k].lon) && t[k].flags == 1
  }

  /** After a completed pass, the by-location query finds exactly the feed keys whose last entry matches it. */
  lemma FindAllByLocationAfterSync(t: Table, c: string, es: seq<Entry>, sub: string, lat: real, lon: real, delta: real, key: string)
    ensures RowKey(c, key) in FindAllByLocation(Synced(t, c, es), c, sub, lat, lon, delta)
        <==> key in KeysOf(es)
             && var e := Latest(es, key);
                e.subCategory == sub && InBox(lat, lon, delta, e.lat, e.lon) && e.flags == 1
  {
    SyncedAt(t, c, es, RowKey(c, key));
  }

  /** A wider box finds at least as much; a negative delta finds nothing. */
  lemma FindAllByLocationWidens(t: Table, c: string, sub: string, lat: real, lon: real, d1: real, d2: real)
    requires d1 <= d2
    ensures FindAllByLocation(t, c, sub, lat, lon, d1) <= FindAllByLocation(t, c, sub, lat, lon, d2)
    ensures d1 < 0.0 ==> FindAllByLocation(t, c, sub, lat, lon, d1) == {}
  {
  }

  /** `s LIKE '%pattern%'` for a pattern without wildcards: an ASCII case-insensitive substring test. */
  predicate Like(s: Option<string>, pattern: string) {
    s.Some? && Contains(AsciiLower(s.value), AsciiLower(pattern))
  }

  /** The rows the by-name query selects: of the category and sub-category, key or name matching, with `flags = 1`. */
  function FindAllByName(t: Table, c: string, sub: string, name: string): set<RowKey> {
    set k | k in t && k.category == c && t[k].subCategory == sub && (Like(Some(k.key), name) || Like(t[k].name, name)) && t[k].flags == 1
  }

  /** An empty search text matches every active row of the sub-category. */
  lemma FindAllByEmptyName(t: Table, c: string, sub: string, k: RowKey)
    requires k in t && k.category == c && t[k].subCategory == sub && t[k].flags == 1
    ensures k in FindAllByName(t, c, sub, "")
  {
    assert OccursAt(AsciiLower(k.key), AsciiLower(""), 0);
  }

  /** A row whose key contains the search text in lower case is found. */
  lemma FindAllByNameFindsKey(t: Table, c: string, sub: string, k: RowKey, name: string, i: nat)
    requires k in t && k.category == c && t[k].subCategory == sub && t[k].flags == 1
    requires i + |name| <= |k.key| && AsciiLower(k.key)[i..i + |name|] == AsciiLower(name)
    ensures k in FindAllByName(t, c, sub, name)
  {
    KeyLike(k.key, name, i);
  }

  /** Text whose lower-case form holds the lower-case pattern at `i` is `LIKE` the pattern. */
  lemma KeyLike(key: string, name: string, i: nat)
    requires i + |name| <= |key| && AsciiLower(key)[i..i + |name|] == AsciiLower(name)
    ensures Like(Some(key), name)
  {
    assert OccursAt(AsciiLower(key), AsciiLower(name), i);
  }

  /** The by-reference query: the row's `data` when present and non-empty; `None` stands for the `{}` the source returns otherwise. */
  function FindOneByReference(t: Table, c: string, ref: string): (r: Option<string>)
    ensures r.Some? <==> RowKey(c, ref) in t && t[RowKey(c, ref)].data != ""
    ensures r.Some? ==> r.value == t[RowKey(c, ref)].data
  {
    var k := RowKey(c, ref);
    if k in t && t[k].data != "" then Some(t[k].data) else None
  }

  /** After a completed pass, looking a feed key up gives the payload of its last entry. */
  lemma FindOneAfterSync(t: Table, c: string, es: seq<Entry>, key: string)
    requires key in KeysOf(es) && Latest(es, key).data != ""
    ensures FindOneByReference(Synced(t, c, es), c, key) == Some(Latest(es, key).data)
  {
    SyncedAt(t, c, es, RowKey(c, key));
  }

  /** The database's `lookups` table, changed in place by the statements the feeds issue. */
  class LookupStore {
    var rows: Table

    constructor(initial: Table)
      ensures rows == initial
    {
      rows := initial;
    }

    /** `UPDATE lookups SET updated = 0 WHERE category = ?` */
    method MarkStale(c: string)
      modifies this
      ensures rows == Stale(old(rows), c)
    {
      rows := Stale(rows, c);
    }

    /** One upsert of the drain loop. */
    method Upsert(c: string, e: Entry)
      modifies this
      ensures rows == Upserted(old(rows), c, e)
    {
      rows := rows[RowKey(c, e.key) := RowOf(e)];
    }

    /** `DELETE FROM lookups WHERE category = ? AND updated = 0` */
    method DeleteStale(c: string)
      modifies this
      ensures rows == Pruned(old(rows), c)
    {
      rows := Pruned(rows, c);
    }

    /** `DELETE FROM lookups WHERE category = ?`, as `onRemove` issues it. */
    method DeleteCategory(c: string)
      modifies this
      ensures rows == WithoutCategory(old(rows), c)
      ensures forall k :: k in rows ==> k.category != c
    {
      rows := WithoutCategory(rows, c);
    }
  }
}
