/** The file-backed HTTP cache of `gt-cache-file.c`.

    The cache keeps a table from request URI to entry. Each entry names the
    file holding the cached body by a random id and records when it was
    stored, when it expires and its ETag. The table is saved to and loaded
    from a JSON object keyed by URI. Times are whole seconds; the clock and
    the random id are parameters.
 */
module CacheFile {
  import opened Wrappers

  /** Names of the members written for each entry. */
  const IdMember: string := "id"
  const CreatedMember: string := "created"
  const ExpiryMember: string := "expiry"
  const EtagMember: string := "etag"

  datatype Entry = Entry(id: string, key: string, created: int, expiry: int, etag: Option<string>)

  /** The table and the cache directory's files, by entry id. */
  datatype Cache = Cache(db: map<string, Entry>, files: map<string, seq<bv8>>)

  /** Every entry is stored under its own key. */
  ghost predicate WellKeyed(db: map<string, Entry>) {
    forall k :: k in db ==> db[k].key == k
  }

  // ---------------------------------------------------------------------
  // Entries
  // ---------------------------------------------------------------------

  /** `gt_cache_file_entry_new_with_params`: a fresh id and the current
      time as creation time. */
  function NewEntry(key: string, expiry: int, etag: Option<string>, freshId: string, now: int): (e: Entry)
    ensures e.id == freshId && e.key == key && e.created == now && e.expiry == expiry && e.etag == etag
  {
    Entry(freshId, key, now, expiry, etag)
  }

  /** `gt_cache_file_entry_update`: the id, and so the backing file, stays;
      creation time, expiry and ETag are replaced. */
  function UpdateEntry(e: Entry, expiry: int, etag: Option<string>, now: int): (r: Entry)
    ensures r.id == e.id && r.key == e.key
    ensures r.created == now && r.expiry == expiry && r.etag == etag
  {
    e.(created := now, expiry := expiry, etag := etag)
  }

  /** Two saves of one key leave the entry as if only the second had
      happened, with the first one's id. */
  lemma UpdateOverwrites(e: Entry, x1: int, t1: Option<string>, n1: int, x2: int, t2: Option<string>, n2: int)
    ensures UpdateEntry(UpdateEntry(e, x1, t1, n1), x2, t2, n2) == UpdateEntry(e, x2, t2, n2)
  {
  }

  // ---------------------------------------------------------------------
  // Saving and reading data
  // ---------------------------------------------------------------------

  /** The guard shared by `save_data` and `is_data_stale`: a non-empty key
      and at least one of Last-Modified and ETag. */
  predicate ValidQuery(key: string, lastUpdated: Option<int>, etag: Option<string>) {
    key != [] && !(lastUpdated.None? && etag.None?)
  }

  /** `save_data`: refused for an empty key, empty data, or neither a
      Last-Modified time nor an ETag. Otherwise the key's entry is updated
      or created and the data written to the entry's file. */
  function SaveData(c: Cache, key: string, data: seq<bv8>, lastUpdated: Option<int>, expiry: int, etag: Option<string>, now: int, freshId: string): (r: Cache)
    ensures !ValidQuery(key, lastUpdated, etag) || |data| == 0 ==> r == c
    ensures ValidQuery(key, lastUpdated, etag) && |data| > 0 ==>
              && key in r.db
              && r.db[key].id == (if key in c.db then c.db[key].id else freshId)
              && r.db[key].created == now && r.db[key].expiry == expiry && r.db[key].etag == etag
              && r.db.Keys == c.db.Keys + {key}
              && (forall k :: k in c.db && k != key ==> r.db[k] == c.db[k])
              && r.db[key].id in r.files && r.files[r.db[key].id] == data
  {
    if !ValidQuery(key, lastUpdated, etag) || |data| == 0 then c
    else
      var e := if key in c.db then UpdateEntry(c.db[key], expiry, etag, now) else NewEntry(key, expiry, etag, freshId, now);
      Cache(c.db[key := e], c.files[e.id := data])
  }

  /** What `get_data_stream` yields. `NoStream` is the NULL returned
      without an error for an empty key. */
  datatype StreamResult = Stream(data: seq<bv8>) | EntryNotFound | ReadError | NoStream

  /** `get_data_stream`: the contents of the key's file. */
  function GetDataStream(c: Cache, key: string): (r: StreamResult)
    ensures key == [] <==> r == NoStream
    ensures key != [] && key !in c.db <==> r == EntryNotFound
    ensures r.Stream? ==> key in c.db && c.db[key].id in c.files && r.data == c.files[c.db[key].id]
  {
    if key == [] then NoStream
    else if key !in c.db then EntryNotFound
    else if c.db[key].id !in c.files then ReadError
    else Stream(c.files[c.db[key].id])
  }

  /** Data saved under a key is what reading the key returns. */
  lemma SaveThenRead(c: Cache, key: string, data: seq<bv8>, lastUpdated: Option<int>, expiry: int, etag: Option<string>, now: int, freshId: string)
    requires ValidQuery(key, lastUpdated, etag) && |data| > 0
    ensures GetDataStream(SaveData(c, key, data, lastUpdated, expiry, etag, now, freshId), key) == Stream(data)
  {
  }

  /** Entries own distinct files. */
  ghost predicate DistinctIds(db: map<string, Entry>) {
    forall k1, k2 :: k1 in db && k2 in db && k1 != k2 ==> db[k1].id != db[k2].id
  }

  /** With distinct ids and an unused fresh id, saving one key leaves what
      every other key reads unchanged, and the ids stay distinct. */
  lemma SaveKeepsOtherData(c: Cache, key: string, data: seq<bv8>, lastUpdated: Option<int>, expiry: int, etag: Option<string>, now: int, freshId: string, other: string)
    requires DistinctIds(c.db)
    requires forall k :: k in c.db ==> c.db[k].id != freshId
    requires other != key
    ensures GetDataStream(SaveData(c, key, data, lastUpdated, expiry, etag, now, freshId), other) == GetDataStream(c, other)
    ensures DistinctIds(SaveData(c, key, data, lastUpdated, expiry, etag, now, freshId).db)
  {
    var r := SaveData(c, key, data, lastUpdated, expiry, etag, now, freshId);
    if ValidQuery(key, lastUpdated, etag) && |data| > 0 && other in c.db {
      assert c.db[other].id != r.db[key].id;
    }
  }

  // ---------------------------------------------------------------------
  // Staleness
  // ---------------------------------------------------------------------

  /** `is_data_stale`: invalid queries and unknown keys are stale; a known
      key is stale when past its expiry, when the server's Last-Modified
      is after the entry was stored, or when both ETags are known and
      differ. */
  function IsDataStale(c: Cache, key: string, lastUpdated: Option<int>, etag: Option<string>, now: int): (r: bool)
    ensures !ValidQuery(key, lastUpdated, etag) ==> r
    ensures ValidQuery(key, lastUpdated, etag) && key !in c.db ==> r
    ensures ValidQuery(key, lastUpdated, etag) && key in c.db ==>
              (r <==> || now > c.db[key].expiry
                      || (lastUpdated.Some? && lastUpdated.value > c.db[key].created)
                      || (etag.Some? && c.db[key].etag.Some? && etag.value != c.db[key].etag.value))
  {
    if !ValidQuery(key, lastUpdated, etag) then true
    else if key !in c.db then true
    else
      var e := c.db[key];
      if now > e.expiry then true
      else if lastUpdated.Some? && lastUpdated.value > e.created then true
      else if etag.Some? && e.etag.Some? && etag.value != e.etag.value then true
      else false
  }

  /** Data just saved is fresh until it expires, unless the server reports
      a newer modification time or a different ETag. */
  lemma StalenessAfterSave(c: Cache, key: string, data: seq<bv8>, lastUpdated: Option<int>, expiry: int, etag: Option<string>, now: int, freshId: string,
                           lastUpdated': Option<int>, etag': Option<string>, now': int)
    requires ValidQuery(key, lastUpdated, etag) && |data| > 0
    requires ValidQuery(key, lastUpdated', etag')
    ensures IsDataStale(SaveData(c, key, data, lastUpdated, expiry, etag, now, freshId), key, lastUpdated', etag', now') <==>
              || now' > expiry
              || (lastUpdated'.Some? && lastUpdated'.value > now)
              || (etag'.Some? && etag.Some? && etag'.value != etag.value)
  {
  }

  /** Stale data stays stale as time passes. */
  lemma StaleStaysStale(c: Cache, key: string, lastUpdated: Option<int>, etag: Option<string>, now: int, later: int)
    requires now <= later
    requires IsDataStale(c, key, lastUpdated, etag, now)
    ensures IsDataStale(c, key, lastUpdated, etag, later)
  {
  }

  // ---------------------------------------------------------------------
  // The JSON table
  // ---------------------------------------------------------------------

  /** A parsed JSON value. */
  datatype Json = JString(s: string) | JInt(i: int) | JNull | JObject(members: seq<(string, Json)>)

  /** The object `save_db` writes for one entry: id, creation and expiry
      as Unix seconds, and the ETag, null when there is none. */
  function EntryJson(e: Entry): (j: Json)
    ensures j.JObject? && |j.members| == 4
  {
    JObject([(IdMember, JString(e.id)), (CreatedMember, JInt(e.created)), (ExpiryMember, JInt(e.expiry)),
             (EtagMember, if e.etag.Some? then JString(e.etag.value) else JNull)])
  }

  /** True when `order` lists every key of `db` exactly once, as iterating
      the hash table does. */
  ghost predicate Enumerates(order: seq<string>, db: map<string, Entry>) {
    (forall i, j :: 0 <= i < j < |order| ==> order[i] != order[j]) && (forall k :: k in db <==> k in order)
  }

  /** Members written for the keys of `order`, in that order. */
  function SaveMembers(db: map<string, Entry>, order: seq<string>): (r: seq<(string, Json)>)
    requires forall k :: k in order ==> k in db
    ensures |r| == |order|
    ensures forall i :: 0 <= i < |r| ==> r[i] == (order[i], EntryJson(db[order[i]]))
  {
    if |order| == 0 then [] else [(order[0], EntryJson(db[order[0]]))] + SaveMembers(db, order[1..])
  }

  /** `save_db`: one member per key, in the hash table's iteration order. */
  function SaveDb(db: map<string, Entry>, order: seq<string>): (j: Json)
    requires Enumerates(order, db)
    ensures j.JObject? && |j.members| == |db.Keys|
  {
    EnumeratesCard(order, db);
    JObject(SaveMembers(db, order))
  }

  lemma {:induction false} EnumeratesCard(order: seq<string>, db: map<string, Entry>)
    requires Enumerates(order, db)
    ensures |order| == |db.Keys|
  {
    SeqSetCard(order);
    assert db.Keys == set k | k in order;
  }

  /** A sequence without repeats has as many elements as its set. */
  lemma {:induction false} SeqSetCard(order: seq<string>)
    requires forall i, j :: 0 <= i < j < |order| ==> order[i] != order[j]
    ensures |set k | k in order| == |order|
  {
    if |order| > 0 {
      var rest := order[1..];
      SeqSetCard(rest);
      assert (set k | k in order) == (set k | k in rest) + {order[0]};
      assert order[0] !in rest;
    }
  }

  /** The value of the first member called `name`. */
  function Member(ms: seq<(string, Json)>, name: string): (r: Option<Json>)
    ensures r.Some? ==> exists i :: 0 <= i < |ms| && ms[i] == (name, r.value)
    ensures r.None? <==> forall i :: 0 <= i < |ms| ==> ms[i].0 != name
  {
    if |ms| == 0 then None
    else if ms[0].0 == name then Some(ms[0].1)
    else
      var r := Member(ms[1..], name);
      if r.Some? then
        ghost var i :| 0 <= i < |ms[1..]| && ms[1..][i] == (name, r.value);
        assert ms[i + 1] == (name, r.value);
        r
      else r
  }

  /** `json_reader_get_int_value`: zero for a value that is not an
      integer. */
  function IntOf(j: Json): int {
    if j.JInt? then j.i else 0
  }

  /** The ETag as loaded: a string, or none for null or any other value. */
  function EtagOf(j: Json): Option<string> {
    if j.JString? then Some(j.s) else None
  }

  /** One iteration of `load_db`'s loop. Reading stops (`None`) when the
      value is not an object, a member is missing, or the id is not a
      string. */
  function LoadEntry(name: string, v: Json): (r: Option<Entry>)
    ensures r.Some? ==> r.value.key == name
  {
    if !v.JObject? then None
    else
      var id :- Member(v.members, IdMember);
      var created :- Member(v.members, CreatedMember);
      var expiry :- Member(v.members, ExpiryMember);
      var etag :- Member(v.members, EtagMember);
      if !id.JString? then None
      else Some(Entry(id.s, name, IntOf(created), IntOf(expiry), EtagOf(etag)))
  }

  /** Reading back what `save_db` writes for an entry gives that entry
      under the member's name. */
  lemma LoadEntryJson(name: string, e: Entry)
    ensures LoadEntry(name, EntryJson(e)) == Some(e.(key := name))
  {
    EntryJsonMembers(e);
  }

  /** Each member `save_db` writes for an entry is found by its name. */
  lemma EntryJsonMembers(e: Entry)
    ensures Member(EntryJson(e).members, IdMember) == Some(JString(e.id))
    ensures Member(EntryJson(e).members, CreatedMember) == Some(JInt(e.created))
    ensures Member(EntryJson(e).members, ExpiryMember) == Some(JInt(e.expiry))
    ensures Member(EntryJson(e).members, EtagMember) == Some(EntryJson(e).members[3].1)
  {
    // The four names have different lengths.
    assert |IdMember| == 2 && |CreatedMember| == 7 && |ExpiryMember| == 6 && |EtagMember| == 4;
    var ms := EntryJson(e).members;
    FourMembers(ms[0].0, ms[1].0, ms[2].0, ms[3].0, ms[0].1, ms[1].1, ms[2].1, ms[3].1);
    assert ms == [(ms[0].0, ms[0].1), (ms[1].0, ms[1].1), (ms[2].0, ms[2].1), (ms[3].0, ms[3].1)];
  }

  /** In a four-member object with distinct names, each name finds its own
      value. */
  lemma FourMembers(a: string, b: string, c: string, d: string, va: Json, vb: Json, vc: Json, vd: Json)
    requires a != b && a != c && a != d && b != c && b != d && c != d
    ensures Member([(a, va), (b, vb), (c, vc), (d, vd)], a) == Some(va)
    ensures Member([(a, va), (b, vb), (c, vc), (d, vd)], b) == Some(vb)
    ensures Member([(a, va), (b, vb), (c, vc), (d, vd)], c) == Some(vc)
    ensures Member([(a, va), (b, vb), (c, vc), (d, vd)], d) == Some(vd)
  {
    var ms := [(a, va), (b, vb), (c, vc), (d, vd)];
    MemberAt(ms, c, 2);
    MemberAt(ms, d, 3);
  }

  /** The member at `i` is the one found when no earlier member has its
      name. */
  lemma {:induction false} MemberAt(ms: seq<(string, Json)>, name: string, i: nat)
    requires i < |ms| && ms[i].0 == name
    requires forall j :: 0 <= j < i ==> ms[j].0 != name
    ensures Member(ms, name) == Some(ms[i].1)
    decreases i
  {
    if i > 0 {
      MemberAt(ms[1..], name, i - 1);
    }
  }

  /** `load_db`'s loop: entries are added in member order until one fails
      to read, and the ones read so far are kept. */
  function LoadMembers(ms: seq<(string, Json)>, acc: map<string, Entry>): (r: map<string, Entry>)
    ensures acc.Keys <= r.Keys
    decreases |ms|
  {
    if |ms| == 0 then acc
    else
      match LoadEntry(ms[0].0, ms[0].1)
      case None => acc
      case Some(e) => LoadMembers(ms[1..], acc[ms[0].0 := e])
  }

  /** `load_db` on the cache file: no file, or a file that does not parse,
      leaves the table empty. */
  function LoadDb(file: Option<Json>): (r: map<string, Entry>)
    ensures file.None? ==> r == map[]
  {
    match file
    case None => map[]
    case Some(j) => if j.JObject? then LoadMembers(j.members, map[]) else map[]
  }

  /** Loading the members saved for `order` adds exactly those entries. */
  lemma {:induction false} LoadSavedMembers(db: map<string, Entry>, order: seq<string>, acc: map<string, Entry>)
    requires WellKeyed(db)
    requires forall k :: k in order ==> k in db
    ensures forall k :: k in LoadMembers(SaveMembers(db, order), acc) <==> k in acc || k in order
    ensures forall k :: k in order ==> LoadMembers(SaveMembers(db, order), acc)[k] == db[k]
    ensures forall k :: k in acc && k !in order ==> LoadMembers(SaveMembers(db, order), acc)[k] == acc[k]
    decreases |order|
  {
    if |order| > 0 {
      var ms := SaveMembers(db, order);
      var k0 := order[0];
      LoadEntryJson(k0, db[k0]);
      assert db[k0].(key := k0) == db[k0];
      assert ms[1..] == SaveMembers(db, order[1..]);
      LoadSavedMembers(db, order[1..], acc[k0 := db[k0]]);
      assert forall k :: k in order <==> k == k0 || k in order[1..];
    }
  }

  /** `load_db` reads back exactly the table `save_db` wrote. */
  lemma SaveLoadRoundTrip(db: map<string, Entry>, order: seq<string>)
    requires WellKeyed(db) && Enumerates(order, db)
    ensures LoadDb(Some(SaveDb(db, order))) == db
  {
    LoadSavedMembers(db, order, map[]);
    var r := LoadDb(Some(SaveDb(db, order)));
    assert r.Keys == db.Keys;
  }
}
