/** The prediction collection of `back-end/database.py`: a duplicate-aware
    store of classified images. MongoDB is a map from record id to record;
    ids are issued in increasing order, so the collection's natural order is
    ascending id. SHA-256 and base64 are uninterpreted functions. */
module PredictionStore {
  import opened Wrappers
  import Text
  import Seqs

  type Id = nat
  type Time = int
  type Bytes = seq<bv8>
  type Meta = map<string, string>

  /** The hash and encoding the store relies on, left uninterpreted. */
  datatype Primitives = Primitives(sha256Hex: Bytes -> string, base64: Bytes -> string)

  /** `_calculate_image_hash`: the hex SHA-256 digest of the bytes. */
  function ImageHash(p: Primitives, image: Bytes): (h: string)
    ensures h == p.sha256Hex(image)
  {
    p.sha256Hex(image)
  }

  /** Text of an id as the API reports it (`str(_id)`). */
  function IdText(id: Id): (s: string)
    ensures ParseId(s) == Some(id)
  {
    Text.ParseNatToString(id);
    Text.NatToString(id)
  }

  /** `ObjectId(s)`: `None` where the constructor raises. */
  function ParseId(s: string): (r: Option<Id>)
    ensures r.Some? <==> |s| > 0 && Text.AllDigits(s)
  {
    Text.ParseNat(s)
  }

  datatype Record = Record(
    filename: string,
    predictedLabel: string,
    confidence: real,
    imageBase64: Option<string>,
    imageHash: string,
    duplicateOf: Option<Id>,
    createdAt: Time,
    updatedAt: Option<Time>,
    meta: Option<Meta>)

  datatype Db = Db(records: map<Id, Record>, nextId: Id)

  const Empty: Db := Db(map[], 0)

  /** Every stored id was issued by the allocator. */
  predicate IdsIssued(db: Db) {
    forall k :: k in db.records ==> k < db.nextId
  }

  /** Some stored record carries hash `h`. */
  predicate HashSeen(db: Db, h: string) {
    exists k :: k in db.records && db.records[k].imageHash == h
  }

  /** `k` is the first record, in natural order, that carries hash `h`. */
  predicate FirstWithHash(db: Db, h: string, k: Id) {
    && k in db.records
    && db.records[k].imageHash == h
    && forall j :: j in db.records && db.records[j].imageHash == h ==> k <= j
  }

  /** The store invariant: every record holds either the image payload or a
      reference to an earlier record, never both and never neither, and at
      most one record per hash holds the payload. */
  predicate Valid(db: Db) {
    && IdsIssued(db)
    && (forall k :: k in db.records ==>
          (db.records[k].imageBase64.Some? <==> db.records[k].duplicateOf.None?))
    && (forall k :: k in db.records && db.records[k].duplicateOf.Some? ==>
          db.records[k].duplicateOf.value < k)
    && (forall k1, k2 ::
          && k1 in db.records && k2 in db.records
          && db.records[k1].imageBase64.Some? && db.records[k2].imageBase64.Some?
          && db.records[k1].imageHash == db.records[k2].imageHash
          ==> k1 == k2)
  }

  lemma EmptyValid()
    ensures Valid(Empty) && |Empty.records| == 0
  {
  }

  /** Scans ids `i, i + 1, ..., bound - 1` for the first record with hash `h`. */
  function FindFrom(recs: map<Id, Record>, h: string, i: nat, bound: nat): (r: Option<Id>)
    ensures r.Some? ==> i <= r.value < bound && r.value in recs && recs[r.value].imageHash == h
    ensures r.Some? ==> forall k :: i <= k < r.value && k in recs ==> recs[k].imageHash != h
    ensures r.None? ==> forall k :: i <= k < bound && k in recs ==> recs[k].imageHash != h
    decreases bound - i
  {
    if i >= bound then None
    else if i in recs && recs[i].imageHash == h then Some(i)
    else FindFrom(recs, h, i + 1, bound)
  }

  /** `collection.find_one({"image_hash": h})`. */
  function FindByHash(db: Db, h: string): (r: Option<Id>)
    requires IdsIssued(db)
    ensures r.None? <==> !HashSeen(db, h)
    ensures r.Some? ==> FirstWithHash(db, h, r.value)
  {
    FindFrom(db.records, h, 0, db.nextId)
  }

  /** What `check_duplicate` reports about the record it found. */
  datatype DuplicateInfo = DuplicateInfo(
    id: Id, filename: string, predictedLabel: string, confidence: real, createdAt: Time)

  /** `check_duplicate`: information on a stored record with the same image
      hash, or `None` when there is none. */
  function CheckDuplicate(p: Primitives, db: Db, image: Bytes): (r: Option<DuplicateInfo>)
    requires IdsIssued(db)
    ensures r.Some? <==> HashSeen(db, ImageHash(p, image))
    ensures r.Some? ==>
      && FirstWithHash(db, ImageHash(p, image), r.value.id)
      && var rec := db.records[r.value.id];
      && r.value.filename == rec.filename
      && r.value.predictedLabel == rec.predictedLabel
      && r.value.confidence == rec.confidence
      && r.value.createdAt == rec.createdAt
  {
    match FindByHash(db, ImageHash(p, image))
    case None => None
    case Some(k) =>
      var rec := db.records[k];
      Some(DuplicateInfo(k, rec.filename, rec.predictedLabel, rec.confidence, rec.createdAt))
  }

  /** Python's `if extra:`: a metadata dict counts only when present and
      non-empty. */
  predicate Given(extra: Option<Meta>) {
    extra.Some? && |extra.value| > 0
  }

  /** The `meta` field of a newly inserted record. */
  function MetaOf(extra: Option<Meta>): Option<Meta> {
    if Given(extra) then extra else None
  }

  /** `db2` is `db` with exactly one record added, under a fresh id. */
  predicate InsertedOne(db: Db, db2: Db, id: Id) {
    && id !in db.records
    && db2.records.Keys == db.records.Keys + {id}
    && (forall k :: k in db.records ==> db2.records[k] == db.records[k])
  }

  /** `db2` still holds every record of `db`, each with its hash. */
  predicate KeepsHashes(db: Db, db2: Db) {
    && db.records.Keys <= db2.records.Keys
    && forall k :: k in db.records ==> db2.records[k].imageHash == db.records[k].imageHash
  }

  /** A hash seen before stays seen. */
  lemma KeepsHashesSeen(db: Db, db2: Db, h: string)
    requires KeepsHashes(db, db2)
    ensures HashSeen(db, h) ==> HashSeen(db2, h)
  {
    if HashSeen(db, h) {
      var k :| k in db.records && db.records[k].imageHash == h;
      assert db2.records[k].imageHash == h;
    }
  }

  /** Outcome of `save_prediction`: the new store, the reported id and
      whether a record was created. */
  datatype Saved = Saved(db: Db, id: Id, isNew: bool)

  function Insert(db: Db, rec: Record): (r: Saved)
    requires IdsIssued(db)
    ensures IdsIssued(r.db) && r.isNew && r.id == db.nextId
    ensures InsertedOne(db, r.db, r.id) && r.db.records[r.id] == rec
  {
    Saved(Db(db.records[db.nextId := rec], db.nextId + 1), db.nextId, true)
  }

  /** `save_prediction`. An unseen hash inserts a record with the base64
      payload; a seen hash either inserts a payload-less record that refers
      to the first record with that hash, or, with `updateExisting`, patches
      that record in place. */
  function SavePrediction(
    p: Primitives, db: Db, filename: string, image: Bytes, predictedLabel: string,
    confidence: real, extra: Option<Meta>, updateExisting: bool, now: Time): (r: Saved)
    requires IdsIssued(db)
    ensures IdsIssued(r.db)
    ensures r.isNew <==> !(HashSeen(db, ImageHash(p, image)) && updateExisting)
    // unseen hash: one new record that carries the payload
    ensures !HashSeen(db, ImageHash(p, image)) ==>
      && InsertedOne(db, r.db, r.id)
      && r.db.records[r.id] == Record(filename, predictedLabel, confidence,
           Some(p.base64(image)), ImageHash(p, image), None, now, None, MetaOf(extra))
    // seen hash, no update: one new record without payload, pointing at the original
    ensures HashSeen(db, ImageHash(p, image)) && !updateExisting ==>
      && InsertedOne(db, r.db, r.id)
      && var rec := r.db.records[r.id];
      && rec.duplicateOf.Some?
      && FirstWithHash(db, ImageHash(p, image), rec.duplicateOf.value)
      && rec == Record(filename, predictedLabel, confidence,
           None, ImageHash(p, image), rec.duplicateOf, now, None, MetaOf(extra))
    // seen hash, update: nothing inserted, only the first match changes
    ensures HashSeen(db, ImageHash(p, image)) && updateExisting ==>
      && FirstWithHash(db, ImageHash(p, image), r.id)
      && r.db.nextId == db.nextId
      && r.db.records.Keys == db.records.Keys
      && (forall k :: k in db.records && k != r.id ==> r.db.records[k] == db.records[k])
      && var before := db.records[r.id];
      && r.db.records[r.id] == before.(
           filename := filename, predictedLabel := predictedLabel, confidence := confidence,
           updatedAt := Some(now), meta := if Given(extra) then extra else before.meta)
  {
    var h := ImageHash(p, image);
    match FindByHash(db, h)
    case Some(k) =>
      if updateExisting then
        var before := db.records[k];
        var patched := before.(
          filename := filename, predictedLabel := predictedLabel, confidence := confidence,
          updatedAt := Some(now), meta := if Given(extra) then extra else before.meta);
        Saved(db.(records := db.records[k := patched]), k, false)
      else
        Insert(db, Record(filename, predictedLabel, confidence, None, h, Some(k), now, None, MetaOf(extra)))
    case None =>
      Insert(db, Record(filename, predictedLabel, confidence, Some(p.base64(image)), h, None, now, None, MetaOf(extra)))
  }

  /** Adding a record that carries the payload of a hash nobody holds keeps
      the invariant. */
  lemma InsertOriginalKeepsValid(db: Db, rec: Record)
    requires Valid(db)
    requires rec.imageBase64.Some? && rec.duplicateOf.None?
    requires !HashSeen(db, rec.imageHash)
    ensures Valid(Insert(db, rec).db)
  {
    var r := Insert(db, rec);
    forall k1, k2 |
      && k1 in r.db.records && k2 in r.db.records
      && r.db.records[k1].imageBase64.Some? && r.db.records[k2].imageBase64.Some?
      && r.db.records[k1].imageHash == r.db.records[k2].imageHash
      ensures k1 == k2
    {
    }
  }

  /** Adding a payload-less record that refers to a stored one keeps the
      invariant. */
  lemma InsertReferenceKeepsValid(db: Db, rec: Record)
    requires Valid(db)
    requires rec.imageBase64.None? && rec.duplicateOf.Some? && rec.duplicateOf.value in db.records
    ensures Valid(Insert(db, rec).db)
  {
  }

  /** Patching the descriptive fields of a stored record keeps the invariant. */
  lemma PatchKeepsValid(db: Db, k: Id, rec: Record)
    requires Valid(db) && k in db.records
    requires rec.imageBase64 == db.records[k].imageBase64
    requires rec.imageHash == db.records[k].imageHash
    requires rec.duplicateOf == db.records[k].duplicateOf
    ensures Valid(db.(records := db.records[k := rec]))
  {
    var db2 := db.(records := db.records[k := rec]);
    forall j | j in db2.records
      ensures db2.records[j].imageBase64 == db.records[j].imageBase64
      ensures db2.records[j].imageHash == db.records[j].imageHash
      ensures db2.records[j].duplicateOf == db.records[j].duplicateOf
    {
    }
  }

  /** Saving keeps the store invariant. */
  lemma SavePreservesValid(
    p: Primitives, db: Db, filename: string, image: Bytes, predictedLabel: string,
    confidence: real, extra: Option<Meta>, updateExisting: bool, now: Time)
    requires Valid(db)
    ensures Valid(SavePrediction(p, db, filename, image, predictedLabel, confidence, extra, updateExisting, now).db)
  {
    var h := ImageHash(p, image);
    match FindByHash(db, h)
    case Some(k) =>
      if updateExisting {
        var before := db.records[k];
        PatchKeepsValid(db, k, before.(
          filename := filename, predictedLabel := predictedLabel, confidence := confidence,
          updatedAt := Some(now), meta := if Given(extra) then extra else before.meta));
      } else {
        InsertReferenceKeepsValid(db, Record(filename, predictedLabel, confidence, None, h, Some(k), now, None, MetaOf(extra)));
      }
    case None =>
      InsertOriginalKeepsValid(db, Record(filename, predictedLabel, confidence, Some(p.base64(image)), h, None, now, None, MetaOf(extra)));
  }

  /** Once an image is saved, the store reports it as a duplicate. */
  lemma SavedImageIsDuplicate(
    p: Primitives, db: Db, filename: string, image: Bytes, predictedLabel: string,
    confidence: real, extra: Option<Meta>, updateExisting: bool, now: Time)
    requires IdsIssued(db)
    ensures var r := SavePrediction(p, db, filename, image, predictedLabel, confidence, extra, updateExisting, now);
            CheckDuplicate(p, r.db, image).Some?
  {
    var r := SavePrediction(p, db, filename, image, predictedLabel, confidence, extra, updateExisting, now);
    assert r.id in r.db.records && r.db.records[r.id].imageHash == ImageHash(p, image);
  }

  /** The store tells images apart only by their hash: two images with one
      hash get the same duplicate report. */
  lemma SameHashSameReport(p: Primitives, db: Db, a: Bytes, b: Bytes)
    requires IdsIssued(db) && ImageHash(p, a) == ImageHash(p, b)
    ensures CheckDuplicate(p, db, a) == CheckDuplicate(p, db, b)
  {
  }

  /** Saving drops no record and changes no stored hash, and leaves the
      image's hash stored. */
  lemma SaveKeepsHashes(
    p: Primitives, db: Db, filename: string, image: Bytes, predictedLabel: string,
    confidence: real, extra: Option<Meta>, updateExisting: bool, now: Time)
    requires IdsIssued(db)
    ensures var r := SavePrediction(p, db, filename, image, predictedLabel, confidence, extra, updateExisting, now);
            KeepsHashes(db, r.db) && HashSeen(r.db, ImageHash(p, image))
  {
    var r := SavePrediction(p, db, filename, image, predictedLabel, confidence, extra, updateExisting, now);
    assert r.id in r.db.records && r.db.records[r.id].imageHash == ImageHash(p, image);
  }

  /** Saving a new image and then the same image again without updating
      yields a second record that refers to the first. */
  lemma ResaveRefersToFirst(
    p: Primitives, db: Db, image: Bytes, name1: string, label1: string, conf1: real,
    name2: string, label2: string, conf2: real, extra: Option<Meta>, t1: Time, t2: Time)
    requires IdsIssued(db)
    requires !HashSeen(db, ImageHash(p, image))
    ensures var first := SavePrediction(p, db, name1, image, label1, conf1, extra, false, t1);
            var second := SavePrediction(p, first.db, name2, image, label2, conf2, extra, false, t2);
            && first.isNew && second.isNew && first.id != second.id
            && second.db.records[second.id].duplicateOf == Some(first.id)
            && second.db.records[second.id].imageBase64 == None
            && first.db.records[first.id].imageBase64 == Some(p.base64(image))
  {
    var h := ImageHash(p, image);
    var first := SavePrediction(p, db, name1, image, label1, conf1, extra, false, t1);
    assert first.db.records[first.id].imageHash == h;
    forall k | k in first.db.records && first.db.records[k].imageHash == h
      ensures k == first.id
    {
    }
  }

  // ---------------------------------------------------------------------
  // get_history

  /** Ids in `recs` between `i` (inclusive) and `bound` (exclusive), each
      once, ascending. */
  function KeysFrom(recs: map<Id, Record>, i: nat, bound: nat): (r: seq<Id>)
    ensures forall j :: 0 <= j < |r| ==> r[j] in recs && i <= r[j] < bound
    ensures forall k :: k in recs && i <= k < bound ==> k in r
    ensures Seqs.Distinct(r)
    decreases bound - i
  {
    if i >= bound then []
    else if i in recs then [i] + KeysFrom(recs, i + 1, bound)
    else KeysFrom(recs, i + 1, bound)
  }

  predicate AllStored(recs: map<Id, Record>, s: seq<Id>) {
    forall j :: 0 <= j < |s| ==> s[j] in recs
  }

  /** Newest first: `created_at` never increases along `s`. */
  predicate NewestFirst(recs: map<Id, Record>, s: seq<Id>)
    requires AllStored(recs, s)
  {
    forall a, b :: 0 <= a < b < |s| ==> recs[s[a]].createdAt >= recs[s[b]].createdAt
  }

  /** Places `k` before the first entry that is not newer than it. */
  function InsertByTime(recs: map<Id, Record>, k: Id, s: seq<Id>): (r: seq<Id>)
    requires k in recs && AllStored(recs, s)
    ensures |r| == |s| + 1
    ensures forall x :: x in r <==> x == k || x in s
    ensures AllStored(recs, r)
    ensures k !in s && Seqs.Distinct(s) ==> Seqs.Distinct(r)
  {
    if s == [] then [k]
    else if recs[k].createdAt >= recs[s[0]].createdAt then [k] + s
    else
      var rest := InsertByTime(recs, k, s[1..]);
      assert s == [s[0]] + s[1..];
      assert k !in s && Seqs.Distinct(s) ==> s[0] !in rest;
      [s[0]] + rest
  }

  lemma {:induction false} InsertByTimeSorted(recs: map<Id, Record>, k: Id, s: seq<Id>)
    requires k in recs && AllStored(recs, s) && NewestFirst(recs, s)
    ensures NewestFirst(recs, InsertByTime(recs, k, s))
  {
    if s != [] && recs[k].createdAt < recs[s[0]].createdAt {
      var rest := InsertByTime(recs, k, s[1..]);
      InsertByTimeSorted(recs, k, s[1..]);
      var r := [s[0]] + rest;
      forall b | 0 < b < |r|
        ensures recs[r[0]].createdAt >= recs[r[b]].createdAt
      {
        assert r[b] in rest;
        if r[b] != k {
          var j :| 0 <= j < |s[1..]| && s[1..][j] == r[b];
          assert s[j + 1] == r[b];
        }
      }
    }
  }

  /** Stable insertion sort by `created_at`, newest first. */
  function SortByTime(recs: map<Id, Record>, s: seq<Id>): (r: seq<Id>)
    requires AllStored(recs, s)
    ensures |r| == |s|
    ensures forall x :: x in r <==> x in s
    ensures AllStored(recs, r)
    ensures Seqs.Distinct(s) ==> Seqs.Distinct(r)
  {
    if s == [] then []
    else
      assert s == [s[0]] + s[1..];
      InsertByTime(recs, s[0], SortByTime(recs, s[1..]))
  }

  lemma {:induction false} SortByTimeSorted(recs: map<Id, Record>, s: seq<Id>)
    requires AllStored(recs, s)
    ensures NewestFirst(recs, SortByTime(recs, s))
  {
    if s != [] {
      SortByTimeSorted(recs, s[1..]);
      InsertByTimeSorted(recs, s[0], SortByTime(recs, s[1..]));
    }
  }

  /** `find({}).sort("created_at", -1)`: every stored id once, newest first. */
  function HistoryOrder(db: Db): (r: seq<Id>)
    requires IdsIssued(db)
    ensures AllStored(db.records, r) && NewestFirst(db.records, r)
    ensures forall k :: k in db.records <==> k in r
    ensures Seqs.Distinct(r)
    ensures |r| == |db.records|
  {
    var keys := KeysFrom(db.records, 0, db.nextId);
    var r := SortByTime(db.records, keys);
    SortByTimeSorted(db.records, keys);
    Seqs.DistinctElements(r);
    assert Seqs.Elements(r) == db.records.Keys;
    r
  }

  /** A prefix of a newest-first sequence of distinct ids is newest-first,
      and no id left out is newer than one kept. */
  lemma PrefixIsNewest(recs: map<Id, Record>, s: seq<Id>, n: nat)
    requires n <= |s| && AllStored(recs, s) && NewestFirst(recs, s) && Seqs.Distinct(s)
    ensures AllStored(recs, s[..n]) && NewestFirst(recs, s[..n]) && Seqs.Distinct(s[..n])
    ensures forall k, i :: k in s && k !in s[..n] && 0 <= i < n
              ==> recs[k].createdAt <= recs[s[i]].createdAt
  {
    forall k, i | k in s && k !in s[..n] && 0 <= i < n
      ensures recs[k].createdAt <= recs[s[i]].createdAt
    {
      var m :| 0 <= m < |s| && s[m] == k;
      assert n <= m;
    }
  }

  /** `.limit(limit)` applied to the sorted ids: the `limit` newest (all of
      them when `limit` is 0). */
  function RecentIds(db: Db, limit: nat): (r: seq<Id>)
    requires IdsIssued(db)
    ensures |r| == LimitCount(limit, |db.records|)
    ensures AllStored(db.records, r) && NewestFirst(db.records, r) && Seqs.Distinct(r)
    ensures forall k, i :: k in db.records && k !in r && 0 <= i < |r|
              ==> db.records[k].createdAt <= db.records[r[i]].createdAt
  {
    var order := HistoryOrder(db);
    var n := LimitCount(limit, |db.records|);
    PrefixIsNewest(db.records, order, n);
    order[..n]
  }

  /** The number of records `.limit(limit)` lets through; 0 means no limit. */
  function LimitCount(limit: nat, size: nat): nat {
    if limit == 0 || limit >= size then size else limit
  }

  /** One entry of the `get_history` response. */
  datatype HistoryItem = HistoryItem(
    id: Id, filename: string, predictedLabel: string, confidence: real,
    imageBase64: Option<string>, createdAt: Time, meta: Option<Meta>, isDuplicate: bool)

  /** The image shown for a record: its own payload, or, when it has none
      and refers to an original that still exists, the original's. */
  function ResolveImage(db: Db, rec: Record): (r: Option<string>)
    ensures Text.Truthy(rec.imageBase64) ==> r == rec.imageBase64
    ensures (!Text.Truthy(rec.imageBase64) && rec.duplicateOf.Some? && rec.duplicateOf.value in db.records)
              ==> r == db.records[rec.duplicateOf.value].imageBase64
    ensures (!Text.Truthy(rec.imageBase64) && (rec.duplicateOf.None? || rec.duplicateOf.value !in db.records))
              ==> r == rec.imageBase64
  {
    if !Text.Truthy(rec.imageBase64) && rec.duplicateOf.Some? then
      if rec.duplicateOf.value in db.records then db.records[rec.duplicateOf.value].imageBase64
      else rec.imageBase64
    else rec.imageBase64
  }

  /** `item` reports the stored record it names. */
  predicate Reports(db: Db, item: HistoryItem) {
    && item.id in db.records
    && var rec := db.records[item.id];
    && item.filename == rec.filename && item.predictedLabel == rec.predictedLabel
    && item.confidence == rec.confidence && item.createdAt == rec.createdAt
    && item.meta == rec.meta
    && (item.isDuplicate <==> rec.duplicateOf.Some?)
    && item.imageBase64 == ResolveImage(db, rec)
  }

  function ToItem(db: Db, k: Id): (r: HistoryItem)
    requires k in db.records
    ensures r.id == k && Reports(db, r)
  {
    var rec := db.records[k];
    HistoryItem(k, rec.filename, rec.predictedLabel, rec.confidence, ResolveImage(db, rec),
                rec.createdAt, rec.meta, rec.duplicateOf.Some?)
  }

  function ItemIds(r: seq<HistoryItem>): (ids: seq<Id>)
    ensures |ids| == |r| && forall i :: 0 <= i < |r| ==> ids[i] == r[i].id
  {
    seq(|r|, i requires 0 <= i < |r| => r[i].id)
  }

  /** `get_history(limit)`: the `limit` most recent records (all of them when
      `limit` is 0), newest first, each with its image resolved through
      `duplicate_of`. */
  function GetHistory(db: Db, limit: nat): (r: seq<HistoryItem>)
    requires IdsIssued(db)
    ensures |r| == LimitCount(limit, |db.records|)
    ensures limit > 0 ==> |r| <= limit
    ensures forall i :: 0 <= i < |r| ==> Reports(db, r[i])
    ensures Seqs.Distinct(ItemIds(r))
    ensures forall a, b :: 0 <= a < b < |r| ==> r[a].createdAt >= r[b].createdAt
    // a record left out is no newer than any record returned
    ensures forall k, i :: k in db.records && k !in ItemIds(r) && 0 <= i < |r|
              ==> db.records[k].createdAt <= r[i].createdAt
  {
    var ids := RecentIds(db, limit);
    var r := seq(|ids|, i requires 0 <= i < |ids| => ToItem(db, ids[i]));
    assert ItemIds(r) == ids;
    r
  }

  // ---------------------------------------------------------------------
  // get_analytics (document counts)

  datatype Counts = Counts(totalPredictions: nat, uniqueImages: nat, duplicateCount: nat)

  /** The records matching `{"image_base64": {"$exists": true, "$ne": null}}`. */
  function PayloadIds(db: Db): set<Id> {
    set k | k in db.records && db.records[k].imageBase64.Some?
  }

  /** The records matching `{"duplicate_of": {"$exists": true, "$ne": null}}`. */
  function DuplicateIds(db: Db): set<Id> {
    set k | k in db.records && db.records[k].duplicateOf.Some?
  }

  function StoredHashes(db: Db): set<string> {
    set k | k in db.records :: db.records[k].imageHash
  }

  /** The three document counts of `get_analytics`. */
  function AnalyticsCounts(db: Db): (c: Counts)
    ensures c.totalPredictions == |db.records|
    ensures c.uniqueImages == |PayloadIds(db)| && c.duplicateCount == |DuplicateIds(db)|
    ensures c.uniqueImages <= c.totalPredictions && c.duplicateCount <= c.totalPredictions
  {
    var keys := db.records.Keys;
    assert keys == PayloadIds(db) + (keys - PayloadIds(db));
    assert keys == DuplicateIds(db) + (keys - DuplicateIds(db));
    Counts(|db.records|, |PayloadIds(db)|, |DuplicateIds(db)|)
  }

  /** In a valid store every record is either a unique image or a duplicate. */
  lemma CountsPartition(db: Db)
    requires Valid(db)
    ensures var c := AnalyticsCounts(db); c.uniqueImages + c.duplicateCount == c.totalPredictions
  {
    assert PayloadIds(db) !! DuplicateIds(db);
    assert PayloadIds(db) + DuplicateIds(db) == db.records.Keys;
  }

  /** Hashes of the records in `ids`. */
  function HashesOf(db: Db, ids: set<Id>): set<string>
    requires ids <= db.records.Keys
  {
    set k | k in ids :: db.records[k].imageHash
  }

  lemma {:induction false} PayloadHashesDistinct(db: Db, ids: set<Id>)
    requires Valid(db) && ids <= PayloadIds(db)
    ensures |HashesOf(db, ids)| == |ids|
    decreases |ids|
  {
    if ids != {} {
      var x :| x in ids;
      var rest := ids - {x};
      PayloadHashesDistinct(db, rest);
      assert HashesOf(db, ids) == HashesOf(db, rest) + {db.records[x].imageHash};
      assert db.records[x].imageHash !in HashesOf(db, rest);
    }
  }

  /** A valid store holds at most one payload per distinct image hash. */
  lemma UniqueImagesBound(db: Db)
    requires Valid(db)
    ensures AnalyticsCounts(db).uniqueImages <= |StoredHashes(db)|
  {
    PayloadHashesDistinct(db, PayloadIds(db));
    var mine := HashesOf(db, PayloadIds(db));
    var all := StoredHashes(db);
    assert mine <= all;
    Seqs.RemovedCount(all, all - mine, mine);
  }

  // ---------------------------------------------------------------------
  // delete_predictions

  /** The ids that parse, in order; malformed ones are skipped. */
  function ParsedIds(ids: seq<string>): (r: seq<Id>)
    ensures |r| <= |ids|
    ensures forall k :: k in r <==> exists s :: s in ids && ParseId(s) == Some(k)
  {
    if ids == [] then []
    else
      var rest := ParsedIds(ids[1..]);
      assert ids == [ids[0]] + ids[1..];
      match ParseId(ids[0])
      case Some(k) => [k] + rest
      case None => rest
  }

  datatype Deleted = Deleted(db: Db, count: nat)

  /** `delete_predictions`: removes the records whose id is listed and
      reports how many went. */
  function DeletePredictions(db: Db, ids: seq<string>): (r: Deleted)
    ensures r.db.nextId == db.nextId
    ensures |ParsedIds(ids)| == 0 ==> r == Deleted(db, 0)
    ensures forall k :: k in r.db.records <==>
              k in db.records && !(exists s :: s in ids && ParseId(s) == Some(k))
    ensures forall k :: k in r.db.records ==> r.db.records[k] == db.records[k]
    ensures r.count == |db.records| - |r.db.records|
    ensures r.count <= |ParsedIds(ids)|
  {
    var valid := ParsedIds(ids);
    if |valid| == 0 then Deleted(db, 0)
    else
      var targets := Seqs.Elements(valid);
      var kept := db.records - targets;
      var gone := db.records.Keys * targets;
      assert kept.Keys == db.records.Keys - gone;
      assert gone <= db.records.Keys;
      assert |kept.Keys| == |db.records.Keys| - |gone|;
      assert |gone| <= |targets|;
      Seqs.ElementsBound(valid);
      Deleted(Db(kept, db.nextId), |gone|)
  }

  /** Deleting keeps the store invariant. */
  lemma DeletePreservesValid(db: Db, ids: seq<string>)
    requires Valid(db)
    ensures Valid(DeletePredictions(db, ids).db)
  {
  }

  /** The texts of `ks`, as the API reports them. */
  function IdTexts(ks: seq<Id>): (r: seq<string>)
    ensures |r| == |ks|
    ensures forall k :: (exists s :: s in r && ParseId(s) == Some(k)) <==> k in ks
  {
    if ks == [] then []
    else
      var rest := IdTexts(ks[1..]);
      assert ks == [ks[0]] + ks[1..];
      [IdText(ks[0])] + rest
  }

  /** Deleting the texts of `ks` leaves exactly the records not in `ks`. */
  lemma DeleteReportedKeys(db: Db, ks: seq<Id>)
    ensures DeletePredictions(db, IdTexts(ks)).db.records.Keys == db.records.Keys - Seqs.Elements(ks)
  {
    var texts := IdTexts(ks);
    var r := DeletePredictions(db, texts);
    forall k | k in db.records
      ensures k in r.db.records <==> k !in ks
    {
      assert (exists s :: s in texts && ParseId(s) == Some(k)) <==> k in ks;
    }
  }

  /** The count reported for deleting the texts of `ks` is the number of
      stored records among `ks`. */
  lemma DeleteReportedCount(db: Db, ks: seq<Id>)
    ensures DeletePredictions(db, IdTexts(ks)).count == |db.records.Keys * Seqs.Elements(ks)|
  {
    var r := DeletePredictions(db, IdTexts(ks));
    DeleteReportedKeys(db, ks);
    Seqs.RemovedMeet(db.records.Keys, r.db.records.Keys, Seqs.Elements(ks));
  }

  /** Deleting the ids the API reported removes exactly those records. */
  lemma DeleteReportedIds(db: Db, ks: seq<Id>)
    ensures var r := DeletePredictions(db, IdTexts(ks));
            && (forall k :: k in r.db.records <==> k in db.records && k !in ks)
            && r.count == |db.records.Keys * Seqs.Elements(ks)|
  {
    DeleteReportedKeys(db, ks);
    DeleteReportedCount(db, ks);
  }

  /** Once every payload-bearing record of an image is gone, saving that
      image again without updating stores a record whose history image is
      absent: the picture is not restored. */
  lemma ResaveAfterOriginalDeleted(
    p: Primitives, db: Db, filename: string, image: Bytes, predictedLabel: string,
    confidence: real, extra: Option<Meta>, now: Time)
    requires Valid(db)
    requires HashSeen(db, ImageHash(p, image))
    requires forall k :: k in db.records && db.records[k].imageHash == ImageHash(p, image)
               ==> db.records[k].imageBase64.None?
    ensures var r := SavePrediction(p, db, filename, image, predictedLabel, confidence, extra, false, now);
            ResolveImage(r.db, r.db.records[r.id]) == None
  {
  }
}
