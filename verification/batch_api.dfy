/** The prediction endpoints of `back-end/main.py`: the per-file result
    list and counts of `/batch-predict`, and the response of `/predict`.
    Reading the upload, opening it as an image and classifying it are
    collaborators; what they produced for each file is the input. */
module BatchApi {
  import opened Wrappers
  import Store = PredictionStore

  /** What `predict_image` returns. */
  datatype Prediction = Prediction(predictedLabel: string, confidence: real, tag: Option<string>)

  /** How the call to `save_prediction` for one file ended. */
  datatype SaveOutcome = SavedAs(isNewRecord: bool) | SaveRaised

  /** How far the endpoint got with one uploaded file. */
  datatype FileAttempt =
    | Unprocessable(filename: string, error: string)
    | Classified(filename: string, result: Prediction,
                 duplicate: Option<Store.DuplicateInfo>, save: SaveOutcome)

  /** One element of the `results` list. */
  datatype BatchEntry =
    | Succeeded(filename: string, result: Prediction, isDuplicate: bool,
                isNewRecord: bool, duplicateInfo: Option<Store.DuplicateInfo>)
    | Errored(filename: string, error: string)

  /** `"result" in r`. */
  predicate HasResult(e: BatchEntry) {
    e.Succeeded?
  }

  /** `"error" in r`. */
  predicate HasError(e: BatchEntry) {
    e.Errored?
  }

  /** `r.get("is_duplicate", False)`. */
  predicate FlaggedDuplicate(e: BatchEntry) {
    e.Succeeded? && e.isDuplicate
  }

  /** `r.get("is_new_record", False)`. */
  predicate FlaggedNew(e: BatchEntry) {
    e.Succeeded? && e.isNewRecord
  }

  /** The entry the loop body appends for one file. */
  function EntryFor(a: FileAttempt): (e: BatchEntry)
    ensures e.filename == a.filename
    ensures HasResult(e) != HasError(e)
    ensures HasResult(e) <==> a.Classified?
    ensures a.Classified? ==>
      && e.result == a.result
      && (e.isDuplicate <==> a.duplicate.Some?)
      && (e.duplicateInfo.Some? <==> e.isDuplicate)
      && (e.isDuplicate ==> e.duplicateInfo == a.duplicate)
    // a failed save does not fail the file, and the record still counts as new
    ensures a.Classified? && a.save.SaveRaised? ==> e.isNewRecord
    ensures a.Classified? && a.save.SavedAs? ==> e.isNewRecord == a.save.isNewRecord
    ensures a.Unprocessable? ==> e.error == a.error
  {
    match a
    case Unprocessable(name, err) => Errored(name, err)
    case Classified(name, result, dup, save) =>
      var isNew := match save
        case SavedAs(n) => n
        case SaveRaised => true;
      Succeeded(name, result, dup.Some?, isNew, if dup.Some? then dup else None)
  }

  /** How many entries satisfy `f`. */
  function CountIf(s: seq<BatchEntry>, f: BatchEntry -> bool): (n: nat)
    ensures n <= |s|
  {
    if s == [] then 0 else (if f(s[0]) then 1 else 0) + CountIf(s[1..], f)
  }

  /** Counting a weaker condition never gives less. */
  lemma {:induction false} CountIfMonotone(s: seq<BatchEntry>, f: BatchEntry -> bool, g: BatchEntry -> bool)
    requires forall e :: f(e) ==> g(e)
    ensures CountIf(s, f) <= CountIf(s, g)
  {
    if s != [] {
      CountIfMonotone(s[1..], f, g);
    }
  }

  /** Every entry is counted exactly when every entry satisfies `f`. */
  lemma {:induction false} CountIfAll(s: seq<BatchEntry>, f: BatchEntry -> bool)
    ensures CountIf(s, f) == |s| <==> forall i :: 0 <= i < |s| ==> f(s[i])
  {
    if s != [] {
      CountIfAll(s[1..], f);
      assert forall i :: 1 <= i < |s| ==> s[i] == s[1..][i - 1];
    }
  }

  datatype BatchResponse = BatchResponse(
    results: seq<BatchEntry>, total: nat, success: nat, duplicates: nat, newRecords: nat)

  /** `/batch-predict`: one entry per file in upload order, and the counts. */
  function BatchPredict(attempts: seq<FileAttempt>): (r: BatchResponse)
    ensures |r.results| == |attempts| == r.total
    ensures forall i :: 0 <= i < |attempts| ==> r.results[i] == EntryFor(attempts[i])
    ensures r.success == CountIf(r.results, HasResult)
    ensures r.duplicates == CountIf(r.results, FlaggedDuplicate)
    ensures r.newRecords == CountIf(r.results, FlaggedNew)
    ensures r.duplicates <= r.success <= r.total
    ensures r.newRecords <= r.success
  {
    var results := seq(|attempts|, i requires 0 <= i < |attempts| => EntryFor(attempts[i]));
    CountIfMonotone(results, FlaggedDuplicate, HasResult);
    CountIfMonotone(results, FlaggedNew, HasResult);
    BatchResponse(results, |results|, CountIf(results, HasResult),
                  CountIf(results, FlaggedDuplicate), CountIf(results, FlaggedNew))
  }

  // ---------------------------------------------------------------------
  // /predict

  const NewRecordMessage: string := "This image was already uploaded before. A new record was created."
  const UpdatedMessage: string := "This image was already uploaded. Existing record was updated."
  const SavedMessage: string := "New prediction saved successfully."

  datatype PredictResponse = PredictResponse(
    filename: string, result: Prediction, isDuplicate: bool, isNewRecord: bool,
    duplicateInfo: Option<Store.DuplicateInfo>, message: string)

  /** The body `/predict` returns. */
  function PredictReply(
    filename: string, result: Prediction, duplicate: Option<Store.DuplicateInfo>,
    save: SaveOutcome, updateIfDuplicate: bool): (r: PredictResponse)
    ensures r.filename == filename && r.result == result
    ensures r.isDuplicate <==> duplicate.Some?
    ensures r.duplicateInfo.Some? <==> r.isDuplicate
    ensures r.isDuplicate ==> r.duplicateInfo == duplicate
    ensures r.message == NewRecordMessage <==> r.isDuplicate && !updateIfDuplicate
    ensures r.message == UpdatedMessage <==> r.isDuplicate && updateIfDuplicate
    ensures r.message == SavedMessage <==> !r.isDuplicate
    ensures save.SaveRaised? ==> r.isNewRecord
    ensures save.SavedAs? ==> r.isNewRecord == save.isNewRecord
  {
    var isNew := match save
      case SavedAs(n) => n
      case SaveRaised => true;
    if duplicate.Some? then
      PredictResponse(filename, result, true, isNew, duplicate,
                      if !updateIfDuplicate then NewRecordMessage else UpdatedMessage)
    else
      PredictResponse(filename, result, false, isNew, None, SavedMessage)
  }

  // ---------------------------------------------------------------------
  // The batch loop over the store

  /** One uploaded file. */
  datatype Upload = Upload(filename: string, contentType: string, image: Store.Bytes)

  /** `file.filename or f"batch_{file.filename}"`. */
  function StoredName(filename: string): (r: string)
    ensures r != ""
    ensures filename != "" ==> r == filename
    ensures filename == "" ==> r == "batch_"
  {
    if filename != "" then filename else "batch_" + filename
  }

  /** The metadata the endpoint passes to `save_prediction`. */
  function UploadMeta(u: Upload): Store.Meta {
    map["content_type" := u.contentType]
  }

  /** The loop body of `/batch-predict` with `save_prediction` called
      through its own signature. `classify` is `None` where opening or
      classifying the image raised; `now` is the time `save_prediction`
      reads. */
  function ProcessUpload(
    p: Store.Primitives, db: Store.Db, u: Upload, classify: Store.Bytes -> Option<Prediction>,
    updateIfDuplicate: bool, now: Store.Time): (r: (Store.Db, FileAttempt))
    requires Store.IdsIssued(db)
    ensures Store.IdsIssued(r.0) && r.1.filename == u.filename
    ensures Store.KeepsHashes(db, r.0)
    ensures r.1.Classified? <==> classify(u.image).Some?
    ensures r.1.Unprocessable? ==> r.0 == db
    // a classified file is checked against the store before it is saved
    ensures r.1.Classified? ==>
      && r.1.result == classify(u.image).value
      && r.1.duplicate == Store.CheckDuplicate(p, db, u.image)
      && (r.1.duplicate.Some? <==> Store.HashSeen(db, Store.ImageHash(p, u.image)))
      && r.1.save == SavedAs(!(updateIfDuplicate && r.1.duplicate.Some?))
    // and then stored, updating the original exactly when asked to and it is a duplicate
    ensures r.1.Classified? ==>
      && Store.HashSeen(r.0, Store.ImageHash(p, u.image))
      && r.0 == Store.SavePrediction(
           p, db, StoredName(u.filename), u.image, r.1.result.predictedLabel, r.1.result.confidence,
           Some(UploadMeta(u)), updateIfDuplicate && r.1.duplicate.Some?, now).db
  {
    match classify(u.image)
    case None => (db, Unprocessable(u.filename, "cannot identify image file"))
    case Some(result) =>
      var dup := Store.CheckDuplicate(p, db, u.image);
      var saved := Store.SavePrediction(
        p, db, StoredName(u.filename), u.image, result.predictedLabel, result.confidence,
        Some(UploadMeta(u)), updateIfDuplicate && dup.Some?, now);
      Store.SaveKeepsHashes(
        p, db, StoredName(u.filename), u.image, result.predictedLabel, result.confidence,
        Some(UploadMeta(u)), updateIfDuplicate && dup.Some?, now);
      (saved.db, Classified(u.filename, result, dup, SavedAs(saved.isNew)))
  }

  /** The loop of `/batch-predict`, threading the store through the files.
      The batch has the store to itself: no other request runs between two
      of its files.
      `times[i]` is the clock `save_prediction` reads for the i-th file. */
  function RunBatch(
    p: Store.Primitives, db: Store.Db, uploads: seq<Upload>,
    classify: Store.Bytes -> Option<Prediction>, updateIfDuplicate: bool, times: seq<Store.Time>)
    : (r: (Store.Db, seq<FileAttempt>))
    requires Store.IdsIssued(db) && |times| == |uploads|
    ensures Store.IdsIssued(r.0)
    ensures |r.1| == |uploads|
    ensures forall i :: 0 <= i < |uploads| ==> r.1[i].filename == uploads[i].filename
    ensures forall i :: 0 <= i < |uploads| ==> (r.1[i].Classified? <==> classify(uploads[i].image).Some?)
    ensures forall i :: 0 <= i < |uploads| && r.1[i].Classified? ==>
              r.1[i].save == SavedAs(!(updateIfDuplicate && r.1[i].duplicate.Some?))
    decreases |uploads|
  {
    if uploads == [] then (db, [])
    else
      var (db1, first) := ProcessUpload(p, db, uploads[0], classify, updateIfDuplicate, times[0]);
      var (db2, rest) := RunBatch(p, db1, uploads[1..], classify, updateIfDuplicate, times[1..]);
      assert forall i :: 1 <= i < |uploads| ==> uploads[i] == uploads[1..][i - 1];
      (db2, [first] + rest)
  }

  /** The batch loop loses no stored record and changes no stored hash. */
  lemma {:induction false} RunBatchKeeps(
    p: Store.Primitives, db: Store.Db, uploads: seq<Upload>,
    classify: Store.Bytes -> Option<Prediction>, updateIfDuplicate: bool, times: seq<Store.Time>)
    requires Store.IdsIssued(db) && |times| == |uploads|
    ensures Store.KeepsHashes(db, RunBatch(p, db, uploads, classify, updateIfDuplicate, times).0)
    decreases |uploads|
  {
    if uploads != [] {
      var (db1, _) := ProcessUpload(p, db, uploads[0], classify, updateIfDuplicate, times[0]);
      RunBatchKeeps(p, db1, uploads[1..], classify, updateIfDuplicate, times[1..]);
    }
  }

  /** After the batch the store holds the hash of every classified upload. */
  lemma {:induction false} RunBatchStores(
    p: Store.Primitives, db: Store.Db, uploads: seq<Upload>,
    classify: Store.Bytes -> Option<Prediction>, updateIfDuplicate: bool, times: seq<Store.Time>)
    requires Store.IdsIssued(db) && |times| == |uploads|
    ensures var r := RunBatch(p, db, uploads, classify, updateIfDuplicate, times);
      forall i :: 0 <= i < |uploads| && classify(uploads[i].image).Some? ==>
        Store.HashSeen(r.0, Store.ImageHash(p, uploads[i].image))
    decreases |uploads|
  {
    if uploads != [] {
      var (db1, _) := ProcessUpload(p, db, uploads[0], classify, updateIfDuplicate, times[0]);
      RunBatchStores(p, db1, uploads[1..], classify, updateIfDuplicate, times[1..]);
      RunBatchKeeps(p, db1, uploads[1..], classify, updateIfDuplicate, times[1..]);
      var (db2, _) := RunBatch(p, db1, uploads[1..], classify, updateIfDuplicate, times[1..]);
      Store.KeepsHashesSeen(db1, db2, Store.ImageHash(p, uploads[0].image));
      assert forall i :: 1 <= i < |uploads| ==> uploads[i] == uploads[1..][i - 1];
    }
  }

  /** A batch in which nothing can be classified leaves the store as it was. */
  lemma {:induction false} RunBatchUntouched(
    p: Store.Primitives, db: Store.Db, uploads: seq<Upload>,
    classify: Store.Bytes -> Option<Prediction>, updateIfDuplicate: bool, times: seq<Store.Time>)
    requires Store.IdsIssued(db) && |times| == |uploads|
    requires forall i :: 0 <= i < |uploads| ==> classify(uploads[i].image).None?
    ensures RunBatch(p, db, uploads, classify, updateIfDuplicate, times).0 == db
    decreases |uploads|
  {
    if uploads != [] {
      assert classify(uploads[0].image).None?;
      assert forall i :: 1 <= i < |uploads| ==> uploads[i] == uploads[1..][i - 1];
      RunBatchUntouched(p, db, uploads[1..], classify, updateIfDuplicate, times[1..]);
    }
  }

  /** The i-th file is processed against the store the earlier files left:
      its duplicate report, save flag and clock are those of `ProcessUpload`
      on that store at `times[i]`. */
  lemma {:induction false} RunBatchStep(
    p: Store.Primitives, db: Store.Db, uploads: seq<Upload>,
    classify: Store.Bytes -> Option<Prediction>, updateIfDuplicate: bool, times: seq<Store.Time>, i: nat)
    requires Store.IdsIssued(db) && |times| == |uploads| && i < |uploads|
    ensures var before := RunBatch(p, db, uploads[..i], classify, updateIfDuplicate, times[..i]).0;
      && Store.IdsIssued(before)
      && RunBatch(p, db, uploads, classify, updateIfDuplicate, times).1[i]
         == ProcessUpload(p, before, uploads[i], classify, updateIfDuplicate, times[i]).1
    decreases i
  {
    if i == 0 {
      assert uploads[..0] == [] && times[..0] == [];
    } else {
      var db1 := ProcessUpload(p, db, uploads[0], classify, updateIfDuplicate, times[0]).0;
      RunBatchStep(p, db1, uploads[1..], classify, updateIfDuplicate, times[1..], i - 1);
      RunBatchPrefixTail(p, db, uploads, classify, updateIfDuplicate, times, i);
      assert uploads[1..][i - 1] == uploads[i] && times[1..][i - 1] == times[i];
    }
  }

  /** Running a non-empty prefix is processing its first file and then
      running the rest of the prefix on the store that file left. */
  lemma RunBatchPrefixTail(
    p: Store.Primitives, db: Store.Db, uploads: seq<Upload>,
    classify: Store.Bytes -> Option<Prediction>, updateIfDuplicate: bool, times: seq<Store.Time>, i: nat)
    requires Store.IdsIssued(db) && |times| == |uploads| && 0 < i <= |uploads|
    ensures var db1 := ProcessUpload(p, db, uploads[0], classify, updateIfDuplicate, times[0]).0;
      && RunBatch(p, db, uploads[..i], classify, updateIfDuplicate, times[..i]).0
         == RunBatch(p, db1, uploads[1..][..i - 1], classify, updateIfDuplicate, times[1..][..i - 1]).0
      && RunBatch(p, db, uploads, classify, updateIfDuplicate, times).1[1..]
         == RunBatch(p, db1, uploads[1..], classify, updateIfDuplicate, times[1..]).1
  {
    assert uploads[..i][1..] == uploads[1..][..i - 1];
    assert times[..i][1..] == times[1..][..i - 1];
    assert uploads[..i][0] == uploads[0] && times[..i][0] == times[0];
  }

  /** Within one batch, a file whose image an earlier classified file
      already carried is reported as a duplicate. */
  lemma SameBatchDuplicate(
    p: Store.Primitives, db: Store.Db, uploads: seq<Upload>,
    classify: Store.Bytes -> Option<Prediction>, updateIfDuplicate: bool, times: seq<Store.Time>,
    j: nat, i: nat)
    requires Store.IdsIssued(db) && |times| == |uploads| && j < i < |uploads|
    requires classify(uploads[j].image).Some? && classify(uploads[i].image).Some?
    requires Store.ImageHash(p, uploads[j].image) == Store.ImageHash(p, uploads[i].image)
    ensures var a := RunBatch(p, db, uploads, classify, updateIfDuplicate, times).1[i];
            a.Classified? && a.duplicate.Some?
  {
    RunBatchStep(p, db, uploads, classify, updateIfDuplicate, times, i);
    RunBatchStores(p, db, uploads[..i], classify, updateIfDuplicate, times[..i]);
    assert uploads[..i][j] == uploads[j];
  }

  /** The batch loop keeps the store invariant. */
  lemma {:induction false} RunBatchPreservesValid(
    p: Store.Primitives, db: Store.Db, uploads: seq<Upload>,
    classify: Store.Bytes -> Option<Prediction>, updateIfDuplicate: bool, times: seq<Store.Time>)
    requires Store.Valid(db) && |times| == |uploads|
    ensures Store.Valid(RunBatch(p, db, uploads, classify, updateIfDuplicate, times).0)
    decreases |uploads|
  {
    if uploads != [] {
      var u := uploads[0];
      if classify(u.image).Some? {
        var result := classify(u.image).value;
        var dup := Store.CheckDuplicate(p, db, u.image);
        Store.SavePreservesValid(
          p, db, StoredName(u.filename), u.image, result.predictedLabel, result.confidence,
          Some(UploadMeta(u)), updateIfDuplicate && dup.Some?, times[0]);
      }
      var (db1, _) := ProcessUpload(p, db, u, classify, updateIfDuplicate, times[0]);
      RunBatchPreservesValid(p, db1, uploads[1..], classify, updateIfDuplicate, times[1..]);
    }
  }

  /** With every save succeeding, the files that count as new records are
      the successes minus, when updating, the duplicates. */
  lemma {:induction false} NewRecordsAccount(attempts: seq<FileAttempt>, updateIfDuplicate: bool)
    requires forall i :: 0 <= i < |attempts| && attempts[i].Classified? ==>
               attempts[i].save == SavedAs(!(updateIfDuplicate && attempts[i].duplicate.Some?))
    ensures var r := BatchPredict(attempts);
            r.newRecords + (if updateIfDuplicate then r.duplicates else 0) == r.success
    decreases |attempts|
  {
    if attempts != [] {
      NewRecordsAccount(attempts[1..], updateIfDuplicate);
      var r := BatchPredict(attempts);
      var r1 := BatchPredict(attempts[1..]);
      assert r.results == [EntryFor(attempts[0])] + r1.results;
      assert r.results[1..] == r1.results;
    }
  }

  /** The batch as `main.py` wires it: the call passes the tag as the
      positional `extra` and `extra=` again as a keyword, so Python raises
      `TypeError` before `save_prediction` runs, and the handler swallows it.
      The duplicate check before it still runs on the store. */
  function ProcessUploadAsWritten(
    p: Store.Primitives, db: Store.Db, u: Upload, classify: Store.Bytes -> Option<Prediction>)
    : (r: (Store.Db, FileAttempt))
    requires Store.IdsIssued(db)
    ensures r.0 == db && r.1.filename == u.filename
    ensures r.1.Classified? <==> classify(u.image).Some?
    ensures r.1.Classified? ==>
      && r.1.result == classify(u.image).value
      && r.1.duplicate == Store.CheckDuplicate(p, db, u.image)
      && (r.1.duplicate.Some? <==> Store.HashSeen(db, Store.ImageHash(p, u.image)))
      && r.1.save == SaveRaised
  {
    match classify(u.image)
    case None => (db, Unprocessable(u.filename, "cannot identify image file"))
    case Some(result) => (db, Classified(u.filename, result, Store.CheckDuplicate(p, db, u.image), SaveRaised))
  }

  /** As written, a batch stores nothing yet reports every success as a new
      record, duplicates included. */
  lemma {:induction false} AsWrittenReportsAllNew(attempts: seq<FileAttempt>)
    requires forall i :: 0 <= i < |attempts| && attempts[i].Classified? ==> attempts[i].save == SaveRaised
    ensures BatchPredict(attempts).newRecords == BatchPredict(attempts).success
    decreases |attempts|
  {
    if attempts != [] {
      AsWrittenReportsAllNew(attempts[1..]);
      var r := BatchPredict(attempts);
      var r1 := BatchPredict(attempts[1..]);
      assert r.results[1..] == r1.results;
    }
  }

  /** The discrepancy on one file: an image the store already holds,
      uploaded again with `update_if_duplicate`. As written, the response
      reports one duplicate and one new record while the store is unchanged;
      with the save going through, it reports one duplicate, no new record,
      and the original record is patched in place with the new label and time. */
  lemma AsWrittenCounterexample(
    p: Store.Primitives, db: Store.Db, u: Upload, classify: Store.Bytes -> Option<Prediction>, now: Store.Time)
    requires Store.Valid(db) && Store.HashSeen(db, Store.ImageHash(p, u.image))
    requires classify(u.image).Some?
    ensures var (db1, a) := ProcessUploadAsWritten(p, db, u, classify);
            var r := BatchPredict([a]);
            db1 == db && r.success == 1 && r.duplicates == 1 && r.newRecords == 1
    ensures var (db2, b) := ProcessUpload(p, db, u, classify, true, now);
            var r := BatchPredict([b]);
            && r.success == 1 && r.duplicates == 1 && r.newRecords == 0
            && db2.records.Keys == db.records.Keys
            && b.duplicate.Some? && b.duplicate.value.id in db2.records
            && db2.records[b.duplicate.value.id].updatedAt == Some(now)
            && db2.records[b.duplicate.value.id].predictedLabel == classify(u.image).value.predictedLabel
  {
    var (db1, a) := ProcessUploadAsWritten(p, db, u, classify);
    assert BatchPredict([a]).results == [EntryFor(a)];
    var (db2, b) := ProcessUpload(p, db, u, classify, true, now);
    assert BatchPredict([b]).results == [EntryFor(b)];
  }
}
