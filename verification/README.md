# Fruit classification: a Dafny model of the prediction store and its pages

The system classifies photos of fruit and vegetables. A FastAPI back end
(`back-end/main.py`) passes each uploaded image to a classifier. It stores
the result in a MongoDB collection through `back-end/database.py`, and that
store recognises an image it has seen before by the SHA-256 of its bytes. A
React front end offers:

- single and batch prediction (`PredictPage.tsx`, `BatchUploadPage.tsx`);
- a browsable, deletable history (`PredictionHistoryPage.tsx`);
- an emoji lookup (`utils/fruitIcons.ts`);
- a searchable fruit table (`FruitInfoPage.tsx`).

The model has these parts:

- `PredictionStore` (prediction_store.dfy) is the collection.
  - It is a map from record id to record, plus an id allocator.
  - Ids are issued in increasing order, so the collection's natural order
    is ascending id.
  - It has `check_duplicate`, the three branches of `save_prediction`,
    `get_history` (newest first, limit, image taken from the original
    record), the three record counts of `get_analytics`, and
    `delete_predictions`.
  - It has the invariant the store keeps: every record holds either the
    image payload or a reference to an earlier record, and at most one
    record per hash holds the payload.
- `BatchApi` (batch_api.dfy) covers the `/predict` response and the
  `/batch-predict` result list and counts. It also covers the batch loop
  threading the store.
- `ViewModel` (view_model.dfy) holds the shared front-end pieces:
  `normalizeTag`, `tagToCategory`, and the `PredictionResult` shape.
- `UploadView` (upload_view.dfy) holds what the two upload pages share:
  - the image filter and preview collection of a file selection;
  - the filter of successful batch entries;
  - the ids the page gives them;
  - the summary alert.
- `PredictPage`, `BatchUploadPage` and `HistoryPage` model each page's
  handlers. Each handler is a function from page state (and the response)
  to the next page state.
- `FruitIcons` and `FruitInfo` model the icon table with its lookup, and
  the fruit table with its search.
- `Text`, `Seqs` and `Wrappers` are small libraries. They cover JavaScript
  string operations and truthiness, sequence facts, and `Option`.

Some quantities become parameters:

- SHA-256 and base64 are uninterpreted functions (`PredictionStore.Primitives`).
- The classifier is `classify`, which returns `None` where opening the
  image raises.
- `Date.now()` is the text `stamp`.
- `new Date()` is `now`.
- A `FileReader` result is `read`.
- The user's answer to `confirm` is `confirmed`.

The alerts and the confirmation prompt are outputs of the handlers.

An `ObjectId` is modelled as a natural number, and its text form is the
decimal numeral. The facts the model relies on are these: the text of an
id parses back to that id, and distinct ids have distinct texts.

`back-end/main.py` imports two functions that no module defines:
`get_unique_fruits` from `database.py` (line 6) and `get_class_names` from
`model.py` (line 7), which defines only `predict_image`. As written, the
module therefore fails at import. The model
describes each endpoint as if the import succeeded. The two call sites of
`save_prediction` are described under Findings.

## Model

| member | source | states |
|---|---|---|
| PredictionStore.IdText | back-end/database.py:78 | the text the API reports for a record id parses back to that same id |
| PredictionStore.ParseId | back-end/database.py:368-373 | `ObjectId(text)` succeeds exactly on a well-formed id text, here a non-empty string of decimal digits |
| PredictionStore.ImageHash | back-end/database.py:55-57 | the hash of an image is the hex SHA-256 digest of its bytes, given by the digest primitive |
| PredictionStore.SameHashSameReport | back-end/database.py:60-87 | two images with the same hash get the same duplicate report, since the store compares hashes only |
| PredictionStore.FindByHash | back-end/database.py:74 | finds nothing exactly when no stored record has the hash, and otherwise finds the first such record in natural order |
| PredictionStore.CheckDuplicate | back-end/database.py:60-87 | reports a duplicate exactly when some stored record has the image's hash; the report carries the id, filename, label, confidence and creation time of the first such record |
| PredictionStore.SavePrediction | back-end/database.py:90-178 | an unseen hash inserts exactly one new record carrying the payload; a seen hash without update inserts exactly one payload-less record that refers to the first record with that hash; a seen hash with update inserts nothing and patches only that first record (filename, label, confidence, updated time, metadata when given); a record is new unless the hash was seen and update was asked |
| PredictionStore.InsertOriginalKeepsValid | back-end/database.py:159-175 | adding a payload record for a hash no record has keeps the store invariant |
| PredictionStore.InsertReferenceKeepsValid | back-end/database.py:138-157 | adding a payload-less record that refers to an existing record keeps the store invariant |
| PredictionStore.PatchKeepsValid | back-end/database.py:121-136 | patching the first matching record in place keeps the store invariant |
| PredictionStore.SavePreservesValid | back-end/database.py:90-178 | every branch of saving keeps the store invariant |
| PredictionStore.SavedImageIsDuplicate | back-end/database.py:60-178 | after an image is saved in any branch, checking the same image reports a duplicate |
| PredictionStore.SaveKeepsHashes | back-end/database.py:90-178 | no branch of saving removes a record or changes a stored hash, and afterwards the image's hash is stored |
| PredictionStore.ResaveRefersToFirst | back-end/database.py:138-175 | saving a new image twice without update gives two distinct new records; the second has no payload and refers to the first, which holds the payload |
| PredictionStore.InsertByTime | back-end/database.py:189-192 | inserting an id adds exactly that id, keeps every listed id stored, and keeps a duplicate-free list duplicate-free when the id is new |
| PredictionStore.InsertByTimeSorted | back-end/database.py:189-192 | inserting an id into a newest-first list keeps it newest-first |
| PredictionStore.SortByTime | back-end/database.py:189-192 | sorting keeps the same ids and length, and a duplicate-free list stays duplicate-free |
| PredictionStore.SortByTimeSorted | back-end/database.py:189-192 | the sorted list is newest first |
| PredictionStore.HistoryOrder | back-end/database.py:189-192 | lists every stored record exactly once, newest first |
| PredictionStore.PrefixIsNewest | back-end/database.py:192-193 | a prefix of a newest-first list is newest-first, and no record left out is newer than one kept |
| PredictionStore.RecentIds | back-end/database.py:189-194 | returns as many ids as the limit allows (all when the limit is 0), distinct and newest first, and no omitted record is newer than a returned one |
| PredictionStore.ResolveImage | back-end/database.py:198-209 | a record's own payload wins; otherwise the payload of the record it refers to when that record still exists; otherwise none |
| PredictionStore.ToItem | back-end/database.py:211-220 | the history item of a record reports that record: its id, fields, resolved image and whether it is a duplicate |
| PredictionStore.GetHistory | back-end/database.py:181-225 | at most `limit` items, each reporting a stored record, with distinct ids, in non-increasing creation time, and no omitted record newer than a listed one |
| PredictionStore.AnalyticsCounts | back-end/database.py:240-246 | the total is the number of records; the unique-image count is the number of records holding a payload, and the duplicate count the number holding a `duplicate_of`; neither exceeds the total |
| PredictionStore.CountsPartition | back-end/database.py:240-246 | under the store invariant, unique images plus duplicates equals the total |
| PredictionStore.PayloadHashesDistinct | back-end/database.py:138-175 | under the store invariant, payload records have pairwise different hashes |
| PredictionStore.UniqueImagesBound | back-end/database.py:243 | under the store invariant, the unique-image count is at most the number of distinct stored hashes |
| PredictionStore.ParsedIds | back-end/database.py:366-373 | keeps exactly the ids that some given text parses to, dropping malformed ones |
| PredictionStore.DeletePredictions | back-end/database.py:353-383 | with no well-formed id nothing changes and 0 is reported; otherwise exactly the named records are removed, the rest are unchanged, and the count is the number removed |
| PredictionStore.DeletePreservesValid | back-end/database.py:378-380 | deleting keeps the store invariant |
| PredictionStore.DeleteReportedIds | back-end/database.py:366-380 | deleting the texts of a list of ids removes exactly those records |
| PredictionStore.ResaveAfterOriginalDeleted | back-end/database.py:138-209 | once every payload record of an image is deleted, saving it again without update stores a record whose history image is absent |
| BatchApi.EntryFor | back-end/main.py:95-136 | a file that could not be processed gives an error entry; otherwise a result entry whose duplicate flag and info follow the duplicate check, and which counts as new when the save raised or reported a new record |
| BatchApi.BatchPredict | back-end/main.py:93-147 | one entry per file, in upload order; total, success, duplicate and new-record counts are the numbers of entries with each property, and duplicates and new records never exceed successes |
| BatchApi.CountIfAll | back-end/main.py:144 | every entry is counted exactly when every entry has the property, so success equals total exactly when no file failed |
| BatchApi.PredictReply | back-end/main.py:67-83 | the duplicate flag and info follow the duplicate check; each of the three messages appears exactly in its case; a raised save still reports a new record |
| BatchApi.ProcessUpload | back-end/main.py:95-130 | a file the classifier rejects leaves the store unchanged; otherwise the duplicate info is the store's report on the image from before the save, the record is new unless it was a duplicate and update was asked, the store becomes the result of saving the upload under its stored name with its content type, and afterwards the image's hash is stored; no record is lost |
| BatchApi.RunBatch | back-end/main.py:95-136 | one attempt per upload, in order and under the upload's name, classified exactly when the classifier accepts it and saved with the right new-record flag |
| BatchApi.RunBatchStep | back-end/main.py:95-136 | the i-th upload is processed, duplicate check and save at its own time `times[i]` included, against the store the earlier uploads left |
| BatchApi.SameBatchDuplicate | back-end/main.py:105-106 | an upload whose image an earlier classified upload of the same batch carried is reported as a duplicate |
| BatchApi.RunBatchKeeps | back-end/main.py:95-136 | the batch loop loses no stored record and changes no stored hash |
| BatchApi.RunBatchStores | back-end/main.py:95-136 | after the batch loop the hash of every classified upload is stored |
| BatchApi.RunBatchUntouched | back-end/main.py:95-136 | a batch in which no upload can be classified leaves the store as it was |
| BatchApi.RunBatchPreservesValid | back-end/main.py:95-136 | the batch loop keeps the store invariant, whatever clock each save reads |
| BatchApi.NewRecordsAccount | back-end/main.py:138-146 | when every save goes through, new records plus (when updating) duplicates equals successes |
| BatchApi.ProcessUploadAsWritten | back-end/main.py:95-122 | as written, the save call raises before it runs: the store never changes, classification follows the classifier, the duplicate report is still `check_duplicate` on the store, and every processed file reports a raised save |
| BatchApi.StoredName | back-end/main.py:112 | the stored filename is never empty: the upload's own name when it has one, and `batch_` otherwise |
| BatchApi.AsWrittenReportsAllNew | back-end/main.py:109-139 | as written, every successful file is reported as a new record |
| BatchApi.AsWrittenCounterexample | back-end/main.py:95-146 | for any valid store already holding the image, uploading it with update reports one duplicate and one new record as written with the store unchanged; with the save going through it reports no new record and the original record is patched with the new label and time |
| ViewModel.NormalizeTag | front-end/src/pages/PredictPage.tsx:13-19 | a string whose trimmed, lower-cased form is `fruit` or `vegetable` gives that tag; anything else, non-strings included, gives `unknown` |
| ViewModel.NormalizeTagName | front-end/src/pages/PredictPage.tsx:13-19 | normalizing a tag's own name gives back the tag |
| ViewModel.NormalizeTagIdempotent | front-end/src/pages/PredictPage.tsx:13-19 | normalizing the name of a normalized value changes nothing |
| ViewModel.TagToCategory | front-end/src/pages/PredictPage.tsx:21-30 | vegetable maps to `Vegetable`, fruit to `Fruit`, and `General` exactly for unknown |
| ViewModel.TagToCategoryInjective | front-end/src/pages/PredictPage.tsx:21-30 | distinct tags give distinct categories |
| ViewModel.FruitName | front-end/src/pages/PredictPage.tsx:96 | the shown name is never empty: the label when it is a non-empty string, `Unknown` otherwise |
| ViewModel.FruitNameStable | front-end/src/pages/PredictPage.tsx:96 | a shown name fed back in is shown unchanged, and two different non-empty labels are shown differently |
| UploadView.ImageFiles | front-end/src/pages/PredictPage.tsx:139 | keeps exactly the files whose MIME type starts with `image/`, in selection order, each as many times as it was chosen |
| UploadView.AddSelection | front-end/src/pages/PredictPage.tsx:137-165 | a selection without images, or with an image that fails to read, changes nothing; otherwise the image files are appended after the collected ones, each with its preview |
| UploadView.Successful | front-end/src/pages/PredictPage.tsx:191-192 | keeps exactly the entries with a result and no error, in response order, each as many times as it occurs |
| UploadView.KeptMatchesSuccess | front-end/src/pages/PredictPage.tsx:191-192 | for a response the back end built, the page keeps exactly as many entries as the back end's success count |
| UploadView.PreviewFor | front-end/src/pages/PredictPage.tsx:189-194 | the preview of the last collected file with that name, or empty when there is none |
| UploadView.PredictionId | front-end/src/pages/PredictPage.tsx:197 | the original record's id for a duplicate; otherwise the stamp, a dash, and a numeral that reads back as the position |
| UploadView.FallbackIdsDistinct | front-end/src/pages/PredictPage.tsx:197 | fallback ids for different positions under one stamp differ |
| UploadView.SummaryMessage | front-end/src/pages/PredictPage.tsx:223-229 | starts with the processed headline; the warning line follows exactly when there are duplicates; the failure line ends the message exactly when success is below total; the length is exactly the sum of the lines present, so nothing else is in it |
| PredictPage.ImageUpload | front-end/src/pages/PredictPage.tsx:57-62 | records the image and file, clears the result and error, and leaves the rest |
| PredictPage.PredictStart | front-end/src/pages/PredictPage.tsx:64-72 | a request is sent exactly when a file and a non-empty image are present; otherwise only the select-first error is set |
| PredictPage.ResultId | front-end/src/pages/PredictPage.tsx:95 | the duplicate's id when the response has a non-empty one, the stamp otherwise |
| PredictPage.PredictSucceeded | front-end/src/pages/PredictPage.tsx:87-118 | copies the duplicate flag and info, and shows one result: its id, non-empty name, the uploaded image, the normalized tag and that tag's category |
| PredictPage.PredictFailed | front-end/src/pages/PredictPage.tsx:119-124 | the error is the failure's message, or the fixed text when there is none; loading ends; nothing else changes |
| PredictPage.Reset | front-end/src/pages/PredictPage.tsx:127-134 | clears the single-upload fields and the duplicate state, and keeps the batch fields, the mode and loading |
| PredictPage.PredictResultNamesOriginal | front-end/src/pages/PredictPage.tsx:89-95 | for any reply that flags a duplicate, the page flags it too and the shown id reads back as the id in the reply's duplicate info; otherwise the shown id is the stamp |
| PredictPage.PredictResultNamesFirst | back-end/main.py:47-83 | for the reply `/predict` builds from `check_duplicate` on the store, the page flags a duplicate exactly when the store holds the image's hash, and the shown id then reads back as the first stored record with that hash; otherwise it is the stamp |
| PredictPage.ResetThenPredictAsks | front-end/src/pages/PredictPage.tsx:64-68 | predicting right after a reset sends nothing and asks for an image |
| PredictPage.SelectFiles | front-end/src/pages/PredictPage.tsx:137-165 | only the collected files change, as the selection rule says |
| PredictPage.BatchPredictStart | front-end/src/pages/PredictPage.tsx:167-176 | sends every collected file exactly when there is one, and then starts loading and clears the error |
| PredictPage.MapBatch | front-end/src/pages/PredictPage.tsx:191-219 | one shown result per kept entry, with that entry's id, name, preview, normalized tag and category |
| PredictPage.BatchPredictSucceeded | front-end/src/pages/PredictPage.tsx:187-230 | the kept results replace the shown list (never more than the response's entries), and the alert is the summary of the response's counts |
| PredictPage.BatchPredictFailed | front-end/src/pages/PredictPage.tsx:231-236 | the error is the failure's message or the fixed text; loading ends; the files and results stay |
| PredictPage.ClearFiles | front-end/src/pages/PredictPage.tsx:239-242 | empties the collected files and the shown results and keeps everything else |
| PredictPage.BatchRoundTrip | front-end/src/pages/PredictPage.tsx:187-229 | for a `/batch-predict` response, the page shows one result per successful file, and its alert ends with the failure line exactly when some file could not be processed |
| PredictPage.ModeChange | front-end/src/pages/PredictPage.tsx:244-250 | switching mode returns to the initial page in the new mode, keeping only loading |
| PredictPage.ModeChangeIdempotent | front-end/src/pages/PredictPage.tsx:244-250 | switching to the same mode twice is the same as once |
| PredictPage.HandlersKeepImages | front-end/src/pages/PredictPage.tsx:137-176 | every handler keeps the collected files all images, and a batch request only sends images |
| BatchUploadPage.SelectFiles | front-end/src/pages/BatchUploadPage.tsx:16-46 | only the collected files change, as the selection rule says |
| BatchUploadPage.BatchPredictStart | front-end/src/pages/BatchUploadPage.tsx:48-57 | sends every collected file exactly when there is one, and then starts loading |
| BatchUploadPage.MapBatch | front-end/src/pages/BatchUploadPage.tsx:73-101 | one shown result per kept entry, with no tag and the `General` category |
| BatchUploadPage.BatchPredictSucceeded | front-end/src/pages/BatchUploadPage.tsx:69-113 | the kept results replace the shown list, the files stay, loading ends, and the alert is the summary |
| BatchUploadPage.BatchPredictFailed | front-end/src/pages/BatchUploadPage.tsx:114-119 | the alert is `Error: ` followed by the failure's message or the fixed text; loading ends |
| BatchUploadPage.ClearFiles | front-end/src/pages/BatchUploadPage.tsx:122-125 | empties the collected files and the shown results |
| BatchUploadPage.AgreesWithPredictPage | front-end/src/pages/BatchUploadPage.tsx:73-113 | for the same response, this page shows the prediction page's batch results position by position, with the tag dropped and the category `General`, under the same alert |
| BatchUploadPage.HandlersKeepImages | front-end/src/pages/BatchUploadPage.tsx:16-57 | the handlers keep the collected files all images, and a request only sends images |
| HistoryPage.ImageUrl | front-end/src/pages/PredictionHistoryPage.tsx:43-52 | an entry without a payload shows the transparent pixel; otherwise a data URL under the recorded content type (JPEG by default) whose body is the payload |
| HistoryPage.EntryId | front-end/src/pages/PredictionHistoryPage.tsx:55 | the entry's id when truthy, else its legacy id when truthy, else the stamp |
| HistoryPage.MapEntry | front-end/src/pages/PredictionHistoryPage.tsx:45-67 | a shown entry has its id, non-empty name, image URL, stored time (or now), normalized tag and category |
| HistoryPage.MapHistory | front-end/src/pages/PredictionHistoryPage.tsx:41-67 | one shown entry per history item, in order |
| HistoryPage.FetchStart | front-end/src/pages/PredictionHistoryPage.tsx:34-36 | loading starts and the error clears; the list, the selection and the deleting flag stay |
| HistoryPage.FetchSucceeded | front-end/src/pages/PredictionHistoryPage.tsx:40-73 | the mapped items (none when the response has no history) replace the list, the selection is cleared and loading ends |
| HistoryPage.FetchFailed | front-end/src/pages/PredictionHistoryPage.tsx:70-73 | the error is the failure's message or the fixed text, loading ends, and the list and selection stay |
| HistoryPage.Toggle | front-end/src/pages/PredictionHistoryPage.tsx:81-91 | flips membership of the given id and no other |
| HistoryPage.ToggleTwice | front-end/src/pages/PredictionHistoryPage.tsx:81-91 | toggling the same id twice restores the selection |
| HistoryPage.SelectAll | front-end/src/pages/PredictionHistoryPage.tsx:93-99 | clears the selection when it is as large as the list, and otherwise selects every shown id |
| HistoryPage.AllSelected | front-end/src/pages/PredictionHistoryPage.tsx:137 | the box shows as ticked only with something selected, and is ticked whenever every shown id (all distinct, at least one) is selected |
| HistoryPage.AllSelectedMeansEvery | front-end/src/pages/PredictionHistoryPage.tsx:137 | with distinct shown ids and a selection of shown ids, the all-selected flag holds exactly when the list is non-empty and every shown id is selected |
| HistoryPage.SelectAllAlternates | front-end/src/pages/PredictionHistoryPage.tsx:93-137 | on a non-empty list with distinct ids, select-all flips the all-selected flag |
| HistoryPage.SelectionStaysShown | front-end/src/pages/PredictionHistoryPage.tsx:68-99 | toggling a shown id, select-all and reloading keep the selection within the shown ids |
| HistoryPage.SelectionList | front-end/src/pages/PredictionHistoryPage.tsx:117 | lists every selected id exactly once |
| HistoryPage.DeleteStart | front-end/src/pages/PredictionHistoryPage.tsx:101-118 | with nothing selected nothing happens; otherwise the count is asked about, and only on confirmation is every selected id sent once while deletion starts |
| HistoryPage.ConfirmPrompt | front-end/src/pages/PredictionHistoryPage.tsx:104 | the confirmation question is the fixed Vietnamese wording around a numeral that reads back as the number of selected entries |
| HistoryPage.DeletedAlert | front-end/src/pages/PredictionHistoryPage.tsx:129 | the success alert is the fixed Vietnamese wording around a numeral that reads back as the deleted count |
| HistoryPage.DeleteSucceeded | front-end/src/pages/PredictionHistoryPage.tsx:124-134 | the history is reloaded through `fetchFromDb`: a successful reload clears the error and the selection and shows the new entries, a failed one leaves its own error and keeps list and selection; loading and deleting end, and the deleted count is alerted |
| HistoryPage.DeleteFailed | front-end/src/pages/PredictionHistoryPage.tsx:130-135 | the error is the failure's message or the fixed text, the selection stays, and nothing is alerted |
| HistoryPage.ShownEntries | front-end/src/pages/PredictionHistoryPage.tsx:53-65 | every item the store's history returns is shown with an id that parses back to its record, its stored time, the unknown tag and the `General` category |
| HistoryPage.ShownIdsDistinct | front-end/src/pages/PredictionHistoryPage.tsx:55 | the ids shown for the store's history are distinct |
| HistoryPage.TargetsSize | back-end/database.py:367-373 | distinct well-formed id texts name as many records as there are texts |
| HistoryPage.ShownNamesStored | front-end/src/pages/PredictionHistoryPage.tsx:93-117 | any selection of shown ids names stored records by their canonical text |
| HistoryPage.DeleteNamed | back-end/database.py:366-380 | deleting the texts of stored records removes exactly those records and reports their number |
| HistoryPage.DeleteSelection | front-end/src/pages/PredictionHistoryPage.tsx:101-129 | deleting a selection of shown entries removes exactly the selected records from the store, and the count the page alerts equals the number selected |
| FruitIcons.IconsNonEmpty | front-end/src/utils/fruitIcons.ts:2-39 | every icon in the table is non-empty |
| FruitIcons.IconIn | front-end/src/utils/fruitIcons.ts:41-44 | the table's icon for a listed normalized name; the apple otherwise; never empty |
| FruitIcons.GetFruitIcon | front-end/src/utils/fruitIcons.ts:41-44 | the icon of the lower-cased, trimmed name when the table lists it, the apple otherwise, never empty |
| FruitIcons.NormalizeIgnores | front-end/src/utils/fruitIcons.ts:42 | normalizing ignores case and surrounding whitespace: an upper-cased, lower-cased or trimmed name normalizes the same |
| FruitIcons.LookupIgnoresCaseAndSpace | front-end/src/utils/fruitIcons.ts:41-44 | the icon of a name equals the icon of its trimmed lower-case form and of its upper-case form |
| FruitIcons.IconInAsWritten | front-end/src/utils/fruitIcons.ts:43 | as written, a normalized name not in the table but inherited from the object prototype yields that non-string property, and exactly those names do |
| FruitIcons.GetFruitIconAsWritten | front-end/src/utils/fruitIcons.ts:41-44 | `getFruitIcon` as written returns a non-string only for a name that normalizes to an inherited prototype member, and agrees with the intended lookup on every other name |
| FruitIcons.AsWrittenAgreesOffPrototype | front-end/src/utils/fruitIcons.ts:43 | away from prototype names, the lookup as written agrees with the intended lookup |
| FruitIcons.AsWrittenCounterexample | front-end/src/utils/fruitIcons.ts:43 | for `Constructor` the lookup as written returns the inherited constructor, where the intended lookup returns the apple |
| FruitInfo.FilterFruits | front-end/src/pages/FruitInfoPage.tsx:55 | keeps exactly the fruits whose lower-cased name contains the lower-cased term, in table order, each as many times as it occurs |
| FruitInfo.Search | front-end/src/pages/FruitInfoPage.tsx:6-55 | at most the eight table fruits, exactly those that match, in table order |
| FruitInfo.EmptyTermKeepsAll | front-end/src/pages/FruitInfoPage.tsx:55 | an empty term keeps every fruit |
| FruitInfo.EmptySearchShowsAll | front-end/src/pages/FruitInfoPage.tsx:6-55 | an empty search shows the whole table |
| FruitInfo.UpperTermSame | front-end/src/pages/FruitInfoPage.tsx:55 | the search ignores the case of the term |
| FruitInfo.PrefixTermKeepsMore | front-end/src/pages/FruitInfoPage.tsx:55 | a fruit kept for a term is kept for every prefix of it |

## Left out

- Confidence is a real in the back-end model: a prediction's confidence is stored and reported without change. The front-end models (`ViewModel.PredictionResult`, `UploadView.ApiResult`, `HistoryPage.HistoryJson`) have no confidence field at all. The scaling by 100, `toFixed(1)` and the Python `float(...)` conversion are floating point and not modelled.
- The nutrition, price, similar-fruit and fun-fact placeholders of a shown result are not modelled. They are constants that no handler reads.
- Network calls, `fetch`, HTTP status errors, the MongoDB connection and its retries are left out. A failed request is a handler input carrying its message. The store functions' outer `except` branches are not modelled: `check_duplicate` returns `None` (`back-end/database.py:85-87`), `get_history` returns `[]` (223-225), `get_analytics` returns `{}` (348-350), and `save_prediction` and `delete_predictions` log and re-raise (176-178, 381-383). The per-id `except` of `delete_predictions` (369-373), which skips a malformed id, is modelled by `PredictionStore.ParsedIds`; the `return 0` for no well-formed id (375-376) is modelled by `PredictionStore.DeletePredictions`.
- Opening an image and the classifier (`predict_image`, `back-end/model.py`) are a parameter. `back-end/model.py` is not part of this model.
- SHA-256 and base64 are uninterpreted functions. Collisions are not ruled out, so two images with one hash count as the same image, exactly as in the store.
- An `ObjectId` is modelled as a natural number whose text is its decimal numeral. The hexadecimal 24-character form, and ids created by other clients, are not modelled.
- `PredictPage.MapBatch`, `BatchUploadPage.MapBatch` and `HistoryPage.MapHistory` take one `stamp` and one `now` for the whole list. In the page each element calls `Date.now()` or `new Date()` itself, so the values may differ between elements. `UploadView.FallbackIdsDistinct` is stated for one shared stamp.
- `FileReader` completion order is taken as selection order. In the browser the previews may arrive in any order.
- `UploadView.AddSelection`: a file whose read yields nothing is modelled as blocking the whole selection. The page never appends in that case because the counter never reaches the total.
- `Text.Lower` and `Text.Upper` map ASCII letters only. JavaScript's full Unicode case mapping is not modelled. `Text.Trim` removes the ECMAScript whitespace and line-terminator set.
- `created_at` is a number on both sides. Parsing the ISO text in the browser is not modelled.
- `PredictionStore.HistoryOrder` puts records with equal creation times in the order its insertion sort gives. MongoDB leaves that order unspecified, so the contract speaks only of non-increasing time.
- The rest of `get_analytics` is not modelled: today's count, per-label averages and the recent trend. They depend on the clock and on floating point.
- The other endpoints of `main.py` are not modelled: `/health`, `/fruits`, `/labels`, and `/history` GET and DELETE and `/analytics` beyond the store functions they call. Each only forwards a store call; `/labels` forwards `get_class_names`, which `model.py` does not define.
- `BatchApi.RunBatch`, `BatchApi.RunBatchStep` and `BatchApi.SameBatchDuplicate`: the batch is modelled with exclusive access to the store. The loop awaits `file.read()` before each file (`back-end/main.py:98`), and another request, such as `DELETE /history` or a second upload, may run there and change the collection between two files of one batch. That interleaving is not modelled, so the statements about earlier files of the batch hold only when no other request runs in between.
- React's batching of state updates, effects and rendering are not modelled. Each handler is one step from the old state to the new one.
- `HistoryPage.DeleteStart`: the prompt text is computed but the dialog is a parameter `confirmed`.
- Navigation, the dashboard, settings, the home page and the presentational components are not modelled.

## Findings

| source | as written | input that shows it | evidently intended | confidence | as-written member | corrected member |
|---|---|---|---|---|---|---|
| back-end/main.py:109-122 | The call passes the tag as a fifth positional argument, which fills `extra`, and then passes `extra=` again. Python raises `TypeError` before `save_prediction` runs (`save_prediction` has no tag parameter), and the handler swallows it. The same call appears in `/predict` at lines 54-62. Nothing is ever stored, and every processed file is reported as a new record. | Any valid store that already holds an image, and that image uploaded again to `/batch-predict` with `update_if_duplicate=true`: the response says one duplicate and one new record, and the store is unchanged; with the save going through it says no new record and the original is patched (`BatchApi.AsWrittenCounterexample`) | The upload is saved through `save_prediction`'s own signature, and the new-record count reflects what was saved | high (not executed) | BatchApi.AsWrittenReportsAllNew | BatchApi.NewRecordsAccount |
| front-end/src/utils/fruitIcons.ts:43 | The table is a plain object literal, so the lookup by normalized name also finds properties inherited from `Object.prototype`. | The name `Constructor` normalizes to `constructor`, and the lookup returns the `Object` function instead of an emoji string (`FruitIcons.AsWrittenCounterexample`) | Only the table's own entries are looked up, and every other name gets the apple | high (not executed) | FruitIcons.IconInAsWritten | FruitIcons.GetFruitIcon |
