/** The state transitions of `front-end/src/pages/PredictPage.tsx`: single
    prediction (pick an image, send it, show the result or the error),
    batch prediction (collect images, send them, show the kept results and
    a summary alert), and switching between the two modes. Each handler is
    a function from the page state to the next one; the network call sits
    between a `...Start` step, which yields the request to send (if any),
    and a `...Succeeded`/`...Failed` step, which receives its outcome. */
module PredictPage {
  import opened Wrappers
  import Text
  import opened ViewModel
  import opened UploadView
  import Seqs
  import BatchApi
  import Store = PredictionStore

  datatype Mode = Single | Batch

  /** The part of `data.duplicate_info` the page reads. */
  datatype DuplicateJson = DuplicateJson(id: Option<string>)

  /** The `/predict` body as the page reads it. */
  datatype PredictJson = PredictJson(isDuplicate: bool, duplicateInfo: Option<DuplicateJson>, result: ApiResult)

  /** The `/batch-predict` body as the page reads it. */
  datatype BatchJson = BatchJson(results: seq<BatchItem>, total: nat, success: nat, duplicates: nat)

  datatype PageState = PageState(
    uploadedImage: Option<string>, uploadedFile: Option<File>,
    predictionResult: Option<PredictionResult>,
    uploadedFiles: seq<FileWithPreview>, predictions: seq<PredictionResult>,
    mode: Mode, isLoading: bool, error: Option<string>,
    duplicateInfo: Option<DuplicateJson>, isDuplicate: bool)

  /** The state the page mounts with. */
  const Initial: PageState := PageState(None, None, None, [], [], Single, false, None, None, false)

  const SelectFirstMessage: string := "Please select an image first"
  const PredictFailedMessage: string := "Failed to predict. Please try again."
  const BatchFailedMessage: string := "Failed to process images"

  // ---------------------------------------------------------------------
  // Single prediction

  /** `handleImageUpload`: a new image replaces the old one and clears the
      shown result and error. */
  function ImageUpload(st: PageState, imageUrl: string, file: File): (r: PageState)
    ensures r.uploadedImage == Some(imageUrl) && r.uploadedFile == Some(file)
    ensures r.predictionResult.None? && r.error.None?
    ensures r.uploadedFiles == st.uploadedFiles && r.predictions == st.predictions
    ensures r.mode == st.mode && r.isLoading == st.isLoading
    ensures r.duplicateInfo == st.duplicateInfo && r.isDuplicate == st.isDuplicate
  {
    st.(uploadedImage := Some(imageUrl), uploadedFile := Some(file), predictionResult := None, error := None)
  }

  /** What `handlePredict` sends: the chosen file, and the image URL the
      result will show. */
  datatype SingleRequest = SingleRequest(file: File, imageUrl: string)

  datatype SingleStart = SingleStart(state: PageState, request: Option<SingleRequest>)

  /** The synchronous part of `handlePredict`: without a file and a
      non-empty image it only shows an error and sends nothing; otherwise it
      starts loading, clears the error and the old result, and sends. */
  function PredictStart(st: PageState): (r: SingleStart)
    ensures r.request.Some? <==> st.uploadedFile.Some? && Text.Truthy(st.uploadedImage)
    ensures r.request.None? ==> r.state == st.(error := Some(SelectFirstMessage))
    ensures r.request.Some? ==>
      && r.request.value.file == st.uploadedFile.value
      && r.request.value.imageUrl == st.uploadedImage.value
      && r.state == st.(isLoading := true, error := None, predictionResult := None)
  {
    if st.uploadedFile.None? || !Text.Truthy(st.uploadedImage) then
      SingleStart(st.(error := Some(SelectFirstMessage)), None)
    else
      SingleStart(st.(isLoading := true, error := None, predictionResult := None),
                  Some(SingleRequest(st.uploadedFile.value, st.uploadedImage.value)))
  }

  /** `data.duplicate_info?.id || Date.now().toString()`. */
  function ResultId(data: PredictJson, stamp: string): (id: string)
    ensures data.duplicateInfo.Some? && Text.Truthy(data.duplicateInfo.value.id) ==>
              id == data.duplicateInfo.value.id.value
    ensures !(data.duplicateInfo.Some? && Text.Truthy(data.duplicateInfo.value.id)) ==> id == stamp
  {
    if data.duplicateInfo.Some? then Text.OrElse(data.duplicateInfo.value.id, stamp) else stamp
  }

  /** A successful `/predict` response: the page records the duplicate flag
      and information and shows the mapped result with the image that was
      sent. */
  function PredictSucceeded(st: PageState, req: SingleRequest, data: PredictJson, stamp: string, now: Time)
    : (r: PageState)
    ensures !r.isLoading
    ensures r.isDuplicate == data.isDuplicate && r.duplicateInfo == data.duplicateInfo
    ensures r.predictionResult.Some?
    ensures var p := r.predictionResult.value;
      && p.id == ResultId(data, stamp)
      && p.fruitName == FruitName(data.result.predictedLabel)
      && p.imageUrl == req.imageUrl
      && p.timestamp == now
      && p.tag == Some(NormalizeTag(data.result.tag))
      && p.category == TagToCategory(p.tag.value)
    ensures r.uploadedImage == st.uploadedImage && r.uploadedFile == st.uploadedFile
    ensures r.uploadedFiles == st.uploadedFiles && r.predictions == st.predictions
    ensures r.mode == st.mode && r.error == st.error
  {
    var tag := NormalizeTag(data.result.tag);
    var mapped := PredictionResult(ResultId(data, stamp), FruitName(data.result.predictedLabel),
                                   req.imageUrl, now, Some(tag), TagToCategory(tag));
    st.(isDuplicate := data.isDuplicate, duplicateInfo := data.duplicateInfo,
        predictionResult := Some(mapped), isLoading := false)
  }

  /** A failed `/predict` call: the thrown message, or a fixed text when it
      has none, becomes the error. */
  function PredictFailed(st: PageState, message: Option<string>): (r: PageState)
    ensures r.error.Some? && r.error.value != ""
    ensures Text.Truthy(message) ==> r.error == message
    ensures !Text.Truthy(message) ==> r.error == Some(PredictFailedMessage)
    ensures !r.isLoading
    ensures r == st.(error := r.error, isLoading := false)
  {
    st.(error := Some(Text.OrElse(message, PredictFailedMessage)), isLoading := false)
  }

  /** `handleReset`: forgets the single image, its result and the duplicate
      flags. */
  function Reset(st: PageState): (r: PageState)
    ensures r.uploadedImage.None? && r.uploadedFile.None? && r.predictionResult.None?
    ensures r.error.None? && r.duplicateInfo.None? && !r.isDuplicate
    ensures r.uploadedFiles == st.uploadedFiles && r.predictions == st.predictions
    ensures r.mode == st.mode && r.isLoading == st.isLoading
  {
    st.(uploadedImage := None, uploadedFile := None, predictionResult := None, error := None,
        duplicateInfo := None, isDuplicate := false)
  }

  /** How the body of `/predict` reaches the page. */
  function ReplyJson(r: BatchApi.PredictResponse): PredictJson {
    var tag := if r.result.tag.Some? then JsString(r.result.tag.value) else JsOther;
    PredictJson(r.isDuplicate,
                if r.duplicateInfo.Some? then Some(DuplicateJson(Some(Store.IdText(r.duplicateInfo.value.id)))) else None,
                ApiResult(Some(r.result.predictedLabel), tag))
  }

  /** When the server reports a duplicate, the result the page shows carries
      the id of the stored original, and reading that id back names it;
      otherwise the result carries the client's stamp. */
  lemma PredictResultNamesOriginal(
    st: PageState, req: SingleRequest, resp: BatchApi.PredictResponse, stamp: string, now: Time)
    requires resp.isDuplicate <==> resp.duplicateInfo.Some?
    ensures var r := PredictSucceeded(st, req, ReplyJson(resp), stamp, now);
      && r.isDuplicate == resp.isDuplicate
      && (resp.isDuplicate ==>
            Store.ParseId(r.predictionResult.value.id) == Some(resp.duplicateInfo.value.id))
      && (!resp.isDuplicate ==> r.predictionResult.value.id == stamp)
  {
    if resp.isDuplicate {
      var text := Store.IdText(resp.duplicateInfo.value.id);
      assert Text.Truthy(Some(text)) by {
        assert Store.ParseId(text).Some?;
      }
    }
  }

  /** End to end: for the reply `/predict` builds from `check_duplicate` on
      the store, the page flags a duplicate exactly when the store already
      holds the image's hash, and then the id it shows reads back as the
      first stored record with that hash. */
  lemma PredictResultNamesFirst(
    st: PageState, req: SingleRequest, p: Store.Primitives, db: Store.Db, image: Store.Bytes,
    filename: string, result: BatchApi.Prediction, save: BatchApi.SaveOutcome,
    updateIfDuplicate: bool, stamp: string, now: Time)
    requires Store.IdsIssued(db)
    ensures var resp := BatchApi.PredictReply(
              filename, result, Store.CheckDuplicate(p, db, image), save, updateIfDuplicate);
      var r := PredictSucceeded(st, req, ReplyJson(resp), stamp, now);
      && (r.isDuplicate <==> Store.HashSeen(db, Store.ImageHash(p, image)))
      && (r.isDuplicate ==>
            && Store.ParseId(r.predictionResult.value.id).Some?
            && Store.FirstWithHash(db, Store.ImageHash(p, image), Store.ParseId(r.predictionResult.value.id).value))
      && (!r.isDuplicate ==> r.predictionResult.value.id == stamp)
  {
    var resp := BatchApi.PredictReply(
      filename, result, Store.CheckDuplicate(p, db, image), save, updateIfDuplicate);
    PredictResultNamesOriginal(st, req, resp, stamp, now);
  }

  /** After a reset, predicting asks for an image and sends nothing. */
  lemma ResetThenPredictAsks(st: PageState)
    ensures PredictStart(Reset(st)).request.None?
    ensures PredictStart(Reset(st)).state.error == Some(SelectFirstMessage)
  {
  }

  // ---------------------------------------------------------------------
  // Batch prediction

  /** `handleMultipleFilesSelect`. */
  function SelectFiles(st: PageState, files: seq<File>, read: File -> Option<string>): (r: PageState)
    ensures r.uploadedFiles == AddSelection(st.uploadedFiles, files, read)
    ensures r == st.(uploadedFiles := r.uploadedFiles)
  {
    st.(uploadedFiles := AddSelection(st.uploadedFiles, files, read))
  }

  datatype BatchStart = BatchStart(state: PageState, request: Option<seq<FileWithPreview>>)

  /** The synchronous part of `handleBatchPredict`: nothing happens without
      files; otherwise it starts loading, clears the error and sends every
      collected file. */
  function BatchPredictStart(st: PageState): (r: BatchStart)
    ensures r.request.Some? <==> |st.uploadedFiles| > 0
    ensures r.request.None? ==> r.state == st
    ensures r.request.Some? ==>
      r.request.value == st.uploadedFiles && r.state == st.(isLoading := true, error := None)
  {
    if |st.uploadedFiles| == 0 then BatchStart(st, None)
    else BatchStart(st.(isLoading := true, error := None), Some(st.uploadedFiles))
  }

  /** The list `handleBatchPredict` shows for the kept results, tagged and
      categorised. */
  function MapBatch(kept: seq<BatchItem>, uploaded: seq<FileWithPreview>, stamp: string, now: Time)
    : (ps: seq<PredictionResult>)
    requires forall i :: 0 <= i < |kept| ==> kept[i].result.Some?
    ensures |ps| == |kept|
    ensures forall i :: 0 <= i < |kept| ==>
      && ps[i].id == PredictionId(kept[i], i, stamp)
      && ps[i].fruitName == FruitName(kept[i].result.value.predictedLabel)
      && ps[i].imageUrl == PreviewFor(uploaded, kept[i].filename)
      && ps[i].timestamp == now
      && ps[i].tag == Some(NormalizeTag(kept[i].result.value.tag))
      && ps[i].category == TagToCategory(ps[i].tag.value)
  {
    seq(|kept|, i requires 0 <= i < |kept| =>
      var tag := NormalizeTag(kept[i].result.value.tag);
      BatchPrediction(kept[i], i, uploaded, stamp, now, Some(tag), TagToCategory(tag)))
  }

  datatype BatchDone = BatchDone(state: PageState, alert: string)

  /** A successful `/batch-predict` response: the kept results replace the
      shown list and the summary is alerted. */
  function BatchPredictSucceeded(
    st: PageState, uploaded: seq<FileWithPreview>, data: BatchJson, stamp: string, now: Time): (r: BatchDone)
    ensures r.state.predictions == MapBatch(Successful(data.results), uploaded, stamp, now)
    ensures |r.state.predictions| <= |data.results|
    ensures r.alert == SummaryMessage(data.success, data.total, data.duplicates)
    ensures r.state == st.(predictions := r.state.predictions, isLoading := false)
  {
    Seqs.SubsequenceLength(Successful(data.results), data.results);
    var ps := MapBatch(Successful(data.results), uploaded, stamp, now);
    BatchDone(st.(predictions := ps, isLoading := false),
              SummaryMessage(data.success, data.total, data.duplicates))
  }

  /** A failed `/batch-predict` call. */
  function BatchPredictFailed(st: PageState, message: Option<string>): (r: PageState)
    ensures Text.Truthy(message) ==> r.error == message
    ensures !Text.Truthy(message) ==> r.error == Some(BatchFailedMessage)
    ensures r == st.(error := r.error, isLoading := false)
  {
    st.(error := Some(Text.OrElse(message, BatchFailedMessage)), isLoading := false)
  }

  /** `handleClearFiles`. */
  function ClearFiles(st: PageState): (r: PageState)
    ensures r.uploadedFiles == [] && r.predictions == []
    ensures r.uploadedImage == st.uploadedImage && r.uploadedFile == st.uploadedFile
    ensures r.predictionResult == st.predictionResult && r.mode == st.mode
    ensures r.isLoading == st.isLoading && r.error == st.error
    ensures r.duplicateInfo == st.duplicateInfo && r.isDuplicate == st.isDuplicate
  {
    st.(uploadedFiles := [], predictions := [])
  }

  /** How the body of `/batch-predict` reaches the page. */
  function BatchReplyJson(r: BatchApi.BatchResponse): BatchJson {
    BatchJson(ResultsJson(r.results), r.total, r.success, r.duplicates)
  }

  /** End to end over one batch: the page shows one result per file the
      server classified, and its alert reports failures exactly when some
      file could not be processed. */
  lemma BatchRoundTrip(
    st: PageState, uploaded: seq<FileWithPreview>, attempts: seq<BatchApi.FileAttempt>,
    stamp: string, now: Time)
    ensures var resp := BatchApi.BatchPredict(attempts);
      var done := BatchPredictSucceeded(st, uploaded, BatchReplyJson(resp), stamp, now);
      && |done.state.predictions| == resp.success
      && Text.StartsWith(done.alert, Headline(resp.success, |attempts|))
      && (Text.EndsWith(done.alert, FailureLine) <==>
            exists i :: 0 <= i < |attempts| && attempts[i].Unprocessable?)
  {
    var resp := BatchApi.BatchPredict(attempts);
    KeptMatchesSuccess(resp.results);
    BatchApi.CountIfAll(resp.results, BatchApi.HasResult);
    if exists i :: 0 <= i < |attempts| && attempts[i].Unprocessable? {
      var i :| 0 <= i < |attempts| && attempts[i].Unprocessable?;
      assert !BatchApi.HasResult(resp.results[i]);
    }
  }

  // ---------------------------------------------------------------------
  // Modes

  /** `handleModeChange`: switching modes forgets everything on the page
      but the loading flag. */
  function ModeChange(st: PageState, m: Mode): (r: PageState)
    ensures r == Initial.(mode := m, isLoading := st.isLoading)
  {
    ClearFiles(Reset(st.(mode := m))).(error := None)
  }

  /** Switching to a mode twice is switching once. */
  lemma ModeChangeIdempotent(st: PageState, m: Mode)
    ensures ModeChange(ModeChange(st, m), m) == ModeChange(st, m)
  {
  }

  /** Collected files are all images, and every handler keeps them so. */
  predicate FilesAreImages(st: PageState) {
    AllImages(st.uploadedFiles)
  }

  lemma HandlersKeepImages(st: PageState, files: seq<File>, read: File -> Option<string>, m: Mode)
    requires FilesAreImages(st)
    ensures FilesAreImages(SelectFiles(st, files, read))
    ensures FilesAreImages(ClearFiles(st))
    ensures FilesAreImages(ModeChange(st, m))
    ensures FilesAreImages(BatchPredictStart(st).state)
    ensures BatchPredictStart(st).request.Some? ==> AllImages(BatchPredictStart(st).request.value)
  {
  }
}
