/** The state transitions of `front-end/src/pages/BatchUploadPage.tsx`:
    the same collect-and-send flow as the batch mode of the prediction page,
    but every result is shown under the `General` category without a tag,
    and a failure is alerted rather than kept as an error. */
module BatchUploadPage {
  import opened Wrappers
  import Text
  import opened ViewModel
  import opened UploadView
  import Seqs
  import PredictPage

  datatype PageState = PageState(
    uploadedFiles: seq<FileWithPreview>, predictions: seq<PredictionResult>, isLoading: bool)

  const Initial: PageState := PageState([], [], false)

  const GeneralCategory: string := "General"

  /** `handleMultipleFilesSelect`. */
  function SelectFiles(st: PageState, files: seq<File>, read: File -> Option<string>): (r: PageState)
    ensures r.uploadedFiles == AddSelection(st.uploadedFiles, files, read)
    ensures r.predictions == st.predictions && r.isLoading == st.isLoading
  {
    st.(uploadedFiles := AddSelection(st.uploadedFiles, files, read))
  }

  datatype BatchStart = BatchStart(state: PageState, request: Option<seq<FileWithPreview>>)

  /** The synchronous part of `handleBatchPredict`: nothing happens without
      files; otherwise loading starts and every collected file is sent. */
  function BatchPredictStart(st: PageState): (r: BatchStart)
    ensures r.request.Some? <==> |st.uploadedFiles| > 0
    ensures r.request.None? ==> r.state == st
    ensures r.request.Some? ==> r.request.value == st.uploadedFiles && r.state == st.(isLoading := true)
  {
    if |st.uploadedFiles| == 0 then BatchStart(st, None)
    else BatchStart(st.(isLoading := true), Some(st.uploadedFiles))
  }

  /** The list this page shows for the kept results: no tag, and the
      `General` category for every one. */
  function MapBatch(kept: seq<BatchItem>, uploaded: seq<FileWithPreview>, stamp: string, now: Time)
    : (ps: seq<PredictionResult>)
    requires forall i :: 0 <= i < |kept| ==> kept[i].result.Some?
    ensures |ps| == |kept|
    ensures forall i :: 0 <= i < |kept| ==>
      && ps[i].id == PredictionId(kept[i], i, stamp)
      && ps[i].fruitName == FruitName(kept[i].result.value.predictedLabel)
      && ps[i].imageUrl == PreviewFor(uploaded, kept[i].filename)
      && ps[i].timestamp == now
      && ps[i].tag.None?
      && ps[i].category == GeneralCategory
  {
    seq(|kept|, i requires 0 <= i < |kept| =>
      BatchPrediction(kept[i], i, uploaded, stamp, now, None, GeneralCategory))
  }

  datatype BatchDone = BatchDone(state: PageState, alert: string)

  /** A successful `/batch-predict` response: the kept results replace the
      shown list and the summary is alerted. */
  function BatchPredictSucceeded(
    st: PageState, uploaded: seq<FileWithPreview>, data: PredictPage.BatchJson, stamp: string, now: Time)
    : (r: BatchDone)
    ensures r.state.predictions == MapBatch(Successful(data.results), uploaded, stamp, now)
    ensures |r.state.predictions| <= |data.results|
    ensures r.alert == SummaryMessage(data.success, data.total, data.duplicates)
    ensures r.state.uploadedFiles == st.uploadedFiles && !r.state.isLoading
  {
    Seqs.SubsequenceLength(Successful(data.results), data.results);
    BatchDone(PageState(st.uploadedFiles, MapBatch(Successful(data.results), uploaded, stamp, now), false),
              SummaryMessage(data.success, data.total, data.duplicates))
  }

  /** A failed `/batch-predict` call: the files and the shown list stay, and
      the failure is alerted. */
  function BatchPredictFailed(st: PageState, message: Option<string>): (r: BatchDone)
    ensures Text.StartsWith(r.alert, "Error: ")
    ensures Text.Truthy(message) ==> r.alert[7..] == message.value
    ensures !Text.Truthy(message) ==> r.alert[7..] == PredictPage.BatchFailedMessage
    ensures r.state == st.(isLoading := false)
  {
    var text := "Error: " + Text.OrElse(message, PredictPage.BatchFailedMessage);
    assert text[..7] == "Error: ";
    BatchDone(st.(isLoading := false), text)
  }

  /** `handleClearFiles`. */
  function ClearFiles(st: PageState): (r: PageState)
    ensures r.uploadedFiles == [] && r.predictions == [] && r.isLoading == st.isLoading
  {
    st.(uploadedFiles := [], predictions := [])
  }

  /** For the same response, this page shows the results of the prediction
      page's batch mode, position by position, with the tag dropped and the
      category forced to `General`. */
  lemma AgreesWithPredictPage(
    st: PageState, other: PredictPage.PageState, uploaded: seq<FileWithPreview>,
    data: PredictPage.BatchJson, stamp: string, now: Time)
    ensures var mine := BatchPredictSucceeded(st, uploaded, data, stamp, now);
      var theirs := PredictPage.BatchPredictSucceeded(other, uploaded, data, stamp, now);
      && |mine.state.predictions| == |theirs.state.predictions|
      && mine.alert == theirs.alert
      && forall i :: 0 <= i < |mine.state.predictions| ==>
           mine.state.predictions[i]
             == theirs.state.predictions[i].(tag := None, category := GeneralCategory)
  {
  }

  /** Collected files are all images, and every handler keeps them so. */
  lemma HandlersKeepImages(st: PageState, files: seq<File>, read: File -> Option<string>)
    requires AllImages(st.uploadedFiles)
    ensures AllImages(SelectFiles(st, files, read).uploadedFiles)
    ensures AllImages(ClearFiles(st).uploadedFiles)
    ensures BatchPredictStart(st).request.Some? ==> AllImages(BatchPredictStart(st).request.value)
  {
  }
}
