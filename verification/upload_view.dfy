/** Batch-upload logic shared, line for line, by `PredictPage.tsx` and
    `BatchUploadPage.tsx`: the `image/` file filter and append, the filter
    that keeps the successful batch results, the filename-to-preview map
    and the summary message. */
module UploadView {
  import opened Wrappers
  import Text
  import Seqs
  import opened ViewModel
  import BatchApi
  import Store = PredictionStore

  /** A browser `File`. */
  datatype File = File(name: string, mimeType: string, content: seq<bv8>)

  /** `FileWithPreview`: a file and the data URL read from it. */
  datatype FileWithPreview = FileWithPreview(file: File, preview: string)

  /** `file.type.startsWith('image/')`. */
  predicate IsImage(f: File) {
    Text.StartsWith(f.mimeType, "image/")
  }

  /** `files.filter(file => file.type.startsWith('image/'))`. */
  function ImageFiles(files: seq<File>): (r: seq<File>)
    ensures forall f :: f in r <==> f in files && IsImage(f)
    ensures forall i :: 0 <= i < |r| ==> IsImage(r[i])
    ensures Seqs.IsSubsequence(r, files)
    ensures forall f :: multiset(r)[f] == if IsImage(f) then multiset(files)[f] else 0
  {
    if files == [] then []
    else
      var rest := ImageFiles(files[1..]);
      assert files == [files[0]] + files[1..];
      Seqs.FilterCountStep(files, rest, IsImage);
      if IsImage(files[0]) then [files[0]] + rest else rest
  }

  /** Every reader produced a (non-empty) result. */
  predicate AllRead(kept: seq<File>, read: File -> Option<string>) {
    forall i :: 0 <= i < |kept| ==> Text.Truthy(read(kept[i]))
  }

  predicate AllImages(files: seq<FileWithPreview>) {
    forall i :: 0 <= i < |files| ==> IsImage(files[i].file)
  }

  /** `handleMultipleFilesSelect` once every reader has fired: with no image
      among the chosen files nothing changes; when every image was read, the
      list grows by all of them in order; when some read produced nothing,
      the completion count never reaches the total and nothing is added. */
  function AddSelection(prev: seq<FileWithPreview>, files: seq<File>, read: File -> Option<string>)
    : (r: seq<FileWithPreview>)
    ensures |ImageFiles(files)| == 0 ==> r == prev
    ensures !AllRead(ImageFiles(files), read) ==> r == prev
    ensures AllRead(ImageFiles(files), read) ==>
      var kept := ImageFiles(files);
      && |r| == |prev| + |kept|
      && r[..|prev|] == prev
      && forall i :: 0 <= i < |kept| ==>
           r[|prev| + i].file == kept[i] && r[|prev| + i].preview == read(kept[i]).value
    ensures AllImages(prev) ==> AllImages(r)
  {
    var kept := ImageFiles(files);
    if |kept| == 0 || !AllRead(kept, read) then prev
    else WithPreviews(prev, kept, read)
  }

  /** `prev` followed by each read file with its preview. */
  function WithPreviews(prev: seq<FileWithPreview>, kept: seq<File>, read: File -> Option<string>)
    : (r: seq<FileWithPreview>)
    requires AllRead(kept, read)
    ensures |r| == |prev| + |kept|
    ensures r[..|prev|] == prev
    ensures forall i :: 0 <= i < |kept| ==>
      r[|prev| + i].file == kept[i] && r[|prev| + i].preview == read(kept[i]).value
    ensures AllImages(prev) && (forall i :: 0 <= i < |kept| ==> IsImage(kept[i])) ==> AllImages(r)
  {
    prev + seq(|kept|, i requires 0 <= i < |kept| => FileWithPreview(kept[i], read(kept[i]).value))
  }

  // ---------------------------------------------------------------------
  // Batch results as the client receives them

  /** The `result` object of one batch entry. */
  datatype ApiResult = ApiResult(predictedLabel: Option<string>, tag: JsValue)

  /** One element of `data.results`. */
  datatype BatchItem = BatchItem(
    filename: Option<string>, result: Option<ApiResult>, error: Option<string>,
    duplicateId: Option<string>)

  /** `r.result && !r.error`. */
  predicate Kept(item: BatchItem) {
    item.result.Some? && !Text.Truthy(item.error)
  }

  /** `data.results.filter(r => r.result && !r.error)`. */
  function Successful(items: seq<BatchItem>): (r: seq<BatchItem>)
    ensures forall x :: x in r <==> x in items && Kept(x)
    ensures forall j :: 0 <= j < |r| ==> Kept(r[j])
    ensures Seqs.IsSubsequence(r, items)
    ensures forall x :: multiset(r)[x] == if Kept(x) then multiset(items)[x] else 0
  {
    if items == [] then []
    else
      var rest := Successful(items[1..]);
      assert items == [items[0]] + items[1..];
      Seqs.FilterCountStep(items, rest, Kept);
      if Kept(items[0]) then [items[0]] + rest else rest
  }

  /** `new Map(files.map(f => [f.file.name, f.preview])).get(name) || ''`:
      the preview of the last file with that name, or empty. */
  function PreviewFor(files: seq<FileWithPreview>, name: Option<string>): (r: string)
    ensures (name.None? || forall i :: 0 <= i < |files| ==> files[i].file.name != name.value) ==> r == ""
    ensures name.Some? && (exists i :: 0 <= i < |files| && files[i].file.name == name.value) ==>
      exists i :: && 0 <= i < |files| && files[i].file.name == name.value && r == files[i].preview
                  && forall j :: i < j < |files| ==> files[j].file.name != name.value
  {
    if name.None? || files == [] then ""
    else if files[|files| - 1].file.name == name.value then files[|files| - 1].preview
    else
      var rest := files[..|files| - 1];
      assert forall j :: 0 <= j < |rest| ==> rest[j] == files[j];
      PreviewFor(rest, name)
  }

  /** How the batch response travels to the client. */
  function EntryJson(e: BatchApi.BatchEntry): BatchItem {
    match e
    case Succeeded(name, result, _, _, info) =>
      var tag := if result.tag.Some? then JsString(result.tag.value) else JsOther;
      BatchItem(Some(name), Some(ApiResult(Some(result.predictedLabel), tag)), None,
                if info.Some? then Some(Store.IdText(info.value.id)) else None)
    case Errored(name, err) => BatchItem(Some(name), None, Some(err), None)
  }

  function ResultsJson(results: seq<BatchApi.BatchEntry>): (r: seq<BatchItem>)
    ensures |r| == |results|
    ensures forall i :: 0 <= i < |results| ==> r[i] == EntryJson(results[i])
  {
    seq(|results|, i requires 0 <= i < |results| => EntryJson(results[i]))
  }

  /** The client keeps exactly as many results as the server counted as
      successes. */
  lemma {:induction false} KeptMatchesSuccess(results: seq<BatchApi.BatchEntry>)
    ensures |Successful(ResultsJson(results))| == BatchApi.CountIf(results, BatchApi.HasResult)
    decreases |results|
  {
    if results != [] {
      KeptMatchesSuccess(results[1..]);
      assert ResultsJson(results)[1..] == ResultsJson(results[1..]);
    }
  }

  /** `result.duplicate_info?.id || `${Date.now()}-${index}``: the id of
      the stored original when there is one, else a stamp-and-position id. */
  function PredictionId(item: BatchItem, index: nat, stamp: string): (r: string)
    ensures Text.Truthy(item.duplicateId) ==> r == item.duplicateId.value
    ensures !Text.Truthy(item.duplicateId) ==>
      Text.StartsWith(r, stamp + "-") && Text.ParseNat(r[|stamp| + 1..]) == Some(index)
  {
    var fallback := stamp + "-" + Text.NatToString(index);
    assert fallback[..|stamp| + 1] == stamp + "-";
    assert fallback[|stamp| + 1..] == Text.NatToString(index);
    Text.ParseNatToString(index);
    Text.OrElse(item.duplicateId, fallback)
  }

  /** Two successful results without a stored original never share an id
      within one batch. */
  lemma FallbackIdsDistinct(items: seq<BatchItem>, stamp: string, i: nat, j: nat)
    requires i < |items| && j < |items| && i != j
    requires !Text.Truthy(items[i].duplicateId) && !Text.Truthy(items[j].duplicateId)
    ensures PredictionId(items[i], i, stamp) != PredictionId(items[j], j, stamp)
  {
    var a := PredictionId(items[i], i, stamp);
    var b := PredictionId(items[j], j, stamp);
    if a == b {
      assert Text.ParseNat(a[|stamp| + 1..]) == Some(i);
      assert Text.ParseNat(b[|stamp| + 1..]) == Some(j);
    }
  }

  /** The fields both pages fill in the same way for a kept result, before
      the page decides the tag and the category. */
  function BatchPrediction(
    item: BatchItem, index: nat, files: seq<FileWithPreview>, stamp: string, now: Time,
    tag: Option<Tag>, category: string): PredictionResult
    requires item.result.Some?
  {
    PredictionResult(PredictionId(item, index, stamp), FruitName(item.result.value.predictedLabel),
                     PreviewFor(files, item.filename), now, tag, category)
  }

  // ---------------------------------------------------------------------
  // Summary message

  function Headline(success: nat, total: nat): string {
    "Processed " + Text.NatToString(success) + " out of " + Text.NatToString(total)
    + " images successfully."
  }

  function DuplicateLine(duplicates: nat): string {
    "\n\U{26A0}\U{FE0F} " + Text.NatToString(duplicates)
    + " duplicate image(s) detected. New records were created."
  }

  const FailureLine: string := "\nSome images may have failed."

  /** The three pieces of the alert text, in order. */
  function SummaryParts(success: nat, total: nat, duplicates: nat): string {
    Headline(success, total)
    + (if duplicates > 0 then DuplicateLine(duplicates) else "")
    + (if success < total then FailureLine else "")
  }

  /** The alert text after a batch: the headline, then a warning line when
      there were duplicates, then a failure line when some file failed. */
  function SummaryMessage(success: nat, total: nat, duplicates: nat): (m: string)
    ensures Text.StartsWith(m, Headline(success, total))
    ensures duplicates > 0 ==> Text.StartsWith(m[|Headline(success, total)|..], DuplicateLine(duplicates))
    ensures duplicates > 0 <==>
              |m| > |Headline(success, total)| + 1 && m[|Headline(success, total)| + 1] == '\U{26A0}'
    ensures Text.EndsWith(m, FailureLine) <==> success < total
    ensures duplicates == 0 && success >= total ==> m == Headline(success, total)
    // nothing else is in the message
    ensures |m| == |Headline(success, total)| + (if duplicates > 0 then |DuplicateLine(duplicates)| else 0)
                   + (if success < total then |FailureLine| else 0)
  {
    SummaryPartsShape(success, total, duplicates);
    SummaryParts(success, total, duplicates)
  }

  lemma SummaryPartsShape(success: nat, total: nat, duplicates: nat)
    ensures var m := SummaryParts(success, total, duplicates);
      var h := Headline(success, total);
      && Text.StartsWith(m, h)
      && (duplicates > 0 ==> Text.StartsWith(m[|h|..], DuplicateLine(duplicates)))
      && (duplicates > 0 <==> |m| > |h| + 1 && m[|h| + 1] == '\U{26A0}')
      && (Text.EndsWith(m, FailureLine) <==> success < total)
  {
    var head := Headline(success, total);
    var dup := if duplicates > 0 then DuplicateLine(duplicates) else "";
    var fail := if success < total then FailureLine else "";
    assert SummaryParts(success, total, duplicates) == head + dup + fail;
    HeadlineEnding(success, total);
    if duplicates > 0 {
      DuplicateLineEnding(duplicates);
    }
    PiecesOrder(head, dup, fail);
    PiecesMarker(head, dup, fail, duplicates > 0);
    PiecesEnding(head, dup, fail, success < total);
  }

  /** The alert starts with its headline, then its warning line. */
  lemma PiecesOrder(head: string, dup: string, fail: string)
    ensures Text.StartsWith(head + dup + fail, head)
    ensures Text.StartsWith((head + dup + fail)[|head|..], dup)
  {
    var m := head + dup + fail;
    assert m[..|head|] == head;
    assert m[|head|..] == dup + fail;
    assert (dup + fail)[..|dup|] == dup;
  }

  /** The warning sign right after the headline's line break marks the
      warning line. */
  lemma PiecesMarker(head: string, dup: string, fail: string, hasDup: bool)
    requires hasDup ==> |dup| > 1 && dup[1] == '\U{26A0}'
    requires !hasDup ==> dup == ""
    requires fail == "" || fail == FailureLine
    ensures hasDup <==> |head + dup + fail| > |head| + 1 && (head + dup + fail)[|head| + 1] == '\U{26A0}'
  {
    var m := head + dup + fail;
    if !hasDup && fail != "" {
      assert m[|head| + 1] == FailureLine[1] == 'S';
    }
  }

  /** The alert ends with the failure line exactly when that line was
      appended, provided neither earlier piece ends with it. */
  lemma PiecesEnding(head: string, dup: string, fail: string, hasFail: bool)
    requires hasFail ==> fail == FailureLine
    requires !hasFail ==> fail == ""
    requires !Text.EndsWith(head, FailureLine)
    requires dup != "" ==> |dup| >= |FailureLine| && !Text.EndsWith(dup, FailureLine)
    ensures Text.EndsWith(head + dup + fail, FailureLine) <==> hasFail
  {
    if hasFail {
      Text.EndsWithAppend(head + dup, fail, FailureLine);
    } else if dup != "" {
      assert head + dup + fail == head + dup;
      Text.EndsWithAppend(head, dup, FailureLine);
    } else {
      assert head + dup + fail == head;
    }
  }

  lemma HeadlineEnding(success: nat, total: nat)
    ensures !Text.EndsWith(Headline(success, total), FailureLine)
  {
    var tail := " images successfully.";
    var h := Headline(success, total);
    assert h == ("Processed " + Text.NatToString(success) + " out of " + Text.NatToString(total)) + tail;
    assert tail[|tail| - 2] == 'y' && FailureLine[|FailureLine| - 2] == 'd';
    DiffersNearEnd(h, tail, 2);
  }

  /** The warning line opens with a line break and the warning sign, is
      longer than the failure line, and does not end with it. */
  lemma DuplicateLineEnding(duplicates: nat)
    ensures |DuplicateLine(duplicates)| > |FailureLine| && DuplicateLine(duplicates)[1] == '\U{26A0}'
    ensures !Text.EndsWith(DuplicateLine(duplicates), FailureLine)
  {
    var tail := " duplicate image(s) detected. New records were created.";
    var d := DuplicateLine(duplicates);
    assert d == ("\n\U{26A0}\U{FE0F} " + Text.NatToString(duplicates)) + tail;
    assert tail[|tail| - 4] == 't' && FailureLine[|FailureLine| - 4] == 'l';
    DiffersNearEnd(d, tail, 4);
  }

  /** A text whose `k`-th character from the end differs from the failure
      line's cannot end with the failure line. */
  lemma DiffersNearEnd(s: string, tail: string, k: nat)
    requires 1 <= k <= |tail| && k <= |FailureLine|
    requires tail[|tail| - k] != FailureLine[|FailureLine| - k]
    requires exists a :: s == a + tail
    ensures !Text.EndsWith(s, FailureLine)
  {
    var a :| s == a + tail;
    assert s[|s| - k] == tail[|tail| - k];
    if |FailureLine| <= |s| {
      assert s[|s| - |FailureLine|..][|FailureLine| - k] == s[|s| - k];
    }
  }
}
