/** The state transitions of
    `front-end/src/pages/PredictionHistoryPage.tsx`: loading the stored
    history and mapping it for display, selecting entries, and deleting the
    selection. The lemmas at the end follow a history from the store's
    `get_history` through the page and back into `delete_predictions`. */
module HistoryPage {
  import opened Wrappers
  import Text
  import Seqs
  import opened ViewModel
  import Store = PredictionStore

  /** One element of `data.history` as the page reads it; `legacyId` is
      `_id`, and `createdAt` is `created_at` already parsed. */
  datatype HistoryJson = HistoryJson(
    id: Option<string>, legacyId: Option<string>, predictedLabel: Option<string>,
    imageBase64: Option<string>, contentType: Option<string>, createdAt: Option<Time>,
    predictedTag: JsValue)

  datatype HistoryState = HistoryState(
    history: seq<PredictionResult>, loading: bool, error: Option<string>,
    selectedIds: set<string>, isDeleting: bool)

  const Initial: HistoryState := HistoryState([], false, None, {}, false)

  /** The one-pixel image shown for an entry without a stored image. */
  const TransparentPng: string :=
    "data:image/png;base64,iVBORw0KGgoAAAANSUhEUgAAAAEAAAABCAQAAAC1HAwCAAAAC0lEQVR42mP8Xw8AAmMBcVb0lWQAAAAASUVORK5CYII="

  const DefaultContentType: string := "image/jpeg"
  const LoadFailedMessage: string := "Failed to load history"
  const DeleteFailedMessage: string := "Failed to delete predictions. Please try again."

  // ---------------------------------------------------------------------
  // Mapping

  /** The image URL of an entry: a data URL of its payload under its
      content type (JPEG when none is recorded), or the transparent pixel
      when it has no payload. */
  function ImageUrl(d: HistoryJson): (url: string)
    ensures !Text.Truthy(d.imageBase64) ==> url == TransparentPng
    ensures Text.Truthy(d.imageBase64) ==>
      var ct := Text.OrElse(d.contentType, DefaultContentType);
      && Text.StartsWith(url, "data:" + ct + ";base64,")
      && url[|"data:" + ct + ";base64,"|..] == d.imageBase64.value
  {
    if Text.Truthy(d.imageBase64) then
      var prefix := "data:" + Text.OrElse(d.contentType, DefaultContentType) + ";base64,";
      var url := prefix + d.imageBase64.value;
      assert url[..|prefix|] == prefix && url[|prefix|..] == d.imageBase64.value;
      url
    else TransparentPng
  }

  /** `String(d.id || d._id || Date.now())`. */
  function EntryId(d: HistoryJson, stamp: string): (id: string)
    ensures Text.Truthy(d.id) ==> id == d.id.value
    ensures !Text.Truthy(d.id) && Text.Truthy(d.legacyId) ==> id == d.legacyId.value
    ensures !Text.Truthy(d.id) && !Text.Truthy(d.legacyId) ==> id == stamp
  {
    Text.OrElse(d.id, Text.OrElse(d.legacyId, stamp))
  }

  /** One history entry as the page shows it. */
  function MapEntry(d: HistoryJson, stamp: string, now: Time): (p: PredictionResult)
    ensures p.id == EntryId(d, stamp)
    ensures p.fruitName == FruitName(d.predictedLabel)
    ensures p.imageUrl == ImageUrl(d)
    ensures d.createdAt.Some? ==> p.timestamp == d.createdAt.value
    ensures d.createdAt.None? ==> p.timestamp == now
    ensures p.tag == Some(NormalizeTag(d.predictedTag)) && p.category == TagToCategory(p.tag.value)
  {
    var tag := NormalizeTag(d.predictedTag);
    PredictionResult(EntryId(d, stamp), FruitName(d.predictedLabel), ImageUrl(d),
                     if d.createdAt.Some? then d.createdAt.value else now, Some(tag), TagToCategory(tag))
  }

  function MapHistory(items: seq<HistoryJson>, stamp: string, now: Time): (ps: seq<PredictionResult>)
    ensures |ps| == |items|
    ensures forall i :: 0 <= i < |items| ==> ps[i] == MapEntry(items[i], stamp, now)
  {
    seq(|items|, i requires 0 <= i < |items| => MapEntry(items[i], stamp, now))
  }

  // ---------------------------------------------------------------------
  // Loading

  /** The synchronous part of `fetchFromDb`. */
  function FetchStart(st: HistoryState): (r: HistoryState)
    ensures r.loading && r.error.None?
    ensures r.history == st.history && r.selectedIds == st.selectedIds && r.isDeleting == st.isDeleting
  {
    st.(loading := true, error := None)
  }

  /** A successful `/history` response (`data?.history || []`): the mapped
      entries replace the list and the selection is cleared. */
  function FetchSucceeded(st: HistoryState, items: Option<seq<HistoryJson>>, stamp: string, now: Time)
    : (r: HistoryState)
    ensures items.Some? ==> r.history == MapHistory(items.value, stamp, now)
    ensures items.None? ==> r.history == []
    ensures r.selectedIds == {} && !r.loading
    ensures r.error == st.error && r.isDeleting == st.isDeleting
  {
    var list := if items.Some? then items.value else [];
    st.(history := MapHistory(list, stamp, now), selectedIds := {}, loading := false)
  }

  /** A failed `/history` call: the list and the selection stay. */
  function FetchFailed(st: HistoryState, message: Option<string>): (r: HistoryState)
    ensures Text.Truthy(message) ==> r.error == message
    ensures !Text.Truthy(message) ==> r.error == Some(LoadFailedMessage)
    ensures r == st.(error := r.error, loading := false)
  {
    st.(error := Some(Text.OrElse(message, LoadFailedMessage)), loading := false)
  }

  /** How a loaded history ends. */
  datatype FetchOutcome = Loaded(items: Option<seq<HistoryJson>>) | LoadFailed(message: Option<string>)

  function FetchDone(st: HistoryState, outcome: FetchOutcome, stamp: string, now: Time): HistoryState {
    match outcome
    case Loaded(items) => FetchSucceeded(st, items, stamp, now)
    case LoadFailed(message) => FetchFailed(st, message)
  }

  // ---------------------------------------------------------------------
  // Selection

  /** `handleToggleSelect`. */
  function Toggle(sel: set<string>, id: string): (r: set<string>)
    ensures id in r <==> id !in sel
    ensures forall x :: x != id ==> (x in r <==> x in sel)
  {
    if id in sel then sel - {id} else sel + {id}
  }

  lemma ToggleTwice(sel: set<string>, id: string)
    ensures Toggle(Toggle(sel, id), id) == sel
  {
  }

  function HistoryIds(h: seq<PredictionResult>): (ids: seq<string>)
    ensures |ids| == |h| && forall i :: 0 <= i < |h| ==> ids[i] == h[i].id
  {
    seq(|h|, i requires 0 <= i < |h| => h[i].id)
  }

  function IdSet(h: seq<PredictionResult>): set<string> {
    Seqs.Elements(HistoryIds(h))
  }

  /** `handleSelectAll`: clears the selection when it is as large as the
      list, and otherwise selects every shown id. */
  function SelectAll(st: HistoryState): (r: HistoryState)
    ensures |st.selectedIds| == |st.history| ==> r.selectedIds == {}
    ensures |st.selectedIds| != |st.history| ==> r.selectedIds == IdSet(st.history)
    ensures r == st.(selectedIds := r.selectedIds)
  {
    if |st.selectedIds| == |st.history| then st.(selectedIds := {})
    else st.(selectedIds := IdSet(st.history))
  }

  /** `allSelected`. */
  function AllSelected(st: HistoryState): (r: bool)
    ensures r ==> st.selectedIds != {}
    ensures |st.history| > 0 && Seqs.Distinct(HistoryIds(st.history)) && st.selectedIds == IdSet(st.history) ==> r
  {
    var r := |st.history| > 0 && |st.selectedIds| == |st.history|;
    if Seqs.Distinct(HistoryIds(st.history)) then
      Seqs.DistinctElements(HistoryIds(st.history));
      r
    else r
  }

  /** Only shown ids are ever selected. */
  predicate SelectionShown(st: HistoryState) {
    st.selectedIds <= IdSet(st.history)
  }

  /** A subset as large as its superset is the superset. */
  lemma SubsetOfSameSize<T>(a: set<T>, b: set<T>)
    requires a <= b && |a| == |b|
    ensures a == b
  {
    assert b == a + (b - a);
    assert |b - a| == 0;
  }

  /** With distinct shown ids, the page reports "all selected" exactly when
      every shown entry is selected. */
  lemma AllSelectedMeansEvery(st: HistoryState)
    requires SelectionShown(st) && Seqs.Distinct(HistoryIds(st.history))
    ensures AllSelected(st) <==> |st.history| > 0 && st.selectedIds == IdSet(st.history)
  {
    Seqs.DistinctElements(HistoryIds(st.history));
    if |st.selectedIds| == |st.history| {
      SubsetOfSameSize(st.selectedIds, IdSet(st.history));
    }
  }

  /** With distinct shown ids, select-all on a non-empty list alternates
      between everything and nothing. */
  lemma SelectAllAlternates(st: HistoryState)
    requires SelectionShown(st) && Seqs.Distinct(HistoryIds(st.history)) && |st.history| > 0
    ensures AllSelected(SelectAll(st)) <==> !AllSelected(st)
  {
    Seqs.DistinctElements(HistoryIds(st.history));
    AllSelectedMeansEvery(st);
  }

  /** Toggling a shown id, selecting all, and reloading keep the selection
      within the shown ids. */
  lemma SelectionStaysShown(st: HistoryState, i: nat, outcome: FetchOutcome, stamp: string, now: Time)
    requires SelectionShown(st) && i < |st.history|
    ensures SelectionShown(st.(selectedIds := Toggle(st.selectedIds, st.history[i].id)))
    ensures SelectionShown(SelectAll(st))
    ensures SelectionShown(FetchDone(st, outcome, stamp, now))
  {
    assert st.history[i].id == HistoryIds(st.history)[i];
  }

  // ---------------------------------------------------------------------
  // Deletion

  /** `Array.from(selectedIds)`: every selected id once. */
  method SelectionList(sel: set<string>) returns (ids: seq<string>)
    ensures Seqs.Elements(ids) == sel && Seqs.Distinct(ids) && |ids| == |sel|
  {
    ids := [];
    var rest := sel;
    while rest != {}
      invariant Seqs.Elements(ids) + rest == sel
      invariant Seqs.Elements(ids) !! rest
      invariant Seqs.Distinct(ids)
      invariant |ids| + |rest| == |sel|
      decreases |rest|
    {
      var x :| x in rest;
      Seqs.AppendFresh(ids, x);
      ids := ids + [x];
      rest := rest - {x};
    }
  }

  const ConfirmHead: string := "B\U{1EA1}n c\U{00F3} ch\U{1EAF}c mu\U{1ED1}n x\U{00F3}a "
  const ConfirmTail: string := " m\U{1EE5}c \U{0111}\U{00E3} ch\U{1ECD}n?"
  const DeletedHead: string := "\U{0110}\U{00E3} x\U{00F3}a th\U{00E0}nh c\U{00F4}ng "
  const DeletedTail: string := " m\U{1EE5}c"

  /** The question asked before deleting `n` entries; the count reads back
      from between the fixed words. */
  function ConfirmPrompt(n: nat): (r: string)
    ensures |r| > |ConfirmHead| + |ConfirmTail|
    ensures r[..|ConfirmHead|] == ConfirmHead && r[|r| - |ConfirmTail|..] == ConfirmTail
    ensures Text.ParseNat(r[|ConfirmHead|..|r| - |ConfirmTail|]) == Some(n)
  {
    Framed(ConfirmHead, n, ConfirmTail)
  }

  /** The alert after a deletion that removed `n` entries; the count reads
      back from between the fixed words. */
  function DeletedAlert(n: nat): (r: string)
    ensures |r| > |DeletedHead| + |DeletedTail|
    ensures r[..|DeletedHead|] == DeletedHead && r[|r| - |DeletedTail|..] == DeletedTail
    ensures Text.ParseNat(r[|DeletedHead|..|r| - |DeletedTail|]) == Some(n)
  {
    Framed(DeletedHead, n, DeletedTail)
  }

  /** The numeral of `n` between `head` and `tail`. */
  function Framed(head: string, n: nat, tail: string): (r: string)
    ensures |r| > |head| + |tail|
    ensures r[..|head|] == head && r[|r| - |tail|..] == tail
    ensures Text.ParseNat(r[|head|..|r| - |tail|]) == Some(n)
  {
    var digits := Text.NatToString(n);
    Text.ParseNatToString(n);
    var r := head + digits + tail;
    assert r[|head|..|r| - |tail|] == digits;
    r
  }

  /** The synchronous part of `handleDeleteSelected`: with nothing selected
      nothing happens; otherwise the user is asked, and only on confirmation
      does deletion start with every selected id sent once. */
  method DeleteStart(st: HistoryState, confirmed: bool)
    returns (r: HistoryState, prompt: Option<string>, request: Option<seq<string>>)
    ensures prompt.Some? <==> |st.selectedIds| > 0
    ensures prompt.Some? ==> prompt.value == ConfirmPrompt(|st.selectedIds|)
    ensures request.Some? <==> |st.selectedIds| > 0 && confirmed
    ensures request.None? ==> r == st
    ensures request.Some? ==>
      && Seqs.Elements(request.value) == st.selectedIds
      && Seqs.Distinct(request.value)
      && r == st.(isDeleting := true, error := None)
  {
    if |st.selectedIds| == 0 {
      return st, None, None;
    }
    prompt := Some(ConfirmPrompt(|st.selectedIds|));
    if !confirmed {
      return st, prompt, None;
    }
    var ids := SelectionList(st.selectedIds);
    r := st.(isDeleting := true, error := None);
    request := Some(ids);
  }

  datatype DeleteDone = DeleteDone(state: HistoryState, alert: Option<string>)

  /** A successful `DELETE /history`: the history is reloaded through
      `fetchFromDb` (which first clears the error), then the count is
      alerted; a failed reload only leaves its own error. */
  function DeleteSucceeded(st: HistoryState, deletedCount: nat, reload: FetchOutcome, stamp: string, now: Time)
    : (r: DeleteDone)
    ensures r.alert == Some(DeletedAlert(deletedCount))
    ensures !r.state.loading && !r.state.isDeleting
    ensures reload.Loaded? ==>
      && r.state.error.None?
      && r.state.selectedIds == {}
      && r.state.history == MapHistory(if reload.items.Some? then reload.items.value else [], stamp, now)
    ensures reload.LoadFailed? ==>
      && r.state.error == Some(Text.OrElse(reload.message, LoadFailedMessage))
      && r.state.history == st.history && r.state.selectedIds == st.selectedIds
  {
    DeleteDone(FetchDone(FetchStart(st), reload, stamp, now).(isDeleting := false), Some(DeletedAlert(deletedCount)))
  }

  /** A failed `DELETE /history`: the selection stays for another try. */
  function DeleteFailed(st: HistoryState, message: Option<string>): (r: DeleteDone)
    ensures r.alert.None?
    ensures Text.Truthy(message) ==> r.state.error == message
    ensures !Text.Truthy(message) ==> r.state.error == Some(DeleteFailedMessage)
    ensures r.state == st.(error := r.state.error, isDeleting := false)
  {
    DeleteDone(st.(error := Some(Text.OrElse(message, DeleteFailedMessage)), isDeleting := false), None)
  }

  // ---------------------------------------------------------------------
  // From the store to the page and back

  /** How `get_history` items reach the page: the id as text, the content
      type from `meta`, and no `predicted_tag` at all. */
  function ToJson(item: Store.HistoryItem): HistoryJson {
    var ct := if item.meta.Some? && "content_type" in item.meta.value
              then Some(item.meta.value["content_type"]) else None;
    HistoryJson(Some(Store.IdText(item.id)), None, Some(item.predictedLabel), item.imageBase64,
                ct, Some(item.createdAt), JsOther)
  }

  function ItemsJson(items: seq<Store.HistoryItem>): (r: seq<HistoryJson>)
    ensures |r| == |items| && forall i :: 0 <= i < |items| ==> r[i] == ToJson(items[i])
  {
    seq(|items|, i requires 0 <= i < |items| => ToJson(items[i]))
  }

  /** The history the page shows for the store's items. */
  function Shown(items: seq<Store.HistoryItem>, stamp: string, now: Time): seq<PredictionResult> {
    MapHistory(ItemsJson(items), stamp, now)
  }

  /** Every stored entry is shown with its own id, its stored time and, as
      the store never sends a tag, under the `General` category. */
  lemma ShownEntries(db: Store.Db, limit: nat, stamp: string, now: Time)
    requires Store.IdsIssued(db)
    ensures var items := Store.GetHistory(db, limit);
      var shown := Shown(items, stamp, now);
      && |shown| == |items|
      && forall i :: 0 <= i < |items| ==>
           && Store.ParseId(shown[i].id) == Some(items[i].id)
           && shown[i].timestamp == items[i].createdAt
           && shown[i].tag == Some(Unknown)
           && shown[i].category == "General"
  {
    var items := Store.GetHistory(db, limit);
    forall i | 0 <= i < |items|
      ensures Text.Truthy(ToJson(items[i]).id)
    {
      assert Store.ParseId(Store.IdText(items[i].id)).Some?;
    }
  }

  /** The shown ids are distinct, so the selection lemmas apply. */
  lemma ShownIdsDistinct(db: Store.Db, limit: nat, stamp: string, now: Time)
    requires Store.IdsIssued(db)
    ensures Seqs.Distinct(HistoryIds(Shown(Store.GetHistory(db, limit), stamp, now)))
  {
    var items := Store.GetHistory(db, limit);
    var ids := HistoryIds(Shown(items, stamp, now));
    ShownEntries(db, limit, stamp, now);
    forall a, b | 0 <= a < b < |ids|
      ensures ids[a] != ids[b]
    {
      assert Store.ItemIds(items)[a] != Store.ItemIds(items)[b];
    }
  }

  /** The stored ids the texts in `sel` name. */
  function Targets(sel: set<string>): set<Store.Id> {
    set s | s in sel && Store.ParseId(s).Some? :: Store.ParseId(s).value
  }

  /** Distinct well-formed id texts name distinct records. */
  lemma {:induction false} TargetsSize(sel: set<string>)
    requires forall s :: s in sel ==> Store.ParseId(s).Some? && Store.IdText(Store.ParseId(s).value) == s
    ensures |Targets(sel)| == |sel|
    decreases |sel|
  {
    if sel != {} {
      var x :| x in sel;
      var rest := sel - {x};
      TargetsSize(rest);
      assert Targets(sel) == Targets(rest) + {Store.ParseId(x).value};
      assert Store.ParseId(x).value !in Targets(rest);
    }
  }

  /** Every text in `sel` is the id text of a stored record. */
  predicate NamesStored(db: Store.Db, sel: set<string>) {
    forall s :: s in sel ==>
      && Store.ParseId(s).Some?
      && Store.IdText(Store.ParseId(s).value) == s
      && Store.ParseId(s).value in db.records
  }

  /** A shown entry's id is the id text of the stored record it came from. */
  lemma EntryNamesStored(db: Store.Db, item: Store.HistoryItem, stamp: string, now: Time)
    requires Store.Reports(db, item)
    ensures var s := MapEntry(ToJson(item), stamp, now).id;
      Store.ParseId(s) == Some(item.id) && Store.IdText(item.id) == s && item.id in db.records
  {
    assert Store.ParseId(Store.IdText(item.id)).Some?;
  }

  /** Whatever the page selects from the shown history names stored
      records. */
  lemma ShownNamesStored(db: Store.Db, limit: nat, stamp: string, now: Time, sel: set<string>)
    requires Store.IdsIssued(db)
    requires sel <= IdSet(Shown(Store.GetHistory(db, limit), stamp, now))
    ensures NamesStored(db, sel)
  {
    ItemsNameStored(db, Store.GetHistory(db, limit), stamp, now, sel);
  }

  lemma ItemsNameStored(db: Store.Db, items: seq<Store.HistoryItem>, stamp: string, now: Time, sel: set<string>)
    requires forall i :: 0 <= i < |items| ==> Store.Reports(db, items[i])
    requires sel <= IdSet(Shown(items, stamp, now))
    ensures NamesStored(db, sel)
  {
    var shown := Shown(items, stamp, now);
    forall s | s in sel
      ensures Store.ParseId(s).Some? && Store.IdText(Store.ParseId(s).value) == s
      ensures Store.ParseId(s).value in db.records
    {
      var i :| 0 <= i < |shown| && HistoryIds(shown)[i] == s;
      EntryNamesStored(db, items[i], stamp, now);
      assert shown[i] == MapEntry(ToJson(items[i]), stamp, now);
    }
  }

  /** Deleting a list of stored records' id texts removes exactly those
      records. */
  lemma DeleteNamedKeys(db: Store.Db, sel: set<string>, ids: seq<string>)
    requires NamesStored(db, sel) && Seqs.Elements(ids) == sel
    ensures Store.DeletePredictions(db, ids).db.records.Keys == db.records.Keys - Targets(sel)
  {
    var d := Store.DeletePredictions(db, ids);
    forall k | k in db.records
      ensures k in d.db.records <==> k !in Targets(sel)
    {
      if k in Targets(sel) {
        var s :| s in sel && Store.ParseId(s).Some? && Store.ParseId(s).value == k;
        assert s in ids;
      } else {
        forall s | s in ids
          ensures Store.ParseId(s) != Some(k)
        {
          assert s in sel;
        }
      }
    }
  }

  /** The records a list of id texts names are those whose text is listed. */
  lemma TargetsNamed(db: Store.Db, sel: set<string>)
    requires NamesStored(db, sel)
    ensures forall k :: k in Targets(sel) <==> Store.IdText(k) in sel
    ensures Targets(sel) <= db.records.Keys
  {
    forall k
      ensures k in Targets(sel) <==> Store.IdText(k) in sel
    {
      if Store.IdText(k) in sel {
        assert Store.ParseId(Store.IdText(k)) == Some(k);
      }
    }
  }

  /** Deleting a list of stored records' id texts removes exactly those
      records and reports how many there were. */
  lemma DeleteNamed(db: Store.Db, sel: set<string>, ids: seq<string>)
    requires NamesStored(db, sel) && Seqs.Elements(ids) == sel
    ensures var d := Store.DeletePredictions(db, ids);
      && (forall k :: k in d.db.records <==> k in db.records && Store.IdText(k) !in sel)
      && d.count == |sel|
  {
    var d := Store.DeletePredictions(db, ids);
    DeleteNamedKeys(db, sel, ids);
    TargetsNamed(db, sel);
    TargetsSize(sel);
    Seqs.RemovedCount(db.records.Keys, d.db.records.Keys, Targets(sel));
  }

  /** Deleting a selection of shown entries removes exactly the selected
      records, and the count the page alerts is the number selected. */
  lemma DeleteSelection(db: Store.Db, limit: nat, stamp: string, now: Time, sel: set<string>, ids: seq<string>)
    requires Store.IdsIssued(db)
    requires sel <= IdSet(Shown(Store.GetHistory(db, limit), stamp, now))
    requires Seqs.Elements(ids) == sel
    ensures var d := Store.DeletePredictions(db, ids);
      && (forall k :: k in d.db.records <==> k in db.records && Store.IdText(k) !in sel)
      && d.count == |sel|
  {
    ShownNamesStored(db, limit, stamp, now, sel);
    DeleteNamed(db, sel, ids);
  }
}
