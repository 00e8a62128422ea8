/** The calls page: the pagination arithmetic and when the pager is shown,
    the notes handed to the notes dialog, and the page's own dialog state.
    Dispatching a synchronous reducer calls the store's method; dispatching
    a request thunk returns the request that would be sent. */
module CallsPage {
  import opened Common
  import opened Text
  import Duration
  import Calls

  /** `Math.ceil(a / b)` for a positive divisor. */
  function CeilDiv(a: int, b: int): (q: int)
    requires b >= 1
    ensures (q - 1) * b < a <= q * b
  {
    -((-a) / b)
  }

  /** Number of pages the pager offers: never fewer than one. */
  function TotalPages(totalCount: int, perPage: int): (n: int)
    requires perPage >= 1
    ensures n >= 1
    ensures totalCount <= perPage ==> n == 1
    ensures totalCount > 0 ==> (n - 1) * perPage < totalCount <= n * perPage
  {
    var q := CeilDiv(totalCount, perPage);
    ProductSign(q, perPage);
    if q < 1 then 1 else q
  }

  /** A non-positive factor gives a non-positive product; a factor of two or
      more leaves at least one `b` after taking one `b` away. */
  lemma ProductSign(q: int, b: int)
    requires b >= 1
    ensures q <= 0 ==> q * b <= 0
    ensures q >= 2 ==> (q - 1) * b >= b
  {
    if q <= 0 {
      MulMonotone(q, 0, b);
    }
    if q >= 2 {
      MulMonotone(1, q - 1, b);
    }
  }

  /** One-based position of the first result on `page`. */
  function PageStart(page: int, perPage: int): int {
    (page - 1) * perPage + 1
  }

  /** One-based position of the last result on `page`. */
  function PageEnd(page: int, perPage: int, totalCount: int): int {
    if page * perPage < totalCount then page * perPage else totalCount
  }

  /** The window a page fetches is the one its "start–end of total" line
      names: it begins right after the earlier pages, at the first result
      shown, and is long enough to hold the last result shown. */
  lemma FetchedWindowIsShownRange(page: int, perPage: int, totalCount: int)
    requires perPage >= 1
    ensures var q := Calls.FetchQuery(Calls.FetchArgs(Some(page), Some(perPage)));
            q.limit == perPage &&
            q.offset == PageStart(page, perPage) - 1 &&
            PageEnd(page, perPage, totalCount) <= q.offset + q.limit
  {
    assert (page - 1) * perPage + perPage == page * perPage;
  }

  /** On every page the pager offers, the "start–end of total" line names a
      non-empty range of results no longer than a page, ending at the total
      exactly on the last page. */
  lemma PageRangeBounds(page: int, perPage: int, totalCount: int)
    requires perPage >= 1 && totalCount > 0
    requires 1 <= page <= TotalPages(totalCount, perPage)
    ensures 1 <= PageStart(page, perPage) <= PageEnd(page, perPage, totalCount) <= totalCount
    ensures PageEnd(page, perPage, totalCount) - PageStart(page, perPage) + 1 <= perPage
    ensures PageEnd(page, perPage, totalCount) == totalCount <==> page == TotalPages(totalCount, perPage)
  {
    var n := TotalPages(totalCount, perPage);
    assert (page - 1) * perPage <= (n - 1) * perPage;
    if page < n {
      assert page * perPage <= (n - 1) * perPage;
    }
  }

  lemma MulMonotone(a: int, b: int, c: int)
    requires a <= b && c >= 1
    ensures a * c <= b * c
  {
  }

  /** The page `(k - 1) / perPage + 1` holds result `k`. */
  lemma PageOfResult(k: int, perPage: int)
    requires perPage >= 1
    ensures var p := (k - 1) / perPage + 1;
            (p - 1) * perPage <= k - 1 < p * perPage
  {
    var p := (k - 1) / perPage + 1;
    assert k - 1 == (p - 1) * perPage + (k - 1) % perPage;
    assert p * perPage == (p - 1) * perPage + perPage;
  }

  /** Every result lies on exactly one of the offered pages. */
  lemma EveryResultOnOnePage(k: int, perPage: int, totalCount: int)
    requires perPage >= 1 && 1 <= k <= totalCount
    ensures var p := (k - 1) / perPage + 1;
            1 <= p <= TotalPages(totalCount, perPage) &&
            PageStart(p, perPage) <= k <= PageEnd(p, perPage, totalCount)
    ensures forall q :: PageStart(q, perPage) <= k <= PageEnd(q, perPage, totalCount) ==>
              q == (k - 1) / perPage + 1
  {
    var p := (k - 1) / perPage + 1;
    var n := TotalPages(totalCount, perPage);
    PageOfResult(k, perPage);
    if p > n {
      MulMonotone(n, p - 1, perPage);
    }
    forall q | PageStart(q, perPage) <= k <= PageEnd(q, perPage, totalCount)
      ensures q == p
    {
      if q < p {
        MulMonotone(q, p - 1, perPage);
      } else if q > p {
        MulMonotone(p, q - 1, perPage);
      }
    }
  }

  /** Forty-two results, ten a page: five pages, the last showing 41–42. */
  lemma PagingExample()
    ensures TotalPages(42, 10) == 5
    ensures PageStart(5, 10) == 41 && PageEnd(5, 10, 42) == 42
  {
  }

  /** The pager is shown only for the unfiltered list, and only when there
      is more than one page. */
  predicate ShowPagination(filter: string, totalCount: int, perPage: int)
    requires perPage >= 1
  {
    filter == "all" && TotalPages(totalCount, perPage) > 1
  }

  lemma ShowPaginationIff(filter: string, totalCount: int, perPage: int)
    requires perPage >= 1
    ensures ShowPagination(filter, totalCount, perPage) <==> filter == "all" && totalCount > perPage
  {
  }

  // ----- notes for the dialog -----

  /** A note as the dialog receives it: id and creation time always set. */
  datatype SafeNote = SafeNote(id: string, content: string, createdAt: int)

  /** The call the dialog opens for. */
  datatype NotesData = NotesData(id: string, callType: string, durationReadable: string,
                                 from: string, to: string, via: string, callUrl: string,
                                 notes: seq<SafeNote>)

  /** A note is kept when its trimmed content is not empty. */
  predicate KeepNote(n: Calls.Note) {
    Trim(n.content) != []
  }

  /** JavaScript truthiness of an optional id. */
  predicate HasId(n: Calls.Note) {
    n.id.Some? && n.id.value != ""
  }

  /** Fill in a kept note: `newId(i)` is the fresh id generated for the
      i-th kept note, `now` the time the dialog opens. */
  function FillNote(n: Calls.Note, i: nat, newId: nat -> string, now: int): SafeNote {
    SafeNote(if HasId(n) then n.id.value else newId(i), n.content, n.createdAt.GetOr(now))
  }

  /** `openNotes`' sanitising of a call's notes. */
  function SafeNotes(notes: seq<Calls.Note>, newId: nat -> string, now: int): (r: seq<SafeNote>)
    ensures var kept := Filter(notes, KeepNote);
            |r| == |kept| &&
            forall i :: 0 <= i < |r| ==>
              r[i].content == kept[i].content &&
              (HasId(kept[i]) ==> r[i].id == kept[i].id.value) &&
              (!HasId(kept[i]) ==> r[i].id == newId(i)) &&
              r[i].createdAt == kept[i].createdAt.GetOr(now)
  {
    var kept := Filter(notes, KeepNote);
    seq(|kept|, i requires 0 <= i < |kept| => FillNote(kept[i], i, newId, now))
  }

  /** The kept notes are, in their original order, exactly the notes whose
      content is not blank: each of those as often as it occurs, and no
      other. */
  lemma SafeNotesSelection(notes: seq<Calls.Note>)
    ensures IsSubsequence(Filter(notes, KeepNote), notes)
    ensures forall n :: multiset(Filter(notes, KeepNote))[n] ==
                        if IsBlank(n.content) then 0 else multiset(notes)[n]
  {
    FilterIsSubsequence(notes, KeepNote);
    forall n
      ensures multiset(Filter(notes, KeepNote))[n] ==
              if IsBlank(n.content) then 0 else multiset(notes)[n]
    {
      FilterCounts(notes, KeepNote);
      TrimEmptyIffBlank(n.content);
    }
  }

  /** The dialog's notes as call notes again. */
  function AsNotes(s: seq<SafeNote>): (r: seq<Calls.Note>)
    ensures |r| == |s|
    ensures forall i :: 0 <= i < |s| ==> r[i] == Calls.Note(Some(s[i].id), s[i].content, Some(s[i].createdAt))
  {
    seq(|s|, i requires 0 <= i < |s| => Calls.Note(Some(s[i].id), s[i].content, Some(s[i].createdAt)))
  }

  /** Sanitising what was already sanitised changes nothing, provided the
      generated ids are never empty. */
  lemma SafeNotesIdempotent(notes: seq<Calls.Note>, newId: nat -> string, now: int, later: int)
    requires forall i :: newId(i) != ""
    ensures SafeNotes(AsNotes(SafeNotes(notes, newId, now)), newId, later) == SafeNotes(notes, newId, now)
  {
    var r := SafeNotes(notes, newId, now);
    var back := AsNotes(r);
    FilterAll(back, KeepNote);
  }

  /** The data `openNotes` hands to the dialog for `row`. */
  function NotesFor(row: Calls.Call, newId: nat -> string, now: int): (d: NotesData)
    ensures d.id == row.id && d.callUrl == "#/calls/" + row.id
    ensures d.durationReadable == Duration.FormatMinutesSeconds(row.duration)
    ensures d.notes == SafeNotes(row.notes, newId, now)
  {
    NotesData(row.id, row.callType, Duration.FormatMinutesSeconds(row.duration),
              row.from, row.to, row.via, "#/calls/" + row.id, SafeNotes(row.notes, newId, now))
  }

  // ----- the page's state -----

  /** A note-saving or archiving request the page sends. */
  datatype AddNoteRequest = AddNoteRequest(id: string, content: string)
  datatype ArchiveRequest = ArchiveRequest(id: string, isArchiving: bool)

  class CallsView {
    var addNotesOpen: bool
    var selected: Option<NotesData>
    var confirmOpen: bool
    var selectedId: Option<string>
    var confirming: bool
    var isArchiving: bool
    /** The value of the filter drop-down. */
    var filter: string
    const store: Calls.CallStore

    constructor (store: Calls.CallStore)
      ensures this.store == store
      ensures !addNotesOpen && selected == None && !confirmOpen && selectedId == None
      ensures !confirming && !isArchiving && filter == "all"
    {
      this.store := store;
      addNotesOpen := false;
      selected := None;
      confirmOpen := false;
      selectedId := None;
      confirming := false;
      isArchiving := false;
      filter := "all";
    }

    /** `openNotes`: select the row's sanitised data and open the dialog. */
    method OpenNotes(row: Calls.Call, newId: nat -> string, now: int)
      modifies this
      ensures selected == Some(NotesFor(row, newId, now)) && addNotesOpen
      ensures (confirmOpen, selectedId, confirming, isArchiving, filter) ==
              old((confirmOpen, selectedId, confirming, isArchiving, filter))
    {
      selected := Some(NotesFor(row, newId, now));
      addNotesOpen := true;
    }

    /** `handleSave`: without a selected call nothing is sent and the dialog
        stays as it is; otherwise the note is sent for the selected call and
        the dialog closes. */
    method HandleSave(note: string) returns (sent: Option<AddNoteRequest>)
      modifies this
      ensures old(selected).None? ==> sent == None && addNotesOpen == old(addNotesOpen)
      ensures old(selected).Some? ==> sent == Some(AddNoteRequest(old(selected).value.id, note)) && !addNotesOpen
      ensures (selected, confirmOpen, selectedId, confirming, isArchiving, filter) ==
              old((selected, confirmOpen, selectedId, confirming, isArchiving, filter))
    {
      if selected.None? {
        return None;
      }
      sent := Some(AddNoteRequest(selected.value.id, note));
      addNotesOpen := false;
    }

    /** The filter drop-down: remember the choice and re-filter the store. */
    method ChangeFilter(val: string)
      requires store.Valid()
      modifies this, store
      ensures filter == val
      ensures store.Valid() && store.ViewConsistent()
      ensures store.calls[..] == Calls.Select(val, store.backupCalls[..])
      ensures store.backupCalls == old(store.backupCalls) && store.backupCalls[..] == old(store.backupCalls[..])
      ensures store.Meta() == old(store.Meta())
      ensures (addNotesOpen, selected, confirmOpen, selectedId, confirming, isArchiving) ==
              old((addNotesOpen, selected, confirmOpen, selectedId, confirming, isArchiving))
    {
      filter := val;
      store.FilterCalls(val);
    }

    /** The pager: move the store to another page. */
    method ChangePage(newPage: int)
      modifies store
      ensures store.page == newPage
      ensures store.calls == old(store.calls) && store.backupCalls == old(store.backupCalls)
      ensures (store.status, store.error, store.perPage, store.totalCount, store.hasNextPage) ==
              old((store.status, store.error, store.perPage, store.totalCount, store.hasNextPage))
    {
      store.SetPage(newPage);
    }

    /** `askArchive`: remember the call and open the confirmation dialog. */
    method AskArchive(id: string, isArchived: Option<bool>)
      modifies this
      ensures selectedId == Some(id) && confirmOpen && isArchiving == isArchived.GetOr(false)
      ensures (addNotesOpen, selected, confirming, filter) == old((addNotesOpen, selected, confirming, filter))
    {
      selectedId := Some(id);
      confirmOpen := true;
      isArchiving := isArchived.GetOr(false);
    }

    /** The dialog's cancel button. */
    method CancelConfirm()
      modifies this
      ensures !confirmOpen && selectedId == None
      ensures (addNotesOpen, selected, confirming, isArchiving, filter) ==
              old((addNotesOpen, selected, confirming, isArchiving, filter))
    {
      confirmOpen := false;
      selectedId := None;
    }

    /** The dialog's confirm button. Without a (non-empty) selected id nothing
        happens. Otherwise the dialog shows that it is confirming and the
        archive request is sent; the dialog stays open until the request
        settles (ArchiveSettled). */
    method ConfirmArchive() returns (sent: Option<ArchiveRequest>)
      modifies this
      ensures old(selectedId).None? || old(selectedId) == Some("") ==>
                sent == None && confirming == old(confirming)
      ensures old(selectedId).Some? && old(selectedId) != Some("") ==>
                sent == Some(ArchiveRequest(old(selectedId).value, old(isArchiving))) && confirming
      ensures (addNotesOpen, selected, confirmOpen, selectedId, isArchiving, filter) ==
              old((addNotesOpen, selected, confirmOpen, selectedId, isArchiving, filter))
    {
      if selectedId.None? || selectedId.value == "" {
        return None;
      }
      confirming := true;
      sent := Some(ArchiveRequest(selectedId.value, isArchiving));
    }

    /** The sent archive request has settled. The dispatched request settles
        without throwing whether it succeeds or fails, so the dialog closes,
        forgets the call and stops confirming in both cases. */
    method ArchiveSettled()
      modifies this
      ensures !confirmOpen && selectedId == None && !confirming
      ensures (addNotesOpen, selected, isArchiving, filter) == old((addNotesOpen, selected, isArchiving, filter))
    {
      confirmOpen := false;
      selectedId := None;
      confirming := false;
    }
  }
}
