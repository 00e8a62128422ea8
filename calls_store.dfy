/** The calls slice: the authoritative page of calls (`backupCalls`), the
    displayed view (`calls`) derived from it by a filter key, pagination
    metadata and the request status, together with the reducers that the
    fetch, add-note, archive and realtime-update flows dispatch. */
module Calls {
  import opened Common
  import opened Text

  datatype Direction = Inbound | Outbound

  /** `CallNote`: the id and the creation time may be absent. */
  datatype Note = Note(id: Option<string>, content: string, createdAt: Option<int>)

  /** `CallItem`. An absent `call_type` is the empty string and an absent
      `is_archived` is `false`, which is how the reducers read them. */
  datatype Call = Call(id: string, callType: string, direction: Direction, duration: int,
                       from: string, to: string, via: string, createdAt: string,
                       isArchived: bool, notes: seq<Note>)

  /** What a fulfilled fetch delivers. */
  datatype CallsPayload = CallsPayload(nodes: seq<Call>, totalCount: int, hasNextPage: bool)

  /** Fallback error messages of the reducers, used when a rejection carries
      no payload. */
  const FetchFailed := "Failed to load calls"
  const AddNoteFailed := "Failed to add note"
  const ArchiveFailed := "Failed to archive/unarchive"
  /** The archive request's own fallback differs from its reducer's. */
  const ArchiveRequestFailed := "Failed to archive call"

  // ---------------------------------------------------------------------
  // Filtering

  /** What a filter key selects. */
  datatype Criterion = All | Archived | Unarchived | OfType(callType: string)

  /** The key as the reducer compares it: lower-cased, then trimmed. */
  function NormaliseKey(key: string): string {
    Trim(Lower(key))
  }

  /** The criterion a normalised key names; any other key names a call type. */
  function Classify(v: string): Criterion {
    if v == "all" then All
    else if v == "archived" then Archived
    else if v == "unarchived" || v == "active" then Unarchived
    else OfType(v)
  }

  function ParseFilter(key: string): Criterion {
    Classify(NormaliseKey(key))
  }

  predicate Matches(c: Criterion, call: Call) {
    match c
    case All => true
    case Archived => call.isArchived
    case Unarchived => !call.isArchived
    case OfType(t) => Lower(call.callType) == t
  }

  function Matcher(c: Criterion): Call -> bool {
    (call: Call) => Matches(c, call)
  }

  /** The displayed view that `filterCalls(key)` derives from `src`. */
  function Select(key: string, src: seq<Call>): seq<Call> {
    var c := ParseFilter(key);
    if c == All then src else Filter(src, Matcher(c))
  }

  /** Normalising a key that is already normalised changes nothing, so the
      view depends only on the normalised key. */
  lemma NormaliseKeyIdempotent(key: string)
    ensures NormaliseKey(NormaliseKey(key)) == NormaliseKey(key)
  {
    var l := Lower(key);
    var t := Trim(l);
    LowerIdempotent(key);
    LowerFixedTrim(l);
    TrimIdempotent(l);
    calc {
      NormaliseKey(t);
      Trim(Lower(t));
      { assert Lower(t) == t; }
      Trim(t);
      t;
    }
  }

  /** The view depends only on the normalised key. */
  lemma ParseFilterNormalised(key: string)
    ensures ParseFilter(NormaliseKey(key)) == ParseFilter(key)
  {
    NormaliseKeyIdempotent(key);
  }

  /** Whatever the key, the view is an order-preserving selection of the
      authoritative list, and every call it shows matches the key. */
  lemma SelectIsSubsequence(key: string, src: seq<Call>)
    ensures IsSubsequence(Select(key, src), src)
    ensures forall call :: call in Select(key, src) ==> Matches(ParseFilter(key), call)
  {
    var c := ParseFilter(key);
    if c == All {
      SubsequenceReflexive(src);
    } else {
      FilterIsSubsequence(src, Matcher(c));
    }
  }

  /** `all` shows a copy of the authoritative list. */
  lemma SelectAll(key: string, src: seq<Call>)
    requires NormaliseKey(key) == "all"
    ensures Select(key, src) == src
  {
  }

  /** A key that names no status keeps exactly the calls whose lower-cased
      type equals the key (every occurrence of them and nothing else), and an
      unknown key is no error: it just selects what matches, possibly nothing. */
  lemma SelectByType(key: string, src: seq<Call>)
    requires NormaliseKey(key) !in {"all", "archived", "unarchived", "active"}
    ensures IsSubsequence(Select(key, src), src)
    ensures forall x :: multiset(Select(key, src))[x] ==
                        if Lower(x.callType) == NormaliseKey(key) then multiset(src)[x] else 0
  {
    var c := ParseFilter(key);
    assert c == OfType(NormaliseKey(key));
    FilterIsSubsequence(src, Matcher(c));
    FilterCounts(src, Matcher(c));
  }

  /** A key already in lower case and without surrounding whitespace is
      compared as it is. */
  lemma PlainKey(k: string)
    requires Lower(k) == k && k != [] && !IsSpace(k[0]) && !IsSpace(k[|k| - 1])
    ensures NormaliseKey(k) == k
  {
    TrimUnpadded(k);
  }

  lemma ArchivedKey()
    ensures ParseFilter("archived") == Archived
  {
    LowerLiteral("archived");
    PlainKey("archived");
  }

  lemma UnarchivedKey()
    ensures ParseFilter("unarchived") == Unarchived
  {
    LowerLiteral("unarchived");
    PlainKey("unarchived");
  }

  lemma ActiveKey()
    ensures ParseFilter("active") == Unarchived
  {
    LowerLiteral("active");
    PlainKey("active");
  }

  /** The archived and the unarchived selections split a list. */
  lemma {:induction false} ArchiveSplit(src: seq<Call>)
    ensures multiset(Filter(src, Matcher(Archived))) + multiset(Filter(src, Matcher(Unarchived))) ==
            multiset(src)
    decreases |src|
  {
    if src != [] {
      ArchiveSplit(src[1..]);
      assert src == [src[0]] + src[1..];
    }
  }

  /** `archived` and `unarchived` split the authoritative list into two
      disjoint order-preserving views that together hold every call exactly
      as often as the list does; `active` is another name for `unarchived`. */
  lemma ArchivedPartition(src: seq<Call>)
    ensures IsSubsequence(Select("archived", src), src)
    ensures IsSubsequence(Select("unarchived", src), src)
    ensures multiset(Select("archived", src)) + multiset(Select("unarchived", src)) == multiset(src)
    ensures forall x :: x in Select("archived", src) ==> x !in Select("unarchived", src)
    ensures Select("active", src) == Select("unarchived", src)
  {
    ArchivedKey();
    UnarchivedKey();
    ActiveKey();
    var archived := Filter(src, Matcher(Archived));
    var active := Filter(src, Matcher(Unarchived));
    FilterIsSubsequence(src, Matcher(Archived));
    FilterIsSubsequence(src, Matcher(Unarchived));
    ArchiveSplit(src);
    forall x | x in archived ensures x !in active {
      var i :| 0 <= i < |archived| && archived[i] == x;
    }
  }

  // ---------------------------------------------------------------------
  // Splice by id

  /** `arr.findIndex(c => c.id === id)`. */
  function IndexOfId(s: seq<Call>, id: string): (r: int)
    ensures -1 <= r < |s|
    ensures r == -1 <==> forall j :: 0 <= j < |s| ==> s[j].id != id
    ensures 0 <= r ==> s[r].id == id && forall j :: 0 <= j < r ==> s[j].id != id
    decreases |s|
  {
    if s == [] then -1
    else if s[0].id == id then 0
    else
      var k := IndexOfId(s[1..], id);
      if k == -1 then -1 else k + 1
  }

  /** The rule shared by the realtime update and the two mutation
      successes: replace the first call with the update's id. */
  function Splice(s: seq<Call>, u: Call): (r: seq<Call>)
    ensures |r| == |s|
    ensures (forall j :: 0 <= j < |s| ==> s[j].id != u.id) ==> r == s
    ensures forall i :: 0 <= i < |s| && s[i].id == u.id && (forall j :: 0 <= j < i ==> s[j].id != u.id)
                        ==> r == s[i := u]
  {
    var i := IndexOfId(s, u.id);
    if i == -1 then s else s[i := u]
  }

  /** No two calls share an id. */
  ghost predicate UniqueIds(s: seq<Call>) {
    forall i, j :: 0 <= i < j < |s| ==> s[i].id != s[j].id
  }

  /** Applying the same update twice is applying it once. */
  lemma SpliceIdempotent(s: seq<Call>, u: Call)
    ensures Splice(Splice(s, u), u) == Splice(s, u)
  {
    var i := IndexOfId(s, u.id);
    if i != -1 {
      var r := s[i := u];
      assert Splice(s, u) == r;
      assert r[i].id == u.id && forall j :: 0 <= j < i ==> r[j].id != u.id;
      assert Splice(r, u) == r[i := u];
      assert r[i := u] == r;
    }
  }

  /** With unique ids, the update leaves ids unique and afterwards every call
      carrying the update's id is the update itself; when the id was present
      there is exactly one such call. */
  lemma SpliceUnique(s: seq<Call>, u: Call)
    requires UniqueIds(s)
    ensures UniqueIds(Splice(s, u))
    ensures forall j :: 0 <= j < |s| && Splice(s, u)[j].id == u.id ==> Splice(s, u)[j] == u
    ensures forall j :: 0 <= j < |s| && s[j].id == u.id ==>
              Splice(s, u)[j] == u &&
              forall k :: 0 <= k < |s| && k != j ==> Splice(s, u)[k].id != u.id
  {
  }

  /** Cons of an element onto the bigger sequence keeps a subsequence. */
  lemma SubsequenceCons(a: seq<Call>, b: seq<Call>, x: Call)
    requires IsSubsequence(a, b)
    ensures IsSubsequence(a, [x] + b)
  {
    assert ([x] + b)[1..] == b;
  }

  /** Splicing past a head with another id splices the tail. */
  lemma SpliceCons(x: Call, t: seq<Call>, u: Call)
    requires x.id != u.id
    ensures Splice([x] + t, u) == [x] + Splice(t, u)
  {
    var s := [x] + t;
    assert s[1..] == t;
    var k := IndexOfId(t, u.id);
    if k != -1 {
      assert IndexOfId(s, u.id) == k + 1;
      assert s[k + 1 := u] == [x] + t[k := u];
    }
  }

  /** A head with the update's id is the one replaced. */
  lemma SpliceHead(x: Call, t: seq<Call>, u: Call)
    requires x.id == u.id
    ensures Splice([x] + t, u) == [u] + t
  {
    assert ([x] + t)[0 := u] == [u] + t;
  }

  /** When the authoritative list has unique ids, splicing the same update
      into both lists keeps the view an order-preserving selection of it. */
  lemma {:induction false} SplicePreservesSubsequence(a: seq<Call>, b: seq<Call>, u: Call)
    requires IsSubsequence(a, b) && UniqueIds(b)
    ensures IsSubsequence(Splice(a, u), Splice(b, u))
    decreases |b|
  {
    if a == [] {
      assert Splice(a, u) == [];
    } else {
      var x, t := b[0], b[1..];
      assert b == [x] + t;
      assert UniqueIds(t);
      var matched := a[0] == x && IsSubsequence(a[1..], t);
      if matched {
        assert a == [x] + a[1..];
      }
      if x.id == u.id {
        SpliceHead(x, t, u);
        if matched {
          SpliceHead(x, a[1..], u);
          assert ([u] + a[1..])[1..] == a[1..];
        } else {
          SpliceOfAbsent(a, x, t, u);
          SubsequenceCons(a, t, u);
        }
      } else {
        SpliceCons(x, t, u);
        if matched {
          SpliceCons(x, a[1..], u);
          SplicePreservesSubsequence(a[1..], t, u);
          assert ([x] + Splice(a[1..], u))[1..] == Splice(a[1..], u);
          assert ([x] + Splice(t, u))[1..] == Splice(t, u);
        } else {
          SplicePreservesSubsequence(a, t, u);
          SubsequenceCons(Splice(a, u), Splice(t, u), x);
        }
      }
    }
  }

  /** A view drawn from the tail of a unique list whose head holds the
      update's id does not hold that id, so splicing leaves it as it is. */
  lemma SpliceOfAbsent(a: seq<Call>, x: Call, t: seq<Call>, u: Call)
    requires IsSubsequence(a, t) && UniqueIds([x] + t) && x.id == u.id
    ensures Splice(a, u) == a
  {
    SubsequenceElements(a, t);
    forall j | 0 <= j < |a| ensures a[j].id != u.id {
      assert a[j] in t;
      var k :| 0 <= k < |t| && t[k] == a[j];
      assert ([x] + t)[0] == x && ([x] + t)[k + 1] == t[k];
    }
  }

  /** Archiving a call through the server's snapshot removes it from the
      `unarchived` view recomputed afterwards. */
  lemma ArchivedCallLeavesActiveView(b: seq<Call>, u: Call)
    requires UniqueIds(b) && u.isArchived
    ensures forall x :: x in Select("unarchived", Splice(b, u)) ==> x.id != u.id
  {
    var r := Splice(b, u);
    SpliceUnique(b, u);
    SelectIsSubsequence("unarchived", r);
    SubsequenceElements(Select("unarchived", r), r);
    UnarchivedKey();
    forall x | x in Select("unarchived", r) ensures x.id != u.id {
      assert !x.isArchived;
      var j :| 0 <= j < |r| && r[j] == x;
    }
  }

  /** The view is spliced, not filtered again: archiving a call while the
      `unarchived` view is shown leaves the now archived call in that view
      until a filter is chosen again. */
  lemma SplicedViewIsNotRefiltered(c: Call)
    requires !c.isArchived
    ensures var u := c.(isArchived := true);
            Select("unarchived", [c]) == [c] &&
            Splice(Select("unarchived", [c]), u) == [u] &&
            !Matches(ParseFilter("unarchived"), u)
  {
    UnarchivedKey();
    assert Filter([c], Matcher(Unarchived)) == [c] by {
      assert Matcher(Unarchived)(c);
      assert [c][1..] == [];
    }
  }

  /** `findIndex` over the list the reducer mutates. */
  method FindIndex(a: array<Call>, id: string) returns (idx: int)
    ensures -1 <= idx < a.Length
    ensures idx == -1 <==> forall j :: 0 <= j < a.Length ==> a[j].id != id
    ensures 0 <= idx ==> a[idx].id == id && forall j :: 0 <= j < idx ==> a[j].id != id
  {
    idx := 0;
    while idx < a.Length
      invariant 0 <= idx <= a.Length
      invariant forall j :: 0 <= j < idx ==> a[j].id != id
    {
      if a[idx].id == id {
        return;
      }
      idx := idx + 1;
    }
    idx := -1;
  }

  /** The reducers' `replace` helper: an in-place write of the update over
      the first call with its id. */
  method Replace(a: array<Call>, u: Call)
    modifies a
    ensures a[..] == Splice(old(a[..]), u)
  {
    var idx := FindIndex(a, u.id);
    if idx != -1 {
      a[idx] := u;
    }
  }

  method ToArray(s: seq<Call>) returns (a: array<Call>)
    ensures fresh(a) && a[..] == s
  {
    a := new Call[|s|](i requires 0 <= i < |s| => s[i]);
  }

  // ---------------------------------------------------------------------
  // The request side of `fetchCalls`

  datatype FetchArgs = FetchArgs(page: Option<int>, perPage: Option<int>)
  datatype Query = Query(offset: int, limit: int)

  /** Page 1 and ten per page unless given; the offset skips the earlier pages. */
  function FetchQuery(args: FetchArgs): (q: Query)
    ensures args.perPage.None? ==> q.limit == 10
    ensures args.perPage.Some? ==> q.limit == args.perPage.value
    ensures args.page.None? ==> q.offset == 0
    ensures args.page.Some? && args.page.value >= 1 && q.limit >= 0 ==> q.offset >= 0
  {
    var page := args.page.GetOr(1);
    var perPage := args.perPage.GetOr(10);
    Query((page - 1) * perPage, perPage)
  }

  /** Consecutive pages are adjacent windows of the server's list. */
  lemma ConsecutivePagesAdjoin(page: int, perPage: int)
    ensures FetchQuery(FetchArgs(Some(page + 1), Some(perPage))).offset ==
            FetchQuery(FetchArgs(Some(page), Some(perPage))).offset + perPage
    ensures FetchQuery(FetchArgs(None, None)) == Query(0, 10)
    ensures FetchQuery(FetchArgs(Some(1), Some(perPage))) == Query(0, perPage)
  {
    assert page * perPage == (page - 1) * perPage + perPage;
  }

  /** The response as it may arrive: the list under `nodes` or `data`, an
      optional numeric count and an optional next-page flag. */
  datatype RawPage = RawPage(nodes: Option<seq<Call>>, data: Option<seq<Call>>,
                             totalCount: Option<int>, hasNextPage: Option<bool>)

  /** `fetchCalls`' normalisation of the response. */
  function Normalise(raw: RawPage): (p: CallsPayload)
    ensures raw.nodes.Some? ==> p.nodes == raw.nodes.value
    ensures raw.nodes.None? && raw.data.Some? ==> p.nodes == raw.data.value
    ensures raw.nodes.None? && raw.data.None? ==> p.nodes == []
    ensures raw.totalCount.Some? ==> p.totalCount == raw.totalCount.value
    ensures raw.totalCount.None? ==> p.totalCount == |p.nodes|
    ensures p.hasNextPage <==> raw.hasNextPage == Some(true)
  {
    var nodes := raw.nodes.GetOr(raw.data.GetOr([]));
    CallsPayload(nodes, raw.totalCount.GetOr(|nodes|), raw.hasNextPage.GetOr(false))
  }

  /** The message an archive request rejects with. The request always
      rejects with some message, so the reducer's own fallback is never
      used for it: a failure with no message at all reads "Failed to archive
      call", not "Failed to archive/unarchive". */
  lemma ArchiveRejectionMessage(responseMessage: Option<string>, errorMessage: Option<string>)
    ensures var m := RejectionMessage(responseMessage, errorMessage, ArchiveRequestFailed);
            (m == ArchiveFailed ==> responseMessage == Some(ArchiveFailed) ||
                                    (responseMessage.None? && errorMessage == Some(ArchiveFailed))) &&
            (responseMessage.None? && errorMessage.None? ==> m == ArchiveRequestFailed)
  {
    assert ArchiveRequestFailed[17] != ArchiveFailed[17];
  }

  // ---------------------------------------------------------------------
  // The store

  class CallStore {
    var calls: array<Call>
    var backupCalls: array<Call>
    var status: Status
    var error: Option<string>
    var page: int
    var perPage: int
    var totalCount: int
    var hasNextPage: bool

    /** Each list is its own value: the draft of one is never the other. */
    ghost predicate Valid()
      reads this
    {
      calls != backupCalls
    }

    /** The displayed list is an order-preserving selection of the
        authoritative one. */
    ghost predicate ViewConsistent()
      reads this, calls, backupCalls
    {
      IsSubsequence(calls[..], backupCalls[..])
    }

    /** The scalar fields, for saying what a reducer leaves alone. */
    ghost function Meta(): (Status, Option<string>, int, int, int, bool)
      reads this
    {
      (status, error, page, perPage, totalCount, hasNextPage)
    }

    constructor ()
      ensures Valid() && ViewConsistent()
      ensures calls[..] == [] && backupCalls[..] == []
      ensures status == Idle && error == None && page == 1 && perPage == 10
      ensures totalCount == 0 && !hasNextPage
    {
      var shown := ToArray([]);
      var page1 := ToArray([]);
      calls := shown;
      backupCalls := page1;
      status := Idle;
      error := None;
      page := 1;
      perPage := 10;
      totalCount := 0;
      hasNextPage := false;
    }

    /** `filterCalls`: recompute the view; the authoritative list is untouched. */
    method FilterCalls(key: string)
      requires Valid()
      modifies this
      ensures Valid() && ViewConsistent() && fresh(calls)
      ensures calls[..] == Select(key, backupCalls[..])
      ensures backupCalls == old(backupCalls) && backupCalls[..] == old(backupCalls[..])
      ensures Meta() == old(Meta())
    {
      SelectIsSubsequence(key, backupCalls[..]);
      calls := ToArray(Select(key, backupCalls[..]));
    }

    method SetPage(n: int)
      modifies this
      ensures page == n
      ensures calls == old(calls) && backupCalls == old(backupCalls)
      ensures (status, error, perPage, totalCount, hasNextPage) ==
              old((status, error, perPage, totalCount, hasNextPage))
    {
      page := n;
    }

    method SetPerPage(n: int)
      modifies this
      ensures perPage == n
      ensures calls == old(calls) && backupCalls == old(backupCalls)
      ensures (status, error, page, totalCount, hasNextPage) ==
              old((status, error, page, totalCount, hasNextPage))
    {
      perPage := n;
    }

    /** `clearCalls`: back to the empty first page; `perPage` is kept. */
    method ClearCalls()
      modifies this
      ensures Valid() && ViewConsistent()
      ensures calls[..] == [] && backupCalls[..] == []
      ensures totalCount == 0 && !hasNextPage && page == 1 && status == Idle && error == None
      ensures perPage == old(perPage)
    {
      calls := ToArray([]);
      backupCalls := ToArray([]);
      totalCount := 0;
      hasNextPage := false;
      page := 1;
      status := Idle;
      error := None;
    }

    /** `applyCallUpdate`: splice the pushed snapshot into both lists. */
    method ApplyCallUpdate(u: Call)
      requires Valid()
      modifies calls, backupCalls
      ensures calls[..] == Splice(old(calls[..]), u)
      ensures backupCalls[..] == Splice(old(backupCalls[..]), u)
      ensures old(ViewConsistent()) && UniqueIds(old(backupCalls[..])) ==> ViewConsistent()
    {
      ghost var a, b := calls[..], backupCalls[..];
      Replace(calls, u);
      Replace(backupCalls, u);
      if IsSubsequence(a, b) && UniqueIds(b) {
        SplicePreservesSubsequence(a, b, u);
      }
    }

    method FetchPending()
      modifies this
      ensures status == Loading && error == None
      ensures calls == old(calls) && backupCalls == old(backupCalls)
      ensures (page, perPage, totalCount, hasNextPage) == old((page, perPage, totalCount, hasNextPage))
    {
      status := Loading;
      error := None;
    }

    /** A fulfilled fetch replaces both lists with the page; the error is
        left as the pending case set it. */
    method FetchFulfilled(p: CallsPayload)
      modifies this
      ensures Valid() && ViewConsistent() && fresh(calls) && fresh(backupCalls)
      ensures status == Succeeded
      ensures calls[..] == p.nodes && backupCalls[..] == p.nodes
      ensures totalCount == p.totalCount && hasNextPage == p.hasNextPage
      ensures (error, page, perPage) == old((error, page, perPage))
    {
      status := Succeeded;
      calls := ToArray(p.nodes);
      backupCalls := ToArray(p.nodes);
      totalCount := p.totalCount;
      hasNextPage := p.hasNextPage;
      SubsequenceReflexive(p.nodes);
    }

    /** A failed fetch keeps the lists it had. */
    method FetchRejected(payload: Option<string>)
      modifies this
      ensures status == Failed && error == Some(payload.GetOr(FetchFailed))
      ensures calls == old(calls) && backupCalls == old(backupCalls)
      ensures (page, perPage, totalCount, hasNextPage) == old((page, perPage, totalCount, hasNextPage))
    {
      status := Failed;
      error := Some(payload.GetOr(FetchFailed));
    }

    /** `addNote.fulfilled`: the server's snapshot replaces the call. */
    method AddNoteFulfilled(u: Call)
      requires Valid()
      modifies this, calls, backupCalls
      ensures calls == old(calls) && backupCalls == old(backupCalls)
      ensures calls[..] == Splice(old(calls[..]), u)
      ensures backupCalls[..] == Splice(old(backupCalls[..]), u)
      ensures error == None
      ensures (status, page, perPage, totalCount, hasNextPage) ==
              old((status, page, perPage, totalCount, hasNextPage))
    {
      ApplyCallUpdate(u);
      error := None;
    }

    method AddNoteRejected(payload: Option<string>)
      modifies this
      ensures error == Some(payload.GetOr(AddNoteFailed))
      ensures calls == old(calls) && backupCalls == old(backupCalls)
      ensures (status, page, perPage, totalCount, hasNextPage) ==
              old((status, page, perPage, totalCount, hasNextPage))
    {
      error := Some(payload.GetOr(AddNoteFailed));
    }

    /** `archiveCall.fulfilled`: the server decides the archive flag; its
        snapshot replaces the call. */
    method ArchiveFulfilled(u: Call)
      requires Valid()
      modifies this, calls, backupCalls
      ensures calls == old(calls) && backupCalls == old(backupCalls)
      ensures calls[..] == Splice(old(calls[..]), u)
      ensures backupCalls[..] == Splice(old(backupCalls[..]), u)
      ensures error == None
      ensures (status, page, perPage, totalCount, hasNextPage) ==
              old((status, page, perPage, totalCount, hasNextPage))
    {
      ApplyCallUpdate(u);
      error := None;
    }

    method ArchiveRejected(payload: Option<string>)
      modifies this
      ensures error == Some(payload.GetOr(ArchiveFailed))
      ensures calls == old(calls) && backupCalls == old(backupCalls)
      ensures (status, page, perPage, totalCount, hasNextPage) ==
              old((status, page, perPage, totalCount, hasNextPage))
    {
      error := Some(payload.GetOr(ArchiveFailed));
    }
  }
}
