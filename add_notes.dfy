/** The notes dialog: how it labels the call type and shows phone numbers,
    the order in which it lists the existing notes, and the note editor with
    its touched flag, empty-note error and save gating. */
module AddNotes {
  import opened Common
  import opened Text
  import CallsPage

  /** `labelCase`: "voice mail" has its own label; any other value has its
      first character upper-cased. */
  function LabelCase(v: string): (r: string)
    ensures v == "voice mail" ==> r == "Voice Mail"
    ensures v != "voice mail" ==> |r| == |v| && (v != [] ==> r[0] == UpperChar(v[0]) && r[1..] == v[1..])
  {
    if v == "voice mail" then "Voice Mail"
    else if v == [] then []
    else [UpperChar(v[0])] + v[1..]
  }

  /** Labelling a label again changes nothing. */
  lemma LabelCaseIdempotent(v: string)
    ensures LabelCase(LabelCase(v)) == LabelCase(v)
  {
    var r := LabelCase(v);
    if v == "voice mail" {
      assert r == "Voice Mail";
      assert r != "voice mail" by { assert r[0] != "voice mail"[0]; }
      assert LabelCase(r) == [UpperChar(r[0])] + r[1..];
      assert [r[0]] + r[1..] == r;
    } else if v != [] {
      assert [r[0]] + r[1..] == r;
    }
  }

  lemma LabelCaseExamples()
    ensures LabelCase("missed") == "Missed"
    ensures LabelCase("answered") == "Answered"
    ensures LabelCase("voice mail") == "Voice Mail"
  {
    assert "missed" != "voice mail" by { assert "missed"[0] != "voice mail"[0]; }
    assert "answered" != "voice mail" by { assert "answered"[0] != "voice mail"[0]; }
  }

  /** A phone number as displayed: one leading '+' removed, then '+'
      prepended. */
  function PlusPrefix(s: string): string {
    "+" + (if |s| > 0 && s[0] == '+' then s[1..] else s)
  }

  /** A number that already starts with '+' is shown as it is, any other
      gets a '+' in front, so the display is idempotent. */
  lemma PlusPrefixMeaning(s: string)
    ensures |s| > 0 && s[0] == '+' ==> PlusPrefix(s) == s
    ensures !(|s| > 0 && s[0] == '+') ==> PlusPrefix(s) == "+" + s
    ensures PlusPrefix(PlusPrefix(s)) == PlusPrefix(s)
  {
    if |s| > 0 && s[0] == '+' {
      assert "+" + s[1..] == s;
    }
  }

  // ----- the list of existing notes -----

  /** Newest first: creation times never increase along the list. */
  predicate NewestFirst(s: seq<CallsPage.SafeNote>) {
    forall p, q :: 0 <= p < q < |s| ==> s[p].createdAt >= s[q].createdAt
  }

  /** Exchange two neighbouring notes. */
  method SwapDown(a: array<CallsPage.SafeNote>, j: int)
    requires 0 < j < a.Length
    modifies a
    ensures a[..] == old(a[..])[j - 1 := old(a[j])][j := old(a[j - 1])]
    ensures multiset(a[..]) == multiset(old(a[..]))
  {
    ghost var before := a[..];
    a[j - 1], a[j] := a[j], a[j - 1];
    assert a[..] == before[j - 1 := before[j]][j := before[j - 1]];
  }

  /** While a note moves towards the front: the first `i + 1` notes are
      newest first apart from the moving note at `j`. */
  predicate OrderedExcept(s: seq<CallsPage.SafeNote>, i: int, j: int)
    requires 0 <= j <= i < |s|
  {
    forall p, q :: 0 <= p < q <= i && p != j && q != j ==> s[p].createdAt >= s[q].createdAt
  }

  /** The moving note at `j` is strictly newer than every note it has
      passed. */
  predicate NewerThanPassed(s: seq<CallsPage.SafeNote>, i: int, j: int)
    requires 0 <= j <= i < |s|
  {
    forall q :: j < q <= i ==> s[j].createdAt > s[q].createdAt
  }

  /** Passing one strictly older note keeps both loop facts, one place
      further on. */
  lemma PassOlder(s: seq<CallsPage.SafeNote>, i: int, j: int)
    requires 0 < j <= i < |s|
    requires OrderedExcept(s, i, j) && NewerThanPassed(s, i, j)
    requires s[j - 1].createdAt < s[j].createdAt
    ensures var t := s[j - 1 := s[j]][j := s[j - 1]];
            OrderedExcept(t, i, j - 1) && NewerThanPassed(t, i, j - 1)
  {
  }

  /** Once the moving note meets a note at least as new, or the front, the
      first `i + 1` notes are newest first. */
  lemma SettledOrdered(s: seq<CallsPage.SafeNote>, i: int, j: int)
    requires 0 <= j <= i < |s|
    requires OrderedExcept(s, i, j) && NewerThanPassed(s, i, j)
    requires j == 0 || s[j - 1].createdAt >= s[j].createdAt
    ensures NewestFirst(s[..i + 1])
  {
    forall p, q | 0 <= p < q <= i ensures s[p].createdAt >= s[q].createdAt {
      if q == j {
        assert s[p].createdAt >= s[j - 1].createdAt || p == j - 1;
      }
    }
  }

  /** One insertion step: `a[i]` moves towards the front past every newer
      note, so the first `i + 1` notes are newest first. Only notes that are
      strictly newer are passed, so notes with equal times keep their order. */
  method InsertNewest(a: array<CallsPage.SafeNote>, i: int)
    requires 0 <= i < a.Length && NewestFirst(a[..i])
    modifies a
    ensures NewestFirst(a[..i + 1])
    ensures multiset(a[..]) == multiset(old(a[..]))
  {
    var j := i;
    assert OrderedExcept(a[..], i, j) by {
      forall p, q | 0 <= p < q <= i && p != j && q != j
        ensures a[..][p].createdAt >= a[..][q].createdAt
      {
        assert a[..][p] == a[..i][p] && a[..][q] == a[..i][q];
      }
    }
    while j > 0 && a[j - 1].createdAt < a[j].createdAt
      invariant 0 <= j <= i
      invariant multiset(a[..]) == multiset(old(a[..]))
      invariant OrderedExcept(a[..], i, j) && NewerThanPassed(a[..], i, j)
    {
      PassOlder(a[..], i, j);
      SwapDown(a, j);
      j := j - 1;
    }
    SettledOrdered(a[..], i, j);
  }

  /** The dialog's copy of the notes, sorted newest first. The caller's
      sequence is a value and stays as it was. */
  method SortNewestFirst(notes: seq<CallsPage.SafeNote>) returns (r: seq<CallsPage.SafeNote>)
    ensures NewestFirst(r)
    ensures multiset(r) == multiset(notes)
  {
    var a := new CallsPage.SafeNote[|notes|](k requires 0 <= k < |notes| => notes[k]);
    assert a[..] == notes;
    var i := 0;
    while i < a.Length
      invariant 0 <= i <= a.Length
      invariant NewestFirst(a[..i])
      invariant multiset(a[..]) == multiset(notes)
    {
      InsertNewest(a, i);
      i := i + 1;
    }
    assert a[..a.Length] == a[..];
    r := a[..];
  }

  // ----- the note editor -----

  class NoteEditor {
    var note: string
    var touched: bool

    constructor (defaultNote: string)
      ensures note == defaultNote && !touched
    {
      note := defaultNote;
      touched := false;
    }

    /** The trimmed note is empty. */
    predicate IsEmpty()
      reads this
    {
      Trim(note) == []
    }

    /** The empty-note error is shown. */
    predicate ShowError()
      reads this
    {
      touched && IsEmpty()
    }

    /** The Save button is disabled. */
    predicate SaveDisabled(saving: bool)
      reads this
    {
      saving || IsEmpty()
    }

    /** Opening the dialog or a new default note: start over, untouched. */
    method Reset(defaultNote: string)
      modifies this
      ensures note == defaultNote && !touched && !ShowError()
    {
      note := defaultNote;
      touched := false;
    }

    method Change(value: string)
      modifies this
      ensures note == value && touched == old(touched)
    {
      note := value;
    }

    method Blur()
      modifies this
      ensures note == old(note) && touched
      ensures ShowError() <==> IsBlank(note)
    {
      touched := true;
      TrimEmptyIffBlank(note);
    }

    /** `handleSave`: mark the field touched; hand on the trimmed note only
        when it is not empty. Afterwards the error shows exactly when nothing
        was handed on. */
    method Save() returns (saved: Option<string>)
      modifies this
      ensures note == old(note) && touched
      ensures saved.Some? <==> !IsBlank(note)
      ensures saved.Some? ==> saved.value == Trim(note)
      ensures ShowError() <==> saved.None?
    {
      touched := true;
      TrimEmptyIffBlank(note);
      if IsEmpty() {
        return None;
      }
      saved := Some(Trim(note));
    }
  }

  /** What Save hands on is non-blank and carries no surrounding white space. */
  lemma SavedNoteIsClean(note: string)
    requires !IsBlank(note)
    ensures !IsBlank(Trim(note)) && Trim(Trim(note)) == Trim(note)
  {
    TrimEmptyIffBlank(note);
    TrimEmptyIffBlank(Trim(note));
    TrimIdempotent(note);
  }

  /** The button is enabled exactly when a save would hand on a note and no
      save is in flight. */
  lemma SaveEnabledIffSavable(e: NoteEditor, saving: bool)
    ensures !e.SaveDisabled(saving) <==> !saving && !IsBlank(e.note)
  {
    TrimEmptyIffBlank(e.note);
  }
}
