/** The entry form (pages/AddEntry.tsx): the three slot amounts typed as text, their running
    total, and the submission that either adds a new entry or updates the one being edited. */
module AddEntry {
  import opened Types
  import opened Seqs
  import opened Text
  import opened StoreContext

  /** `Number(x) || 0`: the field's numeric value, with 0 where `Number` gives NaN. An
      empty or whitespace-only field, and one `Number` cannot read, count as 0. */
  function Amount(field: string): (r: int)
    ensures Blank(field) ==> r == 0
    ensures ToNumber(field).None? ==> r == 0
  {
    match ToNumber(field)
    case Some(v) => v
    case None => 0
  }

  /** A field prefilled with `n.toString()` reads back as `n`. */
  lemma AmountShowInt(n: int)
    ensures Amount(ShowInt(n)) == n
  {
  }

  /** The `total` shown under the form while typing: 0 for an empty form. */
  function FormTotal(morning: string, noon: string, night: string): (r: int)
    ensures Blank(morning) && Blank(noon) && Blank(night) ==> r == 0
  {
    Amount(morning) + Amount(noon) + Amount(night)
  }

  /** A form opened on an entry shows the sum of its three stored amounts. */
  lemma FormTotalShowInt(morning: int, noon: int, night: int)
    ensures FormTotal(ShowInt(morning), ShowInt(noon), ShowInt(night)) == morning + noon + night
  {
    AmountShowInt(morning);
    AmountShowInt(noon);
    AmountShowInt(night);
  }

  /** `entryData`: the route's shop, the date, the three amounts and the shown total. */
  function AssembleEntryData(shopId: string, date: string, morning: string, noon: string, night: string): (d: EntryData)
    ensures d.shopId == shopId && d.date == date
    ensures d.morning == Amount(morning) && d.noon == Amount(noon) && d.night == Amount(night)
    ensures d.total == d.morning + d.noon + d.night
    ensures d.total == FormTotal(morning, noon, night)
  {
    EntryData(shopId, date, Amount(morning), Amount(noon), Amount(night), FormTotal(morning, noon, night))
  }

  /** `entries.find(e => e.id === id)`: an entry with that id, if there is one. */
  function FindById(entries: seq<Entry>, id: string): (r: Option<Entry>)
    ensures r.Some? <==> id in Keys(entries, EntryId)
    ensures r.Some? ==> r.value in entries && r.value.id == id
  {
    if entries == [] then None
    else
      assert entries == [entries[0]] + entries[1..];
      KeysCons(entries[0], entries[1..], EntryId);
      if entries[0].id == id then Some(entries[0]) else FindById(entries[1..], id)
  }

  /** `find` returns the first match: the entry at the first index holding that id. */
  lemma {:induction false} FindByIdIsFirst(entries: seq<Entry>, id: string, i: nat)
    requires i < |entries| && entries[i].id == id
    requires forall j :: 0 <= j < i ==> entries[j].id != id
    ensures FindById(entries, id) == Some(entries[i])
  {
    if i > 0 {
      FindByIdIsFirst(entries[1..], id, i - 1);
    }
  }

  /** `existingEntry`: the entry named by the route's optional `entryId`. */
  function ExistingEntry(entries: seq<Entry>, entryId: Option<string>): (r: Option<Entry>)
    ensures r.Some? <==> entryId.Some? && entryId.value in Keys(entries, EntryId)
    ensures r.Some? ==> r.value in entries && r.value.id == entryId.value
  {
    if entryId.None? then None else FindById(entries, entryId.value)
  }

  /** The store call a submission of the entry form makes. */
  datatype EntryAction =
    | NoEntryAction
    | AddEntryAction(data: EntryData)
    | UpdateEntryAction(entry: Entry)

  /** `handleSubmit`: nothing without a shop id (absent or empty); otherwise `updateEntry`
      with the form's values under the existing entry's `id` and `createdAt`, or else
      `addEntry` with the form's values alone. */
  function EntrySubmission(shopId: Option<string>, existing: Option<Entry>, date: string,
                           morning: string, noon: string, night: string): (a: EntryAction)
    ensures a.NoEntryAction? <==> shopId.None? || shopId.value == ""
    ensures a.UpdateEntryAction? <==> !a.NoEntryAction? && existing.Some?
    ensures a.AddEntryAction? <==> !a.NoEntryAction? && existing.None?
    ensures a.UpdateEntryAction? ==>
              && a.entry.id == existing.value.id && a.entry.createdAt == existing.value.createdAt
              && a.entry.shopId == shopId.value && a.entry.date == date
              && a.entry.morning == Amount(morning) && a.entry.noon == Amount(noon)
              && a.entry.night == Amount(night)
              && a.entry.total == a.entry.morning + a.entry.noon + a.entry.night
    ensures a.AddEntryAction? ==>
              && a.data.shopId == shopId.value && a.data.date == date
              && a.data.morning == Amount(morning) && a.data.noon == Amount(noon)
              && a.data.night == Amount(night)
              && a.data.total == a.data.morning + a.data.noon + a.data.night
  {
    if shopId.None? || shopId.value == "" then NoEntryAction
    else
      var data := AssembleEntryData(shopId.value, date, morning, noon, night);
      match existing
      case Some(e) => UpdateEntryAction(NewEntry(data, e.id, e.createdAt))
      case None => AddEntryAction(data)
  }

  /** Opening an entry (which prefills the fields with `toString` of its amounts) and
      saving it untouched submits that very entry, provided its total is the sum of its
      amounts, as every entry saved through this form is. */
  lemma ResubmitUnchanged(e: Entry)
    requires e.shopId != "" && e.total == e.morning + e.noon + e.night
    ensures EntrySubmission(Some(e.shopId), Some(e), e.date,
                            ShowInt(e.morning), ShowInt(e.noon), ShowInt(e.night))
         == UpdateEntryAction(e)
  {
    AmountShowInt(e.morning);
    AmountShowInt(e.noon);
    AmountShowInt(e.night);
  }

  /** Replacing an entry by itself changes nothing when ids are distinct. */
  lemma {:induction false} ReplaceEntryBySelf(entries: seq<Entry>, e: Entry)
    requires Unique(entries, EntryId) && e in entries
    ensures ReplaceEntry(entries, e) == entries
  {
    var r := ReplaceEntry(entries, e);
    var k :| 0 <= k < |entries| && entries[k] == e;
    forall i | 0 <= i < |entries| ensures r[i] == entries[i] {
      if entries[i].id == e.id {
        assert EntryId(entries[i]) == EntryId(entries[k]);
        assert i == k;
      }
    }
  }

  /** The whole of `handleSubmit`, from the route parameters and the fields to the store:
      whether the page navigates back, and the store call made. */
  method SubmitEntryForm(store: Store, shopId: Option<string>, entryId: Option<string>, date: string,
                         morning: string, noon: string, night: string, freshId: string, now: int)
    returns (submitted: bool)
    requires freshId !in Keys(store.entries, EntryId)
    modifies store
    ensures submitted <==> shopId.Some? && shopId.value != ""
    ensures var a := EntrySubmission(shopId, ExistingEntry(old(store.entries), entryId), date, morning, noon, night);
            && (a.NoEntryAction? ==> store.entries == old(store.entries))
            && (a.AddEntryAction? ==> store.entries == [NewEntry(a.data, freshId, now)] + old(store.entries))
            && (a.UpdateEntryAction? ==> store.entries == ReplaceEntry(old(store.entries), a.entry))
    ensures store.shops == old(store.shops) && store.language == old(store.language)
  {
    var existing := ExistingEntry(store.entries, entryId);
    var a := EntrySubmission(shopId, existing, date, morning, noon, night);
    match a
    case NoEntryAction =>
      submitted := false;
    case AddEntryAction(data) =>
      store.AddEntry(data, freshId, now);
      submitted := true;
    case UpdateEntryAction(entry) =>
      store.UpdateEntry(entry);
      submitted := true;
  }

  /** Saving an opened entry without touching the form leaves the store as it was. */
  method SaveUntouched(store: Store, e: Entry, freshId: string, now: int)
    requires e in store.entries && Unique(store.entries, EntryId)
    requires e.shopId != "" && e.total == e.morning + e.noon + e.night
    requires freshId !in Keys(store.entries, EntryId)
    modifies store
    ensures store.entries == old(store.entries) && store.shops == old(store.shops)
    ensures store.language == old(store.language)
  {
    ghost var before := store.entries;
    var submitted := SubmitEntryForm(store, Some(e.shopId), Some(e.id), e.date,
                                     ShowInt(e.morning), ShowInt(e.noon), ShowInt(e.night), freshId, now);
    ResubmitUnchanged(e);
    ReplaceEntryBySelf(before, e);
  }
}
