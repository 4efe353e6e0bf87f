# Baki Hisab ledger: the store and its derived views, in Dafny

Baki Hisab is a small ledger app. It records what shops owe, one entry per day, with three
time slots (morning, noon, night) and a total. This project models its core and proves
properties of that model:

- **The domain store** (`StoreContext`, in store.dfy). A class `Store` holds the ordered list
  of shops, the ordered list of entries and the UI language. It has one method per mutation:
  `addShop`, `updateShop`, `deleteShop` with its cascade, `addEntry`, `updateEntry`,
  `deleteEntry`, `setLanguage`, `importData`, and the confirmed branch of `resetApp`. It also
  has the initial load and the export document `{shops, entries, version: 1}`.
  - Each mutation assigns a new list, computed by a pure function with its own contract:
    prepend, `map` or `filter`.
  - The lemmas prove the list-level facts: ordering, length, "nothing else changes",
    cascade, idempotence, no-op on a missing id, and an export/import round trip.
  - The ghost predicate `Consistent` is the integrity invariant. It says shop ids are
    distinct, entry ids are distinct, and every entry names an existing shop. `addShop`,
    `updateShop`, `deleteShop`, `deleteEntry` and the reset keep it. `addEntry` and
    `updateEntry` keep it when the entry's shop exists, which the store itself does not
    check. Import does not keep it.
- **The home page** (`Home`). `getShopTotal` is proved equal to an independent definition of
  a shop's due, with the facts that follow from that. The shop form's submit is
  `ShopSubmission` plus the method `SubmitShopForm`, which drives the store.
- **The shop page** (`ShopDetails`).
  - `shopEntries` is a filter followed by a stable insertion sort, newest first. It is proved
    to be a permutation of the shop's entries, sorted and stable.
  - It is also proved to be the only list with those properties, so it is what any stable
    sort with the page's comparator returns.
  - `totalDue` is proved equal to the home page's total.
- **The entry form** (`AddEntry`). It covers the `Number(x) || 0` parse of the three fields,
  the total, the `entryData` record, and the choice between `updateEntry` (which keeps the
  existing `id` and `createdAt`) and `addEntry`.

Supporting modules:

| module | file | contents |
|---|---|---|
| `Types` | types.dfy | the records of types.ts |
| `Seqs` | seqs.dfy | `filter`, `map` and `reduce`-with-sum over sequences, and their algebra |
| `Text` | text.dfy | JavaScript's `trim`, integer `Number(s)`, `toString`, and the lexicographic string order by code point, which is JavaScript's code-unit order `<` on text without characters beyond U+FFFF, such as dates |
| `Dates` | dates.dfy | a proof that, for `YYYY-MM-DD` strings, the string order is the calendar order |

The model uses these representations:

- Fresh ids (`crypto.randomUUID()`) and timestamps (`Date.now()`) are method parameters.
- Fresh ids are a precondition: the id is not already in the list.
- Money is `int`.
- A shop's `type` field is called `kind`, because `type` is a Dafny keyword.

## Model

| member | source | states |
|---|---|---|
| StoreContext.UpdateShops | context/StoreContext.tsx:63-65 | the list keeps its length; every shop with the id gets the new name and type and keeps its id and createdAt; every other shop is unchanged |
| StoreContext.WithoutShop | context/StoreContext.tsx:68 | exactly the shops with a different id remain |
| StoreContext.WithoutShopEntries | context/StoreContext.tsx:69 | the cascade: exactly the entries of other shops remain, each as often as before |
| StoreContext.ReplaceEntry | context/StoreContext.tsx:81-83 | the list keeps its length; exactly the entries with the updated id are replaced by the updated entry; all others are unchanged |
| StoreContext.WithoutEntry | context/StoreContext.tsx:85-87 | exactly the entries with another id remain, each as often as before |
| StoreContext.LoadLanguage | context/StoreContext.tsx:36-38 | a missing or empty stored language gives 'bn'; any other stored string is kept |
| StoreContext.ImportShape | context/StoreContext.tsx:101-114 | the document is accepted if and only if it parsed and both `shops` and `entries` are arrays; the result is those two arrays |
| StoreContext.NewEntry | context/StoreContext.tsx:73-77 | the new entry carries the entry data unchanged, with the given id and creation time |
| StoreContext.NewEntryOfData | context/StoreContext.tsx:73-77 | every entry is rebuilt by adding its id and creation time back to its data, so no field is lost or invented |
| StoreContext.LoadList | context/StoreContext.tsx:26-34 | a missing saved list loads as the empty list; a saved list loads as it was saved |
| StoreContext.ExportDocument | context/StoreContext.tsx:90 | the export document has version 1, passes the import shape check, and restores the same shops and entries |
| StoreContext.AddShopKeepsConsistent | context/StoreContext.tsx:53-61 | prepending a shop with a fresh id keeps ids distinct and integrity intact |
| StoreContext.UpdateShopsKeepsConsistent | context/StoreContext.tsx:63-65 | renaming shops keeps the invariant, because ids do not change |
| StoreContext.DeleteShopKeepsConsistent | context/StoreContext.tsx:67-70 | deleting a shop together with its entries keeps the invariant |
| StoreContext.DeleteShopNeedsCascade | context/StoreContext.tsx:67-70 | a concrete state where removing the shop without its entries breaks integrity |
| StoreContext.AddEntryKeepsConsistent | context/StoreContext.tsx:72-79 | prepending an entry with a fresh id for an existing shop keeps the invariant |
| StoreContext.ReplaceEntryKeepsConsistent | context/StoreContext.tsx:81-83 | replacing entries by one that names an existing shop keeps the invariant |
| StoreContext.DeleteEntryKeepsConsistent | context/StoreContext.tsx:85-87 | deleting entries keeps the invariant |
| StoreContext.ImportSkipsIntegrity | context/StoreContext.tsx:104-106 | a concrete document whose entry names no shop passes the shape check, so import does not keep the invariant |
| StoreContext.DeleteShopUndoesAddShop | context/StoreContext.tsx:53-70 | deleting a just-added shop restores the shop list, and the cascade removes no entry |
| StoreContext.DeleteEntryUndoesAddEntry | context/StoreContext.tsx:72-87 | deleting a just-added entry restores the entry list |
| StoreContext.DeleteEntryIdempotent | context/StoreContext.tsx:85-87 | deleting an entry twice gives the list that deleting it once gives |
| StoreContext.DeleteEntryAbsent | context/StoreContext.tsx:85-87 | deleting an id no entry has is a no-op |
| StoreContext.DeleteShopKeepsOrder | context/StoreContext.tsx:67-70 | the surviving shops and entries are subsequences of the old lists, in the same order |
| StoreContext.DeleteEntryKeepsOrder | context/StoreContext.tsx:85-87 | the surviving entries keep their relative order |
| StoreContext.UpdateShopsAbsent | context/StoreContext.tsx:63-65 | updating an id no shop has is a no-op |
| StoreContext.UpdateShopsIdempotent | context/StoreContext.tsx:63-65 | repeating an update changes nothing more |
| StoreContext.ReplaceEntryAbsent | context/StoreContext.tsx:81-83 | updating with an id no entry has is a no-op |
| StoreContext.ReplaceEntryIdempotent | context/StoreContext.tsx:81-83 | repeating an update changes nothing more |
| StoreContext.Store.constructor | context/StoreContext.tsx:26-38 | a missing saved list gives an empty list, a saved list is used as is, and the language is loaded as LoadLanguage says |
| StoreContext.Store.AddShop | context/StoreContext.tsx:53-61 | the head is a shop with the given name, type, fresh id and timestamp; the tail is the old list; entries and language are unchanged; the invariant is kept |
| StoreContext.Store.UpdateShop | context/StoreContext.tsx:63-65 | the shops become UpdateShops of the old shops; a missing id leaves them unchanged; nothing else changes; the invariant is kept |
| StoreContext.Store.DeleteShop | context/StoreContext.tsx:67-70 | afterwards no shop has the id and no entry names it; both lists are the filtered old lists; the invariant is kept |
| StoreContext.Store.AddEntry | context/StoreContext.tsx:72-79 | the head carries the data's shopId, date, amounts and total (passed through, not recomputed) with the fresh id and timestamp; the tail is the old list; the invariant is kept when the shop exists |
| StoreContext.Store.UpdateEntry | context/StoreContext.tsx:81-83 | the entries become ReplaceEntry of the old entries; a missing id leaves them unchanged; the invariant is kept when the shop exists |
| StoreContext.Store.DeleteEntry | context/StoreContext.tsx:85-87 | the entries become WithoutEntry of the old entries; a missing id leaves them unchanged; the invariant is kept |
| StoreContext.Store.SetLanguage | context/StoreContext.tsx:36 | only the language changes |
| StoreContext.Store.ExportData | context/StoreContext.tsx:89-90 | the document holds the current lists with version 1, and reading it back imports exactly those lists |
| StoreContext.Store.ImportData | context/StoreContext.tsx:101-114 | the result is true if and only if both fields are arrays; then both lists are replaced wholesale; otherwise nothing changes; the language never changes |
| StoreContext.Store.Reset | context/StoreContext.tsx:116-119 | both lists become empty, the language is kept, and the invariant holds afterwards |
| Home.ShopTotal | pages/Home.tsx:53-57 | getShopTotal equals DueFrom, an independent one-pass sum of `total` over exactly the shop's entries |
| Home.ShopTotalWithoutEntries | pages/Home.tsx:56 | a shop with no entries owes 0 |
| Home.ShopTotalPrepend | pages/Home.tsx:54-56 | prepending an entry adds its total to its own shop and nothing to any other shop |
| Home.ShopTotalConcat | pages/Home.tsx:54-56 | the total over two concatenated lists is the sum of the totals |
| Home.ShopTotalAfterDeleteShop | pages/Home.tsx:53-57 | after deleteShop's cascade the shop owes 0 |
| Home.ShopTotalOtherAfterDeleteShop | pages/Home.tsx:53-57 | after deleteShop's cascade every other shop owes what it did |
| Home.ShopTotalExample | pages/Home.tsx:53-57 | entries of 100 and 250 for s1 and 50 for s2 give 350 for s1 and 0 for s3 |
| Text.Trim | pages/Home.tsx:42 | `trim()` is the middle of the string between a blank prefix and a blank suffix, neither starting nor ending with whitespace; it is empty, hence falsy, exactly when the name is all whitespace |
| Text.TrimIdempotent | pages/Home.tsx:42 | trimming a trimmed string changes nothing |
| Home.ShopSubmission | pages/Home.tsx:40-50 | no call when the name is blank; otherwise updateShop with the edited shop's id, or else addShop, never both; the untrimmed name and type are passed |
| Home.SubmitShopForm | pages/Home.tsx:40-50 | the modal closes exactly when the name is not blank, and the store changes by exactly the chosen call |
| ShopDetails.Insert | pages/ShopDetails.tsx:19 | inserting into a newest-first list gives a newest-first list with exactly one more occurrence of the entry |
| ShopDetails.SortNewestFirst | pages/ShopDetails.tsx:19 | the result is a permutation of the input and is sorted newest first |
| ShopDetails.InsertStable | pages/ShopDetails.tsx:19 | among the entries of one date, the inserted entry comes first, and the others keep their order |
| ShopDetails.SortStable | pages/ShopDetails.tsx:19 | the sort is stable: for every date, the entries of that date keep their input order |
| ShopDetails.NewestFirstPairwise | pages/ShopDetails.tsx:19 | in a sorted list, no entry is older than any later entry, not only than its neighbour |
| ShopDetails.StableOrderUnique | pages/ShopDetails.tsx:19 | two newest-first lists with the same entries per date are equal |
| ShopDetails.SortIsTheStableSort | pages/ShopDetails.tsx:16-20 | any newest-first list that keeps each date's input order equals SortNewestFirst of the input |
| ShopDetails.ShopEntries | pages/ShopDetails.tsx:16-20 | shopEntries holds each of the shop's entries exactly as often as the store does, and nothing else; it is newest first; entries of one date keep store order |
| ShopDetails.SortThree | pages/ShopDetails.tsx:19 | oldest, newest, middle comes out as newest, middle, oldest |
| ShopDetails.SortExample | pages/ShopDetails.tsx:16-20 | entries dated 2024-01-01, 2024-03-15, 2024-02-10 are listed 2024-03-15, 2024-02-10, 2024-01-01 |
| ShopDetails.TotalDue | pages/ShopDetails.tsx:22 | totalDue equals the home page's getShopTotal: the sort does not change the sum |
| Dates.IsoDateOrder | pages/ShopDetails.tsx:19 | for strings of the shape `YYYY-MM-DD`, the string order used by the model is the (year, month, day) order; on real calendar dates that is the order of the comparator's timestamps |
| Text.ToNumber | pages/AddEntry.tsx:30 | an empty or whitespace-only field reads as 0 |
| Text.ShowNat | pages/AddEntry.tsx:23-25 | `toString` of a non-negative integer is a non-empty digit string with that value |
| Text.ShowInt | pages/AddEntry.tsx:23-30 | `Number` reads back what `toString` wrote, for every integer |
| AddEntry.Amount | pages/AddEntry.tsx:30 | a blank field, and one `Number` cannot read, count as 0 |
| AddEntry.AmountShowInt | pages/AddEntry.tsx:23-30 | a prefilled field reads back as the stored amount |
| AddEntry.FormTotal | pages/AddEntry.tsx:17-30 | the form starts with three empty fields, which show a total of 0 |
| AddEntry.FormTotalShowInt | pages/AddEntry.tsx:20-30 | a form opened on an entry shows the sum of its three stored amounts |
| AddEntry.AssembleEntryData | pages/AddEntry.tsx:36-43 | entryData carries the route's shop, the date and the three parsed amounts; its total is their sum and equals the shown total |
| AddEntry.FindById | pages/AddEntry.tsx:13 | an entry is found exactly when one has the id, and then it is one of the list with that id |
| AddEntry.FindByIdIsFirst | pages/AddEntry.tsx:13 | the entry found is the first one with that id |
| AddEntry.ExistingEntry | pages/AddEntry.tsx:13 | without an entryId nothing is found; with one, the found entry is in the store and has that id |
| AddEntry.EntrySubmission | pages/AddEntry.tsx:32-50 | no call without a shop id; when editing, updateEntry gets the existing id and createdAt with the route's shopId, the date and the amounts; otherwise addEntry gets entryData; either way total = morning + noon + night |
| AddEntry.ResubmitUnchanged | pages/AddEntry.tsx:20-46 | opening an entry whose total is its sum and saving it untouched submits that same entry |
| AddEntry.ReplaceEntryBySelf | context/StoreContext.tsx:81-83 | when ids are distinct, updating an entry with itself changes nothing |
| AddEntry.SubmitEntryForm | pages/AddEntry.tsx:32-50 | the page navigates back exactly when there is a shop id, and the store changes by exactly the call EntrySubmission chooses |
| AddEntry.SaveUntouched | pages/AddEntry.tsx:20-50 | saving an opened entry without edits leaves the store's shops, entries and language as they were |

## Left out

- Persistence to `localStorage`, and the `useEffect` write-through (context/StoreContext.tsx:41-51), are not modelled. They are I/O. The initial load is modelled only as "a missing key gives an empty list, a missing or empty language gives 'bn'".
- `localStorage.clear()` and `window.location.reload()` in `resetApp` are not modelled. `Store.Reset` is the in-memory effect only; after the reload, the constructor with three `None`s gives the fresh state.
- `JSON.parse` and `JSON.stringify` are not modelled. The import document is the datatype `Parsed`, and records inside an accepted array are taken as well-typed. The Blob, anchor and download steps of `exportData` are not modelled. The backup file name is not modelled either.
- `crypto.randomUUID()` and `Date.now()` are parameters. Their uniqueness is the `requires` that the id is fresh.
- `window.confirm`, `alert` and `FileReader` are not modelled. They are UI and I/O.
- React's asynchronous `setState` and stale closures are not modelled. Operations are sequential calls on one `Store`.
- Rendering, translations, date formatting with date-fns, routing and navigation are not modelled. `navigate(-1)` and `setIsModalOpen(false)` appear only as the boolean results of `SubmitEntryForm` and `SubmitShopForm`.
- The "Invalid Shop" guard of the entry page (pages/AddEntry.tsx:53) is not modelled. It hides the form, so a submission with an unknown shop is not reachable through the UI. `EntrySubmission` looks only at `shopId`, as `handleSubmit` does.
- Text.ToNumber: models `Number(s)` only on integer text, with an optional sign and surrounding whitespace. Fractions, exponents, hexadecimal, `Infinity` and NaN all read as `None`, so `Amount` gives 0 for them. `Number` would give a fraction for "1.5", so amounts here are integers, and float arithmetic in the totals is not modelled. This includes integer-valued text that is not plain digits: a number field can hold "1.0" or "1e3", which the page reads as 1 and 1000 but `Amount` reads as 0, so the model's total differs from the page's for such input.
- ShopDetails.SortNewestFirst: orders dates by the string order. This equals the comparator's order `new Date(b.date) - new Date(a.date)` only for `YYYY-MM-DD` strings that are real calendar dates (Dates.IsoDateOrder). Other strings are not modelled. That includes text that is not a date, for which the comparator returns NaN. It also includes strings of the right shape that name no calendar day, such as "2019-02-31", which a JavaScript engine may read as NaN or as a later day in the next month; `Dates.IsIsoDate` checks only the shape, not the month or the day.
- Text.ShowNat: models integer `toString` without JavaScript's exponent form for magnitudes of 10^21 and above.
- StoreContext.Store.SetLanguage: requires 'bn' or 'en', as the TypeScript type does. A language read from storage is, as in the source, any string.
- `addShop` and `addEntry` return nothing in the code (their types are `=> void`, context/StoreContext.tsx:10-13). They do not return the created record, and the model follows the code.
- A failed storage write is not reported by the code. Persistence is outside the model.
