/** The ledger's domain store (context/StoreContext.tsx): an ordered list of shops, an
    ordered list of entries and the UI language. Every mutation replaces a list by a new
    one computed with prepend, `map` or `filter`; those new lists are the functions below,
    and the class `Store` assigns them to its fields. */
module StoreContext {
  import opened Types
  import opened Seqs

  // ---------------------------------------------------------------------------
  // The new lists the mutations compute
  // ---------------------------------------------------------------------------

  /** `shops.map(shop => shop.id === id ? { ...shop, name, type } : shop)`. */
  function UpdateShops(shops: seq<Shop>, id: string, name: string, kind: string): (r: seq<Shop>)
    ensures |r| == |shops|
    ensures forall i :: 0 <= i < |r| ==> r[i].id == shops[i].id && r[i].createdAt == shops[i].createdAt
    ensures forall i :: 0 <= i < |r| && shops[i].id == id ==> r[i].name == name && r[i].kind == kind
    ensures forall i :: 0 <= i < |r| && shops[i].id != id ==> r[i] == shops[i]
  {
    Map(shops, (s: Shop) => if s.id == id then s.(name := name, kind := kind) else s)
  }

  /** `shops.filter(s => s.id !== id)`. */
  function WithoutShop(shops: seq<Shop>, id: string): (r: seq<Shop>)
    ensures forall s :: s in r <==> s in shops && s.id != id
    ensures forall s: Shop :: s.id != id ==> multiset(r)[s] == multiset(shops)[s]
  {
    Filter(shops, (s: Shop) => s.id != id)
  }

  /** `entries.filter(e => e.shopId !== id)`: the cascade of deleting a shop. */
  function WithoutShopEntries(entries: seq<Entry>, id: string): (r: seq<Entry>)
    ensures forall e :: e in r <==> e in entries && e.shopId != id
    ensures forall e: Entry :: e.shopId != id ==> multiset(r)[e] == multiset(entries)[e]
  {
    Filter(entries, (e: Entry) => e.shopId != id)
  }

  /** The `EntryData` part of an entry: every field but `id` and `createdAt`. */
  function DataOf(e: Entry): EntryData
  {
    EntryData(e.shopId, e.date, e.morning, e.noon, e.night, e.total)
  }

  /** `{ ...entryData, id, createdAt }`: the data unchanged, with the given id and time. */
  function NewEntry(data: EntryData, id: string, createdAt: int): (e: Entry)
    ensures DataOf(e) == data && e.id == id && e.createdAt == createdAt
  {
    Entry(id, data.shopId, data.date, data.morning, data.noon, data.night, data.total, createdAt)
  }

  /** Every entry is its data with its id and creation time added back. */
  lemma NewEntryOfData(e: Entry)
    ensures NewEntry(DataOf(e), e.id, e.createdAt) == e
  {
  }

  /** `entries.map(e => e.id === updated.id ? updated : e)`. */
  function ReplaceEntry(entries: seq<Entry>, updated: Entry): (r: seq<Entry>)
    ensures |r| == |entries|
    ensures forall i :: 0 <= i < |r| && entries[i].id == updated.id ==> r[i] == updated
    ensures forall i :: 0 <= i < |r| && entries[i].id != updated.id ==> r[i] == entries[i]
  {
    Map(entries, (e: Entry) => if e.id == updated.id then updated else e)
  }

  /** `entries.filter(e => e.id !== id)`. */
  function WithoutEntry(entries: seq<Entry>, id: string): (r: seq<Entry>)
    ensures forall e :: e in r <==> e in entries && e.id != id
    ensures forall e: Entry :: e.id != id ==> multiset(r)[e] == multiset(entries)[e]
  {
    Filter(entries, (e: Entry) => e.id != id)
  }

  // ---------------------------------------------------------------------------
  // Initial load, export and import
  // ---------------------------------------------------------------------------

  /** `saved ? JSON.parse(saved) : []`, where `None` stands for a missing or empty key. */
  function LoadList<T>(saved: Option<seq<T>>): (r: seq<T>)
    ensures saved.None? ==> r == []
    ensures saved.Some? ==> r == saved.value
  {
    match saved
    case None => []
    case Some(items) => items
  }

  /** `(localStorage.getItem('bhm_lang') as Language) || 'bn'`. */
  function LoadLanguage(saved: Option<string>): (lang: Language)
    ensures saved.None? || saved.value == "" ==> lang == "bn"
    ensures saved.Some? && saved.value != "" ==> lang == saved.value
  {
    if saved.None? || saved.value == "" then "bn" else saved.value
  }

  /** The export document `{ shops, entries, version: 1 }`. */
  datatype Backup = Backup(shops: seq<Shop>, entries: seq<Entry>, version: int)

  /** What `JSON.parse` makes of one of the two fields `importData` examines. */
  datatype Field<T> = Missing | NotAnArray | AnArray(items: seq<T>)

  /** What `JSON.parse(jsonString)` yields, as far as `importData` looks at it: either
      `Unparseable` (the parse threw, or gave `null`, so that reading a field throws) or a
      value whose `shops` and `entries` fields are each missing, not an array, or an array.
      The records inside an array are not checked, and the model gives them their types. */
  datatype Parsed = Unparseable | Document(shops: Field<Shop>, entries: Field<Entry>)

  /** The export document has version 1, always passes the shape check and restores both
      collections. */
  function ExportDocument(shops: seq<Shop>, entries: seq<Entry>): (b: Backup)
    ensures b.version == 1
    ensures ImportShape(Reread(b)) == Some((shops, entries))
  {
    Backup(shops, entries, 1)
  }

  /** A backup file as `JSON.parse` reads it back: both fields are arrays again. */
  function Reread(b: Backup): Parsed
  {
    Document(AnArray(b.shops), AnArray(b.entries))
  }

  /** The shape check `Array.isArray(data.shops) && Array.isArray(data.entries)`, giving
      the two collections an import installs. */
  function ImportShape(doc: Parsed): (r: Option<(seq<Shop>, seq<Entry>)>)
    ensures r.Some? <==> doc.Document? && doc.shops.AnArray? && doc.entries.AnArray?
    ensures r.Some? ==> r.value.0 == doc.shops.items && r.value.1 == doc.entries.items
  {
    match doc
    case Document(AnArray(s), AnArray(e)) => Some((s, e))
    case _ => None
  }

  // ---------------------------------------------------------------------------
  // Referential integrity, and which mutations keep it
  // ---------------------------------------------------------------------------

  /** Shop ids are distinct, entry ids are distinct and every entry names an existing shop. */
  ghost predicate Consistent(shops: seq<Shop>, entries: seq<Entry>)
  {
    && Unique(shops, ShopId)
    && Unique(entries, EntryId)
    && forall e :: e in entries ==> e.shopId in Keys(shops, ShopId)
  }

  /** Prepending a shop with a fresh id keeps the state consistent. */
  lemma AddShopKeepsConsistent(shops: seq<Shop>, entries: seq<Entry>, s: Shop)
    requires Consistent(shops, entries) && s.id !in Keys(shops, ShopId)
    ensures Consistent([s] + shops, entries)
  {
    UniqueCons(s, shops, ShopId);
    KeysCons(s, shops, ShopId);
  }

  lemma UpdateShopsKeepsConsistent(shops: seq<Shop>, entries: seq<Entry>, id: string, name: string, kind: string)
    requires Consistent(shops, entries)
    ensures Consistent(UpdateShops(shops, id, name, kind), entries)
  {
    MapKeys(shops, (s: Shop) => if s.id == id then s.(name := name, kind := kind) else s, ShopId);
  }

  /** Deleting a shop keeps the state consistent only because its entries go with it. */
  lemma DeleteShopKeepsConsistent(shops: seq<Shop>, entries: seq<Entry>, id: string)
    requires Consistent(shops, entries)
    ensures Consistent(WithoutShop(shops, id), WithoutShopEntries(entries, id))
  {
    var shops', entries' := WithoutShop(shops, id), WithoutShopEntries(entries, id);
    FilterKeepsUnique(shops, (s: Shop) => s.id != id, ShopId);
    FilterKeepsUnique(entries, (e: Entry) => e.shopId != id, EntryId);
    forall e | e in entries' ensures e.shopId in Keys(shops', ShopId) {
      var i :| 0 <= i < |shops| && shops[i].id == e.shopId;
      assert shops[i] in shops';
      var j :| 0 <= j < |shops'| && shops'[j] == shops[i];
    }
  }

  /** Without the cascade, deleting a shop would leave its entries naming a missing shop. */
  lemma DeleteShopNeedsCascade()
    ensures var shop := Shop("s", "Tea stall", "", 0);
            var entry := Entry("e", "s", "2024-01-01", 10, 0, 0, 10, 0);
            Consistent([shop], [entry]) && !Consistent(WithoutShop([shop], "s"), [entry])
  {
    var shop := Shop("s", "Tea stall", "", 0);
    var entry := Entry("e", "s", "2024-01-01", 10, 0, 0, 10, 0);
    assert ShopId([shop][0]) == "s";
    assert WithoutShop([shop], "s") == [];
  }

  lemma AddEntryKeepsConsistent(shops: seq<Shop>, entries: seq<Entry>, data: EntryData, id: string, now: int)
    requires Consistent(shops, entries)
    requires id !in Keys(entries, EntryId) && data.shopId in Keys(shops, ShopId)
    ensures Consistent(shops, [NewEntry(data, id, now)] + entries)
  {
    UniqueCons(NewEntry(data, id, now), entries, EntryId);
  }

  lemma ReplaceEntryKeepsConsistent(shops: seq<Shop>, entries: seq<Entry>, updated: Entry)
    requires Consistent(shops, entries) && updated.shopId in Keys(shops, ShopId)
    ensures Consistent(shops, ReplaceEntry(entries, updated))
  {
    MapKeys(entries, (e: Entry) => if e.id == updated.id then updated else e, EntryId);
    var r := ReplaceEntry(entries, updated);
    forall e | e in r ensures e.shopId in Keys(shops, ShopId) {
      var i :| 0 <= i < |r| && r[i] == e;
      assert entries[i] in entries;
    }
  }

  lemma DeleteEntryKeepsConsistent(shops: seq<Shop>, entries: seq<Entry>, id: string)
    requires Consistent(shops, entries)
    ensures Consistent(shops, WithoutEntry(entries, id))
  {
    FilterKeepsUnique(entries, (e: Entry) => e.id != id, EntryId);
  }

  /** `importData` checks only the shape: an accepted document may break integrity. */
  lemma ImportSkipsIntegrity()
    ensures var orphan := Entry("e", "no-such-shop", "2024-01-01", 5, 0, 0, 5, 0);
            var doc := Document(AnArray([]), AnArray([orphan]));
            ImportShape(doc) == Some(([], [orphan])) && !Consistent([], [orphan])
  {
    var orphan := Entry("e", "no-such-shop", "2024-01-01", 5, 0, 0, 5, 0);
    assert orphan in [orphan];
  }

  // ---------------------------------------------------------------------------
  // Algebra of the mutations
  // ---------------------------------------------------------------------------

  /** Deleting what was just added (with a fresh id) restores the previous state, and the
      cascade then removes nothing, because no entry can name the fresh id. */
  lemma DeleteShopUndoesAddShop(shops: seq<Shop>, entries: seq<Entry>, s: Shop)
    requires Consistent(shops, entries) && s.id !in Keys(shops, ShopId)
    ensures WithoutShop([s] + shops, s.id) == shops
    ensures WithoutShopEntries(entries, s.id) == entries
  {
    var p := (x: Shop) => x.id != s.id;
    assert [s] + shops == [s] + ([s] + shops)[1..];
    assert ([s] + shops)[1..] == shops;
    forall i | 0 <= i < |shops| ensures p(shops[i]) {
      assert ShopId(shops[i]) in Keys(shops, ShopId);
    }
    FilterAll(shops, p);
    FilterAll(entries, (e: Entry) => e.shopId != s.id);
  }

  lemma DeleteEntryUndoesAddEntry(entries: seq<Entry>, data: EntryData, id: string, now: int)
    requires id !in Keys(entries, EntryId)
    ensures WithoutEntry([NewEntry(data, id, now)] + entries, id) == entries
  {
    var p := (e: Entry) => e.id != id;
    assert ([NewEntry(data, id, now)] + entries)[1..] == entries;
    forall i | 0 <= i < |entries| ensures p(entries[i]) {
      assert EntryId(entries[i]) in Keys(entries, EntryId);
    }
    FilterAll(entries, p);
  }

  /** Deleting an entry twice leaves the same list as deleting it once. */
  lemma DeleteEntryIdempotent(entries: seq<Entry>, id: string)
    ensures WithoutEntry(WithoutEntry(entries, id), id) == WithoutEntry(entries, id)
  {
    FilterIdempotent(entries, (e: Entry) => e.id != id);
  }

  /** Deleting an id that no entry has is a no-op. */
  lemma DeleteEntryAbsent(entries: seq<Entry>, id: string)
    requires id !in Keys(entries, EntryId)
    ensures WithoutEntry(entries, id) == entries
  {
    var p := (e: Entry) => e.id != id;
    forall i | 0 <= i < |entries| ensures p(entries[i]) {
      assert EntryId(entries[i]) in Keys(entries, EntryId);
    }
    FilterAll(entries, p);
  }

  /** Deleting a shop keeps the survivors of both lists in their original order. */
  lemma DeleteShopKeepsOrder(shops: seq<Shop>, entries: seq<Entry>, id: string)
    ensures IsSubsequence(WithoutShop(shops, id), shops)
    ensures IsSubsequence(WithoutShopEntries(entries, id), entries)
  {
    FilterIsSubsequence(shops, (s: Shop) => s.id != id);
    FilterIsSubsequence(entries, (e: Entry) => e.shopId != id);
  }

  /** Deleting an entry keeps the other entries in their original order. */
  lemma DeleteEntryKeepsOrder(entries: seq<Entry>, id: string)
    ensures IsSubsequence(WithoutEntry(entries, id), entries)
  {
    FilterIsSubsequence(entries, (e: Entry) => e.id != id);
  }

  /** Updating a shop that does not exist is a no-op. */
  lemma UpdateShopsAbsent(shops: seq<Shop>, id: string, name: string, kind: string)
    requires id !in Keys(shops, ShopId)
    ensures UpdateShops(shops, id, name, kind) == shops
  {
    var r := UpdateShops(shops, id, name, kind);
    forall i | 0 <= i < |shops| ensures r[i] == shops[i] {
      assert ShopId(shops[i]) in Keys(shops, ShopId);
    }
  }

  lemma UpdateShopsIdempotent(shops: seq<Shop>, id: string, name: string, kind: string)
    ensures UpdateShops(UpdateShops(shops, id, name, kind), id, name, kind) == UpdateShops(shops, id, name, kind)
  {
    var once := UpdateShops(shops, id, name, kind);
    var twice := UpdateShops(once, id, name, kind);
    forall i | 0 <= i < |shops| ensures twice[i] == once[i] {
      if shops[i].id == id {
        assert once[i].id == id;
      }
    }
  }

  /** Replacing by an id that no entry has is a no-op. */
  lemma ReplaceEntryAbsent(entries: seq<Entry>, updated: Entry)
    requires updated.id !in Keys(entries, EntryId)
    ensures ReplaceEntry(entries, updated) == entries
  {
    var r := ReplaceEntry(entries, updated);
    forall i | 0 <= i < |entries| ensures r[i] == entries[i] {
      assert EntryId(entries[i]) in Keys(entries, EntryId);
    }
  }

  lemma ReplaceEntryIdempotent(entries: seq<Entry>, updated: Entry)
    ensures ReplaceEntry(ReplaceEntry(entries, updated), updated) == ReplaceEntry(entries, updated)
  {
    var once := ReplaceEntry(entries, updated);
    var twice := ReplaceEntry(once, updated);
    forall i | 0 <= i < |entries| ensures twice[i] == once[i] {
    }
  }

  // ---------------------------------------------------------------------------
  // The store
  // ---------------------------------------------------------------------------

  /** The state `StoreProvider` keeps, and its operations. Fresh ids (`crypto.randomUUID()`)
      and timestamps (`Date.now()`) are parameters; writing to `localStorage` is left out. */
  class Store {
    var shops: seq<Shop>
    var entries: seq<Entry>
    var language: Language

    /** The initial load: a missing or empty key gives an empty list, and a missing or
        empty language gives `'bn'`. */
    constructor (savedShops: Option<seq<Shop>>, savedEntries: Option<seq<Entry>>, savedLanguage: Option<string>)
      ensures savedShops.None? ==> shops == []
      ensures savedShops.Some? ==> shops == savedShops.value
      ensures savedEntries.None? ==> entries == []
      ensures savedEntries.Some? ==> entries == savedEntries.value
      ensures language == LoadLanguage(savedLanguage)
    {
      shops := LoadList(savedShops);
      entries := LoadList(savedEntries);
      language := LoadLanguage(savedLanguage);
    }

    /** `addShop`: the new shop goes first, the old list follows unchanged. */
    method AddShop(name: string, kind: string, freshId: string, now: int)
      requires freshId !in Keys(shops, ShopId)
      modifies this
      ensures shops == [Shop(freshId, name, kind, now)] + old(shops)
      ensures shops[0].name == name && shops[0].kind == kind && shops[1..] == old(shops)
      ensures entries == old(entries) && language == old(language)
      ensures old(Consistent(shops, entries)) ==> Consistent(shops, entries)
    {
      ghost var before := shops;
      shops := [Shop(freshId, name, kind, now)] + shops;
      if Consistent(before, entries) {
        AddShopKeepsConsistent(before, entries, Shop(freshId, name, kind, now));
      }
    }

    /** `updateShop`: the matching shops get the new name and type. */
    method UpdateShop(id: string, name: string, kind: string)
      modifies this
      ensures shops == UpdateShops(old(shops), id, name, kind)
      ensures entries == old(entries) && language == old(language)
      ensures id !in old(Keys(shops, ShopId)) ==> shops == old(shops)
      ensures old(Consistent(shops, entries)) ==> Consistent(shops, entries)
    {
      ghost var before := shops;
      shops := UpdateShops(shops, id, name, kind);
      if id !in Keys(before, ShopId) {
        UpdateShopsAbsent(before, id, name, kind);
      }
      if Consistent(before, entries) {
        UpdateShopsKeepsConsistent(before, entries, id, name, kind);
      }
    }

    /** `deleteShop`: the shop and, in the same step, all of its entries go. */
    method DeleteShop(id: string)
      modifies this
      ensures shops == WithoutShop(old(shops), id)
      ensures entries == WithoutShopEntries(old(entries), id)
      ensures language == old(language)
      ensures forall s :: s in shops ==> s.id != id
      ensures forall e :: e in entries ==> e.shopId != id
      ensures old(Consistent(shops, entries)) ==> Consistent(shops, entries)
    {
      ghost var before, beforeEntries := shops, entries;
      shops := WithoutShop(shops, id);
      entries := WithoutShopEntries(entries, id);
      if Consistent(before, beforeEntries) {
        DeleteShopKeepsConsistent(before, beforeEntries, id);
      }
    }

    /** `addEntry`: the new entry goes first; its `total` is the caller's, not recomputed. */
    method AddEntry(data: EntryData, freshId: string, now: int)
      requires freshId !in Keys(entries, EntryId)
      modifies this
      ensures entries == [NewEntry(data, freshId, now)] + old(entries)
      ensures entries[0].shopId == data.shopId && entries[0].date == data.date
      ensures entries[0].morning == data.morning && entries[0].noon == data.noon && entries[0].night == data.night
      ensures entries[0].total == data.total && entries[1..] == old(entries)
      ensures shops == old(shops) && language == old(language)
      ensures old(Consistent(shops, entries)) && data.shopId in old(Keys(shops, ShopId)) ==> Consistent(shops, entries)
    {
      ghost var before := entries;
      entries := [NewEntry(data, freshId, now)] + entries;
      if Consistent(shops, before) && data.shopId in Keys(shops, ShopId) {
        AddEntryKeepsConsistent(shops, before, data, freshId, now);
      }
    }

    /** `updateEntry`: every entry with the same id is replaced by `updated`. */
    method UpdateEntry(updated: Entry)
      modifies this
      ensures entries == ReplaceEntry(old(entries), updated)
      ensures shops == old(shops) && language == old(language)
      ensures updated.id !in old(Keys(entries, EntryId)) ==> entries == old(entries)
      ensures old(Consistent(shops, entries)) && updated.shopId in Keys(shops, ShopId) ==> Consistent(shops, entries)
    {
      ghost var before := entries;
      entries := ReplaceEntry(entries, updated);
      if updated.id !in Keys(before, EntryId) {
        ReplaceEntryAbsent(before, updated);
      }
      if Consistent(shops, before) && updated.shopId in Keys(shops, ShopId) {
        ReplaceEntryKeepsConsistent(shops, before, updated);
      }
    }

    /** `deleteEntry`: the entries with that id go, the others stay in order. */
    method DeleteEntry(id: string)
      modifies this
      ensures entries == WithoutEntry(old(entries), id)
      ensures shops == old(shops) && language == old(language)
      ensures id !in old(Keys(entries, EntryId)) ==> entries == old(entries)
      ensures old(Consistent(shops, entries)) ==> Consistent(shops, entries)
    {
      ghost var before := entries;
      entries := WithoutEntry(entries, id);
      if id !in Keys(before, EntryId) {
        DeleteEntryAbsent(before, id);
      }
      if Consistent(shops, before) {
        DeleteEntryKeepsConsistent(shops, before, id);
      }
    }

    method SetLanguage(lang: Language)
      requires IsLanguage(lang)
      modifies this
      ensures language == lang && shops == old(shops) && entries == old(entries)
    {
      language := lang;
    }

    /** The document `exportData` serialises; reading it back restores both lists. */
    method ExportData() returns (doc: Backup)
      ensures doc.shops == shops && doc.entries == entries && doc.version == 1
      ensures ImportShape(Reread(doc)) == Some((shops, entries))
    {
      doc := ExportDocument(shops, entries);
    }

    /** `importData`: on a document of the right shape both lists are replaced wholesale;
        otherwise nothing changes and the result is false. */
    method ImportData(doc: Parsed) returns (ok: bool)
      modifies this
      ensures ok <==> doc.Document? && doc.shops.AnArray? && doc.entries.AnArray?
      ensures ok ==> shops == doc.shops.items && entries == doc.entries.items
      ensures !ok ==> shops == old(shops) && entries == old(entries)
      ensures language == old(language)
    {
      var checked := ImportShape(doc);
      if checked.Some? {
        shops := checked.value.0;
        entries := checked.value.1;
        ok := true;
      } else {
        ok := false;
      }
    }

    /** The confirmed branch of `resetApp`: both lists are emptied. (The page is then
        reloaded from cleared storage, which the constructor with three `None`s models.) */
    method Reset()
      modifies this
      ensures shops == [] && entries == [] && language == old(language)
      ensures Consistent(shops, entries)
    {
      shops := [];
      entries := [];
    }
  }
}
