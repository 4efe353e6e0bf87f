/** The shop list page (pages/Home.tsx): the total due shown for each shop, and the form
    that creates or renames a shop. */
module Home {
  import opened Types
  import opened Seqs
  import opened Text
  import opened StoreContext

  /** Selects the entries of one shop: the `filter` callback `e => e.shopId === shopId`. */
  function OfShop(shopId: string): Entry -> bool
  {
    (e: Entry) => e.shopId == shopId
  }

  /** `getShopTotal(shopId)`:
      `entries.filter(e => e.shopId === shopId).reduce((sum, e) => sum + e.total, 0)`,
      which is the sum of `total` over exactly the shop's entries. */
  function ShopTotal(entries: seq<Entry>, shopId: string): (r: int)
    ensures r == DueFrom(entries, shopId)
  {
    FilterSumIsDue(entries, shopId);
    Sum(Filter(entries, OfShop(shopId)), EntryTotal)
  }

  /** The total due read the other way round: one pass from the front, adding the total of
      every entry of the shop and nothing for the others. */
  function DueFrom(entries: seq<Entry>, shopId: string): int
  {
    if entries == [] then 0
    else (if entries[0].shopId == shopId then entries[0].total else 0) + DueFrom(entries[1..], shopId)
  }

  /** The filter-and-reduce of `getShopTotal` agrees with `DueFrom`. */
  lemma {:induction false} FilterSumIsDue(entries: seq<Entry>, shopId: string)
    ensures Sum(Filter(entries, OfShop(shopId)), EntryTotal) == DueFrom(entries, shopId)
  {
    if entries != [] {
      var p := OfShop(shopId);
      var e := entries[0];
      assert entries == [e] + entries[1..];
      FilterCons(e, entries[1..], p);
      SumConcat([e], Filter(entries[1..], p), EntryTotal);
      SumSingleton(e, EntryTotal);
      FilterSumIsDue(entries[1..], shopId);
    }
  }

  /** Prepending an entry adds its total to its own shop's due and nothing to the others'. */
  lemma ShopTotalPrepend(e: Entry, entries: seq<Entry>, shopId: string)
    ensures ShopTotal([e] + entries, shopId)
         == (if e.shopId == shopId then e.total else 0) + ShopTotal(entries, shopId)
  {
    var p := OfShop(shopId);
    FilterCons(e, entries, p);
    SumConcat([e], Filter(entries, p), EntryTotal);
    assert [e][..0] == [];
  }

  /** The reduce starts at 0, so a shop without entries owes 0. */
  lemma ShopTotalWithoutEntries(entries: seq<Entry>, shopId: string)
    requires forall i :: 0 <= i < |entries| ==> entries[i].shopId != shopId
    ensures ShopTotal(entries, shopId) == 0
  {
    FilterNone(entries, OfShop(shopId));
  }

  /** Totals split over a split of the entry list. */
  lemma ShopTotalConcat(a: seq<Entry>, b: seq<Entry>, shopId: string)
    ensures ShopTotal(a + b, shopId) == ShopTotal(a, shopId) + ShopTotal(b, shopId)
  {
    var p := OfShop(shopId);
    FilterConcat(a, b, p);
    SumConcat(Filter(a, p), Filter(b, p), EntryTotal);
  }

  /** After `deleteShop(id)` the shop owes nothing. */
  lemma ShopTotalAfterDeleteShop(entries: seq<Entry>, id: string)
    ensures ShopTotal(WithoutShopEntries(entries, id), id) == 0
  {
    ShopTotalWithoutEntries(WithoutShopEntries(entries, id), id);
  }

  /** ... and every other shop owes what it did. */
  lemma ShopTotalOtherAfterDeleteShop(entries: seq<Entry>, id: string, other: string)
    requires other != id
    ensures ShopTotal(WithoutShopEntries(entries, id), other) == ShopTotal(entries, other)
  {
    var p := OfShop(other);
    var a := Filter(WithoutShopEntries(entries, id), p);
    var b := Filter(entries, p);
    assert multiset(a) == multiset(b) by {
      forall x: Entry ensures multiset(a)[x] == multiset(b)[x] {
      }
    }
    SumPermutation(a, b, EntryTotal);
  }

  /** Three entries, two of shop "s1": "s1" owes 100 + 250, a shop with no entries 0. */
  lemma ShopTotalExample()
    ensures var entries := [Entry("a", "s1", "2024-01-01", 100, 0, 0, 100, 0),
                            Entry("b", "s1", "2024-01-02", 0, 250, 0, 250, 0),
                            Entry("c", "s2", "2024-01-01", 0, 0, 50, 50, 0)];
            ShopTotal(entries, "s1") == 350 && ShopTotal(entries, "s3") == 0
  {
    var a := Entry("a", "s1", "2024-01-01", 100, 0, 0, 100, 0);
    var b := Entry("b", "s1", "2024-01-02", 0, 250, 0, 250, 0);
    var c := Entry("c", "s2", "2024-01-01", 0, 0, 50, 50, 0);
    assert [a, b, c][1..] == [b, c] && [b, c][1..] == [c] && [c][1..] == [];
  }

  /** The store call a submission of the shop form makes. */
  datatype ShopAction =
    | NoShopAction
    | AddShopAction(name: string, kind: string)
    | UpdateShopAction(id: string, name: string, kind: string)

  /** `handleSubmit`: nothing for a blank name; otherwise `updateShop` with the id of the
      shop being edited, or else `addShop`. The name is passed on untrimmed. */
  function ShopSubmission(name: string, kind: string, editing: Option<Shop>): (a: ShopAction)
    ensures a.NoShopAction? <==> Blank(name)
    ensures a.UpdateShopAction? <==> !Blank(name) && editing.Some?
    ensures a.AddShopAction? <==> !Blank(name) && editing.None?
    ensures a.UpdateShopAction? ==> a.id == editing.value.id && a.name == name && a.kind == kind
    ensures a.AddShopAction? ==> a.name == name && a.kind == kind
  {
    if Trim(name) == [] then NoShopAction
    else if editing.Some? then UpdateShopAction(editing.value.id, name, kind)
    else AddShopAction(name, kind)
  }

  /** The whole of `handleSubmit`: the store call it makes, and whether the form closes. */
  method SubmitShopForm(store: Store, name: string, kind: string, editing: Option<Shop>, freshId: string, now: int)
    returns (closed: bool)
    requires freshId !in Keys(store.shops, ShopId)
    modifies store
    ensures closed <==> !Blank(name)
    ensures var a := ShopSubmission(name, kind, editing);
            && (a.NoShopAction? ==> store.shops == old(store.shops))
            && (a.AddShopAction? ==> store.shops == [Shop(freshId, name, kind, now)] + old(store.shops))
            && (a.UpdateShopAction? ==> store.shops == UpdateShops(old(store.shops), a.id, name, kind))
    ensures store.entries == old(store.entries) && store.language == old(store.language)
  {
    var a := ShopSubmission(name, kind, editing);
    match a
    case NoShopAction =>
      closed := false;
    case UpdateShopAction(id, n, k) =>
      store.UpdateShop(id, n, k);
      closed := true;
    case AddShopAction(n, k) =>
      store.AddShop(n, k, freshId, now);
      closed := true;
  }
}
