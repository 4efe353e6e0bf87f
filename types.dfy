/** The records of the ledger (types.ts). Money and timestamps are integers; the `type`
    field of a shop is called `kind` here, because `type` is a keyword of Dafny. */
module Types {

  datatype Option<+T> = None | Some(value: T)

  /** The UI language. The source declares it as the literal union `'bn' | 'en'`, but the
      value read back from storage is cast, not checked, so the store holds a plain string. */
  type Language = string

  predicate IsLanguage(s: string)
  {
    s == "bn" || s == "en"
  }

  datatype Shop = Shop(id: string, name: string, kind: string, createdAt: int)

  /** One day's dues for one shop; `date` is an ISO `YYYY-MM-DD` string. */
  datatype Entry = Entry(
    id: string,
    shopId: string,
    date: string,
    morning: int,
    noon: int,
    night: int,
    total: int,
    createdAt: int)

  /** `Omit<Entry, 'id' | 'createdAt'>`: what a page hands to `addEntry`. */
  datatype EntryData = EntryData(
    shopId: string,
    date: string,
    morning: int,
    noon: int,
    night: int,
    total: int)

  function ShopId(s: Shop): string { s.id }

  function EntryId(e: Entry): string { e.id }

  function EntryTotal(e: Entry): int { e.total }
}
