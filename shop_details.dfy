/** The detail page of one shop (pages/ShopDetails.tsx): its entries, newest first, and the
    total it owes. The page filters the store's entries into a fresh array and sorts that
    copy with a comparator on dates; the store's own list is never touched, which the model
    has for free, because every query here is a function. */
module ShopDetails {
  import opened Types
  import opened Seqs
  import opened Text
  import opened Dates
  import opened Home

  /** The comparator `new Date(b.date) - new Date(a.date)` is negative, which puts `a`
      first, exactly when `a` is dated later than `b`. For ISO dates the order of the
      timestamps is the string order (Dates.IsoDateOrder). */
  predicate Newer(a: Entry, b: Entry)
  {
    LexLess(b.date, a.date)
  }

  /** No entry is followed by a later-dated one. */
  predicate NewestFirst(s: seq<Entry>)
  {
    forall i :: 0 <= i < |s| - 1 ==> !LexLess(s[i].date, s[i + 1].date)
  }

  /** Selects the entries of one date. */
  function OnDate(d: string): Entry -> bool
  {
    (e: Entry) => e.date == d
  }

  /** Puts `x` in front of the first entry that is not strictly newer than it. */
  function Insert(x: Entry, s: seq<Entry>): (r: seq<Entry>)
    requires NewestFirst(s)
    ensures multiset(r) == multiset{x} + multiset(s)
    ensures r != [] && (r[0] == x || (s != [] && r[0] == s[0]))
    ensures NewestFirst(r)
  {
    if s == [] || !Newer(s[0], x) then [x] + s
    else
      assert NewestFirst(s[1..]);
      var t := Insert(x, s[1..]);
      LexLessAsymmetric(x.date, s[0].date);
      assert s == [s[0]] + s[1..];
      [s[0]] + t
  }

  /** The stable sort by date, newest first: an insertion sort, each entry placed in front
      of the equally dated entries that came after it in the input. */
  function SortNewestFirst(s: seq<Entry>): (r: seq<Entry>)
    ensures multiset(r) == multiset(s)
    ensures NewestFirst(r)
  {
    if s == [] then []
    else
      assert s == [s[0]] + s[1..];
      Insert(s[0], SortNewestFirst(s[1..]))
  }

  /** Among the entries of one date, inserting `x` puts it first. */
  lemma {:induction false} InsertStable(x: Entry, s: seq<Entry>, d: string)
    requires NewestFirst(s)
    ensures Filter(Insert(x, s), OnDate(d))
         == if x.date == d then [x] + Filter(s, OnDate(d)) else Filter(s, OnDate(d))
  {
    var f := OnDate(d);
    if s == [] || !Newer(s[0], x) {
      FilterCons(x, s, f);
    } else {
      var rest := s[1..];
      assert NewestFirst(rest);
      var t := Insert(x, rest);
      assert Insert(x, s) == [s[0]] + t;
      assert s == [s[0]] + rest;
      InsertStable(x, rest, d);
      FilterCons(s[0], t, f);
      FilterCons(s[0], rest, f);
      if x.date == d {
        LexLessIrreflexive(x.date);
        assert !f(s[0]);
      }
    }
  }

  /** `Array.prototype.sort` is stable: the entries of any one date come out in the order
      they had in the input. */
  lemma {:induction false} SortStable(s: seq<Entry>, d: string)
    ensures Filter(SortNewestFirst(s), OnDate(d)) == Filter(s, OnDate(d))
  {
    if s != [] {
      SortStable(s[1..], d);
      InsertStable(s[0], SortNewestFirst(s[1..]), d);
      FilterCons(s[0], s[1..], OnDate(d));
      assert s == [s[0]] + s[1..];
    }
  }

  /** In a list sorted newest first, no entry is older than any entry after it. */
  lemma {:induction false} NewestFirstPairwise(s: seq<Entry>, i: nat, j: nat)
    requires NewestFirst(s) && i <= j < |s|
    ensures !LexLess(s[i].date, s[j].date)
    decreases j - i
  {
    if i == j {
      LexLessIrreflexive(s[i].date);
    } else {
      NewestFirstPairwise(s, i, j - 1);
      NotLessTransitive(s[i].date, s[j - 1].date, s[j].date);
    }
  }

  /** The first entry of a list is the first of its own date. */
  lemma FirstOfDate(a: seq<Entry>)
    requires a != []
    ensures Filter(a, OnDate(a[0].date)) != [] && Filter(a, OnDate(a[0].date))[0] == a[0]
  {
    assert a == [a[0]] + a[1..];
    FilterCons(a[0], a[1..], OnDate(a[0].date));
  }

  /** Two lists sorted newest first, each holding the other's head, have heads of one date. */
  lemma HeadDatesEqual(a: seq<Entry>, b: seq<Entry>)
    requires NewestFirst(a) && NewestFirst(b) && a != [] && b != []
    requires a[0] in b && b[0] in a
    ensures a[0].date == b[0].date
  {
    var k :| 0 <= k < |a| && a[k] == b[0];
    var m :| 0 <= m < |b| && b[m] == a[0];
    NewestFirstPairwise(a, 0, k);
    NewestFirstPairwise(b, 0, m);
    LexLessTotal(a[0].date, b[0].date);
  }

  /** Two lists sorted newest first, with the same entries per date, start alike: the heads
      share a date, and each is the first entry of that date. */
  lemma SameHead(a: seq<Entry>, b: seq<Entry>)
    requires NewestFirst(a) && NewestFirst(b) && a != [] && b != []
    requires forall d :: Filter(a, OnDate(d)) == Filter(b, OnDate(d))
    ensures a[0] == b[0]
  {
    var fa := Filter(a, OnDate(a[0].date));
    var fb := Filter(b, OnDate(b[0].date));
    assert fa == Filter(b, OnDate(a[0].date));
    assert fb == Filter(a, OnDate(b[0].date));
    FirstOfDate(a);
    FirstOfDate(b);
    assert a[0] in fa && b[0] in fb;
    HeadDatesEqual(a, b);
  }

  /** Dropping a common head keeps the entries per date equal. */
  lemma SameTails(a: seq<Entry>, b: seq<Entry>)
    requires a != [] && b != [] && a[0] == b[0]
    requires forall d :: Filter(a, OnDate(d)) == Filter(b, OnDate(d))
    ensures forall d :: Filter(a[1..], OnDate(d)) == Filter(b[1..], OnDate(d))
  {
    assert a == [a[0]] + a[1..] && b == [b[0]] + b[1..];
    forall d ensures Filter(a[1..], OnDate(d)) == Filter(b[1..], OnDate(d)) {
      var f := OnDate(d);
      assert Filter(a, f) == Filter(b, f);
      FilterCons(a[0], a[1..], f);
      FilterCons(b[0], b[1..], f);
      if a[0].date == d {
        assert ([a[0]] + Filter(a[1..], f))[1..] == Filter(a[1..], f);
        assert ([b[0]] + Filter(b[1..], f))[1..] == Filter(b[1..], f);
      }
    }
  }

  /** Sorted newest first and stable pins the order down: two such lists with the same
      entries per date are equal. */
  lemma {:induction false} StableOrderUnique(a: seq<Entry>, b: seq<Entry>)
    requires NewestFirst(a) && NewestFirst(b)
    requires forall d :: Filter(a, OnDate(d)) == Filter(b, OnDate(d))
    ensures a == b
    decreases |a|
  {
    forall x: Entry ensures x in a <==> x in b {
      assert Filter(a, OnDate(x.date)) == Filter(b, OnDate(x.date));
    }
    SameMembersEmpty(a, b);
    if a != [] && b != [] {
      SameHead(a, b);
      SameTails(a, b);
      assert NewestFirst(a[1..]) && NewestFirst(b[1..]);
      StableOrderUnique(a[1..], b[1..]);
      assert a == [a[0]] + a[1..] && b == [b[0]] + b[1..];
    }
  }

  /** Whatever list a stable sort with the page's comparator returns, it is this one. */
  lemma SortIsTheStableSort(s: seq<Entry>, r: seq<Entry>)
    requires NewestFirst(r)
    requires forall d :: Filter(r, OnDate(d)) == Filter(s, OnDate(d))
    ensures r == SortNewestFirst(s)
  {
    forall d ensures Filter(SortNewestFirst(s), OnDate(d)) == Filter(r, OnDate(d)) {
      SortStable(s, d);
    }
    StableOrderUnique(SortNewestFirst(s), r);
  }

  /** `shopEntries`: the shop's entries, each as often as it occurs in the store, sorted
      newest first, entries of one date in store order. */
  function ShopEntries(entries: seq<Entry>, shopId: string): (r: seq<Entry>)
    ensures forall e: Entry :: multiset(r)[e] == if e.shopId == shopId then multiset(entries)[e] else 0
    ensures forall e: Entry :: e in r <==> e in entries && e.shopId == shopId
    ensures NewestFirst(r)
    ensures forall d :: Filter(r, OnDate(d)) == Filter(Filter(entries, OfShop(shopId)), OnDate(d))
  {
    var mine := Filter(entries, OfShop(shopId));
    var r := SortNewestFirst(mine);
    assert forall e: Entry :: e in r <==> e in mine by {
      forall e: Entry ensures e in r <==> e in mine {
        assert e in r <==> multiset(r)[e] > 0;
      }
    }
    forall d ensures Filter(r, OnDate(d)) == Filter(mine, OnDate(d)) {
      SortStable(mine, d);
    }
    r
  }

  /** The order of the three dates of the example below. */
  lemma ExampleDates()
    ensures LexLess("2024-01-01", "2024-02-10") && LexLess("2024-02-10", "2024-03-15")
  {
    SameMonthPrefix("1-01", "2-10");
    SameMonthPrefix("2-10", "3-15");
  }

  lemma SameMonthPrefix(x: string, y: string)
    requires |x| == |y| && x != [] && y != [] && x[0] < y[0]
    ensures LexLess("2024-0" + x, "2024-0" + y)
  {
    LexLessIrreflexive("2024-0");
    LexLessAppend("2024-0", x, "2024-0", y);
  }

  /** Sorting a two-entry list whose first entry is the newer one leaves it as it is. */
  lemma SortTwo(b: Entry, c: Entry)
    requires !LexLess(b.date, c.date)
    ensures SortNewestFirst([b, c]) == [b, c]
  {
    assert [b, c][0] == b && [b, c][1..] == [c];
    assert SortNewestFirst([c]) == [c] by {
      assert [c][1..] == [];
    }
  }

  /** Three entries, the first the oldest and the second the newest, come out second,
      third, first. */
  lemma SortThree(a: Entry, b: Entry, c: Entry)
    requires LexLess(a.date, c.date) && LexLess(c.date, b.date)
    ensures SortNewestFirst([a, b, c]) == [b, c, a]
  {
    LexLessTransitive(a.date, c.date, b.date);
    LexLessAsymmetric(c.date, b.date);
    SortTwo(b, c);
    assert [a, b, c][0] == a && [a, b, c][1..] == [b, c];
    assert Insert(a, [c]) == [c, a] by {
      assert [c][1..] == [];
    }
    assert Insert(a, [b, c]) == [b] + Insert(a, [c]) by {
      assert [b, c][1..] == [c];
    }
    assert [b] + [c, a] == [b, c, a];
    assert SortNewestFirst([a, b, c]) == Insert(a, SortNewestFirst([b, c]));
  }

  /** Entries dated 2024-01-01, 2024-03-15 and 2024-02-10, in that order in the store, are
      listed 2024-03-15, 2024-02-10, 2024-01-01. */
  lemma SortExample(a: Entry, b: Entry, c: Entry)
    requires a.date == "2024-01-01" && b.date == "2024-03-15" && c.date == "2024-02-10"
    ensures SortNewestFirst([a, b, c]) == [b, c, a]
  {
    ExampleDates();
    SortThree(a, b, c);
  }

  /** `totalDue`: the reduce over `shopEntries`. It is the home page's total for the shop,
      because the sort does not change the sum. */
  function TotalDue(entries: seq<Entry>, shopId: string): (r: int)
    ensures r == ShopTotal(entries, shopId)
  {
    SumPermutation(ShopEntries(entries, shopId), Filter(entries, OfShop(shopId)), EntryTotal);
    Sum(ShopEntries(entries, shopId), EntryTotal)
  }
}
