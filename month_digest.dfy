/**
 * What the month script computes from the new snapshot for its message:
 * the cheapest price and its days, the top-10 table, the change lines, and
 * whether to send at all.
 */
module MonthDigest {
  import opened Wrappers
  import opened LexOrder
  import opened Money
  import opened ChangeDetection
  import PriceExtraction

  /** Python's `<=` on the key `(price, date)` of `sorted(..., key=lambda x: (x[1], x[0]))`. */
  predicate KeyLe(a: Entry, b: Entry) {
    a.price < b.price || (a.price == b.price && LexLe(a.date, b.date))
  }

  predicate SortedByPriceDate(s: seq<Entry>) {
    forall i, j :: 0 <= i < j < |s| ==> KeyLe(s[i], s[j])
  }

  /** Strings strictly increasing in Python's order. */
  predicate StrictlyAscending(ds: seq<string>) {
    forall i, j :: 0 <= i < j < |ds| ==> LexLe(ds[i], ds[j]) && ds[i] != ds[j]
  }

  /** Dates of the snapshot strictly increasing as strings. */
  predicate AscendingDates(results: seq<Entry>) {
    forall i, j :: 0 <= i < j < |results| ==> LexLe(results[i].date, results[j].date) && results[i].date != results[j].date
  }

  function Prices(results: seq<Entry>): (ps: seq<int>)
    ensures |ps| == |results| && forall i :: 0 <= i < |results| ==> ps[i] == results[i].price
  {
    seq(|results|, i requires 0 <= i < |results| => results[i].price)
  }

  /** `[d for d, p in results.items() if p == price]` */
  function DaysPriced(results: seq<Entry>, price: int): (ds: seq<string>)
    ensures forall k :: k in ds <==> exists i :: 0 <= i < |results| && results[i].date == k && results[i].price == price
    decreases |results|
  {
    if results == [] then []
    else
      var init := results[..|results| - 1];
      var last := results[|results| - 1];
      var rest := DaysPriced(init, price);
      assert forall i :: 0 <= i < |init| ==> init[i] == results[i];
      if last.price == price then rest + [last.date] else rest
  }

  /**
   * `min_price` and `cheapest_days`: None and no days for an empty snapshot;
   * otherwise the least price, and a date is listed exactly when its price is that least price.
   */
  function Cheapest(results: seq<Entry>): (r: (Option<int>, seq<string>))
    ensures results == [] ==> r == (None, [])
    ensures results != [] ==> r.0.Some? && |r.1| > 0
    ensures r.0.Some? ==> (forall i :: 0 <= i < |results| ==> r.0.value <= results[i].price) &&
                          exists i :: 0 <= i < |results| && results[i].price == r.0.value
    ensures forall k :: k in r.1 <==>
              exists i :: 0 <= i < |results| && results[i].date == k && r.0 == Some(results[i].price)
  {
    if results == [] then (None, [])
    else
      var ps := Prices(results);
      var m := PriceExtraction.Least(ps);
      assert forall i :: 0 <= i < |results| ==> ps[i] in ps;
      var i :| 0 <= i < |ps| && ps[i] == m;
      assert results[i].date in DaysPriced(results, m);
      (Some(m), DaysPriced(results, m))
  }

  /** The worked case: a month where the 2nd and 3rd share the least price. */
  lemma CheapestExample()
    ensures Cheapest([Entry("2026-02-01", 2000000), Entry("2026-02-02", 1500000), Entry("2026-02-03", 1500000)])
            == (Some(1500000), ["2026-02-02", "2026-02-03"])
  {
    var rs := [Entry("2026-02-01", 2000000), Entry("2026-02-02", 1500000), Entry("2026-02-03", 1500000)];
    var ps := Prices(rs);
    assert ps == [2000000, 1500000, 1500000];
    assert ps[1..][1..] == [1500000];
    assert PriceExtraction.Least(ps) == 1500000;
    assert rs[..2][..1] == [rs[0]] && rs[..2] == [rs[0], rs[1]] && rs[..1][..0] == [];
    assert rs[..|rs| - 1] == rs[..2];
    assert DaysPriced(rs[..1], 1500000) == [];
    assert DaysPriced(rs[..2], 1500000) == ["2026-02-02"];
    assert DaysPriced(rs, 1500000) == ["2026-02-02", "2026-02-03"];
  }

  /** The cheapest days keep the snapshot's order, so with ascending dates `sorted(cheapest_days)` changes nothing. */
  lemma {:induction false} DaysPricedAscending(results: seq<Entry>, price: int)
    requires AscendingDates(results)
    ensures StrictlyAscending(DaysPriced(results, price))
    decreases |results|
  {
    if results != [] {
      var init := results[..|results| - 1];
      var last := results[|results| - 1];
      DaysPricedAscending(init, price);
      var ds := DaysPriced(results, price);
      var rest := DaysPriced(init, price);
      assert StrictlyAscending(rest);
      if last.price != price {
        assert ds == rest;
      } else {
        forall i | 0 <= i < |rest|
          ensures LexLe(rest[i], last.date) && rest[i] != last.date
        {
          assert rest[i] in rest;
          var k :| 0 <= k < |init| && init[k].date == rest[i] && init[k].price == price;
          assert init[k] == results[k];
        }
        assert ds == rest + [last.date];
        forall i, j | 0 <= i < j < |ds|
          ensures LexLe(ds[i], ds[j]) && ds[i] != ds[j]
        {
          if j < |rest| {
            assert ds[i] == rest[i] && ds[j] == rest[j];
          } else {
            assert ds[i] == rest[i] && ds[j] == last.date;
          }
        }
      }
    }
  }

  lemma KeyLeTotal(a: Entry, b: Entry)
    ensures KeyLe(a, b) || KeyLe(b, a)
  {
    LexLeTotal(a.date, b.date);
  }

  lemma KeyLeTransitive(a: Entry, b: Entry, c: Entry)
    requires KeyLe(a, b) && KeyLe(b, c)
    ensures KeyLe(a, c)
  {
    if a.price == b.price == c.price {
      LexLeTransitive(a.date, b.date, c.date);
    }
  }

  lemma KeyLeAntisymmetric(a: Entry, b: Entry)
    requires KeyLe(a, b) && KeyLe(b, a)
    ensures a == b
  {
    LexLeAntisymmetric(a.date, b.date);
  }

  lemma PrependSorted(x: Entry, s: seq<Entry>)
    requires SortedByPriceDate(s)
    requires s == [] || KeyLe(x, s[0])
    ensures SortedByPriceDate([x] + s)
  {
    var r := [x] + s;
    forall i, j | 0 <= i < j < |r|
      ensures KeyLe(r[i], r[j])
    {
      if i == 0 && j > 1 {
        KeyLeTransitive(x, s[0], s[j - 1]);
      }
    }
  }

  lemma PrependLeast(h: Entry, r: seq<Entry>)
    requires SortedByPriceDate(r)
    requires forall e :: e in multiset(r) ==> KeyLe(h, e)
    ensures SortedByPriceDate([h] + r)
  {
    var t := [h] + r;
    forall i, j | 0 <= i < j < |t|
      ensures KeyLe(t[i], t[j])
    {
      if i == 0 {
        assert t[j] in multiset(r);
      }
    }
  }

  /** Insert `x` after every entry whose key is smaller. */
  function Insert(x: Entry, s: seq<Entry>): (r: seq<Entry>)
    requires SortedByPriceDate(s)
    ensures SortedByPriceDate(r)
    ensures multiset(r) == multiset(s) + multiset{x}
    decreases |s|
  {
    if s == [] || KeyLe(x, s[0]) then
      PrependSorted(x, s);
      [x] + s
    else
      assert s == [s[0]] + s[1..];
      var r' := Insert(x, s[1..]);
      KeyLeTotal(x, s[0]);
      forall e | e in multiset(r')
        ensures KeyLe(s[0], e)
      {
        if e != x {
          assert e in multiset(s[1..]);
          var j :| 0 <= j < |s[1..]| && s[1..][j] == e;
          assert s[j + 1] == e;
        }
      }
      PrependLeast(s[0], r');
      [s[0]] + r'
  }

  /**
   * `sorted(results.items(), key=lambda x: (x[1], x[0]))`: the same entries,
   * ordered by price and, among equal prices, by date.
   */
  function SortByPriceDate(s: seq<Entry>): (r: seq<Entry>)
    ensures SortedByPriceDate(r)
    ensures multiset(r) == multiset(s)
    decreases |s|
  {
    if s == [] then []
    else
      assert s == [s[0]] + s[1..];
      Insert(s[0], SortByPriceDate(s[1..]))
  }

  /** `d[-2:]`: the day-of-month part of an ISO date. */
  function LastTwo(s: string): (r: string)
    ensures |r| == if |s| >= 2 then 2 else |s|
    ensures s[|s| - |r|..] == r
  {
    if |s| >= 2 then s[|s| - 2..] else s
  }

  /** One row of the top table: rank from 1, day, formatted price. */
  datatype TopLine = TopLine(rank: nat, day: string, amount: string)

  /** One line of the change list: a newly seen day, or a move with its arrow. */
  datatype ChangeLine =
    | Added(day: string, amount: string)
    | Moved(day: string, before: string, after: string, down: bool)

  /** How many lines a list of `n` items gives when cut at ten. */
  function AtMostTen(n: nat): nat {
    if n < 10 then n else 10
  }

  /** The top table lists the first ten sorted entries, ranked from 1, with their day and price. */
  predicate IsTopTable(lines: seq<TopLine>, sorted: seq<Entry>, currency: string) {
    |lines| == AtMostTen(|sorted|) &&
    forall i :: 0 <= i < |lines| ==>
      lines[i] == TopLine(i + 1, LastTwo(sorted[i].date), ToVnd(sorted[i].price, currency))
  }

  /** The loop over `enumerate(sorted_days[:10], 1)`. */
  method TopLines(sorted: seq<Entry>, currency: string) returns (lines: seq<TopLine>)
    ensures IsTopTable(lines, sorted, currency)
  {
    var top := sorted[..AtMostTen(|sorted|)];
    lines := [];
    for i := 0 to |top|
      invariant |lines| == i
      invariant forall j :: 0 <= j < i ==>
                  lines[j] == TopLine(j + 1, LastTwo(top[j].date), ToVnd(top[j].price, currency))
    {
      lines := lines + [TopLine(i + 1, LastTwo(top[i].date), ToVnd(top[i].price, currency))];
    }
  }

  /** The line for one change record; the arrow points down exactly when the new price is lower. */
  function ChangeLineFor(c: Change, currency: string): (l: ChangeLine)
    ensures l.day == LastTwo(c.date)
    ensures l.Added? <==> c.oldPrice.None?
    ensures l.Added? ==> l.amount == ToVnd(c.newPrice, currency)
    ensures l.Moved? ==> l.before == ToVnd(c.oldPrice.value, currency) &&
                         l.after == ToVnd(c.newPrice, currency) &&
                         (l.down <==> c.newPrice < c.oldPrice.value)
  {
    match c.oldPrice
    case None => Added(LastTwo(c.date), ToVnd(c.newPrice, currency))
    case Some(oldp) =>
      Moved(LastTwo(c.date), ToVnd(oldp, currency), ToVnd(c.newPrice, currency), c.newPrice < oldp)
  }

  /** Change records whose dates strictly increase as strings. */
  predicate AscendingChangeDates(cs: seq<Change>) {
    forall i, j :: 0 <= i < j < |cs| ==> LexLe(cs[i].date, cs[j].date) && cs[i].date != cs[j].date
  }

  /**
   * The records keep the order of the snapshot's items: when its dates
   * ascend, so do the dates of the records, so `changes[:10]` holds the ten
   * earliest recorded dates.
   */
  lemma {:induction false} ChangesAscend(results: seq<Entry>, prev: map<string, int>, threshold: int)
    requires AscendingDates(results)
    ensures AscendingChangeDates(Changes(results, prev, threshold))
    decreases |results|
  {
    if results != [] {
      var init := results[..|results| - 1];
      var last := results[|results| - 1];
      assert forall i :: 0 <= i < |init| ==> init[i] == results[i];
      ChangesAscend(init, prev, threshold);
      ChangesAreItemRecords(init, prev, threshold);
      var rest := Changes(init, prev, threshold);
      forall c | c in rest
        ensures LexLe(c.date, last.date) && c.date != last.date
      {
        var i :| 0 <= i < |init| && ChangeFor(init[i], prev, threshold) == Some(c);
        assert c.date == results[i].date;
      }
      var cs := Changes(results, prev, threshold);
      match ChangeFor(last, prev, threshold)
      case None =>
        assert cs == rest;
      case Some(c) =>
        assert cs == rest + [c];
        forall i, j | 0 <= i < j < |cs|
          ensures LexLe(cs[i].date, cs[j].date) && cs[i].date != cs[j].date
        {
          assert cs[i] == rest[i] && cs[i] in rest;
          if j < |rest| {
            assert cs[j] == rest[j];
          }
        }
    }
  }

  /** The change list shows the first ten records, one line each. */
  predicate IsChangeList(lines: seq<ChangeLine>, changes: seq<Change>, currency: string) {
    |lines| == AtMostTen(|changes|) &&
    forall i :: 0 <= i < |lines| ==> lines[i] == ChangeLineFor(changes[i], currency)
  }

  /** The loop over `changes[:10]`. */
  method ChangeLines(changes: seq<Change>, currency: string) returns (lines: seq<ChangeLine>)
    ensures IsChangeList(lines, changes, currency)
  {
    lines := [];
    for i := 0 to AtMostTen(|changes|)
      invariant |lines| == i
      invariant forall j :: 0 <= j < i ==> lines[j] == ChangeLineFor(changes[j], currency)
    {
      lines := lines + [ChangeLineFor(changes[i], currency)];
    }
  }

  /** `(changes or ALWAYS_SEND) and results` */
  predicate ShouldSend(changes: seq<Change>, alwaysSend: bool, results: seq<Entry>): (b: bool)
    ensures results == [] ==> !b
    ensures changes == [] && !alwaysSend ==> !b
    ensures results != [] && alwaysSend ==> b
  {
    (|changes| > 0 || alwaysSend) && |results| > 0
  }

  /**
   * Since every record comes from an item of the new snapshot, a message
   * goes out exactly when something changed, or when the override is set and
   * some day was priced; the override alone never sends for an empty month.
   */
  lemma SendDecision(results: seq<Entry>, prev: map<string, int>, threshold: int, alwaysSend: bool)
    ensures var changes := Changes(results, prev, threshold);
            ShouldSend(changes, alwaysSend, results) <==> |changes| > 0 || (alwaysSend && results != [])
  {
  }

  /** The first entry of a sorted sequence has the least key. */
  lemma SortedHeadLeast(s: seq<Entry>, x: Entry)
    requires SortedByPriceDate(s) && x in multiset(s)
    ensures KeyLe(s[0], x)
  {
    var i :| 0 <= i < |s| && s[i] == x;
    if i > 0 {
      assert KeyLe(s[0], s[i]);
    }
  }

  lemma SortedTail(s: seq<Entry>)
    requires SortedByPriceDate(s) && s != []
    ensures SortedByPriceDate(s[1..])
  {
    forall i, j | 0 <= i < j < |s| - 1
      ensures KeyLe(s[1..][i], s[1..][j])
    {
      assert s[1..][i] == s[i + 1] && s[1..][j] == s[j + 1];
    }
  }

  lemma MultisetOfTail(s: seq<Entry>)
    requires s != []
    ensures multiset(s[1..]) == multiset(s) - multiset{s[0]}
  {
    assert s == [s[0]] + s[1..];
  }

  /**
   * Two arrangements of the same entries that are both in (price, date)
   * order are the same sequence: the key order is total and antisymmetric,
   * so the sorted order is unique.
   */
  lemma {:induction false} SortedUnique(s: seq<Entry>, t: seq<Entry>)
    requires SortedByPriceDate(s) && SortedByPriceDate(t)
    requires multiset(s) == multiset(t)
    ensures s == t
    decreases |s|
  {
    assert |s| == |multiset(s)| == |t|;
    if s != [] {
      assert s[0] in multiset(s) && t[0] in multiset(t);
      SortedHeadLeast(t, s[0]);
      SortedHeadLeast(s, t[0]);
      KeyLeAntisymmetric(s[0], t[0]);
      MultisetOfTail(s);
      MultisetOfTail(t);
      SortedTail(s);
      SortedTail(t);
      SortedUnique(s[1..], t[1..]);
    }
  }

  /**
   * The sorted top table is determined by the snapshot alone: any sequence
   * holding the snapshot's entries in (price, date) order, which is what
   * Python's `sorted` returns, equals `SortByPriceDate`.
   */
  lemma SortByPriceDateIsTheSortedOrder(results: seq<Entry>, sorted: seq<Entry>)
    requires SortedByPriceDate(sorted) && multiset(sorted) == multiset(results)
    ensures sorted == SortByPriceDate(results)
  {
    SortedUnique(sorted, SortByPriceDate(results));
  }
}
