/**
 * The month script's run: probe every day of the month, keep the days that
 * yield a price, detect changes against the previous snapshot, build the
 * digest when it is to be sent, and hand back the snapshot to persist.
 */
module MonthWatch {
  import opened Wrappers
  import opened Digits
  import opened LexOrder
  import opened Calendar
  import opened Money
  import opened PriceExtraction
  import opened ChangeDetection
  import opened MonthDigest

  /** The price the page rendered for a date yields: `fetch_min_price_for_date`. */
  function ProbeOf(render: Date -> string): (probe: Date -> Option<int>)
    ensures forall d :: probe(d).Some? ==> probe(d).value >= Floor
  {
    var probe := d => ExtractPrice(render(d));
    assert forall d :: probe(d) == ExtractPrice(render(d));
    probe
  }

  /**
   * `results` after probing `days` in order: one entry, under the day's key,
   * for each day whose probe yields a price.
   */
  function PricedDays(days: seq<Date>, probe: Date -> Option<int>, key: Date -> string): (results: seq<Entry>)
    ensures |results| <= |days|
    decreases |days|
  {
    if days == [] then []
    else
      var d := days[|days| - 1];
      var rest := PricedDays(days[..|days| - 1], probe, key);
      match probe(d)
      case Some(p) => rest + [Entry(key(d), p)]
      case None => rest
  }

  /** Probing one more day appends that day's entry when, and only when, its probe yields a price. */
  lemma PricedDaysStep(days: seq<Date>, i: nat, probe: Date -> Option<int>, key: Date -> string)
    requires i < |days|
    ensures PricedDays(days[..i + 1], probe, key) ==
            PricedDays(days[..i], probe, key) +
            (if probe(days[i]).Some? then [Entry(key(days[i]), probe(days[i]).value)] else [])
  {
    assert days[..i + 1][..i] == days[..i];
  }

  /** An entry is in `results` exactly when it is the key of a probed day and that day's price. */
  lemma {:induction false} PricedDaysMembership(days: seq<Date>, probe: Date -> Option<int>, key: Date -> string)
    ensures forall e :: e in PricedDays(days, probe, key) <==>
              exists i :: 0 <= i < |days| && e.date == key(days[i]) && probe(days[i]) == Some(e.price)
    decreases |days|
  {
    if days != [] {
      var init := days[..|days| - 1];
      var d := days[|days| - 1];
      PricedDaysMembership(init, probe, key);
      var rest := PricedDays(init, probe, key);
      var rs := PricedDays(days, probe, key);
      assert forall e :: e in rest ==> e in rs;
      forall e: Entry | exists i :: 0 <= i < |days| && e.date == key(days[i]) && probe(days[i]) == Some(e.price)
        ensures e in rs
      {
        var i :| 0 <= i < |days| && e.date == key(days[i]) && probe(days[i]) == Some(e.price);
        if i < |init| {
          assert init[i] == days[i];
          assert e in rest;
        } else {
          assert rs == rest + [Entry(key(d), e.price)];
        }
      }
      forall e | e in rs
        ensures exists i :: 0 <= i < |days| && e.date == key(days[i]) && probe(days[i]) == Some(e.price)
      {
        if e in rest {
          var i :| 0 <= i < |init| && e.date == key(init[i]) && probe(init[i]) == Some(e.price);
          assert init[i] == days[i];
        } else {
          assert e == Entry(key(d), e.price);
          assert days[|days| - 1] == d;
        }
      }
    }
  }

  /** Days probed with strictly ascending keys give entries with strictly ascending dates. */
  lemma {:induction false} PricedDaysAscending(days: seq<Date>, probe: Date -> Option<int>, key: Date -> string)
    requires forall i, j :: 0 <= i < j < |days| ==> LexLe(key(days[i]), key(days[j])) && key(days[i]) != key(days[j])
    ensures AscendingDates(PricedDays(days, probe, key))
    decreases |days|
  {
    if days != [] {
      var init := days[..|days| - 1];
      var d := days[|days| - 1];
      PricedDaysAscending(init, probe, key);
      PricedDaysMembership(init, probe, key);
      var rest := PricedDays(init, probe, key);
      var rs := PricedDays(days, probe, key);
      forall e | e in rest
        ensures LexLe(e.date, key(d)) && e.date != key(d)
      {
        var i :| 0 <= i < |init| && e.date == key(init[i]) && probe(init[i]) == Some(e.price);
        assert init[i] == days[i];
      }
      if probe(d).None? {
        assert rs == rest;
      } else {
        assert rs == rest + [Entry(key(d), probe(d).value)];
        forall i, j | 0 <= i < j < |rs|
          ensures LexLe(rs[i].date, rs[j].date) && rs[i].date != rs[j].date
        {
          assert rs[i] == rest[i] && rs[i] in rest;
          if j < |rest| {
            assert rs[j] == rest[j];
          }
        }
      }
    }
  }

  /** The probing loop of `main`: one probe per day of the month, in order. */
  method CollectResults(year: int, month: int, render: Date -> string) returns (results: seq<Entry>)
    requires 1 <= year <= 9999 && 1 <= month <= 12
    ensures results == PricedDays(MonthDays(year, month), ProbeOf(render), IsoFormat)
    ensures AscendingDates(results) && DistinctDates(results)
  {
    var days := DaysOfMonth(year, month);
    results := [];
    for i := 0 to |days|
      invariant results == PricedDays(days[..i], ProbeOf(render), IsoFormat)
    {
      var price := FetchMinPrice(render(days[i]));
      PricedDaysStep(days, i, ProbeOf(render), IsoFormat);
      assert ProbeOf(render)(days[i]) == price;
      if price.Some? {
        results := results + [Entry(IsoFormat(days[i]), price.value)];
      }
    }
    assert days[..|days|] == days;
    MonthKeysAscend(year, month);
    PricedDaysAscending(days, ProbeOf(render), IsoFormat);
  }

  /** `d[-2:]` of each day. */
  function DayLabels(ds: seq<string>): (labels: seq<string>)
    ensures |labels| == |ds| && forall i :: 0 <= i < |ds| ==> labels[i] == LastTwo(ds[i])
  {
    seq(|ds|, i requires 0 <= i < |ds| => LastTwo(ds[i]))
  }

  /** The label `d[-2:]` of a date's key is its day of the month as two digits, the tens first. */
  lemma DayLabelIsDay(d: Date)
    requires ValidDate(d)
    ensures LastTwo(IsoFormat(d)) == [DigitChar(d.day / 10), DigitChar(d.day % 10)]
  {
  }

  /** Each cheapest day is the key of a probed day whose probe gave the cheapest price. */
  lemma {:induction false} CheapestDaysAreKeys(days: seq<Date>, probe: Date -> Option<int>, key: Date -> string)
    ensures var r := Cheapest(PricedDays(days, probe, key));
            forall k :: k in r.1 ==> exists x :: 0 <= x < |days| && k == key(days[x]) && probe(days[x]) == r.0
  {
    var results := PricedDays(days, probe, key);
    var r := Cheapest(results);
    PricedDaysMembership(days, probe, key);
    forall k | k in r.1
      ensures exists x :: 0 <= x < |days| && k == key(days[x]) && probe(days[x]) == r.0
    {
      var j :| 0 <= j < |results| && results[j].date == k && r.0 == Some(results[j].price);
      assert results[j] in results;
    }
  }

  /** Every key of a month's days ends with the day as two digits. */
  lemma MonthKeysEndInDay(year: nat, month: nat)
    requires 1 <= year <= 9999 && 1 <= month <= 12
    ensures var days := MonthDays(year, month);
            forall x :: 0 <= x < |days| ==>
              days[x].day < 100 && LastTwo(IsoFormat(days[x])) == [DigitChar(days[x].day / 10), DigitChar(days[x].day % 10)]
  {
    var days := MonthDays(year, month);
    forall x | 0 <= x < |days|
      ensures days[x].day < 100 && LastTwo(IsoFormat(days[x])) == [DigitChar(days[x].day / 10), DigitChar(days[x].day % 10)]
    {
      DayLabelIsDay(days[x]);
    }
  }

  /**
   * When every key ends with its day as two digits (as MonthKeysEndInDay
   * shows for `isoformat()`), each label the digest shows for the cheapest
   * days is the two-digit day of a probed day whose probe gave the cheapest price.
   */
  lemma CheapestLabelsAreDays(days: seq<Date>, probe: Date -> Option<int>, key: Date -> string)
    requires forall x :: 0 <= x < |days| ==>
               days[x].day < 100 && LastTwo(key(days[x])) == [DigitChar(days[x].day / 10), DigitChar(days[x].day % 10)]
    ensures var r := Cheapest(PricedDays(days, probe, key));
            forall k :: k in r.1 ==>
              exists x :: 0 <= x < |days| && probe(days[x]) == r.0 &&
                          LastTwo(k) == [DigitChar(days[x].day / 10), DigitChar(days[x].day % 10)]
  {
    CheapestDaysAreKeys(days, probe, key);
  }

  /**
   * For a month run: each cheapest day the digest shows is labelled with the
   * two-digit day of a day of that month whose page gave the cheapest price.
   */
  lemma MonthCheapestLabelsAreDays(year: nat, month: nat, probe: Date -> Option<int>)
    requires 1 <= year <= 9999 && 1 <= month <= 12
    ensures var days := MonthDays(year, month);
            var r := Cheapest(PricedDays(days, probe, IsoFormat));
            forall k :: k in r.1 ==>
              exists x :: 0 <= x < |days| && probe(days[x]) == r.0 &&
                          LastTwo(k) == [DigitChar(days[x].day / 10), DigitChar(days[x].day % 10)]
  {
    MonthKeysEndInDay(year, month);
    CheapestLabelsAreDays(MonthDays(year, month), probe, IsoFormat);
  }

  /** The worked month shows the cheapest days as `02` and `03`. */
  lemma CheapestLabelsExample()
    ensures DayLabels(Cheapest([Entry("2026-02-01", 2000000), Entry("2026-02-02", 1500000),
                                Entry("2026-02-03", 1500000)]).1) == ["02", "03"]
  {
    CheapestExample();
    assert LastTwo("2026-02-02") == "02" && LastTwo("2026-02-03") == "03";
  }

  /** What the message reports: the cheapest price and its days, the change lines, the top table. */
  datatype Digest = Digest(cheapestPrice: string, cheapestDays: seq<string>,
                           changeLines: seq<ChangeLine>, topLines: seq<TopLine>)

  /** The message sent, if any, and the snapshot persisted. */
  datatype MonthOutcome = MonthOutcome(message: Option<Digest>, saved: seq<Entry>)

  /**
   * One run of the month script. The persisted snapshot is exactly the new
   * results, never merged with the previous one; a message is built exactly
   * when the send condition holds, and then reports the least price, the
   * days reaching it in ascending order, at most ten change lines and the
   * ten cheapest days by (price, date).
   */
  method MonthRun(year: int, month: int, render: Date -> string, prev: map<string, int>,
                  threshold: int, alwaysSend: bool, currency: string)
    returns (out: MonthOutcome)
    requires 1 <= year <= 9999 && 1 <= month <= 12
    ensures out.saved == PricedDays(MonthDays(year, month), ProbeOf(render), IsoFormat)
    ensures out.message.Some? <==> ShouldSend(Changes(out.saved, prev, threshold), alwaysSend, out.saved)
    ensures out.message.Some? ==>
              Cheapest(out.saved).0.Some? &&
              out.message.value.cheapestPrice == ToVnd(Cheapest(out.saved).0.value, currency) &&
              out.message.value.cheapestDays == DayLabels(Cheapest(out.saved).1) &&
              StrictlyAscending(Cheapest(out.saved).1)
    ensures out.message.Some? ==>
              IsChangeList(out.message.value.changeLines, Changes(out.saved, prev, threshold), currency) &&
              AscendingChangeDates(Changes(out.saved, prev, threshold))
    ensures out.message.Some? ==>
              IsTopTable(out.message.value.topLines, SortByPriceDate(out.saved), currency)
  {
    var results := CollectResults(year, month, render);
    var changes := DetectChanges(results, prev, threshold);
    ChangesAscend(results, prev, threshold);
    var (minPrice, cheapestDays) := Cheapest(results);
    if (|changes| > 0 || alwaysSend) && |results| > 0 {
      var sortedDays := SortByPriceDate(results);
      var topLines := TopLines(sortedDays, currency);
      var changeLines := ChangeLines(changes, currency);
      DaysPricedAscending(results, minPrice.value);
      var digest := Digest(ToVnd(minPrice.value, currency), DayLabels(cheapestDays), changeLines, topLines);
      out := MonthOutcome(Some(digest), results);
    } else {
      out := MonthOutcome(None, results);
    }
  }
}
