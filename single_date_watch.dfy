/**
 * The single-date script's decision: warn when no price was read, announce
 * the first price, report a move that passes the threshold rule, or stay
 * silent; and whether the new price is saved.
 */
module SingleDateWatch {
  import opened Wrappers
  import opened Digits
  import opened Money
  import opened PriceExtraction
  import opened ChangeDetection

  /** Which message goes out, with the amounts it shows. */
  datatype Alert =
    | Unreadable                                               // the "could not read the price" warning
    | Initial(amount: string)                                  // the first price seen
    | Update(down: bool, before: string, after: string, difference: string)
    | Silent

  /** The message and the price written to the state file, if any. */
  datatype WatchOutcome = WatchOutcome(alert: Alert, saved: Option<int>)

  /** The size of a move, `abs(diff)`. */
  function Abs(x: int): nat {
    if x < 0 then -x else x
  }

  /** The branches of `main` after the price has been read. */
  function Decide(price: Option<int>, prev: Option<int>, threshold: int, currency: string): (o: WatchOutcome)
    ensures o.saved == price
    ensures o.alert.Unreadable? <==> price.None?
    ensures o.alert.Initial? <==> price.Some? && prev.None?
    ensures o.alert.Initial? ==> o.alert.amount == ToVnd(price.value, currency)
    ensures o.alert.Update? ==> price.Some? && prev.Some? && Reportable(prev.value, price.value, threshold)
  {
    match price
    case None => WatchOutcome(Unreadable, None)
    case Some(p) =>
      match prev
      case None => WatchOutcome(Initial(ToVnd(p, currency)), price)
      case Some(prevPrice) =>
        var diff := p - prevPrice;
        if diff != 0 && (threshold == 0 || diff <= -threshold) then
          var alert := Update(diff < 0, ToVnd(prevPrice, currency), ToVnd(p, currency), ToVnd(Abs(diff), currency));
          WatchOutcome(alert, price)
        else
          WatchOutcome(Silent, price)
  }

  /**
   * With both prices known, an update goes out exactly when the month
   * script's change rule would record the move; the arrow points down
   * exactly when the price fell, and the old and new amounts are shown.
   */
  lemma UpdateFollowsChangeRule(p: int, prevPrice: int, threshold: int, currency: string)
    ensures var o := Decide(Some(p), Some(prevPrice), threshold, currency);
            (o.alert.Update? <==> Reportable(prevPrice, p, threshold)) &&
            (o.alert.Update? ==> (o.alert.down <==> p < prevPrice) &&
                                 o.alert.before == ToVnd(prevPrice, currency) &&
                                 o.alert.after == ToVnd(p, currency)) &&
            (!o.alert.Update? ==> o.alert.Silent?)
  {
  }

  /** The difference an update shows is the formatted size of the move. */
  lemma DifferenceShown(p: int, prevPrice: int, threshold: int, currency: string)
    requires Decide(Some(p), Some(prevPrice), threshold, currency).alert.Update?
    ensures Decide(Some(p), Some(prevPrice), threshold, currency).alert.difference == ToVnd(Abs(p - prevPrice), currency)
  {
  }

  /**
   * The difference is shown as a magnitude: it carries no minus sign, and
   * without its dots and currency suffix it reads back as the size of the move.
   */
  lemma ReportedDifferenceIsMagnitude(p: int, prevPrice: int, threshold: int, currency: string)
    requires Decide(Some(p), Some(prevPrice), threshold, currency).alert.Update?
    ensures var d := Decide(Some(p), Some(prevPrice), threshold, currency).alert.difference;
            d[0] != '-' && ShowsAmount(d, Abs(p - prevPrice), currency)
  {
    DifferenceShown(p, prevPrice, threshold, currency);
    ToVndRoundTrip(Abs(p - prevPrice), currency);
  }

  /** The worked cases: a first reading of 2300000, then a fall to 2100000 with threshold 0. */
  lemma ScenarioExamples()
    ensures Decide(Some(2300000), None, 0, "VND") == WatchOutcome(Initial(ToVnd(2300000, "VND")), Some(2300000))
    ensures var o := Decide(Some(2100000), Some(2300000), 0, "VND");
            o.alert.Update? && o.alert.down && o.alert.difference == ToVnd(200000, "VND") &&
            o.saved == Some(2100000)
  {
  }

  /** `2300000` is shown as `2.300.000 VND`, and the scanned token `2.300.000` reads back as 2300000. */
  lemma FormattingExample()
    ensures ToVnd(2300000, "VND") == "2.300.000 VND"
    ensures TokenValue("2.300.000") == 2300000
  {
    DecimalExample();
    GroupedExample();
    ToVndOfNat(2300000, "VND");
    TokenValueOfGrouped(2300000);
  }

  lemma DecimalExample()
    ensures Decimal(2300000) == "2300000"
  {
    assert Decimal(2) == "2";
    assert Decimal(23) == "23";
    assert Decimal(230) == "230";
    assert Decimal(2300) == "2300";
    assert Decimal(23000) == "23000";
    assert Decimal(230000) == "230000";
  }

  lemma GroupedExample()
    ensures Grouped("2300000") == "2.300.000"
  {
    assert Grouped("2") == "2";
    assert Grouped("2300") == "2.300";
  }

  /**
   * One run: read the price from the rendered page, then decide. State is
   * saved exactly when a price was read, and then holds that price.
   */
  method Watch(html: string, prev: Option<int>, threshold: int, currency: string) returns (o: WatchOutcome)
    ensures o == Decide(ExtractPrice(html), prev, threshold, currency)
    ensures o.saved.Some? ==> o.saved.value >= Floor
  {
    var price := FetchMinPrice(html);
    o := Decide(price, prev, threshold, currency);
  }
}
