/**
 * Comparing a fresh date -> price snapshot with the previous one under the
 * drop-threshold rule, and the snapshot entries both scripts work with.
 */
module ChangeDetection {
  import opened Wrappers

  /** One `date -> price` item of a snapshot, the date an ISO string. */
  datatype Entry = Entry(date: string, price: int)

  /** `(k, oldp, newp)`; `oldPrice` is None for a date not seen before. */
  datatype Change = Change(date: string, oldPrice: Option<int>, newPrice: int)

  /** A dictionary's items: no date occurs twice. */
  predicate DistinctDates(results: seq<Entry>) {
    forall i, j :: 0 <= i < j < |results| ==> results[i].date != results[j].date
  }

  /** For a date seen before: the price moved, and either every move counts or it fell by at least the threshold. */
  predicate Reportable(oldp: int, newp: int, threshold: int): (b: bool)
    ensures b ==> newp != oldp
    ensures threshold > 0 && newp > oldp ==> !b
  {
    newp != oldp && (threshold == 0 || newp - oldp <= -threshold)
  }

  /** The record, if any, that one item of the new snapshot yields. */
  function ChangeFor(e: Entry, prev: map<string, int>, threshold: int): (c: Option<Change>)
    ensures c.Some? ==> c.value.date == e.date && c.value.newPrice == e.price
    ensures c.Some? ==> c.value.oldPrice == (if e.date in prev then Some(prev[e.date]) else None)
    ensures c.None? <==> e.date in prev && !Reportable(prev[e.date], e.price, threshold)
  {
    if e.date !in prev then Some(Change(e.date, None, e.price))
    else if Reportable(prev[e.date], e.price, threshold) then Some(Change(e.date, Some(prev[e.date]), e.price))
    else None
  }

  /** The change records for the new snapshot's items, in their order. */
  function Changes(results: seq<Entry>, prev: map<string, int>, threshold: int): (cs: seq<Change>)
    ensures |cs| <= |results|
    decreases |results|
  {
    if results == [] then []
    else
      var rest := Changes(results[..|results| - 1], prev, threshold);
      match ChangeFor(results[|results| - 1], prev, threshold)
      case Some(c) => rest + [c]
      case None => rest
  }

  /** The change-detection loop of the month script. */
  method DetectChanges(results: seq<Entry>, prev: map<string, int>, threshold: int)
    returns (changes: seq<Change>)
    ensures changes == Changes(results, prev, threshold)
  {
    changes := [];
    for i := 0 to |results|
      invariant changes == Changes(results[..i], prev, threshold)
    {
      assert results[..i + 1][..i] == results[..i];
      var k, newp := results[i].date, results[i].price;
      if k !in prev {
        changes := changes + [Change(k, None, newp)];
      } else {
        var oldp := prev[k];
        if newp != oldp && (threshold == 0 || newp - oldp <= -threshold) {
          changes := changes + [Change(k, Some(oldp), newp)];
        }
      }
    }
    assert results[..|results|] == results;
  }

  /** The records of two runs of items, one after the other, are the records of each in turn. */
  lemma {:induction false} ChangesAppend(a: seq<Entry>, b: seq<Entry>, prev: map<string, int>, threshold: int)
    ensures Changes(a + b, prev, threshold) == Changes(a, prev, threshold) + Changes(b, prev, threshold)
    decreases |b|
  {
    if b == [] {
      assert a + b == a;
    } else {
      var init := b[..|b| - 1];
      assert (a + b)[..|a + b| - 1] == a + init;
      assert (a + b)[|a + b| - 1] == b[|b| - 1];
      ChangesAppend(a, init, prev, threshold);
    }
  }

  /** Every record comes from one item of the new snapshot, and every item's record is there. */
  lemma {:induction false} ChangesAreItemRecords(results: seq<Entry>, prev: map<string, int>, threshold: int)
    ensures forall c :: c in Changes(results, prev, threshold) <==>
              exists i :: 0 <= i < |results| && ChangeFor(results[i], prev, threshold) == Some(c)
    decreases |results|
  {
    if results != [] {
      var init := results[..|results| - 1];
      ChangesAreItemRecords(init, prev, threshold);
      forall c | (exists i :: 0 <= i < |results| && ChangeFor(results[i], prev, threshold) == Some(c))
        ensures c in Changes(results, prev, threshold)
      {
        var i :| 0 <= i < |results| && ChangeFor(results[i], prev, threshold) == Some(c);
        if i < |init| {
          assert ChangeFor(init[i], prev, threshold) == Some(c);
        }
      }
      forall c | c in Changes(results, prev, threshold)
        ensures exists i :: 0 <= i < |results| && ChangeFor(results[i], prev, threshold) == Some(c)
      {
        if c in Changes(init, prev, threshold) {
          var i :| 0 <= i < |init| && ChangeFor(init[i], prev, threshold) == Some(c);
          assert results[i] == init[i];
        } else {
          assert ChangeFor(results[|results| - 1], prev, threshold) == Some(c);
        }
      }
    }
  }

  /** A date the previous snapshot lacks is always recorded as newly seen, whatever the threshold. */
  lemma NewDateAlwaysRecorded(results: seq<Entry>, prev: map<string, int>, threshold: int, i: int)
    requires 0 <= i < |results| && results[i].date !in prev
    ensures Change(results[i].date, None, results[i].price) in Changes(results, prev, threshold)
  {
    ChangesAreItemRecords(results, prev, threshold);
  }

  /**
   * A date seen before gets a record exactly when the threshold rule holds,
   * and that record carries the old and the new price.
   */
  lemma SeenDateRecordedIffReportable(results: seq<Entry>, prev: map<string, int>, threshold: int, i: int)
    requires DistinctDates(results)
    requires 0 <= i < |results| && results[i].date in prev
    ensures (exists c :: c in Changes(results, prev, threshold) && c.date == results[i].date) <==>
            Reportable(prev[results[i].date], results[i].price, threshold)
    ensures forall c :: c in Changes(results, prev, threshold) && c.date == results[i].date ==>
              c == Change(results[i].date, Some(prev[results[i].date]), results[i].price)
  {
    ChangesAreItemRecords(results, prev, threshold);
    var k := results[i].date;
    if Reportable(prev[k], results[i].price, threshold) {
      assert ChangeFor(results[i], prev, threshold).Some?;
    }
    forall c | c in Changes(results, prev, threshold) && c.date == k
      ensures c == Change(k, Some(prev[k]), results[i].price)
    {
      var j :| 0 <= j < |results| && ChangeFor(results[j], prev, threshold) == Some(c);
      assert results[j].date == k;
      assert i == j;
    }
  }

  /** A date only the previous snapshot has yields no record. */
  lemma VanishedDateNotRecorded(results: seq<Entry>, prev: map<string, int>, threshold: int, k: string)
    requires forall i :: 0 <= i < |results| ==> results[i].date != k
    ensures forall c :: c in Changes(results, prev, threshold) ==> c.date != k
  {
    ChangesAreItemRecords(results, prev, threshold);
  }

  /**
   * The threshold rule in its four readings: an unchanged price is never
   * reported; threshold 0 reports every move; a positive threshold reports
   * only drops of at least the threshold, never a rise; a negative threshold
   * reports every drop and every rise of at most its magnitude.
   */
  lemma ThresholdRule(oldp: int, newp: int, threshold: int)
    ensures newp == oldp ==> !Reportable(oldp, newp, threshold)
    ensures threshold == 0 ==> (Reportable(oldp, newp, threshold) <==> newp != oldp)
    ensures threshold > 0 ==> (Reportable(oldp, newp, threshold) <==> oldp - newp >= threshold)
    ensures threshold < 0 ==> (Reportable(oldp, newp, threshold) <==> newp != oldp && newp - oldp <= -threshold)
  {
  }

  /** The worked cases: one million falling to 950000, or rising to 1050000. */
  lemma ThresholdExamples()
    ensures Reportable(1000000, 950000, 0)
    ensures !Reportable(1000000, 950000, 100000)
    ensures Reportable(1000000, 1050000, 0)
    ensures !Reportable(1000000, 1050000, 50000)
  {
  }
}
