/**
 * `to_vnd`: Python's `f"{x:,}"` (thousands grouped with `,`), every `,`
 * replaced by `.`, then a space and the currency code. Both scripts define
 * the same helper.
 */
module Money {
  import opened Digits

  /** Inserts `.` between groups of three digits counted from the right. */
  function Grouped(ds: string): (g: string)
    ensures |ds| <= |g|
    ensures |ds| > 3 ==> |ds| < |g|
    decreases |ds|
  {
    if |ds| <= 3 then ds else Grouped(ds[..|ds| - 3]) + "." + ds[|ds| - 3..]
  }

  /** The integer with its thousands grouped, and a leading `-` when negative. */
  function Amount(x: int): (a: string)
    ensures |a| >= 1 && (a[0] == '-' <==> x < 0)
  {
    GroupedStartsWithDigit(Decimal(if x < 0 then -x else x));
    if x < 0 then "-" + Grouped(Decimal(-x)) else Grouped(Decimal(x))
  }

  function ToVnd(x: int, currency: string): (r: string)
    ensures |r| >= |currency| + 2
    ensures r[|r| - |currency| - 1..] == " " + currency
    ensures r[0] == '-' <==> x < 0
  {
    Amount(x) + " " + currency
  }

  /** Deletes every `.` from `s`. */
  function RemoveDots(s: string): string
    decreases |s|
  {
    if s == [] then []
    else if s[|s| - 1] == '.' then RemoveDots(s[..|s| - 1])
    else RemoveDots(s[..|s| - 1]) + [s[|s| - 1]]
  }

  lemma {:induction false} RemoveDotsAppend(a: string, b: string)
    ensures RemoveDots(a + b) == RemoveDots(a) + RemoveDots(b)
    decreases |b|
  {
    if b == [] {
      assert a + b == a;
    } else {
      assert (a + b)[..|a + b| - 1] == a + b[..|b| - 1];
      RemoveDotsAppend(a, b[..|b| - 1]);
    }
  }

  lemma {:induction false} RemoveDotsOfDigits(ds: string)
    requires AllDigits(ds)
    ensures RemoveDots(ds) == ds
    decreases |ds|
  {
    if ds != [] {
      RemoveDotsOfDigits(ds[..|ds| - 1]);
    }
  }

  /** Grouping keeps the leading digit in front. */
  lemma {:induction false} GroupedStartsWithDigit(ds: string)
    requires |ds| >= 1 && AllDigits(ds)
    ensures |Grouped(ds)| >= 1 && Grouped(ds)[0] == ds[0]
    decreases |ds|
  {
    if |ds| > 3 {
      GroupedStartsWithDigit(ds[..|ds| - 3]);
    }
  }

  /** Deleting the separators from a grouped digit string gives the digits back. */
  lemma {:induction false} UngroupGrouped(ds: string)
    requires AllDigits(ds)
    ensures RemoveDots(Grouped(ds)) == ds
    decreases |ds|
  {
    if |ds| <= 3 {
      RemoveDotsOfDigits(ds);
    } else {
      var head, tail := ds[..|ds| - 3], ds[|ds| - 3..];
      assert Grouped(ds) == Grouped(head) + "." + tail;
      UngroupGrouped(head);
      RemoveDotsAppend(Grouped(head) + ".", tail);
      RemoveDotsAppend(Grouped(head), ".");
      assert RemoveDots(".") == [];
      RemoveDotsOfDigits(tail);
      assert head + tail == ds;
    }
  }

  /**
   * Where the separators sit: a grouped string of n digits has n + (n - 1) / 3
   * characters, and position i holds a `.` exactly when i > 0 and the number
   * of characters from i to the end is a multiple of four (one dot, three digits).
   */
  lemma {:induction false} GroupedDotPositions(ds: string)
    requires |ds| >= 1 && AllDigits(ds)
    ensures |Grouped(ds)| == |ds| + (|ds| - 1) / 3
    ensures forall i :: 0 <= i < |Grouped(ds)| ==>
              (Grouped(ds)[i] == '.' <==> 0 < i && (|Grouped(ds)| - i) % 4 == 0)
    decreases |ds|
  {
    if |ds| > 3 {
      var head, tail := ds[..|ds| - 3], ds[|ds| - 3..];
      GroupedDotPositions(head);
      var g := Grouped(ds);
      assert g == Grouped(head) + "." + tail;
      forall i | 0 <= i < |g|
        ensures g[i] == '.' <==> 0 < i && (|g| - i) % 4 == 0
      {
        DotsAfterOneMoreGroup(Grouped(head), tail, i);
      }
    }
  }

  /** Appending `.` and three digits keeps every dot a multiple of four characters from the end. */
  lemma DotsAfterOneMoreGroup(gh: string, tail: string, i: nat)
    requires |tail| == 3 && AllDigits(tail) && |gh| >= 1
    requires forall k :: 0 <= k < |gh| ==> (gh[k] == '.' <==> 0 < k && (|gh| - k) % 4 == 0)
    requires i < |gh| + 4
    ensures var g := gh + "." + tail;
            g[i] == '.' <==> 0 < i && (|g| - i) % 4 == 0
  {
    var g := gh + "." + tail;
    if i < |gh| {
      assert g[i] == gh[i];
      assert (|g| - i) % 4 == (|gh| - i) % 4;
    } else if i > |gh| {
      assert g[i] == tail[i - |gh| - 1];
    }
  }

  /** Grouping adds nothing but dots. */
  lemma {:induction false} GroupedDigitsAndDots(ds: string)
    requires AllDigits(ds)
    ensures forall i :: 0 <= i < |Grouped(ds)| ==> Grouped(ds)[i] == '.' || IsDigit(Grouped(ds)[i])
    decreases |ds|
  {
    if |ds| > 3 {
      var head, tail := ds[..|ds| - 3], ds[|ds| - 3..];
      GroupedDigitsAndDots(head);
      assert Grouped(ds) == Grouped(head) + "." + tail;
    }
  }

  /** For a non-negative amount the text is the grouped digits, a space and the currency. */
  lemma ToVndOfNat(x: nat, currency: string)
    ensures ToVnd(x, currency) == Grouped(Decimal(x)) + " " + currency
  {
    assert Amount(x) == Grouped(Decimal(x));
  }

  /**
   * `r` shows the amount `x`: it ends with a space and the currency, and the
   * part before that, without its dots, is the decimal notation of `x` and
   * reads back as `x`.
   */
  predicate ShowsAmount(r: string, x: nat, currency: string) {
    var n := |r| - |currency| - 1;
    0 < n && r[n..] == " " + currency && ReadsBackAs(r[..n], x)
  }

  /** Without its dots, `g` is the decimal notation of `x` and reads back as `x`. */
  predicate ReadsBackAs(g: string, x: nat) {
    RemoveDots(g) == Decimal(x) && Value(RemoveDots(g)) == x
  }

  /**
   * For a non-negative amount, cutting off the currency suffix and deleting
   * the dots leaves the decimal notation of the amount, which reads back as it.
   */
  lemma ToVndRoundTrip(x: nat, currency: string)
    ensures ShowsAmount(ToVnd(x, currency), x, currency)
  {
    ToVndOfNat(x, currency);
    GroupedReadsBack(x);
    ShowsAmountIntro(ToVnd(x, currency), Grouped(Decimal(x)), x, currency);
  }

  lemma ShowsAmountIntro(r: string, g: string, x: nat, currency: string)
    requires r == g + " " + currency && |g| > 0 && ReadsBackAs(g, x)
    ensures ShowsAmount(r, x, currency)
  {
    SuffixedParts(g, currency);
  }

  lemma GroupedReadsBack(x: nat)
    ensures |Grouped(Decimal(x))| > 0 && ReadsBackAs(Grouped(Decimal(x)), x)
  {
    UngroupGrouped(Decimal(x));
    ValueOfDecimal(x);
  }

  /** The parts of `g + " " + currency` that ShowsAmount looks at. */
  lemma SuffixedParts(g: string, currency: string)
    ensures var r := g + " " + currency;
            var n := |r| - |currency| - 1;
            n == |g| && r[..n] == g && r[n..] == " " + currency
  {
    var r := g + " " + currency;
    assert r[..|g|] == g;
  }
}
