/**
 * The price extractor shared by both scripts: strip every non-digit from
 * each token, keep the values of at least 100000, return the least of them
 * or None.
 */
module PriceExtraction {
  import opened Wrappers
  import opened Digits
  import opened TokenScan
  import Money

  /** Values below this are taken for page noise (dates, counts, ids). */
  const Floor := 100000

  /** `re.sub(r"[^\d]", "", s)`: the digits of `s`, in order. */
  function KeepDigits(s: string): (r: string)
    ensures AllDigits(r)
    ensures |r| <= |s|
    ensures AllDigits(s) ==> r == s
    decreases |s|
  {
    if s == [] then []
    else if IsDigit(s[|s| - 1]) then KeepDigits(s[..|s| - 1]) + [s[|s| - 1]]
    else KeepDigits(s[..|s| - 1])
  }

  /** Stripping works piece by piece: what `a + b` keeps is what `a` keeps, then what `b` keeps. */
  lemma {:induction false} KeepDigitsAppend(a: string, b: string)
    ensures KeepDigits(a + b) == KeepDigits(a) + KeepDigits(b)
    decreases |b|
  {
    if b == [] {
      assert a + b == a;
    } else {
      assert (a + b)[..|a + b| - 1] == a + b[..|b| - 1];
      KeepDigitsAppend(a, b[..|b| - 1]);
    }
  }

  /** A non-digit, such as a thousands separator, contributes nothing. */
  lemma KeepDigitsDropsNonDigit(c: char)
    requires !IsDigit(c)
    ensures KeepDigits([c]) == []
  {
    assert [c][..0] == [];
  }

  /** `int(re.sub(r"[^\d]", "", s))` */
  function TokenValue(t: string): (v: nat)
    ensures AllDigits(t) ==> v == Value(t)
  {
    Value(KeepDigits(t))
  }

  /** Stripping the separators from grouped digits gives the digits back. */
  lemma {:induction false} KeepDigitsOfGrouped(ds: string)
    requires AllDigits(ds)
    ensures KeepDigits(Money.Grouped(ds)) == ds
    decreases |ds|
  {
    if |ds| > 3 {
      var head, tail := ds[..|ds| - 3], ds[|ds| - 3..];
      var g := Money.Grouped(head);
      assert Money.Grouped(ds) == g + "." + tail;
      KeepDigitsOfGrouped(head);
      KeepDigitsAroundDot(g, tail);
      assert head + tail == ds;
    }
  }

  /** Stripping `g + "." + tail`, with `tail` all digits, keeps what `g` keeps, then `tail`. */
  lemma KeepDigitsAroundDot(g: string, tail: string)
    requires AllDigits(tail)
    ensures KeepDigits(g + "." + tail) == KeepDigits(g) + tail
  {
    KeepDigitsAppend(g + ".", tail);
    KeepDigitsAppend(g, ".");
    KeepDigitsDropsNonDigit('.');
  }

  /** A price written with its thousands grouped, as `to_vnd` writes it, reads back as that price. */
  lemma TokenValueOfGrouped(x: nat)
    ensures TokenValue(Money.Grouped(Decimal(x))) == x
  {
    KeepDigitsOfGrouped(Decimal(x));
    ValueOfDecimal(x);
  }

  /** The values of the tokens that reach the floor, in token order. */
  function Plausible(tokens: seq<string>): (vs: seq<int>)
    ensures forall v :: v in vs <==> v >= Floor && exists t :: t in tokens && TokenValue(t) == v
    ensures forall t :: t in tokens && TokenValue(t) >= Floor ==> TokenValue(t) in vs
    decreases |tokens|
  {
    if tokens == [] then []
    else
      var rest := Plausible(tokens[..|tokens| - 1]);
      var last := tokens[|tokens| - 1];
      assert tokens == tokens[..|tokens| - 1] + [last];
      if TokenValue(last) >= Floor then rest + [TokenValue(last)] else rest
  }

  /** Python's `min` of a non-empty list. */
  function Least(xs: seq<int>): (m: int)
    requires |xs| > 0
    ensures m in xs && forall x :: x in xs ==> m <= x
    decreases |xs|
  {
    if |xs| == 1 then xs[0]
    else
      var rest := Least(xs[1..]);
      assert xs == [xs[0]] + xs[1..];
      if xs[0] <= rest then xs[0] else rest
  }

  /**
   * The price read from a rendered page: the least token value of at least
   * Floor, or None exactly when no token reaches the floor.
   */
  function ExtractPrice(html: string): (r: Option<int>)
    ensures r.None? <==> forall t :: t in FindAll(html, 0) ==> TokenValue(t) < Floor
    ensures r.Some? ==>
              r.value >= Floor &&
              (exists t :: t in FindAll(html, 0) && TokenValue(t) == r.value) &&
              forall t :: t in FindAll(html, 0) && TokenValue(t) >= Floor ==> r.value <= TokenValue(t)
  {
    var vs := Plausible(FindAll(html, 0));
    if vs == [] then None
    else
      assert vs[0] in vs;
      Some(Least(vs))
  }

  /** One more token adds its value exactly when it reaches the floor. */
  lemma PlausibleStep(tokens: seq<string>, i: nat)
    requires i < |tokens|
    ensures Plausible(tokens[..i + 1]) ==
            Plausible(tokens[..i]) + (if TokenValue(tokens[i]) >= Floor then [TokenValue(tokens[i])] else [])
  {
    assert tokens[..i + 1][..i] == tokens[..i];
  }

  /** The extraction loop: collect the plausible values, then take their minimum. */
  method FetchMinPrice(html: string) returns (price: Option<int>)
    ensures price == ExtractPrice(html)
  {
    var nums := FindAll(html, 0);
    var prices: seq<int> := [];
    for i := 0 to |nums|
      invariant prices == Plausible(nums[..i])
    {
      PlausibleStep(nums, i);
      var v := TokenValue(nums[i]);
      if v >= Floor {
        prices := prices + [v];
      }
    }
    assert nums[..|nums|] == nums;
    price := if |prices| > 0 then Some(Least(prices)) else None;
  }

  /** A number of at least 1000 has at least four digits. */
  lemma DecimalOfThousands(x: nat)
    requires x >= 1000
    ensures |Decimal(x)| >= 4
  {
    DecimalOneLonger(x);
    DecimalOneLonger(x / 10);
    DecimalOneLonger(x / 10 / 10);
  }

  lemma DecimalOneLonger(n: nat)
    requires n >= 10
    ensures |Decimal(n)| == |Decimal(n / 10)| + 1
  {
  }

  /**
   * The scan over an amount written by `to_vnd` (at least 1000, so grouped)
   * with a currency code free of digits finds exactly one token: the grouped
   * amount.
   */
  lemma FindAllOfToVnd(x: nat, currency: string)
    requires x >= 1000
    requires forall i :: 0 <= i < |currency| ==> !IsDigit(currency[i])
    ensures FindAll(Money.ToVnd(x, currency), 0) == [Money.Grouped(Decimal(x))]
  {
    var ds := Decimal(x);
    DecimalOfThousands(x);
    Money.GroupedDotPositions(ds);
    Money.GroupedDigitsAndDots(ds);
    Money.ToVndOfNat(x, currency);
    var g := Money.Grouped(ds);
    var s := g + " " + currency;
    assert |g| % 4 != 0;
    assert s[..|g|] == g;
    forall i | |g| <= i < |s|
      ensures !IsDigit(s[i])
    {
      if i > |g| {
        assert s[i] == currency[i - |g| - 1];
      }
    }
    FindAllOfDottedNumber(s, |g|);
  }

  /**
   * Reading back a price: a page that shows one amount of at least 100000 as
   * `to_vnd` writes it, with a currency code free of digits, yields that amount.
   */
  lemma ExtractPriceOfToVnd(x: nat, currency: string)
    requires x >= Floor
    requires forall i :: 0 <= i < |currency| ==> !IsDigit(currency[i])
    ensures ExtractPrice(Money.ToVnd(x, currency)) == Some(x)
  {
    FindAllOfToVnd(x, currency);
    TokenValueOfGrouped(x);
    var ts := FindAll(Money.ToVnd(x, currency), 0);
    assert ts == [Money.Grouped(Decimal(x))];
    assert Money.Grouped(Decimal(x)) in ts;
  }
}
