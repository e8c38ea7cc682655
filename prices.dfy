/**
 * The price pipeline of `main`: the sixteen candidate (rate, currency)
 * pairs, the positivity filter, the abort on an empty result, and the
 * conversion of each surviving rate to a fixed-point `CurrencyPrice`
 * wrapped in an `UpdatePrices` message.
 */
module PriceUpdate {
  import opened Wrappers
  import opened Fiat
  import opened Yadio

  type Candidate = (real, FiatCurrency)

  /** The candidate list: each field of the snapshot with its currency, in declaration order. */
  function AllPrices(price: Prices): (r: seq<Candidate>)
    ensures |r| == Count
    ensures forall i :: 0 <= i < |r| ==> r[i] == (price.Rate(Declared[i]), Declared[i])
  {
    [ (price.ARS, ARS), (price.BRL, BRL), (price.CAD, CAD), (price.CLP, CLP),
      (price.COP, COP), (price.EUR, EUR), (price.GBP, GBP), (price.IDR, IDR),
      (price.MXN, MXN), (price.MYR, MYR), (price.NGN, NGN), (price.PHP, PHP),
      (price.SGD, SGD), (price.THB, THB), (price.VES, VES), (price.VND, VND) ]
  }

  /** The currencies of `xs` appear in strictly increasing declaration order (so at most once each). */
  ghost predicate InDeclaredOrder(xs: seq<Candidate>)
  {
    forall i, j :: 0 <= i < j < |xs| ==> Index(xs[i].1) < Index(xs[j].1)
  }

  ghost predicate IsSubsequence<T>(a: seq<T>, b: seq<T>)
    decreases |b|
  {
    if a == [] then true
    else if b == [] then false
    else (a[0] == b[0] && IsSubsequence(a[1..], b[1..])) || IsSubsequence(a, b[1..])
  }

  /** The filter of `main`: a pair is dropped when its rate is `<= 0.0` and kept otherwise. */
  function ValidPrices(all: seq<Candidate>): (r: seq<Candidate>)
    ensures |r| <= |all|
    ensures forall i :: 0 <= i < |r| ==> r[i].0 > 0.0
  {
    if all == [] then []
    else if all[0].0 <= 0.0 then ValidPrices(all[1..])
    else [all[0]] + ValidPrices(all[1..])
  }

  /** A pair survives exactly when it is a candidate whose rate is not `<= 0.0`. */
  lemma {:induction false} ValidPricesMembers(all: seq<Candidate>)
    ensures forall x :: x in ValidPrices(all) <==> x in all && x.0 > 0.0
  {
    if all != [] {
      ValidPricesMembers(all[1..]);
      assert all == [all[0]] + all[1..];
    }
  }

  lemma {:induction false} ValidPricesIsSubsequence(all: seq<Candidate>)
    ensures IsSubsequence(ValidPrices(all), all)
  {
    if all != [] {
      ValidPricesIsSubsequence(all[1..]);
      var rest := ValidPrices(all[1..]);
      if all[0].0 <= 0.0 {
        if rest != [] {
          assert IsSubsequence(rest, all[1..]);
        }
      } else {
        assert ([all[0]] + rest)[1..] == rest;
      }
    }
  }

  lemma {:induction false} ValidPricesKeepsOrder(all: seq<Candidate>)
    requires InDeclaredOrder(all)
    ensures InDeclaredOrder(ValidPrices(all))
  {
    if all != [] {
      var tail := all[1..];
      assert InDeclaredOrder(tail) by {
        forall i, j | 0 <= i < j < |tail| ensures Index(tail[i].1) < Index(tail[j].1) {
          assert tail[i] == all[i + 1] && tail[j] == all[j + 1];
        }
      }
      ValidPricesKeepsOrder(tail);
      var rest := ValidPrices(tail);
      ValidPricesMembers(tail);
      if all[0].0 > 0.0 {
        forall y | y in rest ensures Index(all[0].1) < Index(y.1) {
          var k :| 0 <= k < |tail| && tail[k] == y;
          assert all[k + 1] == y;
        }
        var r := [all[0]] + rest;
        forall i, j | 0 <= i < j < |r| ensures Index(r[i].1) < Index(r[j].1) {
          assert r[j] == rest[j - 1];
          if i > 0 {
            assert r[i] == rest[i - 1];
          } else {
            assert r[j] in rest;
          }
        }
      }
    }
  }

  lemma AllPricesInOrder(price: Prices)
    ensures InDeclaredOrder(AllPrices(price))
  {
  }

  /**
   * What survives the filter for a snapshot: exactly the currencies with a
   * strictly positive rate, each with its own rate, once, in declaration order.
   */
  lemma ValidPricesOfSnapshot(price: Prices)
    ensures var v := ValidPrices(AllPrices(price));
            && |v| <= Count
            && InDeclaredOrder(v)
            && (forall x :: x in v ==> x == (price.Rate(x.1), x.1) && x.0 > 0.0)
            && (forall c :: (price.Rate(c), c) in v <==> price.Rate(c) > 0.0)
  {
    var all := AllPrices(price);
    AllPricesInOrder(price);
    ValidPricesKeepsOrder(all);
    forall c ensures Declared[Index(c)] == c { IndexOfDeclared(c); }
    ValidPricesIsSubsequence(all);
    ValidPricesMembers(all);
    forall x | x in all ensures x == (price.Rate(x.1), x.1) {
      var i :| 0 <= i < |all| && all[i] == x;
    }
    forall c ensures (price.Rate(c), c) in all {
      IndexOfDeclared(c);
      assert all[Index(c)] == (price.Rate(c), c);
    }
  }

  /** The unit test's list: ARS and BRL at zero, EUR, GBP and SGD positive. */
  lemma FilteringExample()
    ensures ValidPrices([(0.0, ARS), (0.0, BRL), (0.85, EUR), (0.75, GBP), (1.30, SGD)])
            == [(0.85, EUR), (0.75, GBP), (1.30, SGD)]
  {
  }

  // ---------------------------------------------------------------------
  // Fixed point: `(rate * 100.0).round() as u64`.
  // ---------------------------------------------------------------------

  const U64Max: int := 0xFFFF_FFFF_FFFF_FFFF

  /** `f64::round`: the nearest integer, halves away from zero. */
  function Round(x: real): (n: int)
    ensures x >= 0.0 ==> n as real - 0.5 <= x < n as real + 0.5
    ensures x < 0.0 ==> n as real - 0.5 < x <= n as real + 0.5
  {
    if x >= 0.0 then (x + 0.5).Floor else -((-x + 0.5).Floor)
  }

  /** The saturating cast of an integral `f64` to `u64`. */
  function SaturatingU64(v: int): (n: nat)
    ensures n <= U64Max
    ensures 0 <= v <= U64Max ==> n == v
    ensures v < 0 ==> n == 0
    ensures v > U64Max ==> n == U64Max
  {
    if v < 0 then 0 else if v > U64Max then U64Max else v
  }

  /** The fixed-point price: the rate in hundredths, rounded half away from zero, cast to `u64`. */
  function UsdPrice(rate: real): (n: nat)
    ensures n <= U64Max
    ensures 0.0 <= rate * 100.0 < U64Max as real + 0.5 ==>
              n as real - 0.5 <= rate * 100.0 < n as real + 0.5
    ensures rate <= 0.0 ==> n == 0
    ensures rate * 100.0 >= U64Max as real + 0.5 ==> n == U64Max
  {
    SaturatingU64(Round(rate * 100.0))
  }

  lemma UsdPriceMonotone(a: real, b: real)
    requires a <= b
    ensures UsdPrice(a) <= UsdPrice(b)
  {
  }

  /** Rounding examples: 0.862166 gives 86, a tie such as 1.295 goes up to 130. */
  lemma UsdPriceExamples()
    ensures UsdPrice(0.862166) == 86
    ensures UsdPrice(1.295) == 130
    ensures UsdPrice(0.85) == 85 && UsdPrice(0.75) == 75 && UsdPrice(1.30) == 130
    ensures UsdPrice(0.746083) == 75 && UsdPrice(1.290295) == 129
  {
  }

  /**
   * The filter looks at the rate, not at the price it becomes: a positive
   * rate below half a hundredth survives and is posted as 0.
   */
  lemma SmallPositiveRatePostsZero(rate: real)
    requires 0.0 < rate < 0.005
    ensures ValidPrices([(rate, EUR)]) == [(rate, EUR)]
    ensures UsdPrice(rate) == 0
  {
  }

  lemma PositivePriceFromHalfCent(rate: real)
    requires rate >= 0.005
    ensures UsdPrice(rate) >= 1
  {
  }

  // ---------------------------------------------------------------------
  // The conversion loop and the message.
  // ---------------------------------------------------------------------

  /** `CurrencyPrice` of the price contract; `updated_at` is a placeholder set to 0. */
  datatype CurrencyPrice = CurrencyPrice(currency: FiatCurrency, usdPrice: nat, updatedAt: nat)

  /** The price contract's execute message; only the variant sent here is modelled. */
  datatype ExecuteMsg = UpdatePrices(prices: seq<CurrencyPrice>)

  /** The list the conversion loop builds, one push per surviving pair. */
  function CurrencyPrices(valid: seq<Candidate>): (r: seq<CurrencyPrice>)
    ensures |r| == |valid|
    ensures forall i :: 0 <= i < |r| ==>
              r[i].currency == valid[i].1 && r[i].usdPrice == UsdPrice(valid[i].0) && r[i].updatedAt == 0
  {
    if valid == [] then []
    else
      var last := valid[|valid| - 1];
      CurrencyPrices(valid[..|valid| - 1]) + [CurrencyPrice(last.1, UsdPrice(last.0), 0)]
  }

  /** The `for_each` loop of `main` that pushes one `CurrencyPrice` per valid pair. */
  method ConvertPrices(valid: seq<Candidate>) returns (currencyPrices: seq<CurrencyPrice>)
    ensures currencyPrices == CurrencyPrices(valid)
  {
    currencyPrices := [];
    for i := 0 to |valid|
      invariant currencyPrices == CurrencyPrices(valid[..i])
    {
      var usdPrice := UsdPrice(valid[i].0);
      var fiatCurrency := valid[i].1;
      currencyPrices := currencyPrices + [CurrencyPrice(fiatCurrency, usdPrice, 0)];
      assert valid[..i + 1][..i] == valid[..i];
    }
    assert valid[..|valid|] == valid;
  }

  /** The outcome of the price steps: exit with a code, or go on with this message. */
  datatype PriceStep = Abort(exitCode: int) | Proceed(msg: ExecuteMsg)

  /** The pairs that survive the filter for the fetched snapshot (or its zero fallback). */
  function Survivors(fetched: Result<Prices, Error>): seq<Candidate>
  {
    ValidPrices(AllPrices(PricesOrDefault(fetched)))
  }

  /** Steps one to five: candidates, filter, abort when empty, convert, wrap. */
  function PricePipeline(fetched: Result<Prices, Error>): (r: PriceStep)
    ensures r.Abort? <==> Survivors(fetched) == []
    ensures r.Abort? ==> r.exitCode == 1
    ensures r.Proceed? ==>
              && |r.msg.prices| == |Survivors(fetched)|
              && forall i :: 0 <= i < |r.msg.prices| ==>
                   r.msg.prices[i] == CurrencyPrice(Survivors(fetched)[i].1, UsdPrice(Survivors(fetched)[i].0), 0)
  {
    var valid := Survivors(fetched);
    if valid == [] then Abort(1)
    else Proceed(UpdatePrices(CurrencyPrices(valid)))
  }

  /** The run aborts with exit code 1 exactly when no rate is strictly positive. */
  lemma AbortIffNoPositiveRate(fetched: Result<Prices, Error>)
    ensures PricePipeline(fetched).Abort? <==> forall c :: PricesOrDefault(fetched).Rate(c) <= 0.0
    ensures PricePipeline(fetched).Abort? ==> PricePipeline(fetched).exitCode == 1
    ensures PricePipeline(fetched).Proceed? ==> PricePipeline(fetched).msg.prices != []
  {
    var price := PricesOrDefault(fetched);
    ValidPricesOfSnapshot(price);
    var v := ValidPrices(AllPrices(price));
    if v != [] {
      assert v[0] in v;
      assert price.Rate(v[0].1) > 0.0;
    } else {
      forall c ensures price.Rate(c) <= 0.0 {
        assert (price.Rate(c), c) !in v;
      }
    }
  }

  /** A failed fetch falls back to the zero snapshot and therefore always aborts. */
  lemma FeedFailureAborts(fetched: Result<Prices, Error>)
    requires fetched.Failure?
    ensures PricePipeline(fetched) == Abort(1)
  {
    AbortIffNoPositiveRate(fetched);
  }

  /**
   * What is posted: one entry per surviving pair, in declaration order, each
   * for a currency with a strictly positive rate, priced from that rate,
   * with `updated_at` 0.
   */
  lemma PostedPrices(fetched: Result<Prices, Error>)
    requires PricePipeline(fetched).Proceed?
    ensures var price := PricesOrDefault(fetched);
            var posted := PricePipeline(fetched).msg.prices;
            && 1 <= |posted| <= Count
            && (forall i :: 0 <= i < |posted| ==>
                  && price.Rate(posted[i].currency) > 0.0
                  && posted[i].usdPrice == UsdPrice(price.Rate(posted[i].currency))
                  && posted[i].updatedAt == 0)
            && (forall i, j :: 0 <= i < j < |posted| ==>
                  Index(posted[i].currency) < Index(posted[j].currency))
  {
    var price := PricesOrDefault(fetched);
    var v := ValidPrices(AllPrices(price));
    var posted := CurrencyPrices(v);
    ValidPricesOfSnapshot(price);
    forall i | 0 <= i < |posted|
      ensures price.Rate(posted[i].currency) > 0.0
      ensures posted[i].usdPrice == UsdPrice(price.Rate(posted[i].currency))
    {
      assert v[i] in v;
    }
  }

  /** Every currency with a strictly positive rate is posted, and no other. */
  lemma PostedCurrencies(fetched: Result<Prices, Error>, c: FiatCurrency)
    requires PricePipeline(fetched).Proceed?
    ensures var posted := PricePipeline(fetched).msg.prices;
            PricesOrDefault(fetched).Rate(c) > 0.0 <==>
              exists i :: 0 <= i < |posted| && posted[i].currency == c
  {
    var price := PricesOrDefault(fetched);
    var v := ValidPrices(AllPrices(price));
    var posted := CurrencyPrices(v);
    ValidPricesOfSnapshot(price);
    if price.Rate(c) > 0.0 {
      var i :| 0 <= i < |v| && v[i] == (price.Rate(c), c);
      assert posted[i].currency == c;
    }
    if exists i :: 0 <= i < |posted| && posted[i].currency == c {
      var i :| 0 <= i < |posted| && posted[i].currency == c;
      assert v[i] in v;
    }
  }

  /** Dropping the head of a list in declaration order leaves a list in declaration order without it. */
  lemma TailInOrder(xs: seq<Candidate>)
    requires InDeclaredOrder(xs) && xs != []
    ensures InDeclaredOrder(xs[1..])
    ensures forall x :: x in xs[1..] <==> x in xs && x != xs[0]
  {
    var tail := xs[1..];
    forall i, j | 0 <= i < j < |tail| ensures Index(tail[i].1) < Index(tail[j].1) {
      assert tail[i] == xs[i + 1] && tail[j] == xs[j + 1];
    }
    forall x | x in xs && x != xs[0] ensures x in tail {
      var k :| 0 <= k < |xs| && xs[k] == x;
      assert tail[k - 1] == x;
    }
    forall x | x in tail ensures x != xs[0] {
      var k :| 0 <= k < |tail| && tail[k] == x;
      assert xs[k + 1] == x;
    }
  }

  /** A list in declaration order is determined by its elements. */
  lemma {:induction false} OrderedListsWithSameElements(a: seq<Candidate>, b: seq<Candidate>)
    requires InDeclaredOrder(a) && InDeclaredOrder(b)
    requires forall x :: x in a <==> x in b
    ensures a == b
    decreases |a|
  {
    assert a == [] || a[0] in a;
    assert b == [] || b[0] in b;
    if a != [] {
      var i :| 0 <= i < |b| && b[i] == a[0];
      var j :| 0 <= j < |a| && a[j] == b[0];
      assert Index(a[0].1) <= Index(a[j].1);
      assert Index(b[0].1) <= Index(b[i].1);
      IndexOfDeclared(a[0].1);
      IndexOfDeclared(b[0].1);
      assert a[0] == b[0];
      TailInOrder(a);
      TailInOrder(b);
      OrderedListsWithSameElements(a[1..], b[1..]);
      assert a == [a[0]] + a[1..] && b == [b[0]] + b[1..];
    }
  }

  /**
   * The snapshot of the unit test: EUR 0.85, GBP 0.75, SGD 1.30, every
   * other rate 0 (a default with three fields set).
   */
  ghost predicate IsScenario(price: Prices)
  {
    && price.EUR == 0.85 && price.GBP == 0.75 && price.SGD == 1.30
    && forall c :: c != EUR && c != GBP && c != SGD ==> price.Rate(c) == 0.0
  }

  lemma ScenarioOfDefault()
    ensures IsScenario(Default().(EUR := 0.85, GBP := 0.75, SGD := 1.30))
  {
  }

  /** The scenario's snapshot filters to EUR, GBP and SGD, in that order. */
  lemma ScenarioValidPrices(price: Prices)
    requires IsScenario(price)
    ensures ValidPrices(AllPrices(price)) == [(0.85, EUR), (0.75, GBP), (1.30, SGD)]
  {
    var v := ValidPrices(AllPrices(price));
    var expected: seq<Candidate> := [(0.85, EUR), (0.75, GBP), (1.30, SGD)];
    ValidPricesOfSnapshot(price);
    forall x | x in v ensures x in expected {
      assert x == (price.Rate(x.1), x.1) && price.Rate(x.1) > 0.0;
    }
    forall x | x in expected ensures x in v {
      assert price.Rate(x.1) > 0.0 && x == (price.Rate(x.1), x.1);
    }
    assert InDeclaredOrder(expected);
    OrderedListsWithSameElements(v, expected);
  }

  /** The test scenario end to end: the message carries EUR 85, GBP 75 and SGD 130, nothing for ARS or BRL. */
  lemma EndToEndExample(price: Prices)
    requires IsScenario(price)
    ensures PricePipeline(Success(price))
            == Proceed(UpdatePrices([CurrencyPrice(EUR, 85, 0), CurrencyPrice(GBP, 75, 0), CurrencyPrice(SGD, 130, 0)]))
  {
    ScenarioValidPrices(price);
    UsdPriceExamples();
    var posted := CurrencyPrices([(0.85, EUR), (0.75, GBP), (1.30, SGD)]);
    assert posted[0] == CurrencyPrice(EUR, 85, 0);
    assert posted[1] == CurrencyPrice(GBP, 75, 0);
    assert posted[2] == CurrencyPrice(SGD, 130, 0);
  }
}
