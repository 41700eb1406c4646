/**
 * Best-offer selection: every offer of a product is enriched with its
 * estimated shipping and landed total, the enriched list is sorted by total
 * with a stable sort, and its first element is the best offer.
 */
module Selector {
  import opened Wrappers
  import opened Catalogue
  import opened Shipping

  /** An offer together with its shipping fee and landed total (`{...o, ship, total}`). */
  datatype Enriched = Enriched(offer: Offer, ship: int, total: int)

  /** Shipping is estimated with the offer's own price as the subtotal. */
  function Enrich(o: Offer, country: string, zip: Option<string>): (e: Enriched)
    ensures e.offer == o
    ensures e.ship == EstimateShipping(o.merchant, country, o.price, zip)
    ensures 0 <= e.ship && e.total == o.price + e.ship && e.total >= o.price
  {
    var ship := EstimateShipping(o.merchant, country, o.price, zip);
    Enriched(o, ship, o.price + ship)
  }

  /** `offers.map(o => enrich(o))`: a fresh list, one enriched entry per offer, in offer order. */
  function EnrichAll(offers: seq<Offer>, country: string, zip: Option<string>): (r: seq<Enriched>)
    ensures |r| == |offers|
    ensures forall i :: 0 <= i < |offers| ==> r[i] == Enrich(offers[i], country, zip)
  {
    seq(|offers|, i requires 0 <= i < |offers| => Enrich(offers[i], country, zip))
  }

  // ---------------------------------------------------------------------
  // The stable sort by total (Array.prototype.sort with `a.total - b.total`)

  /** Ascending by total. */
  predicate SortedByTotal(s: seq<Enriched>) {
    forall i, j :: 0 <= i < j < |s| ==> s[i].total <= s[j].total
  }

  /**
   * Inserts `x` after every element whose total is at most `x.total`, scanning
   * from the right: the step of a stable insertion sort.
   */
  function InsertByTotal(s: seq<Enriched>, x: Enriched): (r: seq<Enriched>)
    ensures |r| == |s| + 1
    decreases |s|
  {
    if |s| == 0 || s[|s| - 1].total <= x.total then s + [x]
    else InsertByTotal(s[..|s| - 1], x) + [s[|s| - 1]]
  }

  /** Insertion adds exactly `x`. */
  lemma {:induction false} InsertByTotalPermutes(s: seq<Enriched>, x: Enriched)
    ensures multiset(InsertByTotal(s, x)) == multiset(s) + multiset{x}
    decreases |s|
  {
    if |s| > 0 && s[|s| - 1].total > x.total {
      var init := s[..|s| - 1];
      assert s == init + [s[|s| - 1]];
      InsertByTotalPermutes(init, x);
    }
  }

  /** Stable sort by total: `s` with its elements inserted one by one, left to right. */
  function SortByTotal(s: seq<Enriched>): (r: seq<Enriched>)
    ensures |r| == |s|
    decreases |s|
  {
    if |s| == 0 then []
    else InsertByTotal(SortByTotal(s[..|s| - 1]), s[|s| - 1])
  }

  /** The sort is a permutation of its input. */
  lemma {:induction false} SortByTotalPermutes(s: seq<Enriched>)
    ensures multiset(SortByTotal(s)) == multiset(s)
    decreases |s|
  {
    if |s| > 0 {
      var init := s[..|s| - 1];
      assert s == init + [s[|s| - 1]];
      SortByTotalPermutes(init);
      InsertByTotalPermutes(SortByTotal(init), s[|s| - 1]);
    }
  }

  lemma {:induction false} InsertByTotalSorted(s: seq<Enriched>, x: Enriched)
    requires SortedByTotal(s)
    ensures SortedByTotal(InsertByTotal(s, x))
    decreases |s|
  {
    if |s| > 0 && s[|s| - 1].total > x.total {
      var init, last := s[..|s| - 1], s[|s| - 1];
      assert SortedByTotal(init);
      InsertByTotalSorted(init, x);
      InsertByTotalPermutes(init, x);
      var r := InsertByTotal(init, x);
      forall i | 0 <= i < |r| ensures r[i].total <= last.total {
        var y := r[i];
        assert y in multiset(r);
        if y != x {
          assert y in multiset(init);
          var m :| 0 <= m < |init| && init[m] == y;
          assert s[m] == y;
        }
      }
      assert InsertByTotal(s, x) == r + [last];
    }
  }

  /** The sort returns its input in ascending order of total. */
  lemma {:induction false} SortByTotalSorted(s: seq<Enriched>)
    ensures SortedByTotal(SortByTotal(s))
    decreases |s|
  {
    if |s| > 0 {
      SortByTotalSorted(s[..|s| - 1]);
      InsertByTotalSorted(SortByTotal(s[..|s| - 1]), s[|s| - 1]);
    }
  }

  /** The elements of `s` whose total is `t`, in their order in `s`. */
  function WithTotal(s: seq<Enriched>, t: int): (r: seq<Enriched>)
    ensures |r| <= |s|
    decreases |s|
  {
    if |s| == 0 then []
    else WithTotal(s[..|s| - 1], t) + (if s[|s| - 1].total == t then [s[|s| - 1]] else [])
  }

  lemma {:induction false} WithTotalConcat(a: seq<Enriched>, b: seq<Enriched>, t: int)
    ensures WithTotal(a + b, t) == WithTotal(a, t) + WithTotal(b, t)
    decreases |b|
  {
    if |b| == 0 {
      assert a + b == a;
    } else {
      var init := b[..|b| - 1];
      assert (a + b)[..|a + b| - 1] == a + init;
      assert (a + b)[|a + b| - 1] == b[|b| - 1];
      WithTotalConcat(a, init, t);
    }
  }

  lemma WithTotalSingleton(x: Enriched, t: int)
    ensures WithTotal([x], t) == if x.total == t then [x] else []
  {
    assert [x][..0] == [];
  }

  lemma {:induction false} InsertByTotalStable(s: seq<Enriched>, x: Enriched, t: int)
    ensures WithTotal(InsertByTotal(s, x), t) == WithTotal(s, t) + WithTotal([x], t)
    decreases |s|
  {
    if |s| == 0 || s[|s| - 1].total <= x.total {
      WithTotalConcat(s, [x], t);
    } else {
      var init, last := s[..|s| - 1], s[|s| - 1];
      var inserted := InsertByTotal(init, x);
      assert s == init + [last];
      assert InsertByTotal(s, x) == inserted + [last];
      InsertByTotalStable(init, x, t);
      WithTotalConcat(inserted, [last], t);
      WithTotalConcat(init, [last], t);
      WithTotalSingleton(x, t);
      WithTotalSingleton(last, t);
      SwapAroundEmpty(WithTotal(init, t), WithTotal([x], t), WithTotal([last], t));
    }
  }

  /** Two parts of which one is empty can be appended in either order. */
  lemma SwapAroundEmpty(a: seq<Enriched>, b: seq<Enriched>, c: seq<Enriched>)
    requires b == [] || c == []
    ensures a + b + c == a + c + b
  {
    if b == [] {
      assert a + b == a;
    } else {
      assert a + c == a;
    }
  }

  /**
   * The sort is stable: among elements of equal total the sorted order is the
   * input order.
   */
  lemma {:induction false} SortByTotalStable(s: seq<Enriched>, t: int)
    ensures WithTotal(SortByTotal(s), t) == WithTotal(s, t)
    decreases |s|
  {
    if |s| > 0 {
      var init, x := s[..|s| - 1], s[|s| - 1];
      assert SortByTotal(s) == InsertByTotal(SortByTotal(init), x);
      SortByTotalStable(init, t);
      InsertByTotalStable(SortByTotal(init), x, t);
      WithTotalSingleton(x, t);
      assert WithTotal(s, t) == WithTotal(init, t) + WithTotal([x], t);
    }
  }

  // ---------------------------------------------------------------------
  // The cheapest offer, earliest among equals

  /** `s[k]` has the least total of `s`, and every element before it costs strictly more. */
  predicate IsFirstCheapest(s: seq<Enriched>, k: int) {
    && 0 <= k < |s|
    && (forall j :: 0 <= j < |s| ==> s[k].total <= s[j].total)
    && (forall j :: 0 <= j < k ==> s[j].total > s[k].total)
  }

  /** At most one position is the first cheapest. */
  lemma FirstCheapestUnique(s: seq<Enriched>, k1: int, k2: int)
    requires IsFirstCheapest(s, k1) && IsFirstCheapest(s, k2)
    ensures k1 == k2
  {
    assert s[k1].total <= s[k2].total && s[k2].total <= s[k1].total;
  }

  /** A left-to-right scan keeping the first strict minimum. */
  function FirstCheapest(s: seq<Enriched>): (k: nat)
    requires |s| > 0
    ensures IsFirstCheapest(s, k)
    decreases |s|
  {
    if |s| == 1 then 0
    else
      var k := FirstCheapest(s[..|s| - 1]);
      if s[|s| - 1].total < s[k].total then |s| - 1 else k
  }

  lemma {:induction false} InsertByTotalHead(s: seq<Enriched>, x: Enriched)
    requires |s| > 0 && SortedByTotal(s)
    ensures InsertByTotal(s, x)[0] == if x.total < s[0].total then x else s[0]
    decreases |s|
  {
    if s[|s| - 1].total > x.total && |s| > 1 {
      InsertByTotalHead(s[..|s| - 1], x);
    }
  }

  /** The head of the stable sort is the first cheapest element of the input. */
  lemma {:induction false} SortByTotalHead(s: seq<Enriched>)
    requires |s| > 0
    ensures SortByTotal(s)[0] == s[FirstCheapest(s)]
    decreases |s|
  {
    if |s| > 1 {
      var init, x := s[..|s| - 1], s[|s| - 1];
      SortByTotalHead(init);
      SortByTotalSorted(init);
      InsertByTotalHead(SortByTotal(init), x);
    }
  }

  /**
   * `bestOfferWithShipping` as a value: the head of the sorted enriched offers.
   * It is an enriched offer of the product, no offer is cheaper, and every
   * earlier offer is strictly dearer.
   */
  function BestOffer(p: Product, country: string, zip: Option<string>): (best: Enriched)
    requires |p.offers| > 0
    ensures exists k :: 0 <= k < |p.offers| && best == Enrich(p.offers[k], country, zip)
                        && (forall j :: 0 <= j < k ==> Enrich(p.offers[j], country, zip).total > best.total)
    ensures forall o :: o in p.offers ==> best.total <= Enrich(o, country, zip).total
  {
    var e := EnrichAll(p.offers, country, zip);
    SortByTotalHead(e);
    var k := FirstCheapest(e);
    assert forall o :: o in p.offers ==> Enrich(o, country, zip) in e;
    assert forall j :: 0 <= j < k ==> Enrich(p.offers[j], country, zip) == e[j];
    SortByTotal(e)[0]
  }

  /** The best offer is determined by its inputs: it is the unique first cheapest enriched offer. */
  lemma BestOfferIsFirstCheapest(p: Product, country: string, zip: Option<string>)
    requires |p.offers| > 0
    ensures var e := EnrichAll(p.offers, country, zip);
            exists k :: IsFirstCheapest(e, k) && BestOffer(p, country, zip) == e[k]
  {
    var e := EnrichAll(p.offers, country, zip);
    SortByTotalHead(e);
    assert IsFirstCheapest(e, FirstCheapest(e));
  }

  /**
   * Against a ceiling, the best offer fits exactly when some offer's landed
   * total fits: because no offer is cheaper than the best one.
   */
  lemma BestOfferWithin(p: Product, country: string, zip: Option<string>, ceiling: int)
    requires |p.offers| > 0
    ensures BestOffer(p, country, zip).total <= ceiling <==>
            exists o :: o in p.offers && Enrich(o, country, zip).total <= ceiling
  {
    var best := BestOffer(p, country, zip);
    var k :| 0 <= k < |p.offers| && best == Enrich(p.offers[k], country, zip);
    assert p.offers[k] in p.offers;
  }

  // ---------------------------------------------------------------------
  // The in-place sort and the selector as the page runs them

  /** Sorts `a` in place by total, stably: the result is `SortByTotal` of the old contents. */
  method SortInPlace(a: array<Enriched>)
    modifies a
    ensures a[..] == SortByTotal(old(a[..]))
  {
    ghost var input := a[..];
    var i := 0;
    while i < a.Length
      invariant 0 <= i <= a.Length
      invariant a[..i] == SortByTotal(input[..i])
      invariant a[i..] == input[i..]
    {
      InsertInPlace(a, i);
      SortByTotalSnoc(input, i);
      assert a[..i + 1] == SortByTotal(input[..i + 1]);
      assert a[i + 1..] == input[i + 1..];
      i := i + 1;
    }
    assert a[..] == a[..a.Length] && input == input[..a.Length];
  }

  /** Sorting one more element of the input is inserting it into the sorted prefix. */
  lemma SortByTotalSnoc(s: seq<Enriched>, i: int)
    requires 0 <= i < |s|
    ensures SortByTotal(s[..i + 1]) == InsertByTotal(SortByTotal(s[..i]), s[i])
  {
    assert s[..i + 1][..i] == s[..i];
  }

  /** The insertion step on `a[..i + 1]`: shifts dearer entries right and drops `a[i]` into the gap. */
  method InsertInPlace(a: array<Enriched>, i: int)
    requires 0 <= i < a.Length
    modifies a
    ensures a[..i + 1] == InsertByTotal(old(a[..i]), old(a[i]))
    ensures a[i + 1..] == old(a[i + 1..])
  {
    ghost var sorted := a[..i];
    var key := a[i];
    var j := i;
    while j > 0 && a[j - 1].total > key.total
      invariant 0 <= j <= i
      invariant forall k :: 0 <= k < j ==> a[k] == sorted[k]
      invariant forall k :: j < k <= i ==> a[k] == sorted[k - 1]
      invariant forall k :: i < k < a.Length ==> a[k] == old(a[k])
      invariant forall k :: j <= k < i ==> sorted[k].total > key.total
    {
      a[j] := a[j - 1];
      j := j - 1;
    }
    a[j] := key;
    InsertAt(sorted, key, j);
    assert a[..i + 1] == sorted[..j] + [key] + sorted[j..];
  }

  /**
   * Where the insertion loop stops: after the entries at most as dear as `x`
   * and before the dearer ones that it shifted.
   */
  lemma {:induction false} InsertAt(s: seq<Enriched>, x: Enriched, j: int)
    requires 0 <= j <= |s|
    requires j == 0 || s[j - 1].total <= x.total
    requires forall k :: j <= k < |s| ==> s[k].total > x.total
    ensures InsertByTotal(s, x) == s[..j] + [x] + s[j..]
    decreases |s|
  {
    if j < |s| {
      var init := s[..|s| - 1];
      InsertAt(init, x, j);
      assert init[..j] == s[..j];
      assert init[j..] + [s[|s| - 1]] == s[j..];
    } else {
      assert s[..j] == s && s[j..] == [];
    }
  }

  /**
   * `bestOfferWithShipping`: enriches the offers into a fresh array, sorts it in
   * place and returns its first element. The product's own offers are values
   * and are left as they were.
   */
  method BestOfferWithShipping(p: Product, country: string, zip: Option<string>) returns (best: Enriched)
    requires |p.offers| > 0
    ensures best == BestOffer(p, country, zip)
    ensures forall o :: o in p.offers ==> best.total <= Enrich(o, country, zip).total
  {
    var enriched := new Enriched[|p.offers|](i requires 0 <= i < |p.offers| => Enrich(p.offers[i], country, zip));
    assert enriched[..] == EnrichAll(p.offers, country, zip);
    SortInPlace(enriched);
    best := enriched[0];
  }

  /**
   * The first catalogue product shipped to Italy without a postal code:
   * DiveInn 489.90 (free above 150.00), LeisurePro 475.00 + 24.99 and SubShop
   * 499.00 (free above 120.00); DiveInn wins with 489.90 and no shipping.
   */
  lemma ScenarioApeksBestOffer()
    ensures BestOffer(Products[0], "IT", None) == Enriched(Products[0].offers[0], 0, 48990)
  {
    var p := Products[0];
    assert Enrich(p.offers[0], "IT", None).total == 48990;
    assert Enrich(p.offers[1], "IT", None).total == 49999;
    assert Enrich(p.offers[2], "IT", None).total == 49900;
  }
}
