/**
 * The shipping estimator: a fixed table of rules keyed by lane (merchant,
 * destination country), a flat fee for lanes without a rule, free shipping
 * above a per-lane threshold and a surcharge for remote postal codes.
 * Amounts are integer euro cents.
 */
module Shipping {
  import opened Wrappers
  import opened Strings

  /** A lane's rule: its base fee and, when there is one, the subtotal from which shipping is free. */
  datatype Rule = Rule(base: int, freeOver: Option<int>)

  /** Fee for a lane the table does not know (14.99 EUR). */
  const FallbackFee := 1499
  /** Added for postal codes beginning with 97, 98 or 99 (3.00 EUR). */
  const RemoteSurcharge := 300
  /** The largest fee the table can produce: the most expensive base plus the surcharge. */
  const MaxFee := 2499 + RemoteSurcharge

  const Rules: map<(string, string), Rule> := map[
    ("DiveInn", "IT") := Rule(999, Some(15000)),
    ("LeisurePro", "IT") := Rule(2499, None),
    ("Decathlon", "IT") := Rule(599, Some(9900)),
    ("SubShop", "IT") := Rule(749, Some(12000))
  ]

  /** Every rule has a positive base fee and, if any, a positive threshold. */
  predicate RuleWellFormed(rule: Rule) {
    0 < rule.base <= 2499 && (rule.freeOver.Some? ==> rule.freeOver.value > 0)
  }

  /**
   * The table scanned rule by rule. A positive threshold is what makes the
   * source's truthiness test on `free_over` coincide with "a threshold exists".
   */
  lemma RulesWellFormed()
    ensures forall lane :: lane in Rules ==> RuleWellFormed(Rules[lane])
  {
  }

  /**
   * The postal code is present and starts with 97, 98 or 99: at least two
   * characters, `9` then `7`, `8` or `9`, whatever follows.
   */
  predicate IsRemote(zip: Option<string>): (remote: bool)
    ensures remote <==>
      zip.Some? && |zip.value| >= 2 && zip.value[0] == '9' && (zip.value[1] == '7' || zip.value[1] == '8' || zip.value[1] == '9')
  {
    if zip.Some? && |zip.value| >= 2 then
      var z := zip.value;
      assert z[..2] == [z[0], z[1]];
      StartsWith(z, "97") || StartsWith(z, "98") || StartsWith(z, "99")
    else
      false
  }

  /** The threshold of the rule is defined and the subtotal reaches it. */
  predicate ReachesThreshold(rule: Rule, subtotal: int) {
    rule.freeOver.Some? && subtotal >= rule.freeOver.value
  }

  /** Estimated shipping for one offer of `subtotal` cents sent by `merchant` to `country`. */
  function EstimateShipping(merchant: string, country: string, subtotal: int, zip: Option<string>): (fee: int)
    ensures 0 <= fee <= MaxFee
    ensures (merchant, country) !in Rules ==> fee == FallbackFee
    ensures fee == 0 <==> (merchant, country) in Rules && ReachesThreshold(Rules[(merchant, country)], subtotal)
  {
    RulesWellFormed();
    var lane := (merchant, country);
    if lane !in Rules then FallbackFee
    else
      var rule := Rules[lane];
      if ReachesThreshold(rule, subtotal) then 0
      else rule.base + (if IsRemote(zip) then RemoteSurcharge else 0)
  }

  /** A lane without a rule costs the flat fee whatever subtotal and postal code are given. */
  lemma FallbackIgnoresOrder(merchant: string, country: string, s1: int, z1: Option<string>, s2: int, z2: Option<string>)
    requires (merchant, country) !in Rules
    ensures EstimateShipping(merchant, country, s1, z1) == EstimateShipping(merchant, country, s2, z2) == FallbackFee
  {
  }

  /** Once the threshold is reached the fee is zero, and a remote postal code adds nothing. */
  lemma FreeShippingIgnoresPostalCode(merchant: string, country: string, subtotal: int, zip: Option<string>)
    requires (merchant, country) in Rules && ReachesThreshold(Rules[(merchant, country)], subtotal)
    ensures EstimateShipping(merchant, country, subtotal, zip) == 0
    ensures EstimateShipping(merchant, country, subtotal, zip) == EstimateShipping(merchant, country, subtotal, None)
  {
  }

  /**
   * Below the threshold (or without one) the fee is the base fee plus the
   * surcharge exactly when the postal code is remote; an absent postal code
   * never pays the surcharge.
   */
  lemma PaidShippingIsBasePlusSurcharge(merchant: string, country: string, subtotal: int, zip: Option<string>)
    requires (merchant, country) in Rules && !ReachesThreshold(Rules[(merchant, country)], subtotal)
    ensures EstimateShipping(merchant, country, subtotal, zip)
            == Rules[(merchant, country)].base + (if IsRemote(zip) then RemoteSurcharge else 0)
    ensures EstimateShipping(merchant, country, subtotal, None) == Rules[(merchant, country)].base
  {
  }

  /**
   * What the postal code can change: a remote code costs either nothing more
   * (fallback lane or free shipping) or exactly the surcharge.
   */
  lemma PostalCodeEffect(merchant: string, country: string, subtotal: int, zip: Option<string>)
    ensures var extra := EstimateShipping(merchant, country, subtotal, zip) - EstimateShipping(merchant, country, subtotal, None);
            && (extra == 0 || extra == RemoteSurcharge)
            && (extra == RemoteSurcharge <==>
                  IsRemote(zip) && (merchant, country) in Rules && !ReachesThreshold(Rules[(merchant, country)], subtotal))
  {
  }

  /** A larger subtotal never costs more shipping. */
  lemma ShippingNonIncreasing(merchant: string, country: string, s1: int, s2: int, zip: Option<string>)
    requires s1 <= s2
    ensures EstimateShipping(merchant, country, s2, zip) <= EstimateShipping(merchant, country, s1, zip)
  {
  }

  /** DiveInn to Italy, 200.00 EUR, no postal code: above the 150.00 threshold, so free. */
  lemma ScenarioDiveInnFree()
    ensures EstimateShipping("DiveInn", "IT", 20000, None) == 0
  {
  }

  /** LeisurePro to Italy, 50.00 EUR, postal code 98100: no threshold, 24.99 plus the 3.00 surcharge. */
  lemma ScenarioLeisureProRemote()
    ensures EstimateShipping("LeisurePro", "IT", 5000, Some("98100")) == 2799
  {
  }

  /** An unknown merchant shipping to France pays the flat 14.99. */
  lemma ScenarioUnknownLane()
    ensures EstimateShipping("Unknown", "FR", 50000, None) == FallbackFee
  {
  }
}
