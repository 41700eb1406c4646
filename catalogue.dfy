/**
 * The catalogue's records and the hard-coded product list of the page.
 * Prices are integer euro cents (489.9 EUR is 48990).
 */
module Catalogue {
  import opened Wrappers
  import opened Distinct

  /** A merchant's listing of one product. */
  datatype Offer = Offer(
    merchant: string,
    price: int,
    currency: string,
    inStock: bool,
    url: string,
    stockMsg: Option<string>)

  /** The four categories a product can belong to. */
  datatype Category = Regolatori | Computer | BcdGav | Mute

  /** A value of the free-form `specs` record: a text or a number. */
  datatype SpecValue = Text(text: string) | Number(number: int)

  /** One attribute of `specs`, in the order the record literal lists it. */
  datatype SpecEntry = SpecEntry(key: string, value: SpecValue)

  datatype Product = Product(
    id: string,
    category: Category,
    brand: string,
    name: string,
    variant: Option<string>,
    specs: seq<SpecEntry>,
    offers: seq<Offer>,
    image: Option<string>)

  const Currency := "EUR"

  /** Every product has at least one offer and no two products share an id. */
  predicate WellFormed(products: seq<Product>) {
    && (forall p :: p in products ==> |p.offers| > 0)
    && (forall i, j :: 0 <= i < j < |products| ==> products[i].id != products[j].id)
  }

  function InStock(merchant: string, price: int): Offer {
    Offer(merchant, price, Currency, true, "#", None)
  }

  const Products: seq<Product> := [
    Product("p1", Regolatori, "Apeks", "Apeks XTX200 DIN", Some("DIN"),
      [SpecEntry("Bilanciato", Text("Sì")), SpecEntry("Porte_HP", Number(2)),
       SpecEntry("Porte_LP", Number(4)), SpecEntry("Peso_g", Number(1200))],
      [InStock("DiveInn", 48990), InStock("LeisurePro", 47500),
       Offer("SubShop", 49900, Currency, false, "#", Some("Su ordinazione"))],
      Some("https://images.pexels.com/photos/37530/diver-scuba-underwater-ocean-37530.jpeg")),
    Product("p2", Regolatori, "Mares", "Mares Dual ADJ 62X DIN", Some("DIN"),
      [SpecEntry("Bilanciato", Text("Sì")), SpecEntry("Porte_HP", Number(2)),
       SpecEntry("Porte_LP", Number(4)), SpecEntry("Peso_g", Number(905))],
      [InStock("DiveInn", 34900), InStock("Decathlon", 35990)],
      Some("https://images.pexels.com/photos/290543/pexels-photo-290543.jpeg")),
    Product("p3", Computer, "Shearwater", "Shearwater Peregrine", None,
      [SpecEntry("Algoritmo", Text("Bühlmann ZHL-16C")), SpecEntry("Gas", Text("Nitrox/Aria")),
       SpecEntry("AI", Text("No")), SpecEntry("Display", Text("A colori"))],
      [InStock("SubShop", 48900), InStock("LeisurePro", 46900)],
      Some("https://images.pexels.com/photos/8910280/pexels-photo-8910280.jpeg")),
    Product("p4", Computer, "Suunto", "Suunto D5", None,
      [SpecEntry("Algoritmo", Text("Suunto Fused RGBM 2")), SpecEntry("Gas", Text("Nitrox/Aria")),
       SpecEntry("AI", Text("Sì (opz)")), SpecEntry("Display", Text("A colori"))],
      [InStock("Decathlon", 59900),
       Offer("DiveInn", 58900, Currency, false, "#", Some("Esaurito"))],
      Some("https://images.pexels.com/photos/18990906/pexels-photo-18990906.jpeg"))
  ]

  /** The built-in catalogue meets the assumptions the page makes about it. */
  lemma ProductsWellFormed()
    ensures WellFormed(Products)
  {
  }

  /** The brand of every product, in catalogue order (`products.map(p => p.brand)`). */
  function BrandsOf(products: seq<Product>): (r: seq<string>)
    ensures |r| == |products|
    ensures forall i :: 0 <= i < |products| ==> r[i] == products[i].brand
  {
    seq(|products|, i requires 0 <= i < |products| => products[i].brand)
  }

  /** The brand menu: each product's brand listed once, in order of first appearance. */
  function Brands(products: seq<Product>): (r: seq<string>)
    ensures NoDuplicates(r)
    ensures forall b :: b in r <==> exists p :: p in products && p.brand == b
  {
    var all := BrandsOf(products);
    assert forall p :: p in products ==> p.brand in all by {
      forall p | p in products ensures p.brand in all {
        var i :| 0 <= i < |products| && products[i] == p;
        assert all[i] == p.brand;
      }
    }
    Unique(all)
  }
}
