/** Product search (ChromaProductSearch): the vector query is an oracle whose
    answer is an input; what is modelled is turning its metadata into
    product records and the fallback to the fixed demo list. */
module Catalog {
  import opened Common

  /** The metadata stored with one indexed product; every value is kept as
      the text Python's `str()` gives it. */
  type Metadata = map<string, string>

  /** A product record as `search_products` builds it. `price` and `stock`
      are kept as their rendered text. */
  datatype Product = Product(name: string, description: string, price: string, category: string,
                             stock: string, ageRange: string, brand: string, features: string)

  /** What the vector store gave back for the query. */
  datatype SearchOutcome =
    | Unavailable
      // the client or the collection could not be opened at start-up
    | QueryFailed
      // `collection.query` raised
    | Answered(metadatas: seq<seq<Option<Metadata>>>)
      // `results['metadatas']`: one list per query text, `None` for a hit
      // stored without metadata; an absent (None) field reads as []

  /** `metadata.get(key, default)`. */
  function Lookup(m: Metadata, key: string, default: string): string
  {
    if key in m then m[key] else default
  }

  /** One hit's metadata as a product record: `product_name` becomes the
      name, a missing text field reads `''`, a missing price or stock `0`. */
  function ToProduct(m: Metadata): Product
  {
    Product(Lookup(m, "product_name", ""), Lookup(m, "description", ""), Lookup(m, "price", "0"),
            Lookup(m, "category", ""), Lookup(m, "stock", "0"), Lookup(m, "age_range", ""),
            Lookup(m, "brand", ""), Lookup(m, "features", ""))
  }

  /** The metadata the indexing script stores for a product: the product's
      whole record, keyed as in the catalogue data. */
  function IndexedMetadata(id: string, p: Product): Metadata
  {
    map["id" := id, "product_name" := p.name, "description" := p.description, "price" := p.price,
        "category" := p.category, "stock" := p.stock, "age_range" := p.ageRange, "brand" := p.brand,
        "features" := p.features]
  }

  /** Reading back what the indexer stored gives the product again. */
  lemma IndexedMetadataRoundTrip(id: string, p: Product)
    ensures ToProduct(IndexedMetadata(id, p)) == p
  {
    var m := IndexedMetadata(id, p);
    assert "product_name" in m && m["product_name"] == p.name;
    assert m["description"] == p.description && m["price"] == p.price;
    assert m["category"] == p.category && m["stock"] == p.stock;
    assert m["age_range"] == p.ageRange && m["brand"] == p.brand && m["features"] == p.features;
  }

  /** Field by field, a hit's record takes the stored value where the key is
      present and the default (`''`, or `0` for price and stock) where it is
      missing; no other key is consulted. */
  lemma ToProductFields(m: Metadata)
    ensures var p := ToProduct(m);
            && p.name == (if "product_name" in m then m["product_name"] else "")
            && p.description == (if "description" in m then m["description"] else "")
            && p.price == (if "price" in m then m["price"] else "0")
            && p.category == (if "category" in m then m["category"] else "")
            && p.stock == (if "stock" in m then m["stock"] else "0")
            && p.ageRange == (if "age_range" in m then m["age_range"] else "")
            && p.brand == (if "brand" in m then m["brand"] else "")
            && p.features == (if "features" in m then m["features"] else "")
  {
  }

  /** Keys other than the eight product fields (the indexer's `id`, say)
      make no difference to the record. */
  lemma ToProductIgnoresOtherKeys(m: Metadata, key: string, value: string)
    requires key !in {"product_name", "description", "price", "category", "stock", "age_range", "brand", "features"}
    ensures ToProduct(m[key := value]) == ToProduct(m)
  {
  }

  const RoboticsKit: Product :=
    Product("STEM Robotics Kit Pro", "Advanced robotics kit with coding capabilities for teens",
            "149.99", "STEM", "35", "14-18 years", "RoboTech Pro",
            "AI programming, Multiple sensors, Machine learning")
  const Microscope: Product :=
    Product("Digital Microscope Pro", "High-precision digital microscope with 2000x magnification",
            "129.99", "Science", "25", "12+ years", "ScienceVision",
            "2000x magnification, 4K imaging, Computer connectivity")

  /** `get_demo_products`: the fixed two-item list. */
  function DemoProducts(): (r: seq<Product>)
    ensures |r| == 2
  {
    [RoboticsKit, Microscope]
  }

  /** The hits of the one query text: `results['metadatas'][0]`, or none
      when the list is empty. */
  function Hits(metadatas: seq<seq<Option<Metadata>>>): seq<Option<Metadata>>
  {
    if metadatas == [] then [] else metadatas[0]
  }

  /** Every hit carries metadata (a `None` entry makes `.get` raise). */
  predicate AllHaveMetadata(hits: seq<Option<Metadata>>)
  {
    forall i :: 0 <= i < |hits| ==> hits[i].Some?
  }

  /** What `search_products` returns. */
  function SearchResults(outcome: SearchOutcome): (r: seq<Product>)
    ensures |r| > 0
    ensures !outcome.Answered? ==> r == DemoProducts()
    ensures outcome.Answered? ==>
              var hits := Hits(outcome.metadatas);
              if hits != [] && AllHaveMetadata(hits)
              then |r| == |hits| && forall i :: 0 <= i < |hits| ==> r[i] == ToProduct(hits[i].value)
              else r == DemoProducts()
  {
    match outcome
    case Answered(metadatas) =>
      var hits := Hits(metadatas);
      if hits != [] && AllHaveMetadata(hits)
      then seq(|hits|, i requires 0 <= i < |hits| => ToProduct(hits[i].value))
      else DemoProducts()
    case _ => DemoProducts()
  }

  /** `search_products`: the loop over the hits, with the demo list on every
      path that would give nothing or fail. */
  method SearchProducts(outcome: SearchOutcome) returns (products: seq<Product>)
    ensures products == SearchResults(outcome)
    ensures |products| > 0
  {
    if !outcome.Answered? {
      return DemoProducts();
    }
    var hits := Hits(outcome.metadatas);
    products := [];
    var i := 0;
    while i < |hits|
      invariant 0 <= i <= |hits|
      invariant AllHaveMetadata(hits[..i])
      invariant |products| == i
      invariant forall k :: 0 <= k < i ==> products[k] == ToProduct(hits[k].value)
    {
      match hits[i]
      case None =>
        return DemoProducts();
      case Some(metadata) =>
        products := products + [ToProduct(metadata)];
      assert hits[..i + 1] == hits[..i] + [hits[i]];
      i := i + 1;
    }
    assert hits[..i] == hits;
    if products == [] {
      products := DemoProducts();
    }
  }
}
