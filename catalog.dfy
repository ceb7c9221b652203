/**
 * Catalog ingestion: the raw product records, whose images arrive as one
 * comma-separated string, become products with a list of image URLs, and the
 * category list offered by the filters is derived from them.
 */
module Catalog {
  import opened Wrappers
  import opened Seqs
  import opened Text

  /** A product as the catalog data supplies it. */
  datatype RawProduct = RawProduct(
    id: string,
    name: string,
    summary: Option<string>,
    category: string,
    price: int,
    oldPrice: Option<int>,
    stock: int,
    images: string)

  /** A product as the storefront uses it. */
  datatype Product = Product(
    id: string,
    name: string,
    summary: Option<string>,
    category: string,
    price: int,
    oldPrice: Option<int>,
    stock: int,
    images: seq<string>)

  /** Every character of `s.trim()` comes from `s`. */
  lemma TrimKeepsCharacters(s: string, c: char)
    requires c in Trim(s)
    ensures c in s
  {
    var r := Trim(s);
    var i :| 0 <= i <= |s| - |r| && s[i..i + |r|] == r && AllWhitespace(s[..i]) && AllWhitespace(s[i + |r|..]);
    var k :| 0 <= k < |r| && r[k] == c;
    assert s[i + k] == c;
  }

  /** Every piece trimmed, in order (`pieces.map(i => i.trim())`). */
  function TrimAll(pieces: seq<string>): (r: seq<string>)
    ensures forall img :: img in r ==> IsTrimmed(img)
  {
    seq(|pieces|, k requires 0 <= k < |pieces| => Trim(pieces[k]))
  }

  /** Trimming separator-free pieces leaves them separator-free. */
  lemma TrimAllSeparatorFree(pieces: seq<string>, sep: char)
    requires forall piece :: piece in pieces ==> sep !in piece
    ensures forall img :: img in TrimAll(pieces) ==> sep !in img
  {
    var trimmed := TrimAll(pieces);
    forall img | img in trimmed
      ensures sep !in img
    {
      var k :| 0 <= k < |trimmed| && trimmed[k] == img;
      assert pieces[k] in pieces;
      if sep in img {
        TrimKeepsCharacters(pieces[k], sep);
      }
    }
  }

  /** `Boolean(s)` for a string: it is not empty. */
  predicate NonEmpty(s: string) {
    s != []
  }

  /** An image URL as ingestion leaves it: non-empty, trimmed, without a comma. */
  predicate WellFormedImage(img: string) {
    img != [] && IsTrimmed(img) && ',' !in img
  }

  /** `images.split(',').map(i => i.trim()).filter(Boolean)`. */
  function NormalizeImages(images: string): (r: seq<string>)
    ensures forall img :: img in r ==> WellFormedImage(img)
    ensures forall img :: img in r <==> img != [] && img in TrimAll(Split(images, ','))
    ensures forall img :: multiset(r)[img] == if img != [] then multiset(TrimAll(Split(images, ',')))[img] else 0
    ensures IsSubsequence(r, TrimAll(Split(images, ',')))
  {
    var pieces := Split(images, ',');
    var trimmed := TrimAll(pieces);
    TrimAllSeparatorFree(pieces, ',');
    FilterMembers(trimmed, NonEmpty);
    FilterCounts(trimmed, NonEmpty);
    FilterIsSubsequence(trimmed, NonEmpty);
    Filter(trimmed, NonEmpty)
  }

  /** The storefront's view of one raw product: the same fields, images normalised. */
  function Ingest(p: RawProduct): (q: Product)
    ensures q.images == NormalizeImages(p.images)
    ensures forall img :: img in q.images ==> WellFormedImage(img)
    ensures Export(q) == p.(images := JoinImages(q.images))
  {
    Product(p.id, p.name, p.summary, p.category, p.price, p.oldPrice, p.stock, NormalizeImages(p.images))
  }

  /** `imgs.join(',')`, which is `""` for no images. */
  function JoinImages(imgs: seq<string>): string {
    if imgs == [] then [] else Join(imgs, ',')
  }

  /** A product written back as a catalog record, its images joined by commas. */
  function Export(q: Product): RawProduct {
    RawProduct(q.id, q.name, q.summary, q.category, q.price, q.oldPrice, q.stock, JoinImages(q.images))
  }

  /** Trimming pieces that are already trimmed changes none of them. */
  lemma TrimAllTrimmed(pieces: seq<string>)
    requires forall piece :: piece in pieces ==> IsTrimmed(piece)
    ensures TrimAll(pieces) == pieces
  {
    forall k | 0 <= k < |pieces|
      ensures TrimAll(pieces)[k] == pieces[k]
    {
      assert pieces[k] in pieces;
      TrimTrimmed(pieces[k]);
    }
  }

  /** Normalising the empty string gives no images. */
  lemma NormalizeEmpty()
    ensures NormalizeImages([]) == []
  {
    assert Split([], ',') == [[]];
    TrimAllTrimmed([[]]);
    assert Filter([[]], NonEmpty) == [];
  }

  /** Normalising comma-joined well-formed images gives the same images back. */
  lemma NormalizeJoined(imgs: seq<string>)
    requires forall img :: img in imgs ==> WellFormedImage(img)
    ensures NormalizeImages(JoinImages(imgs)) == imgs
  {
    if imgs == [] {
      NormalizeEmpty();
    } else {
      SplitJoin(imgs, ',');
      assert Split(JoinImages(imgs), ',') == imgs;
      TrimAllTrimmed(imgs);
      FilterKeepsAll(imgs, NonEmpty);
    }
  }

  /** Ingestion undoes `Export` on every product whose images are well formed. */
  lemma IngestExport(q: Product)
    requires forall img :: img in q.images ==> WellFormedImage(img)
    ensures Ingest(Export(q)) == q
  {
    NormalizeJoined(q.images);
  }

  /** `productDatabase.map(...)`: one product per raw record, in catalog order. */
  function IngestAll(raw: seq<RawProduct>): (products: seq<Product>)
    ensures |products| == |raw|
    ensures forall k, img :: 0 <= k < |raw| && img in products[k].images ==> WellFormedImage(img)
    ensures forall k :: 0 <= k < |raw| ==> CategoryColumn(products)[k] == raw[k].category
    ensures forall k :: 0 <= k < |raw| ==> products[k] == Ingest(raw[k])
  {
    seq(|raw|, k requires 0 <= k < |raw| => Ingest(raw[k]))
  }

  /** Every catalog record of the whole catalog, in order. */
  function ExportAll(products: seq<Product>): seq<RawProduct> {
    seq(|products|, k requires 0 <= k < |products| => Export(products[k]))
  }

  /** Ingesting the exported catalog gives the catalog back when its images are well formed. */
  lemma IngestAllExport(products: seq<Product>)
    requires forall k, img :: 0 <= k < |products| && img in products[k].images ==> WellFormedImage(img)
    ensures IngestAll(ExportAll(products)) == products
  {
    forall k | 0 <= k < |products|
      ensures IngestAll(ExportAll(products))[k] == products[k]
    {
      IngestExport(products[k]);
    }
  }

  /** The category of every product, in catalog order. */
  function CategoryColumn(products: seq<Product>): seq<string> {
    seq(|products|, k requires 0 <= k < |products| => products[k].category)
  }

  /** `[...new Set(products.map(p => p.category))].sort()`. */
  function Categories(products: seq<Product>): (r: seq<string>)
    ensures Sorted(r) && Distinct(r)
    ensures forall c :: multiset(r)[c] == if c in CategoryColumn(products) then 1 else 0
    ensures forall k :: 0 <= k < |products| ==> products[k].category in r
    ensures forall c :: c in r ==> exists k :: 0 <= k < |products| && products[k].category == c
  {
    var cats := CategoryColumn(products);
    var r := Sort(Dedup(cats));
    CountsAtMostOneIsDistinct(r);
    forall k | 0 <= k < |products|
      ensures products[k].category in r
    {
      assert cats[k] in cats;
      assert cats[k] in multiset(r);
    }
    forall c | c in r
      ensures exists k :: 0 <= k < |products| && products[k].category == c
    {
      assert c in multiset(r);
      var k :| 0 <= k < |cats| && cats[k] == c;
    }
    r
  }

  /**
   * The category list is the only sorted list holding each category once:
   * any sorting of the de-duplicated categories gives the same result.
   */
  lemma CategoriesDetermined(products: seq<Product>, r: seq<string>)
    requires Sorted(r)
    requires forall c :: multiset(r)[c] == if c in CategoryColumn(products) then 1 else 0
    ensures r == Categories(products)
  {
    var q := Categories(products);
    assert multiset(r) == multiset(q);
    SortedPermutationUnique(r, q);
  }
}
