/** The product table of the products page: one row per fetched product, in
    fetch order, each cell a projection of the product's fields, and the
    row's delete icon submitting the product's id back to the action. */
module ProductTable {
  import opened Optional
  import opened Decimal
  import opened FormEntries
  import opened Action

  datatype Image = Image(alt: Option<string>, src: string)
  datatype Variant = Variant(price: string)
  datatype Product = Product(
    id: nat,
    title: string,
    vendor: string,
    image: Option<Image>,
    variants: seq<Variant>)

  /** What a table cell shows: text, nothing (React renders `null` as
      nothing), or an `<img>` thumbnail with its `src` and `alt`. */
  datatype Cell = Text(text: string) | Blank | Thumbnail(src: string, alt: string)

  /** A form submission from the page: its method and its entries. */
  datatype Submission = Submission(verb: string, entries: seq<Entry>)

  datatype Row = Row(
    key: nat,
    serial: nat,
    name: string,
    description: Cell,
    picture: Cell,
    price: Cell,
    vendor: string,
    onDelete: Submission)

  const DescriptionLimit: nat := 60
  const Ellipsis: string := " ..."
  const Placeholder: string := "NA"
  const ThumbnailAlt: string := "Product"
  const Currency: string := "$"

  predicate Renderable(p: Product) {
    |p.variants| >= 1
  }

  /** Alt text longer than the limit is cut to the limit and marked. */
  function Abbreviate(alt: string): (r: string)
    ensures |alt| <= DescriptionLimit ==> r == alt
    ensures |alt| > DescriptionLimit ==> |r| == DescriptionLimit + |Ellipsis|
    ensures |alt| > DescriptionLimit ==> r[..DescriptionLimit] == alt[..DescriptionLimit] && r[DescriptionLimit..] == Ellipsis
    ensures |r| <= DescriptionLimit + |Ellipsis|
  {
    if |alt| > DescriptionLimit then alt[..DescriptionLimit] + Ellipsis else alt
  }

  function Min(a: int, b: int): int {
    if a <= b then a else b
  }

  /** Whatever its length, the shown text starts with the alt text's first
      `min(60, |alt|)` characters. */
  lemma AbbreviateKeepsPrefix(alt: string)
    ensures var n := Min(DescriptionLimit, |alt|);
      n <= |Abbreviate(alt)| && Abbreviate(alt)[..n] == alt[..n]
  {
  }

  /** The alt text is shown as is exactly when it fits, or when it already
      has the abbreviated shape (60 characters followed by the marker). */
  lemma AbbreviateUnchangedIff(alt: string)
    ensures (Abbreviate(alt) == alt)
        <==> (|alt| <= DescriptionLimit
              || (|alt| == DescriptionLimit + |Ellipsis| && alt[DescriptionLimit..] == Ellipsis))
  {
    if |alt| > DescriptionLimit && Abbreviate(alt) == alt {
      assert alt[DescriptionLimit..] == Abbreviate(alt)[DescriptionLimit..];
    }
    if |alt| == DescriptionLimit + |Ellipsis| && alt[DescriptionLimit..] == Ellipsis {
      assert alt == alt[..DescriptionLimit] + alt[DescriptionLimit..];
    }
  }

  /** Abbreviating twice shows the same text as abbreviating once. */
  lemma AbbreviateIdempotent(alt: string)
    ensures Abbreviate(Abbreviate(alt)) == Abbreviate(alt)
  {
    if |alt| > DescriptionLimit {
      AbbreviateUnchangedIff(Abbreviate(alt));
    }
  }

  /** The description cell: "NA" without an image, nothing when the image has
      no alt text, else the abbreviated alt text. */
  function DescriptionCell(image: Option<Image>): (c: Cell)
    ensures image.None? ==> c == Text(Placeholder)
    ensures c.Blank? <==> image.Some? && image.value.alt.None?
    ensures image.Some? && image.value.alt.Some? ==> c == Text(Abbreviate(image.value.alt.value))
  {
    match image
    case None => Text(Placeholder)
    case Some(img) =>
      match img.alt
      case None => Blank
      case Some(alt) => Text(Abbreviate(alt))
  }

  /** The image cell: "NA" without an image, else a thumbnail of its source. */
  function ImageCell(image: Option<Image>): (c: Cell)
    ensures image.None? <==> c == Text(Placeholder)
    ensures image.Some? <==> c.Thumbnail?
    ensures image.Some? ==> c.src == image.value.src && c.alt == ThumbnailAlt
  {
    match image
    case None => Text(Placeholder)
    case Some(img) => Thumbnail(img.src, ThumbnailAlt)
  }

  /** The price cell: the first variant's price behind a dollar sign. */
  function PriceCell(p: Product): (c: Cell)
    requires Renderable(p)
    ensures c.Text? && |c.text| == 1 + |p.variants[0].price|
    ensures c.text[..1] == Currency && c.text[1..] == p.variants[0].price
  {
    Text(Currency + p.variants[0].price)
  }

  /** Two price cells are equal exactly when the first variants' prices are. */
  lemma PriceCellInjective(p: Product, q: Product)
    requires Renderable(p) && Renderable(q)
    ensures PriceCell(p) == PriceCell(q) <==> p.variants[0].price == q.variants[0].price
  {
    if PriceCell(p) == PriceCell(q) {
      assert PriceCell(p).text[1..] == PriceCell(q).text[1..];
    }
  }

  /** What the delete icon of a row submits: only the product id, as the
      decimal text a form gives a number, with method DELETE. */
  function DeleteSubmission(productId: nat): (s: Submission)
    ensures s.verb == "DELETE"
    ensures FromEntries(s.entries) == map["product_id" := NatToString(productId)]
  {
    Submission("DELETE", [("product_id", NatToString(productId))])
  }

  /** The action turns a row's delete submission into exactly one delete of
      that product's path, and distinct products into distinct deletes. */
  lemma DeleteReachesProduct(a: nat, b: nat)
    ensures var s := DeleteSubmission(a);
      Dispatch(s.verb, FromEntries(s.entries)) == Delete(ProductPath(NatToString(a)))
    ensures var sa := DeleteSubmission(a);
      var sb := DeleteSubmission(b);
      Dispatch(sa.verb, FromEntries(sa.entries)) == Dispatch(sb.verb, FromEntries(sb.entries)) <==> a == b
  {
    var sa := DeleteSubmission(a);
    var sb := DeleteSubmission(b);
    if Dispatch(sa.verb, FromEntries(sa.entries)) == Dispatch(sb.verb, FromEntries(sb.entries)) {
      DeleteDeterminedById(FromEntries(sa.entries), FromEntries(sb.entries));
      NatToStringInjective(a, b);
    }
  }

  /** Row `idx` (counted from 0) of the table. */
  function RenderRow(idx: nat, p: Product): (r: Row)
    requires Renderable(p)
    ensures r.key == p.id && r.serial == idx + 1
    ensures r.name == p.title && r.vendor == p.vendor
    ensures r.description == DescriptionCell(p.image) && r.picture == ImageCell(p.image)
    ensures r.price == PriceCell(p)
    ensures r.onDelete == DeleteSubmission(p.id)
  {
    Row(p.id, idx + 1, p.title, DescriptionCell(p.image), ImageCell(p.image),
        PriceCell(p), p.vendor, DeleteSubmission(p.id))
  }

  /** A row without an image shows "NA" for both its description and its
      picture. */
  lemma NoImageRow(idx: nat, p: Product)
    requires Renderable(p) && p.image.None?
    ensures RenderRow(idx, p).description == Text(Placeholder)
    ensures RenderRow(idx, p).picture == Text(Placeholder)
  {
  }

  /** `products.map((product, idx) => row)`: the table body, built one
      product at a time from the front of the fetched list. */
  function RenderTable(ps: seq<Product>): (rows: seq<Row>)
    requires forall i :: 0 <= i < |ps| ==> Renderable(ps[i])
    ensures |rows| == |ps|
    ensures forall i :: 0 <= i < |ps| ==> rows[i] == RenderRow(i, ps[i])
    decreases |ps|
  {
    if |ps| == 0 then []
    else
      var init := ps[..|ps| - 1];
      RenderTable(init) + [RenderRow(|ps| - 1, ps[|ps| - 1])]
  }

  /** The table neither sorts nor filters: its row keys are the product ids
      in fetch order, and its serial numbers count 1, 2, 3, ... */
  lemma TableKeepsOrder(ps: seq<Product>)
    requires forall i :: 0 <= i < |ps| ==> Renderable(ps[i])
    ensures forall i :: 0 <= i < |ps| ==> RenderTable(ps)[i].key == ps[i].id
    ensures forall i :: 0 <= i < |ps| ==> RenderTable(ps)[i].serial == i + 1
  {
  }

  /** Each row's delete icon deletes that row's product and no other. */
  lemma TableDeletesOwnProduct(ps: seq<Product>, i: int, j: int)
    requires forall k :: 0 <= k < |ps| ==> Renderable(ps[k])
    requires 0 <= i < |ps| && 0 <= j < |ps|
    ensures var s := RenderTable(ps)[i].onDelete;
      Dispatch(s.verb, FromEntries(s.entries)) == Delete(ProductPath(NatToString(ps[i].id)))
    ensures var si := RenderTable(ps)[i].onDelete;
      var sj := RenderTable(ps)[j].onDelete;
      (Dispatch(si.verb, FromEntries(si.entries)) == Dispatch(sj.verb, FromEntries(sj.entries)))
        <==> (ps[i].id == ps[j].id)
  {
    DeleteReachesProduct(ps[i].id, ps[j].id);
  }
}
