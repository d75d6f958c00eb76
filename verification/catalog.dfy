/**
 * `add_product`: a listing is created from a form with a price, an optional
 * discount percentage and one to five uploaded images; the images become
 * gallery rows numbered from 0, and the first also fills the legacy `image`
 * column. Money is exact (`real`) here; the bounds of the decimal columns
 * the values land in are stated on integer cents.
 */
module Catalog {
  import opened Wrappers
  import opened Accounts

  /** `Product.price` and `Product.discount` are `DecimalField(max_digits=6, decimal_places=2)`. */
  const MaxDigits: nat := 6
  const DecimalPlaces: nat := 2

  /** Both columns default to `Decimal("0.00")`. */
  const FieldDefaultCents: int := 0

  /** The most images one listing may be created with. */
  const MaxImages: nat := 5

  function Abs(n: int): nat { if n < 0 then -n else n }

  function Pow10(k: nat): (p: nat)
    ensures p >= 1
  {
    if k == 0 then 1 else 10 * Pow10(k - 1)
  }

  /** The number of decimal digits of `n` (0 is written with one digit). */
  function NumDigits(n: nat): (k: nat)
    ensures k >= 1
  {
    if n < 10 then 1 else 1 + NumDigits(n / 10)
  }

  /** `n` has at most `k` digits exactly when it is below 10^k. */
  lemma {:induction false} NumDigitsBound(n: nat, k: nat)
    requires k >= 1
    ensures NumDigits(n) <= k <==> n < Pow10(k)
  {
    if n < 10 {
      Pow10Monotone(1, k);
    } else if k >= 2 {
      NumDigitsBound(n / 10, k - 1);
    }
  }

  lemma {:induction false} Pow10Monotone(i: nat, k: nat)
    requires i <= k
    ensures Pow10(i) <= Pow10(k)
  {
    if i < k {
      Pow10Monotone(i, k - 1);
    }
  }

  /** An amount of `cents` hundredths fits the column: at most six digits in all, two of them decimals. */
  predicate FitsMoneyField(cents: int) {
    NumDigits(Abs(cents)) <= MaxDigits
  }

  /** The columns hold exactly the amounts from -9999.99 to 9999.99, the default 0.00 among them. */
  lemma MoneyFieldRange(cents: int)
    ensures FitsMoneyField(cents) <==> -999_999 <= cents <= 999_999
    ensures FitsMoneyField(FieldDefaultCents)
  {
    NumDigitsBound(Abs(cents), MaxDigits);
    NumDigitsBound(0, MaxDigits);
  }

  /**
   * The discount expression: `pct / 100 * price` when the discount field is non-empty, otherwise
   * 0.00. `pct` is `None` when the field is missing or empty.
   */
  function Discount(pct: Option<real>, price: real): (d: real)
    ensures pct.None? ==> d == 0.0
    ensures pct.Some? ==> d * 100.0 == pct.value * price
  {
    if pct.Some? then pct.value / 100.0 * price else 0.0
  }

  /** A percentage between 0 and 100 of a non-negative price lies between 0 and the price. */
  lemma DiscountWithinPrice(pct: Option<real>, price: real)
    requires pct.Some? ==> 0.0 <= pct.value <= 100.0
    requires price >= 0.0
    ensures 0.0 <= Discount(pct, price) <= price
  {
    if pct.Some? {
      var p := pct.value;
      assert p / 100.0 * price <= price by {
        assert p / 100.0 <= 1.0;
        assert (1.0 - p / 100.0) * price >= 0.0;
      }
      assert p / 100.0 * price >= 0.0;
    }
  }

  /** Nothing caps the percentage: above 100 the discount exceeds a positive price. */
  lemma DiscountUncapped(pct: real, price: real)
    requires pct > 100.0 && price > 0.0
    ensures Discount(Some(pct), price) > price
  {
    assert (pct / 100.0 - 1.0) * price > 0.0;
  }

  /** An uploaded file, by name. */
  type Upload = string

  type ProductId = nat
  type CategoryId = nat

  datatype Product = Product(
    id: ProductId,
    name: string,
    description: string,
    price: real,
    category: CategoryId,
    discount: real,
    image: Upload,
    vendor: UserId)

  /** A gallery row: the listing, the file and its position. */
  datatype ProductImage = ProductImage(product: ProductId, image: Upload, order: nat)

  /** The form fields `add_product` reads; the numeric fields are shown already parsed. */
  datatype ProductForm = ProductForm(
    name: string,
    description: string,
    price: real,
    category: CategoryId,
    discountPct: Option<real>)

  datatype AddProductResult = CategoryNotFound | NoImages | TooManyImages | Created(product: ProductId)

  /** The gallery rows created for `uploads`, the i-th upload at order i. */
  function ImagesFor(pid: ProductId, uploads: seq<Upload>): (r: seq<ProductImage>)
    ensures |r| == |uploads|
    ensures forall i :: 0 <= i < |r| ==> r[i].product == pid && r[i].order == i && r[i].image == uploads[i]
  {
    if |uploads| == 0 then []
    else ImagesFor(pid, uploads[..|uploads| - 1]) + [ProductImage(pid, uploads[|uploads| - 1], |uploads| - 1)]
  }

  /** One more upload adds one gallery row at the next position. */
  lemma ImagesForStep(pid: ProductId, uploads: seq<Upload>, i: nat)
    requires i < |uploads|
    ensures ImagesFor(pid, uploads[..i + 1]) == ImagesFor(pid, uploads[..i]) + [ProductImage(pid, uploads[i], i)]
  {
    assert uploads[..i + 1][..i] == uploads[..i];
  }

  /** Adding a new listing's gallery keeps every row's listing id below the next one. */
  lemma ImagesForBelow(images: seq<ProductImage>, pid: ProductId, uploads: seq<Upload>)
    requires forall im :: im in images ==> im.product < pid
    ensures forall im :: im in images + ImagesFor(pid, uploads) ==> im.product < pid + 1
  {
    var added := ImagesFor(pid, uploads);
    forall im | im in images + added
      ensures im.product < pid + 1
    {
      if im !in images {
        assert im in added;
        var i :| 0 <= i < |added| && added[i] == im;
      }
    }
  }

  /** The files of a listing's gallery rows, in table order. */
  function GalleryOf(images: seq<ProductImage>, pid: ProductId): (r: seq<Upload>)
    ensures |r| <= |images|
  {
    if |images| == 0 then []
    else
      var init := GalleryOf(images[..|images| - 1], pid);
      var last := images[|images| - 1];
      if last.product == pid then init + [last.image] else init
  }

  /** The gallery of a new listing is its uploads, in upload order. */
  lemma {:induction false} GalleryOfNewProduct(images: seq<ProductImage>, pid: ProductId, uploads: seq<Upload>)
    requires forall im :: im in images ==> im.product != pid
    ensures GalleryOf(images + ImagesFor(pid, uploads), pid) == uploads
  {
    if |uploads| == 0 {
      assert images + ImagesFor(pid, uploads) == images;
      NoGallery(images, pid);
    } else {
      var init := uploads[..|uploads| - 1];
      var all := images + ImagesFor(pid, uploads);
      assert all[..|all| - 1] == images + ImagesFor(pid, init);
      GalleryOfNewProduct(images, pid, init);
    }
  }

  lemma {:induction false} NoGallery(images: seq<ProductImage>, pid: ProductId)
    requires forall im :: im in images ==> im.product != pid
    ensures GalleryOf(images, pid) == []
  {
    if |images| > 0 {
      var init := images[..|images| - 1];
      assert forall im :: im in init ==> im in images;
      NoGallery(init, pid);
    }
  }

  /** The product and gallery tables, with the next primary key to hand out. */
  class Catalog {
    var categories: set<CategoryId>
    var products: seq<Product>
    var images: seq<ProductImage>
    var nextProductId: ProductId

    /** Every row refers to a listing id that has already been handed out. */
    predicate Valid()
      reads this
    {
      && (forall p :: p in products ==> p.id < nextProductId)
      && (forall im :: im in images ==> im.product < nextProductId)
    }

    constructor (categories: set<CategoryId>)
      ensures Valid()
      ensures this.categories == categories && products == [] && images == []
    {
      this.categories := categories;
      products := [];
      images := [];
      nextProductId := 0;
    }

    /**
     * `add_product` on POST. The category is looked up first (404 when missing); then the image
     * count is checked, and only a count from 1 to 5 creates the listing and its gallery.
     */
    method AddProduct(form: ProductForm, uploads: seq<Upload>, vendor: UserId) returns (r: AddProductResult)
      requires Valid()
      modifies this
      ensures Valid()
      ensures categories == old(categories)
      ensures form.category !in categories ==> r == CategoryNotFound
      ensures form.category in categories && |uploads| == 0 ==> r == NoImages
      ensures form.category in categories && |uploads| > MaxImages ==> r == TooManyImages
      ensures !r.Created? ==> products == old(products) && images == old(images) && nextProductId == old(nextProductId)
      ensures form.category in categories && 1 <= |uploads| <= MaxImages ==>
                && r == Created(old(nextProductId))
                && nextProductId == old(nextProductId) + 1
                && products == old(products) + [Product(r.product, form.name, form.description, form.price,
                                                        form.category, Discount(form.discountPct, form.price),
                                                        uploads[0], vendor)]
                && images == old(images) + ImagesFor(r.product, uploads)
    {
      if form.category !in categories {
        return CategoryNotFound;
      }
      var discount := Discount(form.discountPct, form.price);
      if |uploads| == 0 {
        return NoImages;
      }
      if |uploads| > MaxImages {
        return TooManyImages;
      }
      var pid := nextProductId;
      var product := Product(pid, form.name, form.description, form.price, form.category, discount, uploads[0], vendor);
      products := products + [product];
      nextProductId := nextProductId + 1;
      ImagesForBelow(images, pid, uploads);
      AddGallery(pid, uploads);
      return Created(pid);
    }

    /** The loop of `add_product` that creates one gallery row per upload, numbered from 0. */
    method AddGallery(pid: ProductId, uploads: seq<Upload>)
      modifies this
      ensures images == old(images) + ImagesFor(pid, uploads)
      ensures products == old(products) && nextProductId == old(nextProductId) && categories == old(categories)
    {
      for index := 0 to |uploads|
        invariant images == old(images) + ImagesFor(pid, uploads[..index])
        invariant products == old(products) && nextProductId == old(nextProductId) && categories == old(categories)
      {
        ImagesForStep(pid, uploads, index);
        images := images + [ProductImage(pid, uploads[index], index)];
      }
      assert uploads[..|uploads|] == uploads;
    }
  }

  /**
   * What a successful `add_product` leaves behind: the listing's gallery is exactly its uploads,
   * numbered 0, 1, ... in upload order, and the legacy `image` column holds the gallery's first file.
   */
  lemma {:induction false} CreatedGallery(old_images: seq<ProductImage>, pid: ProductId, uploads: seq<Upload>, p: Product)
    requires forall im :: im in old_images ==> im.product < pid
    requires 1 <= |uploads| && p.id == pid && p.image == uploads[0]
    ensures GalleryOf(old_images + ImagesFor(pid, uploads), pid) == uploads
    ensures ImagesFor(pid, uploads)[0] == ProductImage(pid, p.image, 0)
  {
    GalleryOfNewProduct(old_images, pid, uploads);
  }
}
