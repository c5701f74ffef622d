/** The product detail page: the product record, the view state the page keeps
    (selected image, quantity, selected variant), the handlers that change it,
    and the pricing and add-to-cart expressions derived from the product. */
module ProductDetailPage {

  import opened Wrappers

  datatype ProductImage = ProductImage(id: int, src: string, alt: string)

  datatype ProductVariant = ProductVariant(id: int, name: string, price: real, isAvailable: bool)

  datatype Specification = Specification(name: string, value: string)

  /** Prices are exact reals here; the page works with IEEE doubles. */
  datatype Product = Product(
    id: int,
    name: string,
    description: string,
    summary: string,
    category: string,
    price: real,
    discountedPrice: Option<real>,
    images: seq<ProductImage>,
    variants: seq<ProductVariant>,
    inStock: bool,
    specifications: seq<Specification>,
    relatedProducts: seq<int>)

  // ---------------------------------------------------------------------------
  // Pricing

  /** The pricing block tests `discountedPrice` for truthiness: it must be
      present and non-zero. */
  predicate DiscountShown(p: Product): (shown: bool)
    ensures shown ==> p.discountedPrice.Some?
    ensures p.discountedPrice.Some? && p.discountedPrice.value > 0.0 ==> shown
  {
    p.discountedPrice.Some? && p.discountedPrice.value != 0.0
  }

  /** The big price: the discounted price when it is shown, else the base price. */
  function DisplayedPrice(p: Product): (r: real)
    ensures r == p.price || (p.discountedPrice.Some? && r == p.discountedPrice.value)
    ensures r != p.price ==> DiscountShown(p)
  {
    if DiscountShown(p) then p.discountedPrice.value else p.price
  }

  /** What the "% OFF" badge shows. A zero base price makes the division in the
      badge infinite, which renders as a non-numeric label. */
  datatype DiscountLabel = NoLabel | PercentOff(percent: int) | NonFinite

  /** `Math.round`: the nearest integer, halves rounded towards +infinity. */
  function Round(x: real): (r: int)
    ensures r as real - 0.5 <= x < r as real + 0.5
  {
    (x + 0.5).Floor
  }

  /** The badge: absent unless the discount is shown, non-numeric for a zero
      base price, otherwise `1 - discounted / price` as a whole percentage,
      within one half of the exact value. */
  function Discount(p: Product): (badge: DiscountLabel)
    ensures badge == NoLabel <==> !DiscountShown(p)
    ensures badge == NonFinite <==> DiscountShown(p) && p.price == 0.0
    ensures badge.PercentOff? ==>
      var x := (1.0 - p.discountedPrice.value / p.price) * 100.0;
      badge.percent as real - 0.5 <= x < badge.percent as real + 0.5
  {
    if !DiscountShown(p) then NoLabel
    else if p.price == 0.0 then NonFinite
    else PercentOff(Round((1.0 - p.discountedPrice.value / p.price) * 100.0))
  }

  /** A well-formed product record: a discounted price, when present, lies
      between zero and the base price. */
  predicate WellPriced(p: Product) {
    0.0 <= p.price &&
    (p.discountedPrice.Some? ==> 0.0 <= p.discountedPrice.value <= p.price)
  }

  /** The displayed price never exceeds the base price, and it is strictly
      below it exactly when a discount below the base price is shown. */
  lemma DisplayedPriceBounds(p: Product)
    requires WellPriced(p)
    ensures 0.0 <= DisplayedPrice(p) <= p.price
    ensures DisplayedPrice(p) < p.price <==> DiscountShown(p) && p.discountedPrice.value < p.price
    ensures DisplayedPrice(p) != p.price ==> DisplayedPrice(p) == p.discountedPrice.value
  {
  }

  /** The badge is shown exactly when the discounted price is, and for a
      well-formed product with a positive price it is the saved fraction of the
      base price, rounded to the nearest whole percent, between 0 and 100. */
  lemma DiscountPercentInRange(p: Product)
    requires WellPriced(p)
    ensures Discount(p) != NoLabel <==> DiscountShown(p)
    ensures DiscountShown(p) ==> Discount(p).PercentOff?
    ensures Discount(p).PercentOff? ==>
      var saved := (p.price - p.discountedPrice.value) / p.price * 100.0;
      0 <= Discount(p).percent <= 100 &&
      Discount(p).percent as real - 0.5 <= saved < Discount(p).percent as real + 0.5
  {
    if DiscountShown(p) {
      var d, q := p.discountedPrice.value, p.price;
      assert 0.0 < d <= q;
      var x := (1.0 - d / q) * 100.0;
      assert d / q <= 1.0 by {
        assert d / q * q == d;
      }
      assert 0.0 < d / q;
      assert 0.0 <= x < 100.0;
      assert x == (q - d) / q * 100.0 by {
        var r := d / q;
        assert r * q == d;
        assert (q - d) / q * q == q - d;
        assert ((q - d) / q - (1.0 - r)) * q == 0.0;
      }
    }
  }

  /** A discounted price of 0 is falsy: the page then shows the base price and
      no badge, exactly as if there were no discount. */
  lemma FalsyDiscountIgnored(p: Product)
    requires p.discountedPrice == Some(0.0) || p.discountedPrice == None
    ensures DisplayedPrice(p) == p.price
    ensures Discount(p) == NoLabel
  {
  }

  /** The page's own record: 12.99 reduced to 9.99 shows 9.99 and "23% OFF". */
  lemma SampleProductDiscount(p: Product)
    requires p.price == 12.99 && p.discountedPrice == Some(9.99)
    ensures DisplayedPrice(p) == 9.99
    ensures Discount(p) == PercentOff(23)
  {
  }

  /** Whether the "Add to Cart" button is enabled: the negation of its
      `disabled` test. */
  predicate AddToCartEnabled(p: Product)
  {
    p.inStock
  }

  /** Variant availability and the view state play no part in enabling "Add to
      Cart": two records that agree on stock agree on the button. */
  lemma AddToCartIgnoresVariants(p: Product, vs: seq<ProductVariant>)
    ensures AddToCartEnabled(p.(variants := vs)) == AddToCartEnabled(p)
    ensures !p.inStock ==> !AddToCartEnabled(p.(variants := vs))
  {
  }

  // ---------------------------------------------------------------------------
  // Quantity

  /** The three ways the quantity is changed: typing into the field (the value
      after `parseInt`, with None standing for NaN), "+" and "-". */
  datatype QuantityInput = Typed(parsed: Option<int>) | Increase | Decrease

  /** Every input leaves the quantity as it is, adds one, takes one off a
      quantity above 1, or replaces it by a positive typed value; so a quantity
      of at least 1 stays at least 1. */
  function NextQuantity(q: int, e: QuantityInput): (r: int)
    ensures r == q || r == q + 1 || (q > 1 && r == q - 1) || (e.Typed? && e.parsed == Some(r) && r > 0)
    ensures q >= 1 ==> r >= 1
  {
    match e
    case Typed(v) => if v.Some? && v.value > 0 then v.value else q
    case Increase => q + 1
    case Decrease => if q > 1 then q - 1 else q
  }

  /** The quantity after a sequence of inputs; it never drops below 1. */
  function QuantityAfter(q: int, es: seq<QuantityInput>): (r: int)
    ensures q >= 1 ==> r >= 1
    decreases |es|
  {
    if es == [] then q else QuantityAfter(NextQuantity(q, es[0]), es[1..])
  }

  /** Typed input: a positive number replaces the quantity, anything else
      (zero, a negative number, NaN) leaves it alone. */
  lemma TypedQuantity(q: int, v: Option<int>)
    ensures v.Some? && v.value > 0 ==> NextQuantity(q, Typed(v)) == v.value
    ensures v.None? || v.value <= 0 ==> NextQuantity(q, Typed(v)) == q
    ensures q >= 1 ==> NextQuantity(q, Typed(v)) >= 1
  {
  }

  /** "-" is a no-op at 1 and otherwise takes exactly one off; "+" always adds
      exactly one and "-" undoes it. */
  lemma StepQuantity(q: int)
    requires q >= 1
    ensures NextQuantity(1, Decrease) == 1
    ensures q > 1 ==> NextQuantity(q, Decrease) == q - 1
    ensures NextQuantity(q, Increase) == q + 1
    ensures NextQuantity(NextQuantity(q, Increase), Decrease) == q
  {
  }

  /** k presses of "+" add k; there is no upper bound. */
  lemma {:induction false} IncreasesAdd(q: int, k: nat)
    ensures QuantityAfter(q, seq(k, _ => Increase)) == q + k
    decreases k
  {
    if k > 0 {
      var es := seq(k, _ => Increase);
      assert es[1..] == seq(k - 1, _ => Increase);
      IncreasesAdd(q + 1, k - 1);
    }
  }

  /** k presses of "-" take k off, but stop at 1. */
  lemma {:induction false} DecreasesStopAtOne(q: int, k: nat)
    requires q >= 1
    ensures QuantityAfter(q, seq(k, _ => Decrease)) == if q - k >= 1 then q - k else 1
    decreases k
  {
    if k > 0 {
      var es := seq(k, _ => Decrease);
      assert es[1..] == seq(k - 1, _ => Decrease);
      DecreasesStopAtOne(NextQuantity(q, Decrease), k - 1);
    }
  }

  // ---------------------------------------------------------------------------
  // Selections

  /** A variant index the page can end up selecting: the initial 0 (whether or
      not that variant exists or is available), or an available variant. */
  predicate ReachableVariant(p: Product, i: int) {
    i == 0 || (0 <= i < |p.variants| && p.variants[i].isAvailable)
  }

  /** The view state of one visit to the detail page. */
  class ProductDetailView {
    const product: Product
    var selectedImage: int
    var quantity: int
    var selectedVariant: int

    /** What every reachable state satisfies: a positive quantity, an image
        index that is 0 or a thumbnail's index, and a reachable variant. */
    ghost predicate Valid()
      reads this
    {
      quantity >= 1 &&
      0 <= selectedImage && (selectedImage == 0 || selectedImage < |product.images|) &&
      ReachableVariant(product, selectedVariant)
    }

    constructor (p: Product)
      ensures product == p
      ensures selectedImage == 0 && quantity == 1 && selectedVariant == 0
      ensures Valid()
    {
      product := p;
      selectedImage, quantity, selectedVariant := 0, 1, 0;
    }

    /** The large image: in bounds whenever the product has images at all. */
    function CurrentImage(): (img: ProductImage)
      reads this
      requires Valid() && |product.images| > 0
      ensures img in product.images
    {
      product.images[selectedImage]
    }

    /** `handleImageSelect`: sets the index, unconditionally. */
    method HandleImageSelect(index: int)
      modifies this
      ensures selectedImage == index
      ensures quantity == old(quantity) && selectedVariant == old(selectedVariant)
    {
      selectedImage := index;
    }

    /** `handleVariantSelect`: sets the index, unconditionally. */
    method HandleVariantSelect(index: int)
      modifies this
      ensures selectedVariant == index
      ensures quantity == old(quantity) && selectedImage == old(selectedImage)
    {
      selectedVariant := index;
    }

    /** `handleQuantityChange`, with the field's text already parsed. */
    method HandleQuantityChange(parsed: Option<int>)
      requires Valid()
      modifies this
      ensures Valid()
      ensures quantity == NextQuantity(old(quantity), Typed(parsed))
      ensures selectedImage == old(selectedImage) && selectedVariant == old(selectedVariant)
    {
      if parsed.Some? && parsed.value > 0 {
        quantity := parsed.value;
      }
    }

    /** `increaseQuantity`. */
    method IncreaseQuantity()
      requires Valid()
      modifies this
      ensures Valid()
      ensures quantity == NextQuantity(old(quantity), Increase)
      ensures selectedImage == old(selectedImage) && selectedVariant == old(selectedVariant)
    {
      quantity := quantity + 1;
    }

    /** `decreaseQuantity`. */
    method DecreaseQuantity()
      requires Valid()
      modifies this
      ensures Valid()
      ensures quantity == NextQuantity(old(quantity), Decrease)
      ensures selectedImage == old(selectedImage) && selectedVariant == old(selectedVariant)
    {
      if quantity > 1 {
        quantity := quantity - 1;
      }
    }

    /** A click on a thumbnail: the thumbnails are the image list, so the index
        passed to the handler is one of its positions. */
    method ClickThumbnail(index: int)
      requires Valid() && 0 <= index < |product.images|
      modifies this
      ensures Valid()
      ensures selectedImage == index
      ensures quantity == old(quantity) && selectedVariant == old(selectedVariant)
    {
      HandleImageSelect(index);
    }

    /** A click on a variant button: a disabled button (unavailable variant)
        fires no handler. */
    method ClickVariant(index: int)
      requires Valid() && 0 <= index < |product.variants|
      modifies this
      ensures Valid()
      ensures selectedVariant == if product.variants[index].isAvailable then index else old(selectedVariant)
      ensures quantity == old(quantity) && selectedImage == old(selectedImage)
    {
      if product.variants[index].isAvailable {
        HandleVariantSelect(index);
      }
    }
  }
}
