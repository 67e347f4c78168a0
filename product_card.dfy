/** The product card: how it resolves the prices to show from a product record
    whose price fields may be missing, overlapping or strings, which images it
    rotates through on hover, and whether a guest may see prices at all. */
module ProductCard {
  import opened Js
  import Cyclic

  // ---------------------------------------------------------------------------
  // The product record
  // ---------------------------------------------------------------------------

  /** A price field after parsing: `None` is the `null` the card uses for
      "absent". */
  type Price = Option<real>

  /** `product.flashSale` when it is an object. */
  datatype FlashSale = FlashSale(isActive: Value, flashSalePrice: Value, discountPercentage: Value)

  /** An element of an `images` array: a bare value (normally a URL string) or
      an object whose `url` field is `url` (Undefined when it has none). */
  datatype ImageEntry = Plain(v: Value) | WithUrl(url: Value)

  /** A product variant; `images` is None when the field is not an array. */
  datatype Variant = Variant(images: Option<seq<ImageEntry>>)

  /** The fields of a product that the card computes with. `flashSale`,
      `variants` and `images` are None when the field is missing or not of the
      expected shape (not an object, not an array). */
  datatype Product = Product(
    basePrice: Value,
    regularPrice: Value,
    price: Value,
    salePrice: Value,
    hasSale: Value,
    flashSale: Option<FlashSale>,
    variants: Option<seq<Variant>>,
    images: Option<seq<ImageEntry>>,
    image: Value)

  /** A product with every field missing. */
  const Blank := Product(Undefined, Undefined, Undefined, Undefined, Undefined, None, None, None, Undefined)

  // ---------------------------------------------------------------------------
  // Parsing and JavaScript number truthiness
  // ---------------------------------------------------------------------------

  /** `parsePrice`. `parseFloat` stands for JavaScript's `parseFloat`, with None
      for a NaN result. A boolean is carried as 1 or 0: the source keeps the
      boolean itself, which compares, adds and tests exactly like that number. */
  function ParsePrice(v: Value, parseFloat: string -> Option<real>): (r: Price)
    ensures Nullish(v) ==> r == None
    ensures v == Number(0.0) ==> r == Some(0.0)
    ensures v.Number? ==> r == Some(v.n)
    ensures v.Str? ==> r == parseFloat(v.s)
    ensures v.Bool? ==> r == Some(if v.b then 1.0 else 0.0)
    ensures r == None <==> Nullish(v) || v.NaN? || (v.Str? && parseFloat(v.s) == None)
  {
    match v
    case Undefined => None
    case Null => None
    case Number(n) => Some(n)
    case Bool(b) => Some(if b then 1.0 else 0.0)
    case NaN => None
    case Str(s) => parseFloat(s)
  }

  /** JavaScript truthiness of a parsed price: present and not zero. */
  predicate NonZero(p: Price) {
    p.Some? && p.value != 0.0
  }

  /** `a || b` on parsed prices. */
  function OrElse(a: Price, b: Price): (r: Price)
    ensures NonZero(a) ==> r == a
    ensures !NonZero(a) ==> r == b
  {
    if NonZero(a) then a else b
  }

  /** Reference definition for an `||` chain: the first non-zero price. */
  function FirstNonZero(ps: seq<Price>): (r: Price)
    ensures r.Some? ==> NonZero(r) && r in ps
    ensures r.None? <==> forall i :: 0 <= i < |ps| ==> !NonZero(ps[i])
  {
    if ps == [] then None
    else if NonZero(ps[0]) then ps[0]
    else
      var r := FirstNonZero(ps[1..]);
      assert forall i :: 1 <= i < |ps| ==> ps[i] == ps[1..][i - 1];
      r
  }

  /** Reference definition for the original price on a sale: the first price
      that is non-zero and strictly above `floor`. */
  function FirstAbove(ps: seq<Price>, floor: real): (r: Price)
    ensures r.Some? ==> NonZero(r) && r.value > floor && r in ps
    ensures r.None? <==> forall i :: 0 <= i < |ps| ==> !(NonZero(ps[i]) && ps[i].value > floor)
  {
    if ps == [] then None
    else if NonZero(ps[0]) && ps[0].value > floor then ps[0]
    else
      var r := FirstAbove(ps[1..], floor);
      assert forall i :: 1 <= i < |ps| ==> ps[i] == ps[1..][i - 1];
      r
  }

  /** One step of the first-non-zero search. */
  lemma FirstNonZeroCons(p: Price, ps: seq<Price>)
    ensures FirstNonZero([p] + ps) == OrElse(p, FirstNonZero(ps))
  {
    assert ([p] + ps)[1..] == ps;
  }

  /** One step of the first-above search. */
  lemma FirstAboveCons(p: Price, ps: seq<Price>, floor: real)
    ensures FirstAbove([p] + ps, floor) == if NonZero(p) && p.value > floor then p else FirstAbove(ps, floor)
  {
    assert ([p] + ps)[1..] == ps;
  }

  /** The four price fields of a product, parsed. */
  datatype Fields = Fields(base: Price, regular: Price, price: Price, sale: Price)

  function ParseFields(p: Product, parseFloat: string -> Option<real>): (f: Fields)
    ensures f.base == ParsePrice(p.basePrice, parseFloat)
    ensures f.regular == ParsePrice(p.regularPrice, parseFloat)
    ensures f.price == ParsePrice(p.price, parseFloat)
    ensures f.sale == ParsePrice(p.salePrice, parseFloat)
  {
    Fields(ParsePrice(p.basePrice, parseFloat), ParsePrice(p.regularPrice, parseFloat),
           ParsePrice(p.price, parseFloat), ParsePrice(p.salePrice, parseFloat))
  }

  // ---------------------------------------------------------------------------
  // Sale flag
  // ---------------------------------------------------------------------------

  /** The sale flag: `Boolean(product.hasSale)` when that field is given,
      otherwise inferred from the prices. */
  function SaleFlag(hasSale: Value, f: Fields): (r: bool)
    ensures !Nullish(hasSale) ==> (r <==> Truthy(hasSale))
    ensures Nullish(hasSale) ==>
      (r <==> f.sale.Some? && f.sale.value > 0.0 &&
              ((f.regular.Some? && f.sale.value < f.regular.value) ||
               (f.price.Some? && f.sale.value < f.price.value)))
  {
    if !Nullish(hasSale) then Truthy(hasSale)
    else if f.sale.Some? && f.sale.value > 0.0 then
      if NonZero(f.regular) && f.sale.value < f.regular.value then true
      else if NonZero(f.price) && f.sale.value < f.price.value then true
      else NonZero(f.base) && NonZero(f.regular) && f.sale.value < f.regular.value
    else false
  }

  // ---------------------------------------------------------------------------
  // Current and original price
  // ---------------------------------------------------------------------------

  /** Current price (possibly null before the guard) and struck-through price. */
  datatype Pricing = Pricing(current: Price, original: Price)

  /** The first branch applies: base and regular price are both present. */
  predicate BothBaseAndRegular(f: Fields) {
    f.base.Some? && f.regular.Some?
  }

  /** The second branch applies: a sale price beside a price or a base price. */
  predicate SaleBesidePrice(f: Fields) {
    !BothBaseAndRegular(f) && f.sale.Some? && (f.price.Some? || f.base.Some?)
  }

  /** The third branch applies: neither of the first two. */
  predicate Fallback(f: Fields) {
    !BothBaseAndRegular(f) && !SaleBesidePrice(f)
  }

  /** The three-way choice of current and original price. */
  function BasePrices(sale: bool, f: Fields): (r: Pricing)
    // the current price is always a number
    ensures r.current.Some?
    // branch 1: base price shown; regular struck through exactly on a sale below it
    ensures BothBaseAndRegular(f) ==>
      r.current == f.base &&
      (r.original.Some? <==> sale && f.base.value < f.regular.value) &&
      (r.original.Some? ==> r.original == f.regular)
  {
    if f.base.Some? && f.regular.Some? then
      if sale && f.base.value < f.regular.value then Pricing(f.base, f.regular)
      else Pricing(f.base, None)
    else if f.sale.Some? && (f.price.Some? || f.base.Some?) then
      if sale && NonZero(f.sale) then
        var original :=
          if NonZero(f.price) && f.price.value > f.sale.value then f.price
          else if NonZero(f.base) && f.base.value > f.sale.value then f.base
          else if NonZero(f.regular) && f.regular.value > f.sale.value then f.regular
          else None;
        Pricing(f.sale, original)
      else
        Pricing(OrElse(f.price, OrElse(f.base, OrElse(f.regular, Some(0.0)))), None)
    else
      if sale && NonZero(f.sale) then
        Pricing(f.sale, OrElse(f.regular, OrElse(f.price, OrElse(f.base, None))))
      else
        Pricing(OrElse(f.base, OrElse(f.regular, OrElse(f.price, OrElse(f.sale, Some(0.0))))), None)
  }

  /** Branch 2 on a sale shows the sale price and strikes through the first of
      price, base price and regular price that lies above it, if any. */
  lemma SaleBesidePriceOnSale(sale: bool, f: Fields)
    requires SaleBesidePrice(f) && sale && NonZero(f.sale)
    ensures BasePrices(sale, f) == Pricing(f.sale, FirstAbove([f.price, f.base, f.regular], f.sale.value))
  {
    var s := f.sale.value;
    FirstAboveCons(f.price, [f.base, f.regular], s);
    FirstAboveCons(f.base, [f.regular], s);
    FirstAboveCons(f.regular, [], s);
    assert [f.price, f.base, f.regular] == [f.price] + [f.base, f.regular];
    assert [f.base, f.regular] == [f.base] + [f.regular];
  }

  /** Branch 2 without a sale shows the first non-zero of price, base price and
      regular price, or 0; the sale price is never shown here. */
  lemma SaleBesidePriceOffSale(sale: bool, f: Fields)
    requires SaleBesidePrice(f) && !(sale && NonZero(f.sale))
    ensures BasePrices(sale, f) == Pricing(Some(FirstNonZero([f.price, f.base, f.regular]).GetOr(0.0)), None)
  {
    FirstNonZeroCons(f.price, [f.base, f.regular]);
    FirstNonZeroCons(f.base, [f.regular]);
    FirstNonZeroCons(f.regular, []);
    assert [f.price, f.base, f.regular] == [f.price] + [f.base, f.regular];
    assert [f.base, f.regular] == [f.base] + [f.regular];
  }

  /** Branch 3 on a sale shows the sale price and strikes through the first
      non-zero of regular price, price and base price, if any. */
  lemma FallbackOnSale(sale: bool, f: Fields)
    requires Fallback(f) && sale && NonZero(f.sale)
    ensures BasePrices(sale, f) == Pricing(f.sale, FirstNonZero([f.regular, f.price, f.base]))
  {
    FirstNonZeroCons(f.regular, [f.price, f.base]);
    FirstNonZeroCons(f.price, [f.base]);
    FirstNonZeroCons(f.base, []);
    assert [f.regular, f.price, f.base] == [f.regular] + [f.price, f.base];
    assert [f.price, f.base] == [f.price] + [f.base];
  }

  /** Branch 3 without a sale shows the first non-zero of base price, regular
      price, price and sale price, or 0. */
  lemma FallbackOffSale(sale: bool, f: Fields)
    requires Fallback(f) && !(sale && NonZero(f.sale))
    ensures BasePrices(sale, f) == Pricing(Some(FirstNonZero([f.base, f.regular, f.price, f.sale]).GetOr(0.0)), None)
  {
    FirstNonZeroCons(f.sale, []);
    FirstNonZeroCons(f.price, [f.sale]);
    assert [f.price, f.sale] == [f.price] + [f.sale];
    FirstNonZeroCons(f.regular, [f.price, f.sale]);
    assert [f.regular, f.price, f.sale] == [f.regular] + [f.price, f.sale];
    FirstNonZeroCons(f.base, [f.regular, f.price, f.sale]);
    assert [f.base, f.regular, f.price, f.sale] == [f.base] + [f.regular, f.price, f.sale];
    assert FirstNonZero([f.base, f.regular, f.price, f.sale]) ==
      OrElse(f.base, OrElse(f.regular, OrElse(f.price, OrElse(f.sale, None))));
  }

  /** The guard that forces the current price to a number (0 for null). */
  function Guard(current: Price): (r: real)
    ensures current.Some? ==> r == current.value
    ensures current.None? ==> r == 0.0
  {
    if current.None? then 0.0 else current.value
  }

  // ---------------------------------------------------------------------------
  // Discount
  // ---------------------------------------------------------------------------

  /** `Math.round`: the nearest integer, halves rounded up. */
  function Round(x: real): (n: int)
    ensures x - 0.5 < n as real <= x + 0.5
  {
    (x + 0.5).Floor
  }

  /** The exact percentage drop from `regular` to `sale`. */
  function Drop(regular: real, sale: real): real
    requires regular != 0.0
  {
    (regular - sale) / regular * 100.0
  }

  /** `calculateDiscountPercentage`. */
  function CalculateDiscountPercentage(regular: Price, sale: Price): (d: int)
    ensures !NonZero(regular) || !NonZero(sale) || regular.value <= sale.value ==> d == 0
    ensures NonZero(regular) && NonZero(sale) && regular.value > sale.value ==>
      Drop(regular.value, sale.value) - 0.5 < d as real <= Drop(regular.value, sale.value) + 0.5
  {
    if !NonZero(regular) || !NonZero(sale) || regular.value <= sale.value then 0
    else Round(Drop(regular.value, sale.value))
  }

  /** The product of two non-negative reals is non-negative. */
  lemma MulNonNegative(a: real, b: real)
    requires a >= 0.0 && b >= 0.0
    ensures a * b >= 0.0
  {
  }

  /** For positive prices the discount is a percentage between 0 and 100. */
  lemma DiscountIsPercentage(regular: real, sale: real)
    requires 0.0 < sale < regular
    ensures 0 <= CalculateDiscountPercentage(Some(regular), Some(sale)) <= 100
  {
    var x := (regular - sale) / regular;
    assert x * regular == regular - sale;
    if x >= 1.0 {
      MulNonNegative(x - 1.0, regular);
    }
  }

  // ---------------------------------------------------------------------------
  // The whole resolution
  // ---------------------------------------------------------------------------

  /** What the card shows. `discountPercent` is a number computed by the card,
      or, during a flash sale, whatever the server sent. */
  datatype PriceDisplay = PriceDisplay(
    hasSale: bool,
    originalPrice: Price,
    currentPrice: real,
    displayPrice: real,
    showFlashSaleBadge: bool,
    discountPercent: Value)

  /** `product.flashSale?.isActive === true`. */
  predicate FlashSaleActive(p: Product) {
    p.flashSale.Some? && p.flashSale.value.isActive == Bool(true)
  }

  /** The parsed flash-sale price, null when no flash sale is active. */
  function FlashPrice(p: Product, parseFloat: string -> Option<real>): (r: Price)
    ensures !FlashSaleActive(p) ==> r == None
    ensures FlashSaleActive(p) ==> r == ParsePrice(p.flashSale.value.flashSalePrice, parseFloat)
  {
    if FlashSaleActive(p) then ParsePrice(p.flashSale.value.flashSalePrice, parseFloat) else None
  }

  /** The price block of the card: sale flag, current and original price,
      flash-sale override and discount. */
  function Resolve(p: Product, parseFloat: string -> Option<real>): (r: PriceDisplay)
    ensures r.hasSale == SaleFlag(p.hasSale, ParseFields(p, parseFloat))
    // the guard never has to replace a null
    ensures Some(r.currentPrice) == BasePrices(r.hasSale, ParseFields(p, parseFloat)).current
    // the flash-sale badge is shown exactly when an active flash sale has a parseable price
    ensures r.showFlashSaleBadge <==> FlashPrice(p, parseFloat).Some?
    // flash sale: flash price shown, server's percentage verbatim, a non-zero original kept,
    // otherwise the pre-flash current price becomes the original
    ensures r.showFlashSaleBadge ==>
      var b := BasePrices(r.hasSale, ParseFields(p, parseFloat)).original;
      && r.displayPrice == FlashPrice(p, parseFloat).value
      && r.discountPercent == p.flashSale.value.discountPercentage
      && r.originalPrice == (if NonZero(b) then b else Some(r.currentPrice))
    // no flash sale: the current price is shown, the original is the branch's
    ensures !r.showFlashSaleBadge ==>
      && r.displayPrice == r.currentPrice
      && r.originalPrice == BasePrices(r.hasSale, ParseFields(p, parseFloat)).original
      && r.discountPercent.Number?
    // no flash sale: a discount only on a sale with both prices non-zero, and then it is
    // the rounded drop from the original to the current price
    ensures !r.showFlashSaleBadge && !(r.hasSale && NonZero(r.originalPrice) && r.currentPrice != 0.0) ==>
      r.discountPercent == Number(0.0)
    ensures !r.showFlashSaleBadge && r.hasSale && NonZero(r.originalPrice) && r.currentPrice != 0.0 ==>
      r.discountPercent == Number(CalculateDiscountPercentage(r.originalPrice, Some(r.currentPrice)) as real)
  {
    var f := ParseFields(p, parseFloat);
    var flash := FlashSaleActive(p);
    var flashPrice := FlashPrice(p, parseFloat);
    var flashDiscount := if flash then p.flashSale.value.discountPercentage else Number(0.0);
    var sale := SaleFlag(p.hasSale, f);
    var b := BasePrices(sale, f);
    var current := Guard(b.current);
    var badge := flash && flashPrice.Some?;
    var original := if badge && !NonZero(b.original) then Some(current) else b.original;
    var display := if badge then flashPrice.value else current;
    var discount :=
      if badge then flashDiscount
      else if sale && NonZero(original) && current != 0.0 then
        Number(CalculateDiscountPercentage(original, Some(current)) as real)
      else Number(0.0);
    PriceDisplay(sale, original, current, display, badge, discount)
  }

  /** With no price field resolving and no flash sale, the card shows 0 with
      nothing struck through and no discount, whatever `hasSale` says. */
  lemma NothingResolvesToZero(p: Product, parseFloat: string -> Option<real>)
    requires ParseFields(p, parseFloat) == Fields(None, None, None, None)
    requires FlashPrice(p, parseFloat) == None
    ensures var r := Resolve(p, parseFloat);
      r.displayPrice == 0.0 && r.originalPrice == None && r.discountPercent == Number(0.0) &&
      !r.showFlashSaleBadge
  {
  }

  /** Outside a flash sale, an inferred sale always strikes through a price
      strictly above the one shown. */
  lemma InferredSaleStrikesHigherPrice(p: Product, parseFloat: string -> Option<real>)
    requires Nullish(p.hasSale)
    requires FlashPrice(p, parseFloat) == None
    ensures var r := Resolve(p, parseFloat);
      r.originalPrice.Some? ==> r.hasSale && r.displayPrice < r.originalPrice.value
  {
    var f := ParseFields(p, parseFloat);
    var r := Resolve(p, parseFloat);
    if r.originalPrice.Some? && Fallback(f) {
      assert f.price == None && f.base == None;
      assert FirstNonZero([f.regular, f.price, f.base]) == f.regular;
    }
  }

  /** The same does not hold for an explicit `hasSale: true`: with only a sale
      price of 100 and a regular price of 50, the card shows 100 and strikes
      through 50. */
  lemma ExplicitSaleCanStrikeLowerPrice(parseFloat: string -> Option<real>)
    ensures var r := Resolve(Blank.(salePrice := Number(100.0), regularPrice := Number(50.0),
                                     hasSale := Bool(true)), parseFloat);
      r.displayPrice == 100.0 && r.originalPrice == Some(50.0) && r.discountPercent == Number(0.0)
  {
  }

  /** Base 100, regular 150, `hasSale: true`: shows 100, strikes 150, 33% off. */
  lemma BaseAndRegularOnSale(parseFloat: string -> Option<real>)
    ensures var r := Resolve(Blank.(basePrice := Number(100.0), regularPrice := Number(150.0),
                                     hasSale := Bool(true)), parseFloat);
      r.displayPrice == 100.0 && r.originalPrice == Some(150.0) && r.discountPercent == Number(33.0)
  {
    assert Drop(150.0, 100.0) == 100.0 / 3.0;
  }

  /** Price 200, sale 150, no flag: the sale is inferred; shows 150, strikes 200, 25% off. */
  lemma PriceAndSaleInferred(parseFloat: string -> Option<real>)
    ensures var r := Resolve(Blank.(price := Number(200.0), salePrice := Number(150.0)), parseFloat);
      r.hasSale && r.displayPrice == 150.0 && r.originalPrice == Some(200.0) &&
      r.discountPercent == Number(25.0)
  {
    assert Drop(200.0, 150.0) == 25.0;
  }

  /** Base 100 with an active flash sale at 60 and 40%: shows 60, strikes 100,
      the server's 40, and the badge. */
  lemma FlashSaleOverBasePrice(parseFloat: string -> Option<real>)
    ensures var r := Resolve(Blank.(basePrice := Number(100.0),
                                     flashSale := Some(FlashSale(Bool(true), Number(60.0), Number(40.0)))),
                             parseFloat);
      r.displayPrice == 60.0 && r.originalPrice == Some(100.0) && r.discountPercent == Number(40.0) &&
      r.showFlashSaleBadge
  {
  }

  /** A flash sale priced above the regular price: base 100 with an active
      flash sale at 200 shows 200 and strikes through the lower 100. */
  lemma FlashSaleAboveOriginal(parseFloat: string -> Option<real>)
    ensures var r := Resolve(Blank.(basePrice := Number(100.0),
                                     flashSale := Some(FlashSale(Bool(true), Number(200.0), Number(0.0)))),
                             parseFloat);
      r.displayPrice == 200.0 && r.originalPrice == Some(100.0) && r.showFlashSaleBadge &&
      r.originalPrice.value < r.displayPrice
  {
  }

  /** A sale price of "0" alone is no sale: shows 0, nothing struck, no discount. */
  lemma ZeroSalePriceString(parseFloat: string -> Option<real>)
    requires parseFloat("0") == Some(0.0)
    ensures var r := Resolve(Blank.(salePrice := Str("0")), parseFloat);
      !r.hasSale && r.displayPrice == 0.0 && r.originalPrice == None && r.discountPercent == Number(0.0)
  {
  }

  // ---------------------------------------------------------------------------
  // Price visibility
  // ---------------------------------------------------------------------------

  /** The price-visibility settings object, when the server provided one. */
  datatype VisibilitySettings = VisibilitySettings(hidePricesForGuests: Value)

  /** `showPrice`: hidden only from guests, and only when the settings say so. */
  function ShowPrice(settings: Option<VisibilitySettings>, isAuthenticated: bool): (r: bool)
    ensures isAuthenticated ==> r
    ensures settings.None? ==> r
    ensures !isAuthenticated && settings.Some? ==> (r <==> !Truthy(settings.value.hidePricesForGuests))
  {
    // `settings?.hidePricesForGuests` is undefined, hence falsy, without settings
    !(settings.Some? && Truthy(settings.value.hidePricesForGuests)) || isAuthenticated
  }

  // ---------------------------------------------------------------------------
  // Images
  // ---------------------------------------------------------------------------

  /** The image shown when the product has none. */
  const Placeholder: string := "/placeholder.jpg"

  /** `img?.url || img`, or None when that is falsy. An object without a truthy
      `url` is itself truthy and is handed on as it is. */
  function UrlOf(e: ImageEntry): (r: Option<ImageEntry>)
    ensures r.Some? ==> r.value.WithUrl? || Truthy(r.value.v)
    ensures e.Plain? ==> r == (if Truthy(e.v) then Some(e) else None)
    ensures e.WithUrl? ==> r == Some(if Truthy(e.url) then Plain(e.url) else e)
  {
    match e
    case Plain(v) => if Truthy(v) then Some(Plain(v)) else None
    case WithUrl(u) => if Truthy(u) then Some(Plain(u)) else Some(e)
  }

  /** The resolved URL of one entry, as a list of zero or one element. */
  function EntryUrl(e: ImageEntry, getImageUrl: ImageEntry -> string): (r: seq<string>)
    ensures |r| <= 1
  {
    if UrlOf(e).Some? then [getImageUrl(UrlOf(e).value)] else []
  }

  /** The resolved URLs of a list of entries, in order, before de-duplication. */
  function EntryUrls(es: seq<ImageEntry>, getImageUrl: ImageEntry -> string): (r: seq<string>)
    ensures |r| <= |es|
  {
    if es == [] then []
    else EntryUrls(es[..|es| - 1], getImageUrl) + EntryUrl(es[|es| - 1], getImageUrl)
  }

  /** The resolved URLs of a variant, none when its `images` is not an array. */
  function VariantUrls(v: Variant, getImageUrl: ImageEntry -> string): seq<string> {
    if v.images.Some? then EntryUrls(v.images.value, getImageUrl) else []
  }

  /** The resolved URLs of a list of variants, variant by variant. */
  function VariantsUrls(vs: seq<Variant>, getImageUrl: ImageEntry -> string): seq<string> {
    if vs == [] then []
    else VariantsUrls(vs[..|vs| - 1], getImageUrl) + VariantUrls(vs[|vs| - 1], getImageUrl)
  }

  /** Every candidate image of the variants, in order. */
  function VariantCandidates(p: Product, getImageUrl: ImageEntry -> string): seq<string> {
    if p.variants.Some? then VariantsUrls(p.variants.value, getImageUrl) else []
  }

  /** Every candidate image of the product's own `images` array, in order. */
  function ProductCandidates(p: Product, getImageUrl: ImageEntry -> string): seq<string> {
    if p.images.Some? then EntryUrls(p.images.value, getImageUrl) else []
  }

  /** The elements of `s` in order of first occurrence, each once. */
  function Dedup(s: seq<string>): (r: seq<string>)
    ensures |r| <= |s|
  {
    if s == [] then []
    else
      var d := Dedup(s[..|s| - 1]);
      if s[|s| - 1] in d then d else d + [s[|s| - 1]]
  }

  /** No element occurs twice. */
  predicate Distinct(s: seq<string>) {
    forall i, j :: 0 <= i < j < |s| ==> s[i] != s[j]
  }

  /** De-duplication keeps exactly the elements of its input. */
  lemma {:induction false} DedupElements(s: seq<string>)
    ensures forall x :: x in Dedup(s) <==> x in s
  {
    if s != [] {
      var init := s[..|s| - 1];
      DedupElements(init);
      assert s == init + [s[|s| - 1]];
    }
  }

  /** De-duplication leaves no element twice. */
  lemma {:induction false} DedupDistinct(s: seq<string>)
    ensures Distinct(Dedup(s))
  {
    if s != [] {
      DedupDistinct(s[..|s| - 1]);
    }
  }

  /** De-duplicating `a + b` starts with de-duplicated `a`: what comes first
      keeps its place. */
  lemma {:induction false} DedupPrefix(a: seq<string>, b: seq<string>)
    ensures Dedup(a) <= Dedup(a + b)
  {
    if b == [] {
      assert a + b == a;
    } else {
      var b' := b[..|b| - 1];
      DedupPrefix(a, b');
      assert (a + b)[..|a + b| - 1] == a + b';
    }
  }

  /** The reference image list: de-duplicated variant images then product
      images; else the single image; else the placeholder. */
  function AllProductImages(p: Product, getImageUrl: ImageEntry -> string): (r: seq<string>)
    ensures r != []
  {
    var found := Dedup(VariantCandidates(p, getImageUrl) + ProductCandidates(p, getImageUrl));
    if found != [] then found
    else if Truthy(p.image) then [getImageUrl(Plain(p.image))]
    else [Placeholder]
  }

  /** The image list has no duplicates, lists the variants' images first, and
      falls back to `product.image` and then the placeholder only when both
      arrays yield nothing. */
  lemma ImageListProperties(p: Product, getImageUrl: ImageEntry -> string)
    ensures Distinct(AllProductImages(p, getImageUrl))
    ensures Dedup(VariantCandidates(p, getImageUrl)) <= AllProductImages(p, getImageUrl)
    ensures var candidates := VariantCandidates(p, getImageUrl) + ProductCandidates(p, getImageUrl);
      && (candidates != [] ==> forall u :: u in AllProductImages(p, getImageUrl) <==> u in candidates)
      && (candidates == [] && Truthy(p.image) ==>
            AllProductImages(p, getImageUrl) == [getImageUrl(Plain(p.image))])
      && (candidates == [] && !Truthy(p.image) ==> AllProductImages(p, getImageUrl) == [Placeholder])
  {
    var vc, pc := VariantCandidates(p, getImageUrl), ProductCandidates(p, getImageUrl);
    DedupDistinct(vc + pc);
    DedupElements(vc + pc);
    DedupPrefix(vc, pc);
    if vc + pc == [] {
      assert vc == [];
    }
  }

  /** De-duplicating one more element appends it unless it was already there. */
  lemma DedupSnoc(s: seq<string>, u: string)
    ensures Dedup(s + [u]) == if u in Dedup(s) then Dedup(s) else Dedup(s) + [u]
  {
    assert (s + [u])[..|s|] == s;
  }

  /** The candidate URLs of one more entry. */
  lemma EntryUrlsSnoc(entries: seq<ImageEntry>, j: nat, getImageUrl: ImageEntry -> string)
    requires j < |entries|
    ensures EntryUrls(entries[..j + 1], getImageUrl) == EntryUrls(entries[..j], getImageUrl) + EntryUrl(entries[j], getImageUrl)
  {
    assert entries[..j + 1][..j] == entries[..j];
  }

  /** The body of the `forEach` over one `images` array: appends the resolved
      URL of each entry unless `seen` already holds it. `taken` is every
      candidate URL visited so far. */
  method TakeImages(images: seq<string>, seen: set<string>, ghost taken: seq<string>,
                    entries: seq<ImageEntry>, getImageUrl: ImageEntry -> string)
    returns (images': seq<string>, seen': set<string>)
    requires images == Dedup(taken)
    requires forall x :: x in seen <==> x in images
    ensures images' == Dedup(taken + EntryUrls(entries, getImageUrl))
    ensures forall x :: x in seen' <==> x in images'
  {
    images', seen' := images, seen;
    assert taken + EntryUrls(entries[..0], getImageUrl) == taken;
    for j := 0 to |entries|
      invariant images' == Dedup(taken + EntryUrls(entries[..j], getImageUrl))
      invariant forall x :: x in seen' <==> x in images'
    {
      ghost var upTo := taken + EntryUrls(entries[..j], getImageUrl);
      EntryUrlsSnoc(entries, j, getImageUrl);
      assert taken + EntryUrls(entries[..j + 1], getImageUrl) == upTo + EntryUrl(entries[j], getImageUrl);
      var url := UrlOf(entries[j]);
      if url.Some? {
        var imageUrl := getImageUrl(url.value);
        DedupSnoc(upTo, imageUrl);
        if imageUrl !in seen' {
          seen' := seen' + {imageUrl};
          images' := images' + [imageUrl];
        }
      } else {
        assert upTo + [] == upTo;
      }
    }
    assert entries[..|entries|] == entries;
  }

  /** `getAllProductImages`: walks the variants' images and then the product's,
      keeping a set of the URLs already taken. */
  method GetAllProductImages(p: Product, getImageUrl: ImageEntry -> string) returns (images: seq<string>)
    ensures images == AllProductImages(p, getImageUrl)
  {
    images := [];
    var seen: set<string> := {};

    // Priority 1: variant images
    if p.variants.Some? {
      var vs := p.variants.value;
      for i := 0 to |vs|
        invariant images == Dedup(VariantsUrls(vs[..i], getImageUrl))
        invariant forall x :: x in seen <==> x in images
      {
        assert vs[..i + 1][..i] == vs[..i];
        ghost var before := VariantsUrls(vs[..i], getImageUrl);
        if vs[i].images.Some? {
          images, seen := TakeImages(images, seen, before, vs[i].images.value, getImageUrl);
        } else {
          assert before + VariantUrls(vs[i], getImageUrl) == before;
        }
      }
      assert vs[..|vs|] == vs;
    }

    // Priority 2: the product's images array
    ghost var variantPart := VariantCandidates(p, getImageUrl);
    if p.images.Some? {
      images, seen := TakeImages(images, seen, variantPart, p.images.value, getImageUrl);
    } else {
      assert variantPart + ProductCandidates(p, getImageUrl) == variantPart;
    }

    // Priority 3: the single image
    if |images| == 0 && Truthy(p.image) {
      var imageUrl := getImageUrl(Plain(p.image));
      if imageUrl !in seen {
        seen := seen + {imageUrl};
        images := images + [imageUrl];
      }
    }

    // Final fallback
    if |images| == 0 {
      images := images + [Placeholder];
    }
  }

  // ---------------------------------------------------------------------------
  // Hover rotation
  // ---------------------------------------------------------------------------

  /** The hovered image index after the rotation effect has run and its timer
      has fired `ticks` times: reset to 0 when not hovered or when there is at
      most one image, otherwise stepped by `(prev + 1) % count` from 0. */
  function HoverImageIndex(hovered: bool, count: nat, ticks: nat): (r: nat)
    ensures !hovered || count <= 1 ==> r == 0
    ensures hovered && count > 1 ==> r < count
  {
    if !hovered || count <= 1 then 0 else Cyclic.Advance(0, count, ticks)
  }

  /** While hovered over several images, the rotation visits them in order:
      after `ticks` steps it shows image `ticks % count`. */
  lemma HoverVisitsInOrder(count: nat, ticks: nat)
    requires count > 1
    ensures HoverImageIndex(true, count, ticks) == ticks % count
  {
    Cyclic.AdvanceIsModular(0, count, ticks);
  }

  /** `getAllProductImages[currentImageIndex] || "/placeholder.jpg"`. */
  function ShownImage(images: seq<string>, index: nat): (r: string)
    ensures r in images || r == Placeholder
    ensures !(index < |images| && images[index] != "") ==> r == Placeholder
    ensures index < |images| && images[index] != "" ==> r == images[index]
  {
    if index < |images| && images[index] != "" then images[index] else Placeholder
  }

  /** For a product that stays the same while hovered, the rotation never runs
      past the image list, so the card shows a listed image (the placeholder
      only where that entry is an empty URL). */
  lemma HoverShowsListedImage(p: Product, getImageUrl: ImageEntry -> string, hovered: bool, ticks: nat)
    ensures var images := AllProductImages(p, getImageUrl);
      var index := HoverImageIndex(hovered, |images|, ticks);
      index < |images| &&
      ShownImage(images, index) == (if images[index] != "" then images[index] else Placeholder)
  {
  }

  /** The effect re-running with `count` images while the index is `prev`: it
      resets to 0 when not hovered or with at most one image, and otherwise
      keeps the index as it is, even when it is now past the end. */
  function HoverEffect(hovered: bool, count: nat, prev: nat): (r: nat)
    ensures !hovered || count <= 1 ==> r == 0
    ensures hovered && count > 1 ==> r == prev
  {
    if !hovered || count <= 1 then 0 else prev
  }

  /** If the product changes mid-hover and its image list shrinks from three to
      two while the third image is shown, the effect keeps index 2: the card
      falls back to the placeholder until the next timer step wraps to 1. */
  lemma StaleHoverIndexShowsPlaceholder(a: string, b: string, c: string)
    ensures var before := HoverImageIndex(true, 3, 2);
      var after := HoverEffect(true, 2, before);
      && before == 2 && ShownImage([a, b, c], before) == (if c != "" then c else Placeholder)
      && after == 2 && ShownImage([a, b], after) == Placeholder
      && Cyclic.Next(after, 2) == 1
  {
    HoverVisitsInOrder(3, 2);
  }
}
