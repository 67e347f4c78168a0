# Storefront product card and hero carousel, in Dafny

This project models the two pieces of the storefront client that compute
something rather than only render markup:

- **The product card** (`client/src/components/products/ProductCard.jsx`). It
  resolves the prices to show from a product record whose price fields
  (`basePrice`, `regularPrice`, `price`, `salePrice`) may be missing, zero,
  numeric strings or overlapping. It decides the sale flag, the current and
  struck-through price, the flash-sale override and the discount percentage.
  It also builds the de-duplicated list of product images the card rotates
  through on hover, and decides whether a guest may see prices.
- **The hero carousel** (`client/src/components/sections/HeroSection.jsx`).
  It starts from two built-in slides and replaces them with the server's
  banners when a usable banner list arrives, mapping each banner to a slide with
  defaults. It steps the shown slide forward, back, or to a clicked indicator.

Modules:

- `Js` (`js.dfy`) holds JSON values: `Undefined`, `Null`, booleans, exact
  numbers, `NaN` and strings. It also holds JavaScript truthiness and `a || b`.
- `Cyclic` (`cyclic.dfy`) holds the `(i + 1) % n` and `(i - 1 + n) % n` index
  steps. The hover rotation and the carousel both use them.
- `ProductCard` (`product_card.dfy`) covers price resolution, price visibility,
  the image list and the hover rotation.
  - Price resolution is a pure function, `Resolve`. It returns a record of what
    the card shows.
  - The image list is an imperative method, `GetAllProductImages`. It uses
    loops and a set of seen URLs. Its result is proved equal to a reference
    function, `AllProductImages`.
- `HeroSection` (`hero_section.dfy`) holds the banner-to-slide mapping as
  functions and the carousel state as a class, `Carousel`. The class has the
  fields `slides`, `current`, `loading` and `isApiBanner`.

Prices are exact `real`s. A parsed price is `Option<real>`, and `None` is the
`null` the card uses for "absent". JavaScript truthiness is modelled exactly
where the code relies on it. In the `||` and `&&` chains a price of 0 counts as
absent (`NonZero`, `OrElse`). `Math.round(x)` is `floor(x + 1/2)`. The
following are parameters of the model, not definitions in it:

- `parseFloat` is a function `string -> Option<real>`, with `None` for NaN.
- `getImageUrl` is a function from an image entry to a string.

### Where the code does not do what one would expect (the model follows the code)

- **Display price above the struck-through price.** One would expect the
  price shown never to exceed the struck-through price. The code breaks this
  in its third branch (ProductCard.jsx:245-247) when `hasSale` is explicitly
  true. With only `salePrice: 100` and `regularPrice: 50`, the card shows 100
  and strikes through 50 (`ExplicitSaleCanStrikeLowerPrice`). When the sale
  flag is inferred and there is no flash sale, the struck-through price is
  always strictly higher (`InferredSaleStrikesHigherPrice`). A flash sale
  priced above the original breaks it too: base price 100 with an active
  flash sale at 200 shows 200 and strikes through 100
  (`FlashSaleAboveOriginal`, lines 261-267).
- **Replacing the original price in a flash sale.** The comment at line 262
  suggests the original price is set only when there is none. The code tests
  its truthiness (`!originalPrice`, line 263), so an original price of 0 is
  replaced too.
- **Flash-sale discount.** The discount during a flash sale is the server's
  `discountPercentage`, whatever its type or range. It is not always an integer
  from 0 to 100. Outside flash sales there are two conditions:
  - the card computes a discount only when the original and the current price
    are both non-zero;
  - `calculateDiscountPercentage` returns 0 unless the original price is above
    the current one.
- **Negative display price.** Nothing clamps a negative price. The display
  price is negative if the record holds one.
- **Redundant third inference test.** The third test of sale inference
  (`basePrice && regularPrice && sale < regular`, line 221) is implied by the
  first. The contract of `SaleFlag` states the inference without it.

## Model

| member | source | states |
|---|---|---|
| `ProductCard.ParsePrice` | client/src/components/products/ProductCard.jsx:196-201 | null and undefined give absent; a literal 0 stays 0; numbers are kept; strings go through `parseFloat`; a boolean becomes 1 or 0; the result is absent exactly for null, undefined, NaN or an unparseable string |
| `ProductCard.ParseFields` | client/src/components/products/ProductCard.jsx:203-206 | each of the four price fields is parsed on its own |
| `ProductCard.FirstNonZero` | client/src/components/products/ProductCard.jsx:242-249 | reference for an `\|\|` chain: the result is non-zero and one of the candidates; it is absent exactly when every candidate is 0 or absent |
| `ProductCard.FirstAbove` | client/src/components/products/ProductCard.jsx:238-240 | reference for the original-price search: the result is non-zero, strictly above the floor and one of the candidates; it is absent exactly when no candidate is |
| `ProductCard.SaleFlag` | client/src/components/products/ProductCard.jsx:213-223 | a given (non-null) `hasSale` decides by its truthiness; otherwise it is a sale iff the sale price is > 0 and strictly below a present regular price or a present price |
| `ProductCard.BasePrices` | client/src/components/products/ProductCard.jsx:225-251 | the current price is always a number; with base and regular price both present the base price is shown and the regular price is struck through iff there is a sale and base < regular |
| `ProductCard.SaleBesidePriceOnSale` | client/src/components/products/ProductCard.jsx:235-240 | branch 2 on a sale: the sale price is shown and the original is the first of price, base, regular that is non-zero and above the sale price (none if none is) |
| `ProductCard.SaleBesidePriceOffSale` | client/src/components/products/ProductCard.jsx:241-243 | branch 2 otherwise: the first non-zero of price, base, regular, else 0; the sale price is not a candidate; nothing struck through |
| `ProductCard.FallbackOnSale` | client/src/components/products/ProductCard.jsx:244-247 | branch 3 on a sale: the sale price is shown and the original is the first non-zero of regular, price, base (none if all are 0 or absent) |
| `ProductCard.FallbackOffSale` | client/src/components/products/ProductCard.jsx:248-250 | branch 3 otherwise: the first non-zero of base, regular, price, sale, else 0; nothing struck through |
| `ProductCard.Guard` | client/src/components/products/ProductCard.jsx:253-255 | a null current price becomes 0, a number is kept |
| `ProductCard.Round` | client/src/components/products/ProductCard.jsx:16 | `Math.round`: the result is within one half of its argument, halves rounded up |
| `ProductCard.CalculateDiscountPercentage` | client/src/components/products/ProductCard.jsx:14-17 | 0 when either price is 0 or absent or regular ≤ sale; otherwise the integer nearest the exact percentage drop |
| `ProductCard.DiscountIsPercentage` | client/src/components/products/ProductCard.jsx:14-17 | for 0 < sale < regular the discount lies in 0..100 |
| `ProductCard.FlashPrice` | client/src/components/products/ProductCard.jsx:209-210 | absent unless `flashSale.isActive === true`; then the parsed flash-sale price |
| `ProductCard.Resolve` | client/src/components/products/ProductCard.jsx:203-274 | the guard never replaces a null; the badge shows iff an active flash sale has a parseable price; then the flash price is shown, the server's percentage is taken verbatim, and a non-zero original is kept, else the pre-flash price becomes the original; otherwise the current price is shown and the discount is 0 unless there is a sale with a non-zero original and current price, when it is `calculateDiscountPercentage` of the two |
| `ProductCard.NothingResolvesToZero` | client/src/components/products/ProductCard.jsx:225-274 | with no price field and no flash price: shows 0, nothing struck through, discount 0, whatever `hasSale` says |
| `ProductCard.InferredSaleStrikesHigherPrice` | client/src/components/products/ProductCard.jsx:213-251 | with `hasSale` not given and no flash sale, a struck-through price means a sale and is strictly above the price shown |
| `ProductCard.ExplicitSaleCanStrikeLowerPrice` | client/src/components/products/ProductCard.jsx:244-247 | `hasSale: true`, sale 100, regular 50: shows 100 and strikes through 50, with discount 0 |
| `ProductCard.BaseAndRegularOnSale` | client/src/components/products/ProductCard.jsx:228-234 | base 100, regular 150, `hasSale: true`: shows 100, strikes 150, 33% off |
| `ProductCard.PriceAndSaleInferred` | client/src/components/products/ProductCard.jsx:218-240 | price 200, sale 150, no flag: sale inferred; shows 150, strikes 200, 25% off |
| `ProductCard.FlashSaleOverBasePrice` | client/src/components/products/ProductCard.jsx:257-271 | base 100 with an active flash sale at 60 and 40%: shows 60, strikes 100, discount 40, badge shown |
| `ProductCard.FlashSaleAboveOriginal` | client/src/components/products/ProductCard.jsx:257-268 | base 100 with an active flash sale at 200: shows 200 and strikes through the lower 100, with the badge |
| `ProductCard.ZeroSalePriceString` | client/src/components/products/ProductCard.jsx:196-250 | a sale price of "0" alone: no sale, shows 0, nothing struck through, discount 0 |
| `ProductCard.ShowPrice` | client/src/components/products/ProductCard.jsx:279 | signed-in users always see prices; guests see them unless the settings' `hidePricesForGuests` is truthy; without settings prices show |
| `ProductCard.UrlOf` | client/src/components/products/ProductCard.jsx:137-138 | `img?.url \|\| img`: an object's truthy `url`, else the object itself; a bare entry is kept iff it is truthy, so falsy bare entries are skipped |
| `ProductCard.DedupElements` | client/src/components/products/ProductCard.jsx:140-143 | de-duplication keeps exactly the URLs it was given |
| `ProductCard.DedupDistinct` | client/src/components/products/ProductCard.jsx:140-143 | de-duplication leaves no URL twice |
| `ProductCard.DedupPrefix` | client/src/components/products/ProductCard.jsx:132-162 | the URLs taken first keep their places when more are appended |
| `ProductCard.AllProductImages` | client/src/components/products/ProductCard.jsx:128-179 | reference image list; never empty |
| `ProductCard.ImageListProperties` | client/src/components/products/ProductCard.jsx:128-179 | no duplicate URLs; the variants' images come first; when the arrays yield URLs the list holds exactly those; only when they yield none is `product.image` used, and only without it the placeholder |
| `ProductCard.TakeImages` | client/src/components/products/ProductCard.jsx:152-161 | one `forEach` over an images array appends exactly the de-duplicated new URLs, keeping the seen set equal to the list |
| `ProductCard.GetAllProductImages` | client/src/components/products/ProductCard.jsx:128-179 | the nested loops build exactly the reference image list |
| `ProductCard.HoverImageIndex` | client/src/components/products/ProductCard.jsx:182-193 | the hover index is 0 when not hovered or with at most one image; otherwise it stays below the image count |
| `ProductCard.HoverVisitsInOrder` | client/src/components/products/ProductCard.jsx:188-190 | while hovered over several images, after k timer steps the index is k mod count |
| `ProductCard.ShownImage` | client/src/components/products/ProductCard.jsx:330 | the shown image is the indexed one when the index is in range and that entry is non-empty; otherwise (index past the end, or empty entry) it is the placeholder |
| `ProductCard.HoverShowsListedImage` | client/src/components/products/ProductCard.jsx:182-193 | for a product that stays the same during the hover, the hover index always names an entry of the image list |
| `ProductCard.HoverEffect` | client/src/components/products/ProductCard.jsx:182-187 | a re-run of the effect resets the index to 0 when not hovered or with at most one image, and otherwise keeps it, even past the end of a new, shorter list |
| `ProductCard.StaleHoverIndexShowsPlaceholder` | client/src/components/products/ProductCard.jsx:182-193 | a list shrinking from three images to two while the third is shown leaves index 2, so the placeholder is shown (line 330) until the next step wraps to 1 |
| `Cyclic.Next` | client/src/components/sections/HeroSection.jsx:64-66 | `(i + 1) % n` lies in [0, n) and wraps the last index to 0 |
| `Cyclic.Prev` | client/src/components/sections/HeroSection.jsx:68-70 | `(i - 1 + n) % n` lies in [0, n) and wraps 0 to n − 1 |
| `Cyclic.PrevUndoesNext` | client/src/components/sections/HeroSection.jsx:64-70 | for an index in range, a step back undoes a step forward and vice versa |
| `Cyclic.Advance` | client/src/components/sections/HeroSection.jsx:72-76 | repeated forward steps (the auto-play timer) stay in range |
| `Cyclic.AdvanceIsModular` | client/src/components/sections/HeroSection.jsx:64-76 | k forward steps from i land on (i + k) mod n |
| `Cyclic.FullCycle` | client/src/components/sections/HeroSection.jsx:64-76 | n forward steps return to the starting slide |
| `HeroSection.ToSlide` | client/src/components/sections/HeroSection.jsx:43-51 | headline, subheadline and link are never falsy; a truthy field is kept, otherwise the defaults "Premium Products", "Shop With Confidence", "" and "/products" apply; the mobile image falls back to the desktop one; the call to action is always "Shop Now" |
| `HeroSection.FallbackSlidesWellFormed` | client/src/components/sections/HeroSection.jsx:10-29 | the two built-in slides each have a headline, a subheadline and the link `/products`, with different desktop images |
| `HeroSection.ToSlides` | client/src/components/sections/HeroSection.jsx:43-51 | the map succeeds iff no entry is null or undefined; it then yields one slide per banner, same count and order |
| `HeroSection.Accepts` | client/src/components/sections/HeroSection.jsx:42-51 | the slides are replaced iff the request returned, `success` is truthy, `banners` is a non-empty array and none of its entries is null or undefined |
| `HeroSection.Carousel.constructor` | client/src/components/sections/HeroSection.jsx:32-36 | starts on slide 0 of the two built-in slides, loading, not using server banners |
| `HeroSection.Carousel.Visibility` | client/src/components/sections/HeroSection.jsx:91-95 | exactly the slide at `current` is visible when it is in range; none is otherwise |
| `HeroSection.Carousel.View` | client/src/components/sections/HeroSection.jsx:78-87 | a spinner while loading; the bare banner layout only for server banners after loading |
| `HeroSection.Carousel.LoadBanners` | client/src/components/sections/HeroSection.jsx:38-62 | loading ends whatever happens; the slides are replaced by the mapped banners, and `isApiBanner` set, exactly when `Accepts` holds (a null entry makes the map throw into the catch); otherwise the slides stay; `current` is untouched, so it is in range afterwards iff it fits the new list |
| `HeroSection.Carousel.Next` | client/src/components/sections/HeroSection.jsx:64-66 | `current` becomes (current + 1) mod n, in range, wrapping from the last slide to the first |
| `HeroSection.Carousel.Prev` | client/src/components/sections/HeroSection.jsx:68-70 | `current` becomes (current − 1 + n) mod n, in range, wrapping from the first slide to the last |
| `HeroSection.Carousel.Select` | client/src/components/sections/HeroSection.jsx:152-155 | clicking indicator i (one exists per slide) shows slide i |
| `HeroSection.PrevAfterNext` | client/src/components/sections/HeroSection.jsx:64-70 | on the carousel, next then previous returns to the slide that was shown |
| `HeroSection.NullBannerKeepsFallback` | client/src/components/sections/HeroSection.jsx:42-59 | a banner list with a null entry keeps the built-in slides and their overlay layout, and loading ends |
| `HeroSection.StaleIndexAfterBanners` | client/src/components/sections/HeroSection.jsx:52-76 | an auto-play step during loading followed by a single banner leaves `current` at 1 of 1 slide, so no slide is visible |

## Left out

- `ProductCard.HoverShowsListedImage`: it holds the product, and with it the
  image count, fixed during a hover. A product whose image list shrinks
  mid-hover can leave the index past the end, and line 330 then shows the
  placeholder; `StaleHoverIndexShowsPlaceholder` exhibits that case.

- The wishlist fetch and toggle (ProductCard.jsx lines 31-125) and the fetch of
  the price-visibility settings (lines 55-69) are left out. They are HTTP calls
  through a helper that is not part of this model. `ShowPrice` takes the
  settings they would yield as a parameter.
- The banner fetch is not modelled as a network call. `LoadBanners` takes its
  settled outcome as a `BannerResponse`.
- Timers are modelled as a count of steps, not as time. This covers the hover
  rotation's and the carousel's `setInterval` (ProductCard.jsx:188,
  HeroSection.jsx:74).
- The carousel's `isAutoPlaying` flag (mouse enter and leave on the arrows)
  only pauses that timer, so it is left out.
- `getImageUrl` is an uninterpreted parameter. `formatCurrency` and all markup
  are left out, including the discount badges and which arrows, indicators and
  dots are drawn.
- Floating point is left out. Prices are exact reals, so the result of
  `Math.round` near a half may differ from the browser's. `Infinity` is not
  modelled.
- String-to-number conversion is the `parseFloat` parameter, and its parsing
  rules are not modelled.
- A boolean price field is carried as 1 or 0. The source keeps the boolean
  itself, which compares, adds and tests for truthiness the same way.
- Objects and arrays inside price fields or banner fields are not modelled.
- A `null` entry inside `product.variants` is not modelled. The source would
  throw when it reads `variant.images`.
- `ProductCard.FirstNonZero`: its contract does not state that the result is
  the FIRST non-zero candidate. That follows from its definition, and
  `FirstNonZeroCons` unfolds it step by step.
- `ProductCard.FirstAbove`: its contract likewise does not state that the
  result is the FIRST match; `FirstAboveCons` unfolds it step by step.
- `HeroSection.Carousel.Valid` does not include "`current` is in range". The
  source does not reset `current` when it replaces the slides (line 52), so the
  range can only be claimed after `Next`, `Prev` or `Select`, or when the old
  index fits the new list (`LoadBanners`).
- The site chrome and pages are left out: the header, footer, about, contact
  and categories pages, the category grid and the root layout. They are markup,
  fetch-and-render code, or form state posted to the server.
