/** The home page's hero carousel: a list of slides (two built-in slides until
    the server supplies banners), the index of the slide shown, and the two
    flags that pick the layout. */
module HeroSection {
  import opened Js
  import Cyclic

  /** One slide as the carousel renders it. */
  datatype Slide = Slide(
    headline: Value,
    subheadline: Value,
    description: Value,
    desktopImage: Value,
    mobileImage: Value,
    link: Value,
    cta: Value)

  /** One banner as the server sends it; a missing field is Undefined. */
  datatype Banner = Banner(
    title: Value,
    subtitle: Value,
    description: Value,
    desktopImage: Value,
    mobileImage: Value,
    link: Value)

  /** The outcome of fetching the banners: the request threw, or it returned a
      body whose `success` is `success` and whose `data.banners` is `banners`
      (None when that is not an array, including when the body or `data` is
      missing). An entry is None when it is `null` or `undefined`. */
  datatype BannerResponse = Threw | Returned(success: Value, banners: Option<seq<Option<Banner>>>)

  /** The two slides shown until banners arrive. */
  const FallbackSlides: seq<Slide> := [
    Slide(Str("Authentic Indian Namkeen"), Str("Taste the Tradition"),
          Str("Experience the rich flavors of traditional Indian snacks, crafted with pure ingredients and time-honored recipes passed down through generations."),
          Str("/banner-1.jpeg"), Str("/sm-banner-1.jpeg"), Str("/products"), Str("Shop Namkeen")),
    Slide(Str("Premium Quality Snacks"), Str("Purity You Can Trust"),
          Str("Made with the finest ingredients, no preservatives, and commitment to Jain values. Every bite is a celebration of authentic taste."),
          Str("/banner-2.jpeg"), Str("/sm-banner-1.jpeg"), Str("/products"), Str("Explore Collection"))
  ]

  /** The built-in slides carry what a mapped banner guarantees (a headline,
      a subheadline and a link), both lead to the product list, and they differ
      in their desktop image. */
  lemma FallbackSlidesWellFormed()
    ensures |FallbackSlides| == 2
    ensures forall i :: 0 <= i < |FallbackSlides| ==>
      && Truthy(FallbackSlides[i].headline) && Truthy(FallbackSlides[i].subheadline)
      && FallbackSlides[i].link == Str("/products")
    ensures FallbackSlides[0].desktopImage != FallbackSlides[1].desktopImage
  {
  }

  /** The slide a banner becomes: missing or empty text gets a default, a
      missing mobile image falls back to the desktop one, and the call to
      action is always "Shop Now". */
  function ToSlide(b: Banner): (s: Slide)
    ensures Truthy(s.headline) && Truthy(s.subheadline) && Truthy(s.link)
    ensures s.headline == (if Truthy(b.title) then b.title else Str("Premium Products"))
    ensures s.subheadline == (if Truthy(b.subtitle) then b.subtitle else Str("Shop With Confidence"))
    ensures s.description == (if Truthy(b.description) then b.description else Str(""))
    ensures s.desktopImage == b.desktopImage
    ensures s.mobileImage == (if Truthy(b.mobileImage) then b.mobileImage else b.desktopImage)
    ensures s.link == (if Truthy(b.link) then b.link else Str("/products"))
    ensures s.cta == Str("Shop Now")
  {
    Slide(
      Or(b.title, Str("Premium Products")),
      Or(b.subtitle, Str("Shop With Confidence")),
      Or(b.description, Str("")),
      b.desktopImage,
      Or(b.mobileImage, b.desktopImage),
      Or(b.link, Str("/products")),
      Str("Shop Now"))
  }

  /** `banners.map(...)`: one slide per banner, in the same order. Reading
      `banner.title` of a missing entry throws, and the whole map with it
      (None). */
  function ToSlides(bs: seq<Option<Banner>>): (ss: Option<seq<Slide>>)
    ensures ss.Some? <==> forall i :: 0 <= i < |bs| ==> bs[i].Some?
    ensures ss.Some? ==> |ss.value| == |bs|
    ensures ss.Some? ==> forall i :: 0 <= i < |bs| ==> ss.value[i] == ToSlide(bs[i].value)
  {
    if bs == [] then Some([])
    else if bs[0].None? then None
    else
      var rest := ToSlides(bs[1..]);
      if rest.None? then None else Some([ToSlide(bs[0].value)] + rest.value)
  }

  /** The response replaces the slides: `success` is truthy, `banners` is a
      non-empty array, and mapping it does not throw. */
  predicate Accepts(res: BannerResponse)
    ensures Accepts(res) <==>
      && res.Returned? && Truthy(res.success) && res.banners.Some? && |res.banners.value| > 0
      && forall i :: 0 <= i < |res.banners.value| ==> res.banners.value[i].Some?
  {
    && res.Returned? && Truthy(res.success) && res.banners.Some? && |res.banners.value| > 0
    && ToSlides(res.banners.value).Some?
  }

  /** What the component renders. */
  datatype Layout = Spinner | BannerImages | FallbackWithOverlay

  /** The carousel's state. */
  class Carousel {
    var slides: seq<Slide>
    var current: nat
    var loading: bool
    var isApiBanner: bool

    /** There is always a slide; the built-in slides stay until banners are
        accepted, which happens only once loading has finished. The shown index
        is NOT kept in range here: replacing the slides leaves it as it was. */
    ghost predicate Valid()
      reads this
    {
      && |slides| > 0
      && (!isApiBanner ==> slides == FallbackSlides)
      && (isApiBanner ==> !loading)
    }

    /** The shown index names a slide. */
    predicate InRange()
      reads this
    {
      current < |slides|
    }

    constructor ()
      ensures Valid() && InRange()
      ensures slides == FallbackSlides && |slides| == 2 && current == 0
      ensures loading && !isApiBanner
    {
      slides := FallbackSlides;
      current := 0;
      loading := true;
      isApiBanner := false;
    }

    /** Which slides are rendered visible: those whose index equals `current`. */
    function Visibility(): (shown: seq<bool>)
      reads this
      ensures |shown| == |slides|
      ensures InRange() ==> shown[current] && forall i :: 0 <= i < |shown| && i != current ==> !shown[i]
      ensures !InRange() ==> forall i :: 0 <= i < |shown| ==> !shown[i]
    {
      var c := current;
      seq(|slides|, i => i == c)
    }

    /** The layout: a spinner while loading, then the bare banner images for
        server banners, otherwise the built-in slides with their overlay. */
    function View(): (v: Layout)
      reads this
      ensures v == Spinner <==> loading
      ensures v == BannerImages <==> !loading && isApiBanner
    {
      if loading then Spinner else if isApiBanner then BannerImages else FallbackWithOverlay
    }

    /** `fetchBanners` once the request has settled. */
    method LoadBanners(res: BannerResponse)
      requires Valid()
      modifies this
      ensures Valid()
      ensures !loading
      ensures current == old(current)
      ensures Accepts(res) ==> slides == ToSlides(res.banners.value).value && isApiBanner
      ensures !Accepts(res) ==> slides == old(slides) && isApiBanner == old(isApiBanner)
      ensures InRange() <==> old(current) < |slides|
      ensures View() != Spinner
      ensures Accepts(res) ==> View() == BannerImages
    {
      if Accepts(res) {
        slides := ToSlides(res.banners.value).value;
        isApiBanner := true;
      }
      loading := false;
    }

    /** `nextSlide`: one slide on, wrapping from the last to the first. */
    method Next()
      requires Valid()
      modifies this`current
      ensures Valid() && InRange()
      ensures current == Cyclic.Next(old(current), |slides|)
      ensures old(InRange()) ==> current == if old(current) + 1 == |slides| then 0 else old(current) + 1
    {
      current := (current + 1) % |slides|;
    }

    /** `prevSlide`: one slide back, wrapping from the first to the last. */
    method Prev()
      requires Valid()
      modifies this`current
      ensures Valid() && InRange()
      ensures current == Cyclic.Prev(old(current), |slides|)
      ensures old(InRange()) ==> current == if old(current) == 0 then |slides| - 1 else old(current) - 1
    {
      current := (current - 1 + |slides|) % |slides|;
    }

    /** A click on indicator `i`; indicators exist only for the slides' indices. */
    method Select(i: nat)
      requires Valid()
      requires i < |slides|
      modifies this`current
      ensures Valid() && InRange()
      ensures current == i
    {
      current := i;
    }
  }

  /** Going back after going forward returns to the slide that was shown. */
  method PrevAfterNext(c: Carousel)
    requires c.Valid() && c.InRange()
    modifies c`current
    ensures c.current == old(c.current)
  {
    c.Next();
    c.Prev();
    Cyclic.PrevUndoesNext(old(c.current), |c.slides|);
  }

  /** The auto-play timer can fire while the banners are loading; if a single
      banner then arrives, the shown index is past the end and no slide is
      visible until the next step. */
  method StaleIndexAfterBanners() returns (c: Carousel)
    ensures c.Valid() && c.current == 1 && |c.slides| == 1
    ensures !c.InRange() && c.Visibility() == [false]
  {
    c := new Carousel();
    c.Next();
    var banner := Banner(Str("Festive Offers"), Undefined, Undefined, Str("/festive.jpeg"), Undefined, Undefined);
    c.LoadBanners(Returned(Bool(true), Some([Some(banner)])));
  }

  /** A banner list with a `null` entry makes the mapping throw: the built-in
      slides stay and loading still ends. */
  method NullBannerKeepsFallback() returns (c: Carousel)
    ensures c.Valid() && !c.loading && !c.isApiBanner
    ensures c.slides == FallbackSlides && c.View() == FallbackWithOverlay
  {
    c := new Carousel();
    var banner := Banner(Str("Festive Offers"), Undefined, Undefined, Str("/festive.jpeg"), Undefined, Undefined);
    c.LoadBanners(Returned(Bool(true), Some([Some(banner), None])));
  }
}
