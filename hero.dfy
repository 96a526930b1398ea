/**
 * The hero's scroll-synced frame player: 40 frames loaded one after another,
 * each element kept whether it loaded or failed; the frame value p * 39
 * floored and capped at the last index; a cover fit; a scroll draw that clears
 * first; and a resize handler, attached once loading is done, that sizes the
 * canvas to the window and redraws the current frame. Two overlay captions
 * fade on the same progress value.
 */
module HeroSequence {
  import opened Wrappers
  import opened Geometry
  import opened Naming
  import opened Interpolation
  import opened Mapping
  import opened Painter

  const ImageCount := 40

  /**
   * The sequential loader: frame i is requested, awaited until it settles, and
   * its element is appended whether it loaded or failed. `outcome[i - 1]` is
   * what request i settles with.
   */
  method LoadInOrder(outcome: seq<Option<Image>>) returns (paths: seq<string>, loadedImages: seq<Option<Image>>)
    requires |outcome| == ImageCount
    ensures paths == FramePaths(HeroPath, ImageCount)
    ensures loadedImages == outcome
  {
    paths, loadedImages := [], [];
    for i := 1 to ImageCount + 1
      invariant paths == FramePaths(HeroPath, i - 1)
      invariant loadedImages == outcome[..i - 1]
    {
      paths := paths + [FramePath(HeroPath, i)];
      loadedImages := loadedImages + [outcome[i - 1]];
    }
  }

  class HeroPlayer {
    /** The published elements; `None` stands for an element whose load failed. */
    var images: seq<Option<Image>>
    var loaded: bool
    /** The latest scroll progress. */
    var progress: real
    /** Every frame path requested so far, in request order. */
    var requested: seq<string>
    var canvas: Canvas

    /** Mount: nothing loaded, and no handler touches the default-sized canvas. */
    constructor ()
      ensures images == [] && !loaded && progress == 0.0 && requested == []
      ensures canvas == InitialCanvas
    {
      images, loaded, progress, requested := [], false, 0.0, [];
      canvas := InitialCanvas;
    }

    /** Load all 40 frames, then publish them and the loaded flag together. */
    method Load(outcome: seq<Option<Image>>)
      requires |outcome| == ImageCount
      modifies this
      ensures requested == old(requested) + FramePaths(HeroPath, ImageCount)
      ensures images == outcome && loaded
      ensures progress == old(progress) && canvas == old(canvas)
    {
      var paths, loadedImages := LoadInOrder(outcome);
      requested := requested + paths;
      images := loadedImages;
      loaded := true;
    }

    /** A change of the frame value: nothing before any image is published;
        otherwise clear, then draw the selected frame with a cover fit. */
    method OnScroll(p: real)
      modifies this`progress, this`canvas
      ensures progress == p
      ensures canvas == if |images| == 0 then old(canvas)
                        else HeroPaint(old(canvas), images, HeroFrame(p, ImageCount, |images|))
    {
      progress := p;
      if |images| == 0 {
        return;
      }
      var index := HeroFrame(p, ImageCount, |images|);
      canvas := canvas.(content := None);
      if images[index].Some? {
        var image := images[index].value;
        canvas := canvas.(content := Some(Picture(index, image, CoverFit(canvas.width, canvas.height, image))));
      }
    }

    /** A window resize to w x h (also run once when loading completes). Before
        loading the handler is not attached. Sizing blanks the canvas; the current
        frame is drawn again with a cover fit. */
    method Resize(w: nat, h: nat)
      modifies this`canvas
      ensures canvas == if !loaded || |images| == 0 then old(canvas)
                        else HeroPaint(Resized(w, h), images, HeroFrame(progress, ImageCount, |images|))
    {
      if !loaded || |images| == 0 {
        return;
      }
      canvas := Resized(w, h);
      var currentFrame := HeroFrame(progress, ImageCount, |images|);
      canvas := HeroDrawNoClear(canvas, images, currentFrame);
      HeroResizeNeedsNoClear(old(canvas), images, currentFrame, w, h);
    }

    /** Publishing the elements and the flag attaches the resize handler, which
        runs at once: the canvas takes the window size and shows the current frame. */
    method AfterLoad(w: nat, h: nat)
      requires loaded
      modifies this`canvas
      ensures canvas == if |images| == 0 then old(canvas)
                        else HeroPaint(Resized(w, h), images, HeroFrame(progress, ImageCount, |images|))
      ensures |images| > 0 ==> canvas.width == w && canvas.height == h && Covered(canvas)
    {
      Resize(w, h);
      if |images| > 0 {
        HeroPaintShows(Resized(w, h), images, HeroFrame(progress, ImageCount, |images|));
      }
    }
  }

  /** Opacity of the title block and of the scroll indicator. */
  const TitleKeys := [Key(0.0, 1.0), Key(0.2, 1.0), Key(0.4, 0.0)]

  /** Opacity of the brand block. */
  const BrandKeys := [Key(0.5, 0.0), Key(0.7, 1.0), Key(0.9, 1.0)]

  /** The title is fully visible until 0.2 and gone from 0.4 on. */
  lemma TitleOpacity(p: real)
    ensures WellFormed(TitleKeys)
    ensures 0.0 <= Interp(TitleKeys, p) <= 1.0
    ensures p <= 0.2 ==> Interp(TitleKeys, p) == 1.0
    ensures 0.2 <= p <= 0.4 ==> Interp(TitleKeys, p) == 1.0 - (p - 0.2) / 0.2
    ensures 0.4 <= p ==> Interp(TitleKeys, p) == 0.0
  {
    InterpWithin(TitleKeys, p, 0.0, 1.0);
    if 0.0 <= p <= 0.2 {
      InterpFlat(TitleKeys, 0, p);
    }
    if 0.2 <= p <= 0.4 {
      InterpBetween(TitleKeys, 1, p);
    }
  }

  /** The brand is hidden until 0.5 and fully visible from 0.7 on. */
  lemma BrandOpacity(p: real)
    ensures WellFormed(BrandKeys)
    ensures 0.0 <= Interp(BrandKeys, p) <= 1.0
    ensures p <= 0.5 ==> Interp(BrandKeys, p) == 0.0
    ensures 0.5 <= p <= 0.7 ==> Interp(BrandKeys, p) == (p - 0.5) / 0.2
    ensures 0.7 <= p ==> Interp(BrandKeys, p) == 1.0
  {
    InterpWithin(BrandKeys, p, 0.0, 1.0);
    if 0.5 <= p < 0.7 {
      InterpBetween(BrandKeys, 0, p);
      assert BrandKeys[1].at - BrandKeys[0].at == 0.2;
    } else if 0.7 <= p <= 0.9 {
      InterpFlat(BrandKeys, 1, p);
      if p == 0.7 {
        assert (p - 0.5) / 0.2 == 1.0;
      }
    }
  }

  /** Every published element is a valid target: once 40 elements are published
      the selected index is floor(p * 39), 0 at the top and 39 at the bottom. */
  lemma HeroFrameSelection(p: real)
    requires 0.0 <= p <= 1.0
    ensures HeroFrame(p, ImageCount, ImageCount) == (p * 39.0).Floor
    ensures p == 0.0 ==> HeroFrame(p, ImageCount, ImageCount) == 0
    ensures p == 1.0 ==> HeroFrame(p, ImageCount, ImageCount) == 39
  {
    HeroFrameFormula(p, ImageCount);
  }

  /** A failed element blanks the canvas when scrolled to: the hero clears before
      it draws, and a failed element draws nothing. */
  lemma FailedFrameBlanks(c: Canvas, images: seq<Option<Image>>, p: real)
    requires |images| == ImageCount
    requires images[HeroFrame(p, ImageCount, ImageCount)].None?
    ensures HeroPaint(c, images, HeroFrame(p, ImageCount, |images|)).content == None
  {
  }
}
