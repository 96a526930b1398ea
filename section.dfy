/**
 * The section players: the two "inside the machine" parts and the design
 * sequence run the same code. All frames are requested at once; a success
 * writes its own slot and a failure leaves a hole; the array and the loaded
 * flag are published once every request has settled. The frame value
 * p * (frameCount - 1) is floored and clamped into the published array;
 * drawImage returns before clearing on a hole and otherwise clears and draws
 * with a contain fit; a resize sizes the canvas to the window and redraws the
 * current frame; when loading completes frame 0 is drawn.
 */
module SectionSequence {
  import opened Wrappers
  import opened Geometry
  import opened Naming
  import opened Interpolation
  import opened Mapping
  import opened Loading
  import opened Painter

  /** The design sequence's fixed configuration. */
  const DesignFrameCount := 40

  /** The frame count each machine part is given. */
  const MachineFrameCount := 40

  /** The request loop: one image source per frame, 1 to n, in order. */
  method RequestAll(prefix: string, n: nat) returns (paths: seq<string>)
    ensures paths == FramePaths(prefix, n)
  {
    paths := [];
    var i := 1;
    while i <= n
      invariant 1 <= i <= n + 1
      invariant paths == FramePaths(prefix, i - 1)
    {
      FramePathsSnoc(prefix, i - 1);
      paths := paths + [FramePath(prefix, i)];
      i := i + 1;
    }
  }

  class SectionPlayer {
    const prefix: string
    const frameCount: nat
    /** The published frame array; `None` is a hole. */
    var images: seq<Option<Image>>
    var loaded: bool
    /** The latest scroll progress. */
    var progress: real
    /** Every frame path requested so far, in request order. */
    var requested: seq<string>
    var canvas: Canvas

    /** Mount of a machine part: the resize handler runs once with no images
        and only sizes the canvas to the w x h window. */
    constructor Machine(sequencePath: string, count: nat, w: nat, h: nat)
      ensures prefix == sequencePath && frameCount == count
      ensures images == [] && !loaded && progress == 0.0 && requested == []
      ensures canvas == Resized(w, h)
    {
      prefix, frameCount := sequencePath, count;
      images, loaded, progress, requested := [], false, 0.0, [];
      canvas := Resized(w, h);
    }

    /** Mount of the design sequence, with its fixed folder and frame count. */
    constructor Design(w: nat, h: nat)
      ensures prefix == DesignPath && frameCount == DesignFrameCount
      ensures images == [] && !loaded && progress == 0.0 && requested == []
      ensures canvas == Resized(w, h)
    {
      prefix, frameCount := DesignPath, DesignFrameCount;
      images, loaded, progress, requested := [], false, 0.0, [];
      canvas := Resized(w, h);
    }

    /**
     * Request every frame, let the callbacks settle in `order` (outcome[i - 1]
     * is how request i settles), then publish the array and the loaded flag.
     */
    method Load(outcome: seq<Option<Image>>, order: seq<nat>)
      requires |outcome| == frameCount && IsSettleOrder(order, frameCount)
      modifies this`requested, this`images, this`loaded
      ensures requested == old(requested) + FramePaths(prefix, frameCount)
      ensures images == Published(outcome) && loaded
    {
      var paths := RequestAll(prefix, frameCount);
      requested := requested + paths;
      var loadedImages := SettleAll(outcome, order);
      images := loadedImages;
      loaded := true;
    }

    /** drawImage(index): a hole returns before the clear; otherwise clear and
        draw with a contain fit. */
    method Draw(index: int)
      modifies this`canvas
      ensures canvas == SectionPaint(old(canvas), images, index)
    {
      if !(0 <= index < |images|) || images[index].None? {
        return;
      }
      var img := images[index].value;
      canvas := canvas.(content := None);
      canvas := canvas.(content := Some(Picture(index, img, ContainFit(canvas.width, canvas.height, img))));
    }

    /** A change of the frame value: drawn only when loaded and non-empty, at the
        clamped index. */
    method OnScroll(p: real)
      modifies this`progress, this`canvas
      ensures progress == p
      ensures canvas == if loaded && |images| > 0
                        then SectionPaint(old(canvas), images, SectionFrame(p, frameCount, |images|))
                        else old(canvas)
    {
      progress := p;
      if loaded && |images| > 0 {
        var index := SectionFrame(p, frameCount, |images|);
        Draw(index);
      }
    }

    /** A window resize to w x h: size (and so blank) the canvas, then redraw the
        current frame when there are images. */
    method Resize(w: nat, h: nat)
      modifies this`canvas
      ensures canvas == if |images| > 0
                        then SectionPaint(Resized(w, h), images, SectionFrame(progress, frameCount, |images|))
                        else Resized(w, h)
    {
      canvas := Resized(w, h);
      if |images| > 0 {
        var index := SectionFrame(progress, frameCount, |images|);
        Draw(index);
      }
    }

    /** The render that publishes the frames runs the resize handler again, then
        draws frame 0: frame 0 is what shows, whatever the progress, when it loaded. */
    method AfterLoad(w: nat, h: nat)
      requires loaded
      modifies this`canvas
      ensures canvas.width == w && canvas.height == h
      ensures canvas == if |images| > 0
                        then SectionPaint(SectionPaint(Resized(w, h), images, SectionFrame(progress, frameCount, |images|)), images, 0)
                        else Resized(w, h)
      ensures |images| > 0 && images[0].Some? ==>
        canvas.content == Some(Picture(0, images[0].value, ContainFit(w, h, images[0].value)))
      ensures |images| == 0 ==> canvas.content == None
    {
      Resize(w, h);
      if |images| > 0 {
        Draw(0);
      }
    }
  }

  /** The "inside the machine" page mounts two parts: the chassis and the
      engine, each from its own folder with 40 frames, on a w x h window. */
  method MountMachineParts(w: nat, h: nat) returns (chassis: SectionPlayer, engine: SectionPlayer)
    ensures fresh(chassis) && fresh(engine) && chassis != engine
    ensures chassis.prefix == ChassisPath && chassis.frameCount == MachineFrameCount
    ensures engine.prefix == EnginePath && engine.frameCount == MachineFrameCount
    ensures !chassis.loaded && chassis.images == [] && chassis.canvas == Resized(w, h)
    ensures !engine.loaded && engine.images == [] && engine.canvas == Resized(w, h)
  {
    chassis := new SectionPlayer.Machine(ChassisPath, MachineFrameCount, w, h);
    engine := new SectionPlayer.Machine(EnginePath, MachineFrameCount, w, h);
  }

  /** Opacity of the part label and title (both the same list). */
  const PartTitleKeys := FadeOutKeys(0.2)

  /** Opacity of the "Explore" hint. */
  const ExploreHintKeys := FadeOutKeys(0.1)

  /** Opacity of the "SCULPTED" headline. */
  const SculptedKeys := [Key(0.0, 0.0), Key(0.1, 1.0), Key(0.8, 1.0), Key(0.9, 0.0)]

  /** Opacity of the "Design Philosophy" caption. */
  const DesignCaptionKeys := FadeOutKeys(0.2)

  /** Part label and title: fully visible at the top, gone from 0.2 on. */
  lemma PartTitleOpacity(p: real)
    ensures WellFormed(PartTitleKeys)
    ensures 0.0 <= Interp(PartTitleKeys, p) <= 1.0
    ensures p <= 0.0 ==> Interp(PartTitleKeys, p) == 1.0
    ensures 0.2 <= p ==> Interp(PartTitleKeys, p) == 0.0
  {
    FadeOutSpec(0.2, p);
  }

  /** The "Explore" hint: fully visible at the top, gone from 0.1 on. */
  lemma ExploreHintOpacity(p: real)
    ensures WellFormed(ExploreHintKeys)
    ensures 0.0 <= Interp(ExploreHintKeys, p) <= 1.0
    ensures p <= 0.0 ==> Interp(ExploreHintKeys, p) == 1.0
    ensures 0.1 <= p ==> Interp(ExploreHintKeys, p) == 0.0
  {
    FadeOutSpec(0.1, p);
  }

  /** "SCULPTED" fades in over [0, 0.1], stays fully visible on [0.1, 0.8] and is
      gone from 0.9 on. */
  lemma SculptedOpacity(p: real)
    ensures WellFormed(SculptedKeys)
    ensures 0.0 <= Interp(SculptedKeys, p) <= 1.0
    ensures p <= 0.0 ==> Interp(SculptedKeys, p) == 0.0
    ensures 0.0 <= p <= 0.1 ==> Interp(SculptedKeys, p) == p / 0.1
    ensures 0.1 <= p <= 0.8 ==> Interp(SculptedKeys, p) == 1.0
    ensures 0.8 <= p <= 0.9 ==> Interp(SculptedKeys, p) == 1.0 - (p - 0.8) / 0.1
    ensures 0.9 <= p ==> Interp(SculptedKeys, p) == 0.0
  {
    InterpWithin(SculptedKeys, p, 0.0, 1.0);
    if 0.0 <= p <= 0.1 {
      InterpBetween(SculptedKeys, 0, p);
    }
    if 0.8 <= p <= 0.9 {
      InterpBetween(SculptedKeys, 2, p);
    }
    if 0.1 <= p <= 0.8 {
      InterpFlat(SculptedKeys, 1, p);
    }
  }

  /** The "Design Philosophy" caption: visible at the top, gone from 0.2 on. */
  lemma DesignCaptionOpacity(p: real)
    ensures WellFormed(DesignCaptionKeys)
    ensures 0.0 <= Interp(DesignCaptionKeys, p) <= 1.0
    ensures p <= 0.0 ==> Interp(DesignCaptionKeys, p) == 1.0
    ensures 0.2 <= p ==> Interp(DesignCaptionKeys, p) == 0.0
  {
    FadeOutSpec(0.2, p);
  }

  /** Scroll selection in a loaded section: a valid index into the published
      array; with every frame published it is floor(p * (frameCount - 1)). */
  lemma SectionFrameSelection(p: real, frameCount: nat, outcome: seq<Option<Image>>)
    requires frameCount >= 1 && |outcome| == frameCount && |Published(outcome)| > 0
    ensures SectionFrame(p, frameCount, |Published(outcome)|) < |Published(outcome)| <= frameCount
    ensures (forall j :: 0 <= j < frameCount ==> outcome[j].Some?) && 0.0 <= p <= 1.0 ==>
      SectionFrame(p, frameCount, |Published(outcome)|) == (p * (frameCount - 1) as real).Floor
  {
    if (forall j :: 0 <= j < frameCount ==> outcome[j].Some?) && 0.0 <= p <= 1.0 {
      assert |Published(outcome)| == frameCount;
      SectionFrameFormula(p, frameCount);
    }
  }
}
