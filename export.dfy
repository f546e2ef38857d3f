/** The export compositor behind the Download button: it flattens a white
    base, the optional background image (contain-fit and centred, as on
    screen) and the sketch (stretched over the whole raster) onto a fresh
    raster of the on-screen size, and hands the encoded raster to the
    browser as a download.

    The browser pieces are replaced by inputs: whether each reference is
    mounted, the container's size, whether each asynchronous step (sketch
    export, image loads, blob encoding) succeeds, and the clock. The raster
    records the drawing calls made on it instead of pixels. */
module Export {
  import opened Options
  import opened Geometry
  import DownloadName

  /** The two images that can be drawn onto the raster. */
  datatype Layer = Background | Sketch

  /** One call made on the raster's 2D context. */
  datatype DrawOp =
    | Fill(color: string, area: Rect)     // fillRect with the current fillStyle
    | Draw(layer: Layer, area: Rect)      // drawImage scaled into the rectangle

  const White: string := "#ffffff"
  /** The initial fillStyle of a 2D context. */
  const Black: string := "#000000"
  /** The size of a freshly created canvas element. */
  const DefaultWidth: nat := 300
  const DefaultHeight: nat := 150

  /** An off-screen canvas element together with its 2D context. */
  class Canvas {
    var width: nat
    var height: nat
    var fillStyle: string
    /** The drawing calls made since the bitmap was last reset, oldest first. */
    var ops: seq<DrawOp>

    constructor ()
      ensures width == DefaultWidth && height == DefaultHeight
      ensures fillStyle == Black && ops == []
    {
      width, height := DefaultWidth, DefaultHeight;
      fillStyle, ops := Black, [];
    }

    /** Setting the width resets the bitmap to transparent and the context to its initial state. */
    method SetWidth(w: nat)
      modifies this
      ensures width == w && height == old(height)
      ensures fillStyle == Black && ops == []
    {
      width := w;
      fillStyle, ops := Black, [];
    }

    /** Setting the height resets the bitmap to transparent and the context to its initial state. */
    method SetHeight(h: nat)
      modifies this
      ensures height == h && width == old(width)
      ensures fillStyle == Black && ops == []
    {
      height := h;
      fillStyle, ops := Black, [];
    }

    method SetFillStyle(color: string)
      modifies this`fillStyle
      ensures fillStyle == color
    {
      fillStyle := color;
    }

    method FillRect(area: Rect)
      modifies this`ops
      ensures ops == old(ops) + [Fill(fillStyle, area)]
    {
      ops := ops + [Fill(fillStyle, area)];
    }

    method DrawImage(layer: Layer, area: Rect)
      modifies this`ops
      ensures ops == old(ops) + [Draw(layer, area)]
    {
      ops := ops + [Draw(layer, area)];
    }
  }

  /** The result of one load of an image element: its natural size, or the error event. */
  datatype ImageLoad = Loaded(naturalWidth: nat, naturalHeight: nat) | LoadError

  /** Everything the export reads from the page and the browser. */
  datatype ExportInputs = ExportInputs(
    sketchMounted: bool,             // the drawing surface's ref is set
    containerMounted: bool,          // the container div's ref is set
    displayWidth: nat,               // the container's offsetWidth
    displayHeight: nat,              // the container's offsetHeight
    backgroundImage: Option<string>, // the uploaded image's data URL, if any
    sketchExported: bool,            // exportImage("png") resolves (it rejects otherwise)
    contextAvailable: bool,          // getContext("2d") is not null
    backgroundLoad: ImageLoad,       // the background image element's load
    sketchLoads: bool,               // the sketch image element loads (it errors otherwise)
    blobProduced: bool,              // the encoder yields a blob for a raster with pixels
    now: int                         // Date.now() when the blob is handed over
  )

  /** What one press of Download ends in. */
  datatype Outcome =
    | Skipped                        // a ref is not mounted: nothing happens
    | Failed                         // an exception reached the catch block: the user is alerted
    | NoContext                      // no 2D context: logged, nothing downloaded
    | NoBlob                         // encoding produced no blob: logged, nothing downloaded
    | Downloaded(fileName: string)   // the PNG is saved under this name

  predicate Mounted(inp: ExportInputs) {
    inp.sketchMounted && inp.containerMounted
  }

  /** JavaScript truthiness of the background state: it is neither null nor the empty string. */
  predicate BackgroundSet(inp: ExportInputs) {
    inp.backgroundImage.Some? && inp.backgroundImage.value != ""
  }

  /** The background is drawn when one is set, its image element loads, and
      the image is usable by drawImage: an image whose natural width or height
      is 0 is drawn as nothing. */
  predicate BackgroundDrawn(inp: ExportInputs) {
    BackgroundSet(inp) && inp.backgroundLoad.Loaded? &&
    inp.backgroundLoad.naturalWidth > 0 && inp.backgroundLoad.naturalHeight > 0
  }

  /** The whole raster, which is the whole on-screen container. */
  function FullRaster(inp: ExportInputs): Rect {
    Rect(0.0, 0.0, inp.displayWidth as real, inp.displayHeight as real)
  }

  function BackgroundPlacement(inp: ExportInputs): Rect
    requires BackgroundDrawn(inp)
  {
    ContainFit(inp.displayWidth as real, inp.displayHeight as real,
               inp.backgroundLoad.naturalWidth as real, inp.backgroundLoad.naturalHeight as real)
  }

  /** The drawing calls of a completed composite, bottom layer first. It
      starts with one opaque white fill of the whole raster, and every later
      call draws an image. */
  function Composite(inp: ExportInputs): (c: seq<DrawOp>)
    ensures 1 <= |c| <= 3 && c[0] == Fill(White, FullRaster(inp))
    ensures forall i :: 1 <= i < |c| ==> c[i].Draw?
  {
    [Fill(White, FullRaster(inp))]
    + (if BackgroundDrawn(inp) then [Draw(Background, BackgroundPlacement(inp))] else [])
    + (if inp.sketchLoads then [Draw(Sketch, FullRaster(inp))] else [])
  }

  /** How a press of Download ends. A download needs a mounted surface, an
      exported sketch, a 2D context and a blob, and no blob is made for a
      raster without pixels (width or height 0). */
  function ExportOutcome(inp: ExportInputs): (r: Outcome)
    ensures r.Downloaded? <==>
      Mounted(inp) && inp.sketchExported && inp.contextAvailable && inp.blobProduced &&
      inp.displayWidth > 0 && inp.displayHeight > 0
    ensures r.Downloaded? ==> r.fileName == DownloadName.FileName(inp.now)
    ensures !Mounted(inp) ==> r == Skipped
    ensures Mounted(inp) && !inp.sketchExported ==> r == Failed
  {
    if !Mounted(inp) then Skipped
    else if !inp.sketchExported then Failed
    else if !inp.contextAvailable then NoContext
    else if !inp.blobProduced || inp.displayWidth == 0 || inp.displayHeight == 0 then NoBlob
    else Downloaded(DownloadName.FileName(inp.now))
  }

  /** One press of Download. The raster is returned when it was allocated. */
  method HandleDownload(inp: ExportInputs) returns (outcome: Outcome, canvas: Canvas?)
    ensures outcome == ExportOutcome(inp)
    // the raster is allocated once the refs are mounted and the sketch is exported
    ensures canvas == null <==> !Mounted(inp) || !inp.sketchExported
    ensures canvas != null ==> fresh(canvas)
    // without a context nothing is sized or drawn
    ensures canvas != null && !inp.contextAvailable ==>
      canvas.width == DefaultWidth && canvas.height == DefaultHeight && canvas.ops == []
    // with a context the raster has the display size and holds the composite
    ensures canvas != null && inp.contextAvailable ==>
      canvas.width == inp.displayWidth && canvas.height == inp.displayHeight &&
      canvas.ops == Composite(inp)
  {
    if !inp.sketchMounted || !inp.containerMounted {
      return Skipped, null;
    }
    var displayWidth, displayHeight := inp.displayWidth, inp.displayHeight;
    if !inp.sketchExported {
      // the awaited exportImage rejects; the catch block alerts the user
      return Failed, null;
    }
    canvas := new Canvas();
    if !inp.contextAvailable {
      return NoContext, canvas;
    }
    canvas.SetWidth(displayWidth);
    canvas.SetHeight(displayHeight);
    canvas.SetFillStyle(White);
    canvas.FillRect(Rect(0.0, 0.0, canvas.width as real, canvas.height as real));
    if BackgroundSet(inp) {
      match inp.backgroundLoad {
        case Loaded(naturalWidth, naturalHeight) =>
          // drawImage draws nothing for an image with a natural width or height
          // of 0, so the placement only matters for a usable image
          if naturalWidth > 0 && naturalHeight > 0 {
            var placement := ContainFit(displayWidth as real, displayHeight as real,
                                        naturalWidth as real, naturalHeight as real);
            canvas.DrawImage(Background, placement);
          }
        case LoadError =>
          // logged; the export goes on without the background
      }
    }
    if inp.sketchLoads {
      canvas.DrawImage(Sketch, Rect(0.0, 0.0, canvas.width as real, canvas.height as real));
    }
    // else: logged; the export goes on without the sketch
    if !inp.blobProduced || canvas.width == 0 || canvas.height == 0 {
      // toBlob hands null to its callback, which logs and returns
      return NoBlob, canvas;
    }
    outcome := Downloaded(DownloadName.FileName(inp.now));
  }

  predicate HasLayer(ops: seq<DrawOp>, layer: Layer) {
    exists i :: 0 <= i < |ops| && ops[i].Draw? && ops[i].layer == layer
  }

  /** The drawing calls other than those that draw the given layer. */
  function Without(ops: seq<DrawOp>, layer: Layer): (r: seq<DrawOp>)
    ensures |r| <= |ops|
    ensures !HasLayer(r, layer)
    ensures forall op :: op in r <==> op in ops && !(op.Draw? && op.layer == layer)
  {
    if ops == [] then []
    else if ops[0].Draw? && ops[0].layer == layer then Without(ops[1..], layer)
    else [ops[0]] + Without(ops[1..], layer)
  }

  /** The background is drawn exactly when it is set, loads and is usable,
      right above the white base and at the contain-fit placement. */
  lemma CompositeBackground(inp: ExportInputs)
    ensures var c := Composite(inp);
      (HasLayer(c, Background) <==> BackgroundDrawn(inp)) &&
      (BackgroundDrawn(inp) ==> c[1] == Draw(Background, BackgroundPlacement(inp)))
  {
    var c := Composite(inp);
    if BackgroundDrawn(inp) {
      assert c[1].Draw? && c[1].layer == Background;
    }
  }

  /** With no background (null) or an empty one, both falsy in JavaScript,
      the raster holds only the white base and, if it loads, the sketch. */
  lemma UnsetBackgroundNotDrawn(inp: ExportInputs)
    requires inp.backgroundImage == None || inp.backgroundImage == Some("")
    ensures Composite(inp) ==
      [Fill(White, FullRaster(inp))] + (if inp.sketchLoads then [Draw(Sketch, FullRaster(inp))] else [])
    ensures !HasLayer(Composite(inp), Background)
  {
    CompositeBackground(inp);
  }

  /** The sketch is drawn exactly when it loads, last and over the whole raster. */
  lemma CompositeSketch(inp: ExportInputs)
    ensures var c := Composite(inp);
      (HasLayer(c, Sketch) <==> inp.sketchLoads) &&
      (inp.sketchLoads ==> c[|c| - 1] == Draw(Sketch, FullRaster(inp)))
  {
    var c := Composite(inp);
    if inp.sketchLoads {
      assert c[|c| - 1].Draw? && c[|c| - 1].layer == Sketch;
    }
  }

  /** The z-order is fixed: of any two image draws, the lower is the
      background and the upper is the sketch. */
  lemma CompositeLayerOrder(inp: ExportInputs)
    ensures var c := Composite(inp);
      forall i, j :: 0 <= i < j < |c| && c[i].Draw? && c[j].Draw? ==>
        c[i].layer == Background && c[j].layer == Sketch
  {}

  /** Every layer lies inside the raster. */
  lemma CompositeInsideRaster(inp: ExportInputs)
    ensures var c := Composite(inp);
      forall i :: 0 <= i < |c| ==>
        0.0 <= c[i].area.x && c[i].area.x + c[i].area.w <= inp.displayWidth as real &&
        0.0 <= c[i].area.y && c[i].area.y + c[i].area.h <= inp.displayHeight as real
  {}

  /** A background that fails to load drops the background draw and nothing
      else, and the export still ends as it would have. */
  lemma BackgroundFailureIsolated(inp: ExportInputs)
    ensures var failed := inp.(backgroundLoad := LoadError);
      Composite(failed) == Without(Composite(inp), Background) &&
      ExportOutcome(failed) == ExportOutcome(inp)
  {
    var full := FullRaster(inp);
    var tail := if inp.sketchLoads then [Draw(Sketch, full)] else [];
    assert Without(tail, Background) == tail;
    if BackgroundDrawn(inp) {
      var bg := Draw(Background, BackgroundPlacement(inp));
      assert Composite(inp) == [Fill(White, full)] + ([bg] + tail);
      assert ([bg] + tail)[1..] == tail;
    } else {
      assert Composite(inp) == [Fill(White, full)] + tail;
    }
  }

  /** A sketch that fails to load drops the sketch draw and nothing else,
      and the export still ends as it would have. */
  lemma SketchFailureIsolated(inp: ExportInputs)
    ensures var failed := inp.(sketchLoads := false);
      Composite(failed) == Without(Composite(inp), Sketch) &&
      ExportOutcome(failed) == ExportOutcome(inp)
  {
    var full := FullRaster(inp);
    var middle := if BackgroundDrawn(inp) then [Draw(Background, BackgroundPlacement(inp))] else [];
    assert Without(middle, Sketch) == middle;
    assert Without([Fill(White, full)] + middle, Sketch) == [Fill(White, full)] + middle by {
      assert ([Fill(White, full)] + middle)[1..] == middle;
    }
    if inp.sketchLoads {
      WithoutAppend([Fill(White, full)] + middle, [Draw(Sketch, full)], Sketch);
    } else {
      assert Composite(inp) == [Fill(White, full)] + middle;
    }
  }

  lemma {:induction false} WithoutAppend(a: seq<DrawOp>, b: seq<DrawOp>, layer: Layer)
    ensures Without(a + b, layer) == Without(a, layer) + Without(b, layer)
    decreases |a|
  {
    if a != [] {
      assert (a + b)[1..] == a[1..] + b;
      WithoutAppend(a[1..], b, layer);
    } else {
      assert a + b == b;
    }
  }

  /** The layer steps are best effort: whatever the background state and
      whether either image loads, the export ends the same way. */
  lemma LayerFailuresNotFatal(inp: ExportInputs, background: Option<string>, backgroundLoad: ImageLoad, sketchLoads: bool)
    ensures var other := inp.(backgroundImage := background, backgroundLoad := backgroundLoad, sketchLoads := sketchLoads);
      ExportOutcome(other) == ExportOutcome(inp)
  {}

  /** Two exports of the same page differ at most in the download name:
      same raster contents, same outcome apart from the timestamp. */
  lemma ExportDeterministic(inp: ExportInputs, later: int)
    ensures var again := inp.(now := later);
      Composite(again) == Composite(inp) &&
      (ExportOutcome(inp).Downloaded? <==> ExportOutcome(again).Downloaded?) &&
      (!ExportOutcome(inp).Downloaded? ==> ExportOutcome(again) == ExportOutcome(inp)) &&
      (later != inp.now && ExportOutcome(inp).Downloaded? ==>
        ExportOutcome(again).fileName != ExportOutcome(inp).fileName)
  {
    if later != inp.now {
      DownloadName.FileNameInjective(later, inp.now);
    }
  }
}
