# Sketch export compositor

A model of the Download action of a browser drawing tool (`handleDownload` in
`app/page.tsx`). The user draws freehand strokes over an optional uploaded
background image. Download flattens everything onto an off-screen canvas and
saves it as a PNG. The canvas has the on-screen container's exact size. The
layers are, bottom to top:

- an opaque white base;
- the background image, placed like the on-screen CSS `background-size: contain`
  (CSS Backgrounds and Borders Module Level 3, section 3.9) with
  `background-position: center` (same module, section 3.6);
- the sketch, stretched over the whole raster.

The download is named `sketch-padavinodam-<milliseconds since the epoch>.png`.

The project has four modules:

- `Geometry` (geometry.dfy) is the contain-fit arithmetic, a pure function over
  exact reals. Beside it are the CSS definition of `contain` (the largest scale at
  which the whole image fits) and the proof that the two agree.
- `DownloadName` (filename.dfy) is the download name, with the decimal rendering
  of the timestamp and a parser that reads the timestamp back.
- `Export` (export.dfy) is the pipeline. `Canvas` is a class with `width`,
  `height`, `fillStyle` and the sequence of drawing calls made on it.
  `HandleDownload` runs the steps of the source against it. The browser's
  asynchronous steps are fields of `ExportInputs`, each either succeeding or
  failing. `Composite` and `ExportOutcome` state what the raster holds and how the
  export ends, and the lemmas beside them state the layer order, the placement
  and which failures skip what.
- `Options` (options.dfy) is an option datatype.

The inputs that stand for the browser are these:

- whether each React ref is mounted;
- the container's `offsetWidth`/`offsetHeight`;
- the background state (`null` or a data URL);
- whether `exportImage` resolves;
- whether `getContext("2d")` returns a context;
- the background image's load (its natural size, or an error);
- whether the sketch image loads;
- whether `toBlob` yields a blob;
- `Date.now()`.

Four rules of the HTML canvas (HTML Living Standard, section 4.12.5) are part of the model:

- setting `width` or `height` clears the bitmap and resets the context state;
- a new canvas is 300x150;
- `drawImage` draws nothing for an image whose natural width or height is 0;
- `toBlob` hands null to its callback when the raster's width or height is 0.

## Model

| member | source | states |
|---|---|---|
| Geometry.ContainFit | app/page.tsx:69-87 | For an image of positive natural size in a box of any size (an empty box included), the placed image fits the box (0 <= w <= boxW, 0 <= h <= boxH), and it is not empty when the box is not. It keeps the natural aspect ratio (w*nh == h*nw, and w/h == nw/nh for a non-empty box). When the image is relatively wider, the width is flush and x == 0; otherwise the height is flush and y == 0. It is centred: x, y >= 0, 2x + w == boxW and 2y + h == boxH. |
| Geometry.Centered | app/page.tsx:85-87 | The offsets centre a rectangle of the given size in the box: 2x + w == boxW and 2y + h == boxH. |
| Geometry.ContainScale | app/page.tsx:258-263 | The CSS `contain` scale: non-negative (positive for a non-empty box), both scaled sides fit the box, and one of them fills it. |
| Geometry.ContainScaleIsLargest | app/page.tsx:258-263 | Any scale at which the whole image fits is at most the contain scale. |
| Geometry.ContainFitIsCssContain | app/page.tsx:68-87 | The exporter's placement equals the image scaled by the CSS contain scale and centred. So the export reproduces the on-screen background. |
| Geometry.ContainFitIsLargest | app/page.tsx:68-83 | Every scaled copy of the image that fits the box is no larger, in either dimension, than the exporter's placement. |
| Geometry.ContainFitLandscapeExample | app/page.tsx:75-87 | A 1600x800 image in an 800x600 box is placed at (0, 100) with size 800x400. |
| Geometry.ContainFitPortraitExample | app/page.tsx:79-87 | A 400x800 image in an 800x600 box is placed at (250, 0) with size 300x600. |
| Geometry.ContainFitZeroWidthExample | app/page.tsx:69-87 | A 400x800 image in a 0x600 box is placed at (0, 300) with size 0x0. |
| Geometry.ContainFitZeroHeightExample | app/page.tsx:69-87 | A 400x800 image in an 800x0 box is placed at (400, 0) with size 0x0. In JavaScript the box's aspect ratio is Infinity, so the height branch is taken. |
| DownloadName.Decimal | app/page.tsx:136 | The rendering of the timestamp is non-empty and all digits. It has no leading zero, except for 0 itself. |
| DownloadName.DecimalRoundTrip | app/page.tsx:136 | Reading the rendering back gives the timestamp. |
| DownloadName.DecimalCanonical | app/page.tsx:136 | Every digit string without a leading zero is the rendering of its value. |
| DownloadName.Signed | app/page.tsx:136 | The rendering of any integer timestamp is non-empty. It starts with `-` exactly when the timestamp is negative, and the rest is digits. |
| DownloadName.ParseSigned | app/page.tsx:136 | Text the parser accepts is exactly the rendering of the timestamp it returns. |
| DownloadName.SignedRoundTrip | app/page.tsx:136 | Every rendered timestamp, negative ones included, parses back to itself. |
| DownloadName.FileName | app/page.tsx:136 | The name starts with `sketch-padavinodam-`, ends with `.png`, and has something in between. |
| DownloadName.ParseFileName | app/page.tsx:136 | A name the parser accepts is exactly the download name of the timestamp it returns. |
| DownloadName.FileNameRoundTrip | app/page.tsx:136 | Every download name parses back to its timestamp. |
| DownloadName.FileNameInjective | app/page.tsx:136 | Exports at different milliseconds get different names. |
| Export.Canvas.constructor | app/page.tsx:45 | A new canvas is 300x150, its fillStyle is black, and nothing is drawn on it. |
| Export.Canvas.SetWidth | app/page.tsx:54 | Sets the width and keeps the height. It clears the drawing and resets fillStyle. |
| Export.Canvas.SetHeight | app/page.tsx:55 | Sets the height and keeps the width. It clears the drawing and resets fillStyle. |
| Export.Canvas.SetFillStyle | app/page.tsx:58 | Sets only the fill colour. |
| Export.Canvas.FillRect | app/page.tsx:59 | Appends one fill, in the current colour, to the drawing calls. Nothing else changes. |
| Export.Canvas.DrawImage | app/page.tsx:89 | Appends one image draw at the given rectangle to the drawing calls. Nothing else changes. |
| Export.UnsetBackgroundNotDrawn | app/page.tsx:62 | A background state that is falsy in JavaScript, `null` or the empty string, skips the background layer: the raster holds only the white base and, if it loads, the sketch over the whole raster. |
| Export.HandleDownload | app/page.tsx:31-145 | The outcome is `ExportOutcome`. The raster is allocated exactly when the refs are mounted and the sketch exports. Without a context it stays 300x150 and blank. Otherwise it has the display size and holds `Composite`. |
| Export.Composite | app/page.tsx:54-123 | The draw calls of a completed composite. The first is a white fill of the whole raster, every later call draws an image, and there are at most three calls. |
| Export.ExportOutcome | app/page.tsx:32-148 | A download happens exactly when six things hold: the refs are mounted, the sketch exports, a context exists, a blob is produced, and the width and height are both positive (`toBlob` yields null for a raster without pixels). It is then named from `Date.now()`. Unmounted refs end silently, and a failed sketch export ends in the alert. |
| Export.CompositeBackground | app/page.tsx:62-103 | The background is drawn exactly when it is set (non-null, non-empty), loads and has a positive natural size (`drawImage` draws nothing for an image with a zero dimension). It is drawn directly above the white base, at the contain-fit placement. |
| Export.CompositeSketch | app/page.tsx:105-123 | The sketch is drawn exactly when it loads. It is the last call and covers (0, 0, width, height). |
| Export.CompositeLayerOrder | app/page.tsx:62-112 | Of any two image draws, the lower is the background and the upper is the sketch. |
| Export.CompositeInsideRaster | app/page.tsx:85-112 | Every fill and every draw lies inside the raster. |
| Export.BackgroundFailureIsolated | app/page.tsx:96-99 | A background load error removes only the background draw. The outcome is unchanged. |
| Export.SketchFailureIsolated | app/page.tsx:117-120 | A sketch load error removes only the sketch draw. The outcome is unchanged. |
| Export.LayerFailuresNotFatal | app/page.tsx:62-123 | The background state and the load results of either image never change how the export ends. Those steps are best effort. |
| Export.ExportDeterministic | app/page.tsx:31-145 | Two exports of the same page draw the same calls and end the same way. Only the download name differs, and it differs whenever the milliseconds differ. |

## Left out

- Rendering (JSX, React state hooks, colour and size controls) and the image upload through `FileReader`: these are UI and browser file I/O.
- Clear, undo, redo and the sketch library's `exportImage`: the library is not part of this model. The exported sketch is an opaque image that either exports and loads or fails.
- Pixels. `drawImage`, `fillRect` and `toBlob` are recorded as calls, not rasterised or encoded, and the PNG quality argument is not modelled.
- The promise/`onload` mechanics and `crossOrigin`. Each asynchronous step is one success-or-failure input. `toBlob`'s callback runs after `handleDownload` returns, and that timing is not modelled.
- The anchor element, its click, and `URL.createObjectURL`/`revokeObjectURL`: a produced blob is the single outcome `Downloaded(name)`.
- Console logging. The alert is kept only as the outcome `Failed`.
- Exceptions other than a rejected `exportImage` (for example from `drawImage`): these are not modelled.
- Geometry.ContainFit: computes over exact reals, not IEEE-754 doubles, so rounding is not modelled.
- DownloadName.Signed: renders every timestamp in plain decimal. JavaScript switches to exponent notation for magnitudes from 10^21 on, far beyond any `Date.now()`.
- The next.config.ts static-export settings: they contain no logic.
- The code does not reject a container with zero area up front: the only up-front check is the refs (line 32). A zero-area raster is filled and drawn on like any other, and the download then fails because `toBlob` yields no blob. The model follows the code.
- Placement of a background whose natural width or height is 0: `drawImage` draws nothing for such an image, whatever placement lines 69-87 compute. That placement is finite, except that it holds NaN when the natural height is 0 and either the natural width or the box height is 0. The model skips the computation and records no draw, which is the same visible effect.
