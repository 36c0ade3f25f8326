# Corn-plant counter: crop dialog, upload normalisation and upload names

This project models the interactive core of a corn-plant counting tool. The
tool has two front ends:
- a PyQt desktop application (`qt.py`);
- a small Flask web application (`app.py`).

The model covers these parts:

- **The crop view** (`ImageCropView`, `crop_view.dfy`). It is a zoomable view
  in which the user drags a crop rectangle of a chosen size over an image.
  Every rectangle goes through one clamp (`geometry.dfy`). The clamp takes
  the crop size, cut down only where the image is smaller, and slides the
  origin back inside the image. The pointer handlers decide between dragging
  and panning. The wheel keeps the zoom within [0.1, 5.0]; the +/- keys
  step by 1.25 or 0.8 while the scale is below 5.0 or above 0.1, so one key
  step can overshoot (`zoom.dfy`). The outline's pen width is a banded
  function of the image diagonal and the zoom (`pen_width.dfy`). `get_crop_rect` turns the
  rectangle into whole pixels.
- **The crop dialog** (`ImageCropDialog`, `crop_dialog.dfy`). It has two spin
  boxes ranged to [100, image side], an aspect lock with its captured ratio,
  and the quick-size buttons built by an append loop. Every size change goes
  to the view. Accepting stores the view's crop box.
- **Upload normalisation** (`resize_image_if_needed`, `normalizer.dfy`). An
  image wider or taller than 2048 px is cropped or scaled, according to the
  user's answer and the crop dialog's outcome. Its mode is then converted to
  RGB for JPEG files or changed images. The call reports whether it wrote the
  image back.
- **Upload names** (`file_names.dfy`):
  - the web check `allowed_file`;
  - the desktop extension check built on `os.path.splitext`;
  - the stored name `<uuid hex>_<name>` and the processed name;
  - the web preview name `stored[33:]`;
  - the desktop default save name `result_` + `split('_', 2)[-1]`.
- **The web session** (`web_session.dfy`). The `index`, `process` and `result`
  routes act as methods on a session map.

Scene coordinates, zoom scales and ratios are exact reals. Python's `int()`
on them is truncation toward zero (`CropGeometry.Trunc`). PyQt gives `QPoint`
and `QPointF` the truth value `not isNull()`, so a start point or pan anchor
at the origin counts as absent (`CropView.PointSet`, `CropView.PixelSet`).
A `QSpinBox` range whose maximum is below its minimum of 100 is lifted to
100 (`CropDialog.SpinMax`).

Where the project's own description and the code disagree, the model
follows the code:
- **The +/- keys and the zoom range.** The description says the keys use the
  same bound as the wheel. The code tests only the scale before the step, so
  one key step can land at up to 6.25 or down to 0.08
  (`Zoom.KeyZoomOvershoot`, `Zoom.KeyZoomLeavesRange`).
- **The aspect lock's rounding.** The description says the derived side is
  rounded. The code truncates it with `int()` (`CropDialog.LockedSide`).
- **Normalisation failures.** The description says failures are reported.
  The code returns False for any exception (`Normalizer.ResizeReturns`).
- **Repeated normalisation.** The description says normalising twice changes
  nothing. That holds when the result is within bounds
  (`Normalizer.SecondPassNoop`). A crop larger than 2048 is kept as it is, so
  a second pass would ask again (`Normalizer.CropMayStayOversize`).
- **When normalisation acts.** The description says it acts only on oversize
  images. The code also converts and rewrites a small non-RGB `.jpg`/`.jpeg`
  file (`Normalizer.SmallImageKeepsSize`).

Two behaviours of the code are worth knowing:
- **Panning moves.** A move pans only while the pan anchor is truthy. A pan
  that starts at widget pixel (0, 0) therefore does not scroll, and under
  such an anchor a drag in progress still moves the rectangle
  (`CropView.ImageCropView.Move`).
- **Very thin images.** The scale path truncates each side with `int()`. An
  image more than 2048 times wider than tall (or the reverse) gets a side of
  0, PIL refuses to resize to it, and the call returns False
  (`Normalizer.ThinImageFails`).

## Model

| member | source | states |
|---|---|---|
| CropGeometry.Trunc | qt.py:554 | `int()` on a number truncates toward zero: for r >= 0 the result is the largest whole number at or below r, for r < 0 the smallest at or above it |
| CropGeometry.Clamp | qt.py:404-405 | `max(lo, min(v, hi))` lies in [lo, hi] when the bounds do not cross, keeps v when it is already there, and is lo when they cross |
| CropGeometry.Constrain | qt.py:397-407 | the clamped rectangle has size min(crop, image) per axis, lies inside the image, and keeps the requested origin on each axis where the rectangle already fits |
| CropGeometry.ConstrainIsNearest | qt.py:404-405 | no placement of that size inside the image is closer on either axis to the requested origin than the clamped one |
| CropGeometry.SettledIffFixpoint | qt.py:397-407 | a rectangle is inside the image with the spec's clamped size exactly when the clamp leaves it unchanged |
| CropGeometry.ConstrainIdempotent | qt.py:397-407 | clamping a clamped rectangle again changes nothing |
| CropGeometry.DragRect | qt.py:445-463 | the rectangle a drag draws, the spec centred on the pointer (possibly outside the image) and clamped, has the clamped size and lies inside the image |
| CropGeometry.DragRectCentredOnPointer | qt.py:452-461 | away from the image edges the dragged rectangle is centred exactly on the pointer |
| CropGeometry.Recentred | qt.py:378-395 | re-sizing a rectangle to a new spec about its old centre gives a rectangle of the new clamped size inside the image |
| CropGeometry.RecentredKeepsCentre | qt.py:381-393 | when the new size fits around the old centre, the centre does not move |
| CropGeometry.RecentredSameSpec | qt.py:372-395 | re-sizing a settled rectangle to the spec it already has leaves it exactly where it is |
| CropGeometry.ResizeRect | qt.py:378-395 | `set_crop_size` leaves an absent rectangle absent and turns a present one into one of the new clamped size inside the image |
| CropGeometry.ToBox | qt.py:551-554 | for a rectangle in the image's quadrant each of x, y, w and h becomes its whole-pixel part: a non-negative whole number at or below the value and within 1 of it |
| CropGeometry.SettledBoxInside | qt.py:539-554 | the whole-pixel box of a settled rectangle stays inside the image (x + w <= imgW, y + h <= imgH), keeps the clamped size and has positive sides |
| PenWidth.BaseWidth | qt.py:503-510 | every band's base width is at least 3 |
| PenWidth.ZoomAdjustment | qt.py:513 | the zoom adjustment is at least 0.3 and at least the reciprocal of the scale |
| PenWidth.RawWidth | qt.py:513-520 | the width before `int()` is never below 0.9, the smallest base width times the smallest zoom adjustment |
| PenWidth.PenWidth | qt.py:483-525 | the pen width is a whole number in [3, 30] for every diagonal and positive scale |
| PenWidth.BandWidthMonotone | qt.py:503-520 | across the bands at 3000, 5000 and 8000, doubling included, the band width never decreases as the diagonal grows |
| PenWidth.PenWidthMonotoneInDiagonal | qt.py:494-525 | at the same zoom a larger diagonal never gets a thinner outline |
| PenWidth.PenWidthAntitoneInScale | qt.py:499-523 | zooming in (a larger scale) never makes the outline thicker |
| PenWidth.DiagonalMonotone | qt.py:494-496 | a diagonal fixed by d*d = w*w + h*h grows with the image's width and height |
| Zoom.WheelZoom | qt.py:335-352 | a wheel step either leaves the scale as it was or lands in [0.1, 5.0] |
| Zoom.WheelDroppedIffOutOfRange | qt.py:347-352 | a wheel step is dropped exactly when its product would leave [0.1, 5.0], and applied in full otherwise |
| Zoom.WheelRepeatedStaysInRange | qt.py:335-352 | any number of wheel steps keeps an in-range scale in range |
| Zoom.WheelRepeatedDirection | qt.py:341-352 | turning the wheel up never zooms out and turning it down never zooms in, however many steps |
| Zoom.KeyZoom | qt.py:354-370 | space re-fits the view to the fit scale; a key other than space, +, = or - leaves the scale alone; from a positive scale + and = never zoom out and change the scale exactly when it is below 5.0, and - never zooms in and changes it exactly when it is above 0.1 |
| Zoom.KeyZoomOvershoot | qt.py:359-368 | from an in-range scale one +/- key step lands within [0.08, 6.25] |
| Zoom.KeyZoomLeavesRange | qt.py:359-368 | a key step can leave the range: 4.5 zooms in to 5.625 and 0.11 zooms out to 0.088 |
| CropView.ImageCropView.constructor | qt.py:298-333 | a new view has the 2048 x 2048 spec, no rectangle, no gesture under way and the fitted scale |
| CropView.ImageCropView.SetCropSize | qt.py:372-395 | the spec becomes the new size, an existing rectangle is re-sized about its centre, and nothing else changes |
| CropView.ImageCropView.Press | qt.py:409-436 | a plain left press inside the image starts a drag there and removes the rectangle; an exact-Ctrl left press inside the image or any right press starts panning from that pixel and keeps the rectangle; other presses change nothing |
| CropView.ImageCropView.Move | qt.py:438-481 | while panning from a truthy anchor only the anchor moves; otherwise, while dragging from a truthy start, the rectangle becomes the dragged one; otherwise nothing changes |
| CropView.ImageCropView.Release | qt.py:527-537 | a left release ends dragging and panning, a right release ends panning, and the rectangle survives both |
| CropView.ImageCropView.Wheel | qt.py:335-352 | a wheel event changes only the scale, by one bounded wheel step |
| CropView.ImageCropView.Key | qt.py:354-370 | a key event changes only the scale, as the key rule says |
| CropView.ImageCropView.FitInView | qt.py:195-200 | re-fitting changes only the scale |
| CropView.ImageCropView.CropRect | qt.py:539-554 | there is no crop box exactly when there is no rectangle; a box lies inside the image and has size min(spec, image) per axis |
| CropDialog.SpinBound | qt.py:116-118 | a spin box stores a value within [100, max(100, side)], the value itself when it is in range, and the nearer bound otherwise |
| CropDialog.LockedSide | qt.py:233-234 | the derived side is in [100, max(100, side)] and is `int()` of the exact value when that lies in [100, side] |
| CropDialog.LockedHeight | qt.py:233-234 | the height derived from the width under the lock is within the height spin box's range |
| CropDialog.LockedWidth | qt.py:240-241 | the width derived from the height under the lock is within the width spin box's range |
| CropDialog.SizeChanged | qt.py:202-247 | both sides end in their spin ranges; the notice is shown exactly when a side exceeded the image; a side the lock does not derive is min(value, range maximum); under the lock the other side is derived from the edited one through the ratio |
| CropDialog.AspectLockKeepsRatio | qt.py:230-237 | after a width edit under the lock, the height is the exact width/ratio truncated, or is clamped to 100 or to the height's maximum where the exact value lies beyond it |
| CropDialog.AspectLockKeepsRatioFromHeight | qt.py:238-242 | after a height edit under the lock, the width is the exact height*ratio truncated, or is clamped to 100 or to the width's maximum where the exact value lies beyond it |
| CropDialog.QuickSizeTarget | qt.py:262-275 | a quick size gives min(size, side) per axis, and the notice is shown exactly when the size is not the larger image side and exceeds a side |
| CropDialog.QuickNotices | qt.py:213-228 | the boxes one quick-size click shows: the quick-size notice, first, exactly when the target has it; every later box is a "size limited" notice, one for each spin box whose value changes, and none unless an image side is below 100 |
| CropDialog.ThinImageQuickNotices | qt.py:262-279 | on a 3000 x 50 image, choosing 1024 from 2048 x 100 shows the quick-size notice and then one "size limited" notice |
| CropDialog.QuickSizes | qt.py:146-155 | the buttons offer each of 1024, 2048 and 4096 not above the larger image side, in increasing order, and then the whole image unless the image is a square whose side is already offered |
| CropDialog.ImageCropDialog.constructor | qt.py:116-193 | the spin boxes start at min(2048, side) bounded into their ranges, the lock is on with ratio width/height, the view gets that spec with no rectangle, and the buttons are the offered presets |
| CropDialog.ImageCropDialog.OnSizeChanged | qt.py:202-247 | the spin values become the size-change rule's result, the view gets them with its rectangle re-sized, and the lock, ratio and crop box do not change |
| CropDialog.ImageCropDialog.EditSide | qt.py:116-131 | a value typed into a spin box is bounded into its range; an unchanged value changes nothing, a changed one runs the size-change rule from the edited box |
| CropDialog.ImageCropDialog.SetKeepAspect | qt.py:249-253 | the lock takes the new state, and the ratio is re-captured as width/height only when the lock is switched on |
| CropDialog.ImageCropDialog.SetQuickSize | qt.py:255-285 | the spin boxes take the quick target; the boxes shown are the target's notice followed by the size-change notices of the two `setValue` calls; the lock is restored, the ratio becomes the target's width/height, the crop box does not change, and the view's rectangle is re-sized first to the new width and then to the new height |
| CropDialog.ImageCropDialog.SetSpinUnlocked | qt.py:278-279 | with the lock off, setting a spin box to a value in range keeps that value and leaves the other side alone; the size-change notice is shown exactly when the value changes on an image with a side below 100 |
| CropDialog.ImageCropDialog.ClickPreset | qt.py:157-160 | a quick-size button does everything `set_quick_size` does for its size: the spin boxes, the notices, the lock, the ratio, the crop box and the view |
| CropDialog.ImageCropDialog.AcceptCrop | qt.py:287-294 | the dialog warns exactly when the view has no crop box; otherwise it stores that box and is accepted |
| CropDialog.ImageCropDialog.Cancel | qt.py:186-187 | the cancel button rejects the dialog and changes nothing else |
| CropDialog.ImageCropDialog.Resized | qt.py:195-200 | a dialog resize re-fits the view and changes only its scale |
| Normalizer.ScaledSize | qt.py:959-969 | the scaled size has both sides within max_size and the larger side exactly max_size |
| Normalizer.ScaledSideIs | qt.py:959-969 | the other side keeps the image's proportions through `int()`: for a landscape image the height is int(h * (max_size / w)), and symmetrically for a portrait one |
| Normalizer.SizeStep | qt.py:937-970 | an image within bounds keeps its size; the size step fails exactly when the image is oversize, not cropped, and the scale path meets a zero side or scales a side to 0; an accepted dialog without a box keeps the size; a scaled size has both sides in [1, max_size] with the larger exactly max_size |
| Normalizer.Extension | qt.py:973 | the lower-cased splitext extension has the extension's length, is empty exactly when the path has no extension, and otherwise starts with '.' |
| Normalizer.ConversionFor | qt.py:972-988 | the mode is converted exactly when it is not RGB and the file is .jpg/.jpeg or the size changed; RGBA is composited, other modes converted |
| Normalizer.Normalize | qt.py:927-997 | the call fails exactly when the scale path meets a zero side or scales a side to 0; the resulting mode is RGB when converted and unchanged otherwise; a changed size always ends in RGB |
| Normalizer.ResizeReturns | qt.py:990-997 | the call returns True exactly when it completed, the image was resized or converted, and the save succeeded |
| Normalizer.SmallImageKeepsSize | qt.py:937-994 | an image within bounds keeps its size without a question, and is written back exactly when it is a non-RGB .jpg/.jpeg file |
| Normalizer.ScalePathFits | qt.py:957-970 | answering No, or rejecting the crop dialog, fails exactly when a scaled side comes out 0; otherwise it scales the image so both sides are in [1, max_size] with the larger exactly max_size, in RGB, and writes it back |
| Normalizer.ThinImageFails | qt.py:966-969 | a 3000 x 1 upload scaled with No gets height 0, so normalising fails and the call returns False |
| Normalizer.CropPathExactSize | qt.py:947-956 | an accepted crop gives exactly the crop box's size, in RGB |
| Normalizer.SecondPassNoop | qt.py:927-994 | normalising a result within bounds again changes nothing and writes nothing, whatever the answers |
| Normalizer.CropMayStayOversize | qt.py:950-956 | a 3000 x 3000 crop of a 5000 x 5000 image is kept at 3000 x 3000, still over the 2048 bound |
| Normalizer.ScaleExample | qt.py:966-969 | a 4000 x 3000 upload is scaled to 2048 x 1536 |
| FileNames.LowerChar | app.py:24 | ASCII capitals map to their lower-case letters 32 code points up; every other character is unchanged |
| FileNames.Lower | app.py:24 | lower-casing keeps the length |
| FileNames.LowerAt | app.py:24 | lower-casing works character by character: each character of the result is its source character lower-cased |
| FileNames.Find | qt.py:915 | the first index of the separator, with none before it, or -1 when it does not occur |
| FileNames.RFind | app.py:24 | the last index of the character, with none after it, or -1 when it does not occur |
| FileNames.AllowedFile | app.py:22-24 | an allowed name ends in '.' followed by three characters that lower-case to png or jpg |
| FileNames.EndingAllowed | app.py:22-24 | conversely, every name ending in '.' and three characters that lower-case to png or jpg is allowed |
| FileNames.AllowedFileIff | app.py:22-24 | a web upload name is allowed exactly when it has a '.' and the text after its last '.' lower-cases to png or jpg |
| FileNames.AllowedFileExamples | app.py:20-24 | "a.b.JPG" is allowed; "x.jpeg", "x." and "png" are refused |
| FileNames.SplitExt | qt.py:781 | splitext's root and extension make up the path, an extension is a '.' followed by neither '.' nor '/', and there is one exactly when the last '.' follows the last '/' and something other than dots precedes it in the file name |
| FileNames.DesktopAllowed | qt.py:781-784 | a path the desktop accepts has a splitext extension of 4 or 5 characters, the '.' included |
| FileNames.DesktopAllowedIff | qt.py:781-784 | the desktop accepts exactly the paths with a splitext extension whose text after the '.', lower-cased, is png, jpg or jpeg |
| FileNames.DesktopTakesJpeg | qt.py:621 | "x.jpeg" passes the desktop check and fails the web check |
| FileNames.HiddenPngDiffers | qt.py:781-782 | ".png" fails the desktop check, having no extension, and passes the web check |
| FileNames.StoredName | app.py:41 | the stored name is the uuid hex, then '_', then the uploaded name, each recoverable by position |
| FileNames.ProcessedName | app.py:64 | the processed name is "processed_" followed by the stored name |
| FileNames.Basename | qt.py:788 | the basename is the suffix of the path after its last '/', and contains no '/' |
| FileNames.PreviewName | app.py:47 | the preview name is what follows the first 33 characters, or empty for a shorter name |
| FileNames.PreviewRecoversName | app.py:40-47 | the preview of `<uuid hex>_<name>` is the uploaded name |
| FileNames.Split | qt.py:915 | `split(sep, n)` gives between 1 and n+1 parts, none but the last containing the separator, and the last too when fewer than n+1 parts come out |
| FileNames.JoinSplit | qt.py:915 | joining the parts of a split with the separator gives the string back |
| FileNames.SplitJoin | qt.py:915 | splitting a join of separator-free parts at most (parts - 1) times gives the parts back |
| FileNames.JoinEndsWithLast | qt.py:915 | joining parts with a separator gives a string that ends with the last part |
| FileNames.DefaultSaveName | qt.py:915 | the default save name is "result_" followed by a suffix of the processed name |
| FileNames.SaveNameRecoversBasename | qt.py:915 | for a result named `processed_<uuid hex>_<basename>`, the default save name is `result_<basename>`, even when the basename contains '_' |
| WebSession.Session.Index | app.py:26-53 | a GET renders the page; a POST without a file or with an empty name redirects back unchanged; a refused name also flashes the message; an allowed name stores `<hex>_<name>` and the name as preview, and redirects to the index |
| WebSession.Session.Process | app.py:55-72 | without an upload it redirects to the index with the session unchanged; otherwise it records `processed_` + the uploaded name and redirects to the result |
| WebSession.Session.Result | app.py:74-80 | the result page is rendered exactly when a processed name is present, for `/static/images/` + that name; otherwise it redirects to the index |
| WebSession.UploadProcessResult | app.py:26-80 | in a fresh session, asking for the result first redirects to the index; uploading an allowed file, processing and asking again shows `/static/images/processed_<hex>_<name>` |
| WebSession.RefusedUploadCannotProcess | app.py:49-58 | in a fresh session a refused upload flashes the message once, and processing then redirects to the index |

## Left out

- Qt plumbing is left out because it does not affect the modelled state:
  - layouts, styles, cursors and message-box texts (a notice is a boolean);
  - drawing the rectangle, including attaching the pen width to it;
  - the scroll-bar values that panning changes;
  - the `super()` event calls;
  - mapping widget pixels to scene points, which are inputs.
- `QGraphicsPixmapItem.contains` is taken as the image's bounding box. Qt's
  default mask shape would also exclude fully transparent pixels of an image
  with an alpha channel, and the model does not read pixels.
- The view's scale is `m11` of its transform, which equals `m22` because the
  view only ever scales uniformly. The pen width's average of the two is
  therefore that scale.
- The dialog's constructor requires a readable image with positive sides. The
  path where the size cannot be read (the dialog rejects itself and builds no
  widgets) is not modelled.
- Exact reals stand for doubles. In particular the scale path's larger side
  is exactly max_size; with doubles `int(w * (M / w))` could come out one
  lower.
- `Normalizer.Normalize` models three failures: the zero-side division on
  the scale path, PIL refusing a resize to a side of 0, and a failing save
  (`saveFails` in `ResizeReturns`). An unreadable file or any other failing
  PIL call is not modelled. PIL's pixel work
  (resampling, compositing, saving) is reduced to the size and mode it
  leaves.
- `FileNames.Lower`: lower-casing is ASCII only. Python lower-cases all of
  Unicode, but no other character lower-cases to a letter of "png", "jpg" or
  "jpeg", so the extension checks decide the same.
- The desktop upload flow beyond its extension check and names is left out:
  copying the file, loading the preview, the status bar, and the detection
  worker and its result handling.
- `WebSession.Session.Result` does not model the URL escaping that `url_for`
  applies to the file name. Flask keeps flashed messages inside the session;
  here they are a separate list.
- The uuid of an upload is a parameter (randomness). Saving and copying files
  is not modelled.
