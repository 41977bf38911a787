# ImagePlus panel input: selection and crop state machine

This project models the `ImagePlus.panel.input` widget of the MODX ImagePlus
extra (`assets/components/imageplus/mgr/js/imageplus.panel.input.js`). The
widget lets an editor pick an image for a template variable (TV) and crop it.
It keeps this state:

- `this.image`: the source image, the crop rectangle and the alt text.
- A rollback snapshot, `oldSourceImg`.
- The last accepted file label.
- The JSON text in the hidden form field.

Its handlers decide three things:

- when an image is too small for the configured minimum and must be rolled
  back;
- when the crop is reset;
- when the hidden field is rewritten and the resource form is marked dirty.

The model is split into these modules:

- `Json` (json.dfy): JSON values, a printer and a parser. Field text is a
  sequence of characters and atomic numbers. `Stringify` prints as
  `JSON.stringify` does with an indentation gap; `Print` uses the two
  spaces of lines 294 and 300. The parser accepts whitespace around every
  token, as `JSON.parse` does. The round trip is proved for every gap made
  of whitespace and any whitespace around the text. `Normalize` is what the
  code does to the current field value before comparing it (lines 297-303).
- `TvCodec` (tv_codec.dfy): the stored record of lines 287-293 (`Encode`)
  and how `getValue` reads it back (`DecodeImage`, `LegacyImage`). A source
  image records the order of its properties, as a JavaScript object does.
  `JSON.stringify` writes them in that order: `src`, `width`, `height`,
  `source` for a selected image; `height`, `width`, `source`, `src` for a
  legacy one (lines 267-272). Both the round trip and the legacy bare-path
  reading are proved. `this.image.sourceImg` can be `undefined`, `null`,
  `false` or an object (`SourceRef`). `JSON.stringify` omits an undefined
  member and writes the other three as `null`, `false` or the object.
- `Constraints` (constraints.dfy): `checkImageIsLargeEnough`, and the crop
  reset of `onImageSelected`. The handlers use that reset exactly as
  written (`ResetCrop`); `FittedCrop` is the corrected crop of the second
  finding below.
- `EditorFit` (editor_fit.dfy): the display-ratio fit and window size of
  `editImage`.
- `Paths` (paths.dfy): the folder the media browser opens in, built with
  split, pop and join on '/'.
- `Thumb` (thumb.dfy): `generateThumbUrl` as an imperative method with its
  two loops. It is proved against a specification on insertion-ordered
  association lists, and the preview decision of `updatePreviewImage` is
  here too.
- `Widget` (widget.dfy): the widget's whole state as a value, with one step
  function per handler.
- `WidgetProps` (widget_props.dfy): what the handlers promise, proved about
  those steps, and the findings below.
- `Input` (input.dfy): the class `PanelInput`. Its fields are updated in
  place by one method per handler, and each method is proved to perform the
  matching step of `Widget`. Every method also keeps the invariant
  `Valid()`: an aliased snapshot is the current image, and each image
  object lists exactly its present properties.

Environment effects become parameters or counters:

- Effects on the MODX manager become counters in the state:
  - `fireResourceFormChange` is `dirtyCount`;
  - the "Image too small" alert is `alertCount`;
  - the deferred preview refresh (`defer(10)`) is `pendingPreviews`;
  - the size request of `manualGetImageSize` is `pendingSizeFetches`.
- The results of asynchronous or outside events are handler parameters:
  - the loaded image's natural size;
  - the media browser's selection;
  - the editor's crop;
  - the id of the TV being reset;
  - `window.innerWidth` and `window.innerHeight`.
- JavaScript's number-to-string conversion is a function parameter `fmt`.

## Model

| member | source | states |
|---|---|---|
| Json.ParseStringify | assets/components/imageplus/mgr/js/imageplus.panel.input.js:294-303 | parsing what `JSON.stringify` prints with any whitespace gap, at any indentation and with any whitespace around it, gives back the value |
| Json.ParsePrint | assets/components/imageplus/mgr/js/imageplus.panel.input.js:294-303 | parsing the two-space text `JSON.stringify(v, null, '  ')` prints gives back the value |
| Json.NormalizeWhitespace | assets/components/imageplus/mgr/js/imageplus.panel.input.js:297-303 | a truthy value spelled with any whitespace gap and surrounding whitespace normalises to its two-space text |
| Json.NormalizePrint | assets/components/imageplus/mgr/js/imageplus.panel.input.js:299-303 | the canonical text of a truthy value is its own normalised form |
| Json.NormalizeIdempotent | assets/components/imageplus/mgr/js/imageplus.panel.input.js:299-303 | normalising the current field value twice is the same as once |
| TvCodec.SourceRefRoundTrip | assets/components/imageplus/mgr/js/imageplus.panel.input.js:263-294 | each `sourceImg` value (undefined and so omitted, null, false, or an object listing its own properties) reads back as itself |
| TvCodec.DecodeEncode | assets/components/imageplus/mgr/js/imageplus.panel.input.js:263-294 | decoding the record written for an image gives back the same source image, crop and alt text, whichever of the four kinds the source image is |
| TvCodec.NormalizeEncode | assets/components/imageplus/mgr/js/imageplus.panel.input.js:294-303 | the stored text is already in normal form, so comparing it with the current value after normalisation compares equal texts |
| TvCodec.DecodeNormalized | assets/components/imageplus/mgr/js/imageplus.panel.input.js:263-306 | a field whose normalised text equals the record written for an image decodes as that image |
| TvCodec.EncodeInjective | assets/components/imageplus/mgr/js/imageplus.panel.input.js:287-294 | two images with the same stored text are the same image |
| TvCodec.BarePathIsLegacy | assets/components/imageplus/mgr/js/imageplus.panel.input.js:265-267 | a stored bare path starting with '/' does not decode as a record |
| Constraints.LargeEnough | assets/components/imageplus/mgr/js/imageplus.panel.input.js:317-331 | an image is rejected exactly when it is an object and a positive target exceeds its positive known width or height; undefined, null and false are accepted |
| Constraints.UnconstrainedAccepts | assets/components/imageplus/mgr/js/imageplus.panel.input.js:317-331 | with no positive target every image is accepted |
| Constraints.AcceptedMeetsMinimum | assets/components/imageplus/mgr/js/imageplus.panel.input.js:317-331 | an accepted image meets each target wherever its dimension is known and positive |
| Constraints.NarrowImageRejected | assets/components/imageplus/mgr/js/imageplus.panel.input.js:320-323 | a 100 x 50 image is rejected for a target width of 200 |
| Constraints.ResetCrop | assets/components/imageplus/mgr/js/imageplus.panel.input.js:187-201 | the new crop is at the origin: the whole image with no ratio; with a ratio, the width is kept and height divided by it when width/height is below it, else width divided and height kept |
| Constraints.SquareCropScenario | assets/components/imageplus/mgr/js/imageplus.panel.input.js:190-193 | a 1000 x 1000 image with ratio 2 gets a 1000 x 500 crop |
| Constraints.WideCropScenario | assets/components/imageplus/mgr/js/imageplus.panel.input.js:190-197 | a 1000 x 500 image with ratio 2 gets a 500 x 500 crop |
| Constraints.SquareImageGetsTargetAspect | assets/components/imageplus/mgr/js/imageplus.panel.input.js:190-193 | for a square image and a ratio above 1 the crop has exactly the target aspect |
| Constraints.ResetCropFits | assets/components/imageplus/mgr/js/imageplus.panel.input.js:187-201 | with no ratio or a ratio of at least 1 the crop lies inside the image |
| Constraints.ResetCropMisfits | assets/components/imageplus/mgr/js/imageplus.panel.input.js:190-197 | with ratio 0.5 a 1000 x 1000 image gets a crop 2000 wide and a 100 x 1000 image one 2000 high; with ratio 2 a 500 x 1000 image gets a square crop |
| Constraints.FittedCrop | assets/components/imageplus/mgr/js/imageplus.panel.input.js:187-201 | the corrected crop is at the origin, has exactly the target aspect for a positive ratio, lies inside the image and spans its full width or full height; with no ratio it is the whole image |
| Constraints.FittedCropScenarios | assets/components/imageplus/mgr/js/imageplus.panel.input.js:190-197 | the corrected crop of the four example images: 500 x 1000, 100 x 200, 500 x 250, and the whole 1000 x 500 image |
| Constraints.FittedAgreesOnSquare | assets/components/imageplus/mgr/js/imageplus.panel.input.js:190-197 | for a square image and a ratio of at least 1 the corrected crop is the crop as written |
| EditorFit.DisplayRatioFits | assets/components/imageplus/mgr/js/imageplus.panel.input.js:344-356 | the ratio lies in [0, 1] and the scaled image fits within 90% of the window width and 70% of its height |
| EditorFit.DisplayRatioOne | assets/components/imageplus/mgr/js/imageplus.panel.input.js:344-356 | the ratio is 1 exactly when the image already fits |
| EditorFit.DisplayRatioTight | assets/components/imageplus/mgr/js/imageplus.panel.input.js:344-356 | a shrunk image meets one of the two limits exactly |
| EditorFit.Layout | assets/components/imageplus/mgr/js/imageplus.panel.input.js:338-366 | the editor window is at most 90% of the window width plus 20 and 70% of its height plus 104, and its ratio lies in [0, 1] |
| Paths.SplitSegments | assets/components/imageplus/mgr/js/imageplus.panel.input.js:89 | no segment contains '/', and there is more than one segment exactly when the path contains '/' |
| Paths.JoinSplit | assets/components/imageplus/mgr/js/imageplus.panel.input.js:89-91 | joining the segments with '/' gives back the path |
| Paths.JoinLast | assets/components/imageplus/mgr/js/imageplus.panel.input.js:90-91 | joining two or more segments is joining all but the last, then '/', then the last |
| Paths.OpenToIsFolder | assets/components/imageplus/mgr/js/imageplus.panel.input.js:89-91 | the open-to folder is the path up to its last '/', or empty when there is none |
| Thumb.GenerateThumbUrl | assets/components/imageplus/mgr/js/imageplus.panel.input.js:147-161 | the two loops build the base URL followed by the query of the defaults merged with the parameters |
| Thumb.MergeKeys | assets/components/imageplus/mgr/js/imageplus.panel.input.js:149-156 | the merged keys are the default keys in place, then each new parameter key once, in order |
| Thumb.MergeDistinct | assets/components/imageplus/mgr/js/imageplus.panel.input.js:149-156 | no key repeats after the merge |
| Thumb.MergeValues | assets/components/imageplus/mgr/js/imageplus.panel.input.js:149-156 | each merged key holds its last parameter value, or its default when no parameter sets it |
| Thumb.ThumbUrlShape | assets/components/imageplus/mgr/js/imageplus.panel.input.js:147-161 | the URL is the connectors URL, `system/phpthumb.php?imageplus=1` and one `&k=v` per distinct key, with wctx, w and source first |
| Thumb.PreviewFor | assets/components/imageplus/mgr/js/imageplus.panel.input.js:409-420 | the preview is hidden exactly when the image is not an object or the crop width is 0 |
| Thumb.PreviewQueryKeys | assets/components/imageplus/mgr/js/imageplus.panel.input.js:414-420 | the preview URL's keys are wctx, w, source, src, sw, sh, sx, sy, in that order |
| WidgetProps.WriteGate | assets/components/imageplus/mgr/js/imageplus.panel.input.js:294-314 | only the field, the dirty count and the error count can change, and the dirty count rises by one exactly when the field does; the step changes nothing exactly when the field already equals the new record in normal form or the path is ''; otherwise a null or undefined image throws at line 306 (one error, field and dirty count untouched), and any other image, `false` included, leaves a field that normalises to the record of the current state and decodes as its image, crop and alt text |
| WidgetProps.WhitespaceVariantClean | assets/components/imageplus/mgr/js/imageplus.panel.input.js:294-307 | a field holding the current record printed with any whitespace gap (two spaces, compact, another indentation) and any whitespace around it makes `updateValue` write nothing and not mark the form dirty |
| WidgetProps.UpdateValueIdempotent | assets/components/imageplus/mgr/js/imageplus.panel.input.js:286-315 | a second `updateValue` on unchanged state leaves the field and the dirty count alone, and changes nothing at all unless the image is null or undefined, where it throws again |
| WidgetProps.ValueFrame | assets/components/imageplus/mgr/js/imageplus.panel.input.js:286-315 | `updateValue` changes only the field and the two counters |
| WidgetProps.DisplayFrame | assets/components/imageplus/mgr/js/imageplus.panel.input.js:237-261 | `updateDisplay` leaves the alt text, snapshot, editor, size requests, browser's original value and preview alone, whether it accepts or rolls back |
| WidgetProps.DisplayRejects | assets/components/imageplus/mgr/js/imageplus.panel.input.js:239-255 | a rejected image becomes the snapshot; the crop comes from the snapshot's crop if it has one; the browser shows the last label, or is reset when there is no snapshot; one alert; field and dirty count untouched; result false |
| WidgetProps.DisplayAccepts | assets/components/imageplus/mgr/js/imageplus.panel.input.js:256-260 | an accepted null or undefined image throws at line 256: one error and nothing else, result false; any other accepted image keeps its image, crop, snapshot and editor, its path becomes the label ('' for `false`), one preview refresh is scheduled, no alert is raised, the form is marked dirty at most once, and unless the path is '' the field decodes as the current image |
| WidgetProps.ReselectKeepsCrop | assets/components/imageplus/mgr/js/imageplus.panel.input.js:174-213 | selecting the current path keeps the crop, unless rejected with a crop on the snapshot, and opens no editor |
| WidgetProps.NewPathResetsCrop | assets/components/imageplus/mgr/js/imageplus.panel.input.js:173-213 | an accepted new path sets the reset crop, the new image, a snapshot copy of the old one and the label, raises no alert, and opens the editor unless one is open or the path is '' |
| WidgetProps.RejectRollsBack | assets/components/imageplus/mgr/js/imageplus.panel.input.js:176-255 | a rejected selection leaves the copy of the previous image, shared with the snapshot, and restores the crop only from a crop on that copy; field, dirty count, editor and alt text unchanged |
| WidgetProps.KeepingCropRestores | assets/components/imageplus/mgr/js/imageplus.panel.input.js:176-255 | with the corrected snapshot a rejected selection brings back the crop and the previous image, and writes nothing |
| WidgetProps.UpdateValueIgnoresSnapshot | assets/components/imageplus/mgr/js/imageplus.panel.input.js:286-294 | the write gate does not read the snapshot |
| WidgetProps.KeepingCropAgreesOnAccept | assets/components/imageplus/mgr/js/imageplus.panel.input.js:173-214 | for an accepted selection the corrected handler differs from the written one only in the crop kept on the snapshot |
| WidgetProps.SelectRequestsSize | assets/components/imageplus/mgr/js/imageplus.panel.input.js:203-206 | both selection handlers start exactly one size request when the reported image is at least 800 wide or 600 high, and none otherwise |
| WidgetProps.SelectLeavesSnapshot | assets/components/imageplus/mgr/js/imageplus.panel.input.js:176 | every selection leaves a snapshot |
| WidgetProps.EditorCropStored | assets/components/imageplus/mgr/js/imageplus.panel.input.js:388-407 | after the editor's crop the crop is that crop, a snapshot exists and carries it (a copy of the image when there was none, empty when there is no image object), and the editor is closed; the display step throws exactly when the image is null or undefined; an accepted image that was not aliased stays the current image |
| WidgetProps.EditorCropLostOnReject | assets/components/imageplus/mgr/js/imageplus.panel.input.js:176-404 | for every accepted selection, editor crop and rejected selection: the rollback restores the accepted image, with the rejected selection's reset crop whenever the paths differ, not the editor's crop |
| WidgetProps.EditorCropKeptOnReject | assets/components/imageplus/mgr/js/imageplus.panel.input.js:176-404 | the same three steps with the corrected selection keep the editor's crop, on the field's crop and on the restored image |
| WidgetProps.RollbackDropsEditorCrop | assets/components/imageplus/mgr/js/imageplus.panel.input.js:176-404 | select `a.jpg`, crop it in the editor, then select a too-small `b.jpg`: `a.jpg` comes back with crop (0, 0, 50, 50), not the editor's |
| WidgetProps.KeepingCropKeepsEditorCrop | assets/components/imageplus/mgr/js/imageplus.panel.input.js:176-404 | the same three steps with the corrected selection keep the editor's crop |
| WidgetProps.ClearThenRejectedSelect | assets/components/imageplus/mgr/js/imageplus.panel.input.js:375-386 | after `clearImage`, a rejected selection restores the empty copy; the browser stays empty and the field stays '' |
| WidgetProps.ClearRejectThenAltTagUnloadable | assets/components/imageplus/mgr/js/imageplus.panel.input.js:173-386 | after `clearImage` and a rejected selection, an alt change writes a record whose `sourceImg` is the empty object; it reads back, but the constructor cannot load it |
| WidgetProps.TvResetFilter | assets/components/imageplus/mgr/js/imageplus.panel.input.js:79-167 | a reset of another TV changes nothing; a reset of this one empties the browser, sets the image to `false`, drops the alias and schedules a refresh that hides the preview |
| WidgetProps.ResetThenAltTagUnloadable | assets/components/imageplus/mgr/js/imageplus.panel.input.js:163-306 | after a reset of a clean field, an alt change writes a record with `sourceImg` false and marks the form dirty; the record reads back, but the constructor cannot load it |
| WidgetProps.GuardedWritesLoadable | assets/components/imageplus/mgr/js/imageplus.panel.input.js:305-306 | the gate with the guard the comment describes never throws, writes the record or nothing, and what it writes loads as the same image |
| WidgetProps.GuardedAgrees | assets/components/imageplus/mgr/js/imageplus.panel.input.js:305-306 | on an image object with a path the guarded gate is the gate as written |
| WidgetProps.ResetThenAltTagGuarded | assets/components/imageplus/mgr/js/imageplus.panel.input.js:163-219 | with the guarded gate, a reset followed by an alt change leaves the stored record alone |
| WidgetProps.SizeResolvedUpdatesSize | assets/components/imageplus/mgr/js/imageplus.panel.input.js:226-231 | for an image object the new size still accepts, the loaded size replaces the recorded one, also in an aliased snapshot; the crop is kept, and the editor opens when the crop is still empty |
| WidgetProps.SizeResolvedWithoutImage | assets/components/imageplus/mgr/js/imageplus.panel.input.js:225-232 | for a null or undefined image line 226 throws: only the request ends and one error is counted; for `false` the sizes are ignored, the display step runs and the field then holds the record with `sourceImg` false |
| WidgetProps.LegacyLoad | assets/components/imageplus/mgr/js/imageplus.panel.input.js:265-281 | a stored text that is not a record loads as the raw path of size 0 x 0 in the configured source, with an all-zero crop |
| WidgetProps.LegacyBarePath | assets/components/imageplus/mgr/js/imageplus.panel.input.js:265-281 | the stored bare path `/images/foo.jpg` loads as that path |
| WidgetProps.StoredRoundTrip | assets/components/imageplus/mgr/js/imageplus.panel.input.js:263-308 | a value the widget wrote for an image object with a path, with its properties in any recorded order, loads as the same image, and writing it again changes nothing, so the form is not marked dirty |
| WidgetProps.LegacyUpgradeReloadsClean | assets/components/imageplus/mgr/js/imageplus.panel.input.js:265-308 | a bare path is rewritten once, marking the form dirty, because a text that does not parse normalises to '' (the reading of line 299 listed under Left out, where `JSON.parse` would throw); the text written reads back as the same image with the order height, width, source, src, and writing it again changes nothing |
| WidgetProps.StaleSizeCallback | assets/components/imageplus/mgr/js/imageplus.panel.input.js:203-232 | a rejected 900 x 500 selection rolls back to a 1000 x 1000 image, and the late size answer records 900 x 500 on that image and raises a second alert |
| WidgetProps.StaleSizeCallbackIgnored | assets/components/imageplus/mgr/js/imageplus.panel.input.js:203-232 | with the checked callback the same late answer only ends its request: the restored image keeps its size and no second alert is raised |
| WidgetProps.SizeResolvedForChecks | assets/components/imageplus/mgr/js/imageplus.panel.input.js:221-232 | the checked callback is the callback as written while the requested file is the current image, and otherwise changes only the request count |
| WidgetProps.EditImageOpens | assets/components/imageplus/mgr/js/imageplus.panel.input.js:335-372 | the editor opens exactly when none is open and the path is non-empty, with the fitted layout; a second call does nothing |
| WidgetProps.AltTagRecorded | assets/components/imageplus/mgr/js/imageplus.panel.input.js:216-219 | the alt text is recorded; unless the image is null or undefined or the path is '', the field then holds the encoding of the new state; for a null or undefined image the field and dirty count are untouched |
| WidgetProps.PreviewShows | assets/components/imageplus/mgr/js/imageplus.panel.input.js:409-425 | the preview is shown exactly when the image is an object and the crop has a width, and its `src` is then the thumbnail URL of the crop; otherwise it is hidden and keeps its `src` |
| WidgetProps.ClearEmpties | assets/components/imageplus/mgr/js/imageplus.panel.input.js:375-386 | image and snapshot become null; label, field and browser are emptied and the preview's `src` is the blank GIF; dirty fires once with no check; crop and alt text are untouched |
| WidgetProps.SelectKeepsConsistent | assets/components/imageplus/mgr/js/imageplus.panel.input.js:176-241 | both selection handlers leave an aliased snapshot equal to the image |
| WidgetProps.DisplayKeepsConsistent | assets/components/imageplus/mgr/js/imageplus.panel.input.js:237-261 | `updateDisplay` and `updateValue` keep an aliased snapshot equal to the image |
| WidgetProps.EditorCropKeepsConsistent | assets/components/imageplus/mgr/js/imageplus.panel.input.js:388-408 | `updateFromEditor` keeps an aliased snapshot equal to the image |
| WidgetProps.OtherStepsKeepConsistent | assets/components/imageplus/mgr/js/imageplus.panel.input.js:333-386 | the remaining handlers keep an aliased snapshot equal to the image |
| Input.PanelInput.constructor | assets/components/imageplus/mgr/js/imageplus.panel.input.js:24-31 | the new widget holds the loaded image, the stored field text and no snapshot, and the browser opens in the folder of the image path |
| Input.PanelInput.UpdateValue | assets/components/imageplus/mgr/js/imageplus.panel.input.js:286-315 | the fields change as the write gate says, a thrown error included, and the invariant holds |
| Input.PanelInput.UpdateValueGuarded | assets/components/imageplus/mgr/js/imageplus.panel.input.js:286-315 | the fields change as the guarded gate says and the invariant holds |
| Input.PanelInput.UpdateDisplay | assets/components/imageplus/mgr/js/imageplus.panel.input.js:237-261 | the fields and the result change as the display step says (rollback, thrown error or accept) and the invariant holds |
| Input.PanelInput.RestoreSnapshot | assets/components/imageplus/mgr/js/imageplus.panel.input.js:241-253 | the fields change as the rollback says and the invariant holds |
| Input.PanelInput.EditImage | assets/components/imageplus/mgr/js/imageplus.panel.input.js:333-373 | the editor layout is set as the open guard and the fit say |
| Input.PanelInput.TakeSelection | assets/components/imageplus/mgr/js/imageplus.panel.input.js:173-204 | the snapshot, image, crop and size request change as the shared selection step says and the invariant holds |
| Input.PanelInput.OnImageSelected | assets/components/imageplus/mgr/js/imageplus.panel.input.js:173-214 | the fields change as the selection step as written says and the invariant holds |
| Input.PanelInput.OnImageSelectedKeepingCrop | assets/components/imageplus/mgr/js/imageplus.panel.input.js:173-214 | the fields change as the corrected selection step says and the invariant holds |
| Input.PanelInput.OnAltTagChange | assets/components/imageplus/mgr/js/imageplus.panel.input.js:216-219 | the alt text is set and the value written through the gate |
| Input.PanelInput.OnSizeResolved | assets/components/imageplus/mgr/js/imageplus.panel.input.js:225-232 | the fields change as the size callback step says and the invariant holds |
| Input.PanelInput.StoreSize | assets/components/imageplus/mgr/js/imageplus.panel.input.js:226-227 | the loaded size goes onto the image object, and onto the snapshot when aliased, and the invariant holds |
| Input.PanelInput.OnSizeResolvedFor | assets/components/imageplus/mgr/js/imageplus.panel.input.js:221-232 | the fields change as the checked size callback step says and the invariant holds |
| Input.PanelInput.UpdateFromEditor | assets/components/imageplus/mgr/js/imageplus.panel.input.js:388-408 | the fields change as the editor crop step says and the invariant holds |
| Input.PanelInput.ClearImage | assets/components/imageplus/mgr/js/imageplus.panel.input.js:375-386 | the fields change as the clear step says and the invariant holds |
| Input.PanelInput.OnReset | assets/components/imageplus/mgr/js/imageplus.panel.input.js:163-167 | the browser is emptied, the image set to `false` and one preview refresh scheduled |
| Input.PanelInput.OnTvReset | assets/components/imageplus/mgr/js/imageplus.panel.input.js:77-84 | only a reset of this TV runs `onReset` |
| Input.PanelInput.RefreshPreview | assets/components/imageplus/mgr/js/imageplus.panel.input.js:409-425 | the preview is hidden or shows the thumbnail URL built by `GenerateThumbUrl`, as the preview step says |

## Left out

- Widget construction and layout are not modelled. This covers the
  `Ext.apply` and superclass wiring (lines 40-66), `createImagePreview`,
  `createAltTextField` with its placeholder, the component registration and
  `ImagePlus.form.TripleTriggerField` (lines 430-532). They are UI chrome
  driven by DOM measurements.
- `ImagePlus.combo.Browser` (lines 534-584) only opens the MODX media
  browser and forwards its selection. That selection is the `Selection`
  parameter of `OnImageSelected`.
- The image load of `manualGetImageSize` (lines 221-234) is I/O. Its
  sources-URL lookup is global configuration. The model counts the request
  (line 204) and takes the loaded size as a parameter of `OnSizeResolved`.
  A callback that arrives after another selection applies to the current
  image, as in the code (third finding below); which events may come
  between a request and its answer is not constrained.
- Effects on the page are counters or state values, not DOM writes. This
  covers the jQuery and DOM writes to the preview element (lines 380 and
  421-424), the alert text, `fireResourceFormChange` and the `defer(10)`
  timers.
- The check at lines 379 and 421 that the preview element is rendered is
  not modelled: the element is always taken to exist.
- `onAfterRender` (line 170) is the first `updateDisplay` call, and
  `PanelInput.UpdateDisplay` models it.
- The editor window (`imageplus-window-editor`) is not part of this model.
  Nor is its sharing of the `crop` object (lines 358-372): the model records
  only the open guard and the layout it is opened with. A window closed
  without a crop leaves `editorWindow` set, as the code does.
- Json.Stringify: a control character inside a string is printed raw.
  `JSON.stringify` writes it as an escape such as `\n` or `\u0001`. Both
  sides of the comparison at line 306 go through this one printer, so the
  comparison can differ from the code's only for a stored string with such
  an escape, which the parser does not read (next lines).
- JSON arrays are not in the value model. A stored text holding one does
  not parse, so it reads as a legacy path, or normalises to ''. A real
  `JSON.parse` or `Ext.util.JSON.decode` would throw on invalid text; the
  model treats a failed parse as '' at line 299 and as "not a record" at
  line 266.
- Widget.UpdateValueStep, WidgetProps.StoredRoundTrip and
  Input.PanelInput.UpdateValue: a decoded `sourceImg` keeps only the five
  known properties. Extra members the stored object had are dropped, so a
  text carrying them is rewritten without them and the form is marked
  dirty where the code would keep them.
- Widget.UpdateValueStep, WidgetProps.StoredRoundTrip and
  Input.PanelInput.UpdateValue: a decoded crop is rewritten as `x`, `y`,
  `width`, `height`. A stored crop in another order or with extra members
  is therefore rewritten, where the code would print it back unchanged.
- Widget.UpdateValueStep and WidgetProps.StoredRoundTrip: strings support only
  the escapes `\"` and `\\`. A stored text with any other escape does not
  parse, so it is read as a legacy path.
- Widget.UpdateValueStep: `Normalize` keeps duplicate keys. `JSON.parse` keeps only
  the last one, so a stored text with a repeated key may compare unequal
  here where it compares equal in the code.
- Widget.UpdateValueStep and WidgetProps.StoredRoundTrip: these records are
  read as a legacy bare path, where the code would keep the decoded value:
  - a crop with a non-number member, or an `altTag` that is not a string;
  - a record with no top-level `crop`. The code keeps that image and then
    throws at line 410 when it reads `this.image.crop.width`;
  - a `sourceImg` whose `src` or `source` is not a string, or whose `width`
    or `height` is not a number;
  - a `sourceImg` that repeats a known key. `JSON.parse` would keep the last
    value; the model requires distinct keys so that the recorded order is
    well defined.
- A decoded record of another shape (a number, a string, or an object whose
  `sourceImg` is not an object) is read as a legacy path. The code would
  instead keep the odd value as `this.image`.
- `for ... in` lists integer-like keys before the others in JavaScript. The
  model enumerates every key in insertion order, which agrees whenever no
  key looks like an array index, as for all keys this widget uses.
- Numbers are exact reals, not IEEE doubles. How they are spelled in the
  thumbnail URL is the parameter `fmt`; in the stored JSON text a number is
  one atomic symbol.
- A missing image width or height counts as 0 in the size check and in the
  editor fit (`Dim`). The JavaScript comparisons with `undefined` are all
  false, which agrees for the size check. The fit would compute with NaN.
- `==` between the reset TV's id and `options.tvId` (line 80) is string
  equality here; JavaScript's loose equality between a number and a string
  is not modelled. The id comparison at line 174 is strict in effect, since
  both sides are strings.
- A property read on a null or undefined `sourceImg` throws a TypeError
  (lines 226, 256 and 306). The model counts it in `errorCount`, keeps the
  effects before it, and runs none of the handler's remaining lines or those
  of its callers. `false`, which `onReset` sets (line 165), does not throw:
  its properties read as undefined and assignments to them are ignored, so
  the handlers run on (fourth finding). `for ... in` over any of the three
  copies nothing (lines 177-179 and 396-398). How the page reports the error
  is not modelled.
- Input.PanelInput.constructor: requires a stored text whose image is an
  object with a path (`Widget.Loadable`). Any other text throws at line 89,
  where `createImageBrowser` splits `sourceImg.src`, and no widget exists.
- The constructor leaves `lastFileLabel` undefined, and line 256 sets it to
  undefined for `false`. The model uses '' for both. This agrees with the
  code because line 251 reads it only through `|| ''`.
- The alt-text input, the browser combo and the template variable's PHP side
  are not part of this model.

## Findings

| source | as written | input that shows it | evidently intended | confidence | as-written member | corrected member |
|---|---|---|---|---|---|---|
| assets/components/imageplus/mgr/js/imageplus.panel.input.js:176-404 | `onImageSelected` replaces the snapshot with a fresh copy of the current image at line 176. The crop `updateFromEditor` stored on the old snapshot (line 400) is lost, and a rejected selection restores the image but not the crop it had. | select `a.jpg` (200 x 200) with target width 100, crop it in the editor to (10, 10, 100, 100), then select `b.jpg` (50 x 50): `a.jpg` is restored with crop (0, 0, 50, 50) | a rejected selection restores the crop the image had before it, as lines 245-249 attempt | not executed | WidgetProps.RollbackDropsEditorCrop | WidgetProps.KeepingCropKeepsEditorCrop |
| assets/components/imageplus/mgr/js/imageplus.panel.input.js:190-197 | With a target ratio, the first branch keeps the width and divides the height by the ratio; the second divides the width by the ratio and keeps the height. Neither keeps the crop inside the image for a ratio below 1. The crop has the target aspect only for a square image with a ratio above 1, or an image whose width is the ratio squared times its height. | ratio 0.5 on a 1000 x 1000 image gives a crop 2000 wide; ratio 2 on a 500 x 1000 image gives 500 x 500; ratio 2 on a 1000 x 500 image gives 500 x 500 instead of the whole image | the largest crop with the target aspect that fits the image | not executed | Constraints.ResetCropMisfits | Constraints.FittedCrop |
| assets/components/imageplus/mgr/js/imageplus.panel.input.js:203-232 | The size callback writes the loaded size onto whatever `this.image.sourceImg` is when the image arrives. A rejected selection restores the previous image first, so that image gets the rejected file's size. | target height 700, current image `a.jpg` at 1000 x 1000; select `big.jpg` (900 x 500): it is rejected, and its size answer sets `a.jpg` to 900 x 500 and raises the alert again | the size is applied only to the image it was requested for | not executed | WidgetProps.StaleSizeCallback | WidgetProps.StaleSizeCallbackIgnored |
| assets/components/imageplus/mgr/js/imageplus.panel.input.js:163-306 | `onReset` sets `this.image.sourceImg` to `false` (line 165). The guard at line 306 reads `false.src` as undefined, which is not '', so the next `updateValue` writes `"sourceImg": false` and marks the form dirty. An alt change (line 218) or a late size answer (line 228) triggers it. Reopening the resource then throws at line 89, which splits `sourceImg.src`. `clearImage` followed by a rejected selection writes `"sourceImg": {}` the same way. | reset the TV, then type an alt text: the field holds a record with `"sourceImg": false` that the constructor cannot load | no record is written while there is no image path, as the comment at line 305 says | not executed | WidgetProps.ResetThenAltTagUnloadable | WidgetProps.GuardedWritesLoadable |

For the first finding the corrected handler is
`Widget.SelectKeepingCropStep`, run in place by
`Input.PanelInput.OnImageSelectedKeepingCrop`. It takes the snapshot
together with the current crop. `WidgetProps.KeepingCropRestores` proves
that it restores the crop for every rejected selection.
`WidgetProps.KeepingCropAgreesOnAccept` proves that it otherwise agrees with
the code.

For the second finding, `Constraints.FittedCrop` is the corrected crop. It
has the target aspect, lies inside the image and spans its full width or
height. `Constraints.FittedAgreesOnSquare` proves that it equals the crop
as written where the code is right. The handlers keep `ResetCrop`, so that
every other property of the state machine is proved about the code as it
stands.

For the third finding the corrected callback is `Widget.SizeResolvedForStep`,
run in place by `Input.PanelInput.OnSizeResolvedFor`. It applies the size
only while the current image has the requested path.
`WidgetProps.SizeResolvedForChecks` proves that it otherwise only ends the
request.

For the fourth finding the corrected gate is `Widget.UpdateValueGuardedStep`,
run in place by `Input.PanelInput.UpdateValueGuarded`. It writes nothing
unless the image is an object with a non-empty path.
`WidgetProps.GuardedWritesLoadable` proves that it never throws and that
every record it writes loads as the same image.
`WidgetProps.GuardedAgrees` proves that it is the gate as written wherever
the image is an object with a path. `WidgetProps.ResetThenAltTagGuarded`
proves that the reset scenario then leaves the stored record alone. The
handlers keep the gate as written, as for the other findings.
