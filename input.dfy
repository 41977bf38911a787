/** The widget object `ImagePlus.panel.input` (imageplus.panel.input.js):
    its handlers update its fields in place; each is proved to perform the
    matching step of module `Widget`. */
module Input {
  import opened Wrappers
  import opened Json
  import opened TvCodec
  import opened Constraints
  import opened EditorFit
  import opened Paths
  import opened Thumb
  import opened Widget

  /** What the page has seen of the widget: `fireResourceFormChange`
      calls, "Image too small" alerts and handlers ended by an uncaught
      `TypeError`. */
  datatype Host = Host(dirtyCount: nat, alertCount: nat, errorCount: nat)

  /** Work deferred to later events: image loads started by
      `manualGetImageSize` and `updatePreviewImage.defer` calls. */
  datatype Pending = Pending(sizeFetches: nat, previews: nat)

  /** The preview `img` component: its `src` and whether it is shown. */
  datatype Preview = Preview(src: PreviewImage, shown: bool)

  class PanelInput {
    const cfg: Config
    /** The browser combo's creation value, which `reset()` restores. */
    const browserOriginal: string
    /** The folder the media browser opens in (lines 88-91). */
    const openTo: string

    /** `this.image`. */
    var image: Image
    /** `this.oldSourceImg`; `aliased` while it is the object `image.sourceImg` is. */
    var oldSourceImg: SourceRef
    var aliased: bool
    var lastFileLabel: string
    /** The text shown in `this.imageBrowser`. */
    var browserValue: string
    /** The hidden form field's value. */
    var hidden: Text
    var host: Host
    var editorWindow: Option<EditorLayout>
    var pending: Pending
    var preview: Preview

    function Model(): (s': St)
      reads this
    {
      St(image.sourceImg, image.crop, image.altTag, oldSourceImg, aliased, lastFileLabel, browserValue,
         browserOriginal, hidden, host.dirtyCount, host.alertCount, editorWindow, pending.sizeFetches,
         pending.previews, preview.src, preview.shown, host.errorCount)
    }

    /** An aliased snapshot is the current image. */
    ghost predicate Valid()
      reads this
    {
      Consistent(Model())
    }

    /** Lines 24-68 with `getValue` (263-283) and `createImageBrowser` (86-91). */
    constructor (cfg: Config, stored: Text)
      requires Loadable(cfg, stored)
      ensures Model() == Loaded(cfg, stored)
      ensures Valid()
      ensures this.cfg == cfg
      ensures openTo == OpenTo(Loaded(cfg, stored).browserValue)
    {
      var img := LoadImage(cfg, stored);
      var src := img.sourceImg.value.src.value;
      this.cfg := cfg;
      image := img;
      oldSourceImg := Undefined;
      aliased := false;
      lastFileLabel := "";
      openTo := OpenTo(src);
      browserOriginal := src;
      browserValue := src;
      hidden := stored;
      host := Host(0, 0, 0);
      editorWindow := None;
      pending := Pending(0, 0);
      preview := Preview(NoImage, true);
    }

    /** `updateValue`, lines 286-315; a `TypeError` at line 306 ends it. */
    method UpdateValue()
      requires Valid()
      modifies this
      ensures Model() == UpdateValueStep(cfg, old(Model()))
      ensures Valid()
    {
      var json := Encode(image, cfg.targetWidth, cfg.targetHeight);
      var current := Normalize(hidden);
      if current == json {
        return;
      }
      if IsNullish(image.sourceImg) {
        host := host.(errorCount := host.errorCount + 1);
        return;
      }
      if image.sourceImg.Obj? && image.sourceImg.value.src == Some("") {
        return;
      }
      hidden := json;
      host := host.(dirtyCount := host.dirtyCount + 1);
    }

    /** `updateValue` with the guard its line-305 comment describes. */
    method UpdateValueGuarded()
      requires Valid()
      modifies this
      ensures Model() == UpdateValueGuardedStep(cfg, old(Model()))
      ensures Valid()
    {
      var json := Encode(image, cfg.targetWidth, cfg.targetHeight);
      if Normalize(hidden) == json || !image.sourceImg.Obj? || image.sourceImg.value.src.GetOr("") == "" {
        return;
      }
      hidden := json;
      host := host.(dirtyCount := host.dirtyCount + 1);
    }

    /** `updateDisplay`, lines 237-261; a `TypeError` at line 256 ends it. */
    method UpdateDisplay() returns (ok: bool)
      requires Valid()
      modifies this
      ensures (Model(), ok) == UpdateDisplayStep(cfg, old(Model()))
      ensures Valid()
    {
      ghost var s := Model();
      if !LargeEnough(image.sourceImg, cfg.targetWidth, cfg.targetHeight) {
        RestoreSnapshot();
        return false;
      }
      if IsNullish(image.sourceImg) {
        host := host.(errorCount := host.errorCount + 1);
        assert Model() == Threw(s);
        return false;
      }
      lastFileLabel := if image.sourceImg.Obj? then image.sourceImg.value.src.GetOr("") else "";
      pending := pending.(previews := pending.previews + 1);
      assert Model() == Shown(s);
      UpdateValue();
      return true;
    }

    /** Lines 241-253: back to the snapshot, with its crop when it has one. */
    method RestoreSnapshot()
      requires Valid()
      modifies this
      ensures Model() == Rollback(old(Model()))
      ensures Valid()
    {
      image := image.(sourceImg := oldSourceImg);
      aliased := oldSourceImg.Obj?;
      if !oldSourceImg.Obj? {
        browserValue := browserOriginal;
      } else {
        if oldSourceImg.value.crop.Some? {
          image := image.(crop := oldSourceImg.value.crop.value);
        }
        browserValue := lastFileLabel;
      }
      host := host.(alertCount := host.alertCount + 1);
    }

    /** `editImage`, lines 333-373. */
    method EditImage(view: Viewport)
      requires Valid()
      modifies this
      ensures Model() == EditImageStep(old(Model()), view)
      ensures Valid()
    {
      var img := image.sourceImg;
      if editorWindow.None? && img.Obj? && img.value.src.Some? && img.value.src.value != "" {
        var imgW := Dim(img.value.width);
        var imgH := Dim(img.value.height);
        editorWindow := Some(Layout(imgW, imgH, view.innerWidth, view.innerHeight));
      }
    }

    /** `onImageSelected`, lines 173-214, as written. */
    method OnImageSelected(sel: Selection, view: Viewport)
      requires Valid()
      modifies this
      ensures Model() == SelectStep(cfg, old(Model()), sel, view)
      ensures Valid()
    {
      var diff := !image.sourceImg.Obj? || image.sourceImg.value.src != Some(sel.relativeUrl);
      TakeSelection(sel, CopyOf(image.sourceImg));
      var ok := UpdateDisplay();
      if !ok {
        return;
      }
      if diff {
        EditImage(view);
      }
    }

    /** Lines 173-204: the snapshot, the new image object, the crop reset
        for a new path and the size request. */
    method TakeSelection(sel: Selection, snapshot: SrcImg)
      requires Valid() && WellFormed(snapshot)
      modifies this
      ensures Model() == Select(cfg, old(Model()), sel, snapshot)
      ensures Valid()
    {
      var diff := !image.sourceImg.Obj? || image.sourceImg.value.src != Some(sel.relativeUrl);
      oldSourceImg := Obj(snapshot);
      aliased := false;
      var crop := image.crop;
      if diff {
        crop := ResetCrop(sel.imageWidth, sel.imageHeight, cfg.targetRatio);
      }
      image := image.(sourceImg := Obj(Selected(cfg, sel)), crop := crop);
      if sel.imageWidth >= 800 || sel.imageHeight >= 600 {
        pending := pending.(sizeFetches := pending.sizeFetches + 1);
      }
    }

    /** `onImageSelected` with the snapshot keeping the current crop. */
    method OnImageSelectedKeepingCrop(sel: Selection, view: Viewport)
      requires Valid()
      modifies this
      ensures Model() == SelectKeepingCropStep(cfg, old(Model()), sel, view)
      ensures Valid()
    {
      var diff := !image.sourceImg.Obj? || image.sourceImg.value.src != Some(sel.relativeUrl);
      TakeSelection(sel, SetCrop(CopyOf(image.sourceImg), image.crop));
      var ok := UpdateDisplay();
      if !ok {
        return;
      }
      if diff {
        EditImage(view);
      }
    }

    /** `onAltTagChange`, lines 216-219. */
    method OnAltTagChange(text: string)
      requires Valid()
      modifies this
      ensures Model() == AltTagStep(cfg, old(Model()), text)
      ensures Valid()
    {
      image := image.(altTag := Some(text));
      UpdateValue();
    }

    /** The image-load callback of `manualGetImageSize`, lines 225-232; a
        `TypeError` at line 226 ends it. */
    method OnSizeResolved(width: nat, height: nat, view: Viewport)
      requires Valid() && pending.sizeFetches > 0
      modifies this
      ensures Model() == SizeResolvedStep(cfg, old(Model()), width, height, view)
      ensures Valid()
    {
      pending := pending.(sizeFetches := pending.sizeFetches - 1);
      ghost var s0 := Model();
      if IsNullish(image.sourceImg) {
        host := host.(errorCount := host.errorCount + 1);
        return;
      }
      if image.sourceImg.Obj? {
        StoreSize(width, height);
      }
      assert Model() == ApplySize(s0, width, height);
      var _ := UpdateDisplay();
      ghost var d := Model();
      if image.crop.width == 0.0 || image.crop.height == 0.0 {
        EditImage(view);
      }
      assert Model() == EditIfNoCrop(d, view);
    }

    /** Lines 226-227 on an image object, shared with an aliased snapshot. */
    method StoreSize(width: nat, height: nat)
      requires Valid() && image.sourceImg.Obj?
      modifies this
      ensures Model() == ApplySize(old(Model()), width, height)
      ensures Valid()
    {
      var img := SetSize(image.sourceImg.value, width as real, height as real);
      image := image.(sourceImg := Obj(img));
      if aliased {
        oldSourceImg := Obj(img);
      }
    }

    /** The image-load callback with the check the code lacks: the size is
        applied only while the requested file is still the current image. */
    method OnSizeResolvedFor(requested: string, width: nat, height: nat, view: Viewport)
      requires Valid() && pending.sizeFetches > 0
      modifies this
      ensures Model() == SizeResolvedForStep(cfg, old(Model()), requested, width, height, view)
      ensures Valid()
    {
      if image.sourceImg.Obj? && image.sourceImg.value.src == Some(requested) {
        OnSizeResolved(width, height, view);
      } else {
        pending := pending.(sizeFetches := pending.sizeFetches - 1);
      }
    }

    /** `updateFromEditor`, lines 388-408. */
    method UpdateFromEditor(c: Crop)
      requires Valid()
      modifies this
      ensures Model() == EditorCropStep(cfg, old(Model()), c)
      ensures Valid()
    {
      image := image.(crop := c);
      var snap := if oldSourceImg.Obj? then oldSourceImg.value else CopyOf(image.sourceImg);
      snap := SetCrop(snap, c);
      oldSourceImg := Obj(snap);
      if aliased {
        image := image.(sourceImg := Obj(snap));
      }
      editorWindow := None;
      var _ := UpdateDisplay();
    }

    /** `clearImage`, lines 375-386. */
    method ClearImage()
      modifies this
      ensures Model() == ClearStep(old(Model()))
      ensures Valid()
    {
      image := image.(sourceImg := Null);
      oldSourceImg := Null;
      aliased := false;
      lastFileLabel := "";
      preview := preview.(src := BlankImage);
      hidden := [];
      browserValue := "";
      host := host.(dirtyCount := host.dirtyCount + 1);
    }

    /** `onReset`, lines 163-167. */
    method OnReset()
      requires Valid()
      modifies this
      ensures Model() == ResetStep(old(Model()))
      ensures Valid()
    {
      browserValue := "";
      image := image.(sourceImg := False);
      aliased := false;
      pending := pending.(previews := pending.previews + 1);
    }

    /** The `tv-reset` listener of `listenForResetEvent`, lines 78-84. */
    method OnTvReset(changedId: string)
      requires Valid()
      modifies this
      ensures Model() == TvResetStep(cfg, old(Model()), changedId)
      ensures Valid()
    {
      if changedId == cfg.tvId {
        OnReset();
      }
    }

    /** A deferred `updatePreviewImage`, lines 409-425. */
    method RefreshPreview(fmt: real -> string)
      requires Valid() && pending.previews > 0
      modifies this
      ensures Model() == PreviewStep(cfg, old(Model()), fmt)
      ensures Valid()
    {
      pending := pending.(previews := pending.previews - 1);
      if !image.sourceImg.Obj? || image.crop.width == 0.0 {
        preview := preview.(shown := false);
        return;
      }
      var url := GenerateThumbUrl(cfg.connectorsUrl, cfg.thumbnailWidth, Str(image.sourceImg.value.source),
                                  PreviewParams(image.sourceImg.value, image.crop, fmt));
      preview := Preview(Thumbnail(url), true);
    }
  }
}
