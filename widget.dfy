/** The selection and crop state machine of `ImagePlus.panel.input`
    (imageplus.panel.input.js), one function per handler over the widget's
    whole state. The class in module `Input` runs these steps in place. */
module Widget {
  import opened Wrappers
  import opened Json
  import opened TvCodec
  import opened Constraints
  import opened EditorFit
  import opened Thumb

  /** The TV options the widget reads (`this.options`, `MODx.config`);
      `targetRatio == 0.0` is an unset (falsy) ratio. */
  datatype Config = Config(
    tvId: string,
    mediaSource: string,
    targetWidth: real,
    targetHeight: real,
    targetRatio: real,
    thumbnailWidth: string,
    connectorsUrl: string)

  /** What the media browser reports for a chosen file. */
  datatype Selection = Selection(relativeUrl: string, imageWidth: nat, imageHeight: nat)

  /** `window.innerWidth` and `window.innerHeight`. */
  datatype Viewport = Viewport(innerWidth: nat, innerHeight: nat)

  /** The preview element's `src`: empty when created, the transparent 1x1
      image `clearImage` puts there, or a thumbnail URL. */
  datatype PreviewImage = NoImage | BlankImage | Thumbnail(url: string)

  /** The transparent 1x1 GIF of line 380. */
  const BlankGif: string := "data:image/gif;base64,R0lGODlhAQABAIAAAAAAAP///ywAAAAAAQABAAACAUwAOw=="

  /** The `src` attribute each preview image stands for. */
  function SrcAttribute(p: PreviewImage): (r: string) {
    match p
    case NoImage => ""
    case BlankImage => BlankGif
    case Thumbnail(url) => url
  }

  /** The widget's state.
      - `snapshot` is `oldSourceImg`; `aliased` says that `sourceImg` and
        `snapshot` are one object (line 241), so that an update of one is
        an update of the other.
      - `browserValue` is the text in the browser combo; `browserOriginal`
        the value it was created with, which `reset()` restores.
      - `hidden` is the hidden form field's text.
      - `dirtyCount` counts `fireResourceFormChange`, `alertCount` the
        "Image too small" alerts.
      - `editor` is the open editor window's layout.
      - `pendingSizeFetches` counts image loads started by
        `manualGetImageSize`, `pendingPreviews` the deferred preview
        refreshes.
      - `previewSrc` and `previewShown` are the preview element's `src`
        and visibility.
      - `errorCount` counts the handlers that ended in an uncaught
        `TypeError` by reading a property of a null or undefined
        `sourceImg`; what they had changed before it stays changed. */
  datatype St = St(
    sourceImg: SourceRef,
    crop: Crop,
    altTag: Option<string>,
    snapshot: SourceRef,
    aliased: bool,
    lastFileLabel: string,
    browserValue: string,
    browserOriginal: string,
    hidden: Text,
    dirtyCount: nat,
    alertCount: nat,
    editor: Option<EditorLayout>,
    pendingSizeFetches: nat,
    pendingPreviews: nat,
    previewSrc: PreviewImage,
    previewShown: bool,
    errorCount: nat)

  /** An aliased snapshot is the current image, and every image object
      lists exactly its own properties. */
  predicate Consistent(s: St) {
    (s.aliased ==> s.sourceImg.Obj? && s.sourceImg == s.snapshot)
    && WellFormedRef(s.sourceImg)
    && WellFormedRef(s.snapshot)
  }

  /** The property-by-property copy of lines 177-179 and 396-398: `for ... in`
      over undefined, null or false visits nothing, so these copy to an
      object with no properties. */
  function CopyOf(img: SourceRef): (c: SrcImg)
    ensures img.Obj? ==> c == img.value
    ensures !img.Obj? ==> c == EmptyCopy
    ensures WellFormedRef(img) ==> WellFormed(c)
  {
    if img.Obj? then img.value else EmptyCopy
  }

  function ImageOf(s: St): (img: Image) {
    Image(s.sourceImg, s.crop, s.altTag)
  }

  /** The text `updateValue` would write. */
  function Written(cfg: Config, s: St): (t: Text) {
    Encode(ImageOf(s), cfg.targetWidth, cfg.targetHeight)
  }

  // ------------------------------------------------------------- handlers

  /** `updateValue`, lines 286-315: nothing happens when the normalised
      field already holds the new text; otherwise line 306 reads
      `sourceImg.src`, which throws for a null or undefined image, skips
      the write for an empty path and writes for any other value --
      `false` included, whose `src` is undefined. */
  function UpdateValueStep(cfg: Config, s: St): (s': St) {
    if Normalize(s.hidden) == Written(cfg, s) then s
    else if IsNullish(s.sourceImg) then Threw(s)
    else if s.sourceImg.Obj? && s.sourceImg.value.src == Some("") then s
    else Write(cfg, s)
  }

  /** A handler ended by an uncaught `TypeError`. */
  function Threw(s: St): (s': St) {
    s.(errorCount := s.errorCount + 1)
  }

  /** Lines 309-314: the new text goes into the field and the form is marked dirty. */
  function Write(cfg: Config, s: St): (s': St) {
    s.(hidden := Written(cfg, s), dirtyCount := s.dirtyCount + 1)
  }

  /** `updateValue` with the guard its comment at line 305 describes: no
      record is written while there is no source image or no path, so
      every stored record names an image path. */
  function UpdateValueGuardedStep(cfg: Config, s: St): (s': St) {
    if Normalize(s.hidden) == Written(cfg, s) || !s.sourceImg.Obj? || s.sourceImg.value.src.GetOr("") == "" then s
    else Write(cfg, s)
  }

  /** `updateDisplay`, lines 237-261: roll back to the snapshot when the
      image is too small, otherwise record the label (line 256, which
      throws for a null or undefined image and reads `undefined` from
      `false`), schedule a preview refresh and write the value.  The flag
      is the return value; it is false also when line 256 throws, since the
      caller's remaining lines do not run then either. */
  function UpdateDisplayStep(cfg: Config, s: St): (r: (St, bool)) {
    if !LargeEnough(s.sourceImg, cfg.targetWidth, cfg.targetHeight) then (Rollback(s), false)
    else if IsNullish(s.sourceImg) then (Threw(s), false)
    else (UpdateValueStep(cfg, Shown(s)), true)
  }

  /** Lines 241-252: back to the snapshot, and to its crop when it has one. */
  function Rollback(s: St): (s': St) {
    var s1 := s.(sourceImg := s.snapshot, aliased := s.snapshot.Obj?, alertCount := s.alertCount + 1);
    if !s.snapshot.Obj? then s1.(browserValue := s.browserOriginal)
    else
      var crop := if s.snapshot.value.crop.Some? then s.snapshot.value.crop.value else s.crop;
      s1.(crop := crop, browserValue := s.lastFileLabel)
  }

  /** Lines 256-258 on an image that is not null or undefined. */
  function Shown(s: St): (s': St) {
    var path := if s.sourceImg.Obj? then s.sourceImg.value.src.GetOr("") else "";
    s.(lastFileLabel := path, pendingPreviews := s.pendingPreviews + 1)
  }

  /** `editImage`, lines 333-373: open the editor unless one is open or
      there is no image path. */
  function EditImageStep(s: St, view: Viewport): (s': St) {
    if s.editor.None? && s.sourceImg.Obj? && s.sourceImg.value.src.Some? && s.sourceImg.value.src.value != "" then
      var img := s.sourceImg.value;
      s.(editor := Some(Layout(Dim(img.width), Dim(img.height), view.innerWidth, view.innerHeight)))
    else s
  }

  /** Line 174: the selection names a different image. */
  predicate Differs(s: St, sel: Selection) {
    !s.sourceImg.Obj? || s.sourceImg.value.src != Some(sel.relativeUrl)
  }

  /** Lines 180-185: a new object, properties in the order of the literal. */
  function Selected(cfg: Config, sel: Selection): (img: SrcImg)
    ensures WellFormed(img)
  {
    var img := SrcImg(Some(sel.relativeUrl), Some(sel.imageWidth as real), Some(sel.imageHeight as real),
                      Some(cfg.mediaSource), None, ["src", "width", "height", "source"]);
    assert forall k :: k in img.order <==> SrcImgMember(img, k).Some?;
    img
  }

  /** Lines 173-204: snapshot, new image, crop reset for a new path and the
      size request; shared by the handler as written and its correction. */
  function Select(cfg: Config, s: St, sel: Selection, snapshot: SrcImg): (s': St) {
    var big := sel.imageWidth >= 800 || sel.imageHeight >= 600;
    s.(snapshot := Obj(snapshot),
       aliased := false,
       sourceImg := Obj(Selected(cfg, sel)),
       crop := if Differs(s, sel) then ResetCrop(sel.imageWidth, sel.imageHeight, cfg.targetRatio) else s.crop,
       pendingSizeFetches := if big then s.pendingSizeFetches + 1 else s.pendingSizeFetches)
  }

  /** Lines 206-213: display, then open the editor for a new path. */
  function Finish(cfg: Config, s1: St, diff: bool, view: Viewport): (s': St) {
    var (s2, ok) := UpdateDisplayStep(cfg, s1);
    if ok && diff then EditImageStep(s2, view) else s2
  }

  /** `onImageSelected`, lines 173-214, as written. */
  function SelectStep(cfg: Config, s: St, sel: Selection, view: Viewport): (s': St) {
    Finish(cfg, Select(cfg, s, sel, CopyOf(s.sourceImg)), Differs(s, sel), view)
  }

  /** `onImageSelected` with the snapshot also keeping the current crop, so
      that a rejected selection restores it. */
  function SelectKeepingCropStep(cfg: Config, s: St, sel: Selection, view: Viewport): (s': St) {
    Finish(cfg, Select(cfg, s, sel, SetCrop(CopyOf(s.sourceImg), s.crop)), Differs(s, sel), view)
  }

  /** `onAltTagChange`, lines 216-219. */
  function AltTagStep(cfg: Config, s: St, text: string): (s': St) {
    UpdateValueStep(cfg, s.(altTag := Some(text)))
  }

  /** The `onload` callback of `manualGetImageSize`, lines 225-232, with the
      natural size of the loaded image: line 226 throws for a null or
      undefined image and is ignored for `false`. */
  function SizeResolvedStep(cfg: Config, s: St, width: nat, height: nat, view: Viewport): (s': St)
    requires s.pendingSizeFetches > 0
  {
    var s0 := s.(pendingSizeFetches := s.pendingSizeFetches - 1);
    if IsNullish(s.sourceImg) then Threw(s0)
    else EditIfNoCrop(UpdateDisplayStep(cfg, ApplySize(s0, width, height)).0, view)
  }

  /** Lines 226-227: the size goes onto the image object (and so onto an
      aliased snapshot); on `false` the assignments are ignored. */
  function ApplySize(s: St, width: nat, height: nat): (s': St) {
    if s.sourceImg.Obj? then
      var img := SetSize(s.sourceImg.value, width as real, height as real);
      s.(sourceImg := Obj(img), snapshot := if s.aliased then Obj(img) else s.snapshot)
    else s
  }

  /** Lines 229-231. */
  function EditIfNoCrop(s: St, view: Viewport): (s': St) {
    if s.crop.width == 0.0 || s.crop.height == 0.0 then EditImageStep(s, view) else s
  }

  /** The size callback with the check the code lacks: the loaded size is
      applied only while the current image is still the one whose size was
      requested; a late answer for a replaced image only ends its request. */
  function SizeResolvedForStep(cfg: Config, s: St, requested: string, width: nat, height: nat, view: Viewport): (s': St)
    requires s.pendingSizeFetches > 0
  {
    if s.sourceImg.Obj? && s.sourceImg.value.src == Some(requested) then SizeResolvedStep(cfg, s, width, height, view)
    else s.(pendingSizeFetches := s.pendingSizeFetches - 1)
  }

  /** `updateFromEditor`, lines 388-408: the crop is stored, a missing
      snapshot is first taken as a copy of the image, the snapshot gets the
      crop, and the display step runs. */
  function EditorCropStep(cfg: Config, s: St, c: Crop): (s': St) {
    UpdateDisplayStep(cfg, StoreEditorCrop(s, c)).0
  }

  /** Lines 389-405. */
  function StoreEditorCrop(s: St, c: Crop): (s': St) {
    var base := if s.snapshot.Obj? then s.snapshot.value else CopyOf(s.sourceImg);
    var snap := SetCrop(base, c);
    var aliased := s.aliased && s.snapshot.Obj?;
    s.(crop := c,
       snapshot := Obj(snap),
       sourceImg := if aliased then Obj(snap) else s.sourceImg,
       aliased := aliased,
       editor := None)
  }

  /** `clearImage`, lines 375-386. */
  function ClearStep(s: St): (s': St) {
    s.(sourceImg := Null, snapshot := Null, aliased := false, lastFileLabel := "",
       previewSrc := BlankImage, hidden := [], browserValue := "", dirtyCount := s.dirtyCount + 1)
  }

  /** `onReset`, lines 163-167. */
  function ResetStep(s: St): (s': St) {
    s.(browserValue := "", sourceImg := False, aliased := false, pendingPreviews := s.pendingPreviews + 1)
  }

  /** The `tv-reset` listener, lines 79-83: only a reset of this TV counts. */
  function TvResetStep(cfg: Config, s: St, changedId: string): (s': St) {
    if changedId == cfg.tvId then ResetStep(s) else s
  }

  /** A deferred `updatePreviewImage`, lines 409-425. */
  function PreviewStep(cfg: Config, s: St, fmt: real -> string): (s': St)
    requires s.pendingPreviews > 0
  {
    var s1 := s.(pendingPreviews := s.pendingPreviews - 1);
    match PreviewFor(cfg.connectorsUrl, cfg.thumbnailWidth, s.sourceImg, s.crop, fmt)
    case None => s1.(previewShown := false)
    case Some(url) => s1.(previewSrc := Thumbnail(url), previewShown := true)
  }

  // ------------------------------------------------------------- creation

  /** `getValue`, lines 263-283: the stored record, or a bare legacy path. */
  function LoadImage(cfg: Config, stored: Text): (img: Image)
    requires DecodeImage(stored).None? ==> IsPlain(stored)
  {
    match DecodeImage(stored)
    case Some(img) => img
    case None => LegacyImage(Unlit(stored), cfg.mediaSource)
  }

  /** What the constructor needs: line 88 splits `sourceImg.src`. */
  predicate Loadable(cfg: Config, stored: Text) {
    (DecodeImage(stored).None? ==> IsPlain(stored))
    && LoadImage(cfg, stored).sourceImg.Obj?
    && LoadImage(cfg, stored).sourceImg.value.src.Some?
  }

  /** The state after the constructor (lines 24-68), before the first render. */
  function Loaded(cfg: Config, stored: Text): (s': St)
    requires Loadable(cfg, stored)
  {
    var img := LoadImage(cfg, stored);
    var src := img.sourceImg.value.src.value;
    St(img.sourceImg, img.crop, img.altTag, Undefined, false, "", src, src, stored, 0, 0, None, 0, 0, NoImage, true, 0)
  }
}
