/** What the handlers of `ImagePlus.panel.input` promise, proved about the
    step functions of module `Widget`. */
module WidgetProps {
  import opened Wrappers
  import opened Json
  import opened TvCodec
  import opened Constraints
  import opened EditorFit
  import opened Thumb
  import opened Widget

  // ---------------------------------------------------------- updateValue

  /** Lines 294-314: only the field, the dirty count and the error count
      change; nothing changes exactly when the field already equals the new
      record in normal form or the path is empty; otherwise a null or
      undefined image throws at line 306 and writes nothing, and any other
      value -- `false` included -- is written; the form is marked dirty
      exactly when the field's text changes, at most once; a written field
      holds, up to normal form, the encoding of the current image, and
      reads back as that image. */
  lemma WriteGate(cfg: Config, s: St)
    requires Consistent(s)
    ensures var s' := UpdateValueStep(cfg, s);
      s' == s.(hidden := s'.hidden, dirtyCount := s'.dirtyCount, errorCount := s'.errorCount)
      && (s'.dirtyCount == s.dirtyCount + 1 <==> s'.hidden != s.hidden)
      && (s'.dirtyCount == s.dirtyCount <==> s'.hidden == s.hidden)
    ensures var emptyPath := s.sourceImg.Obj? && s.sourceImg.value.src == Some("");
      (Normalize(s.hidden) == Written(cfg, s) || emptyPath) <==> UpdateValueStep(cfg, s) == s
    ensures var s' := UpdateValueStep(cfg, s);
      (s'.errorCount == s.errorCount + 1 <==> IsNullish(s.sourceImg) && Normalize(s.hidden) != Written(cfg, s))
      && (s'.errorCount == s.errorCount || s'.errorCount == s.errorCount + 1)
      && (IsNullish(s.sourceImg) ==> s'.hidden == s.hidden && s'.dirtyCount == s.dirtyCount)
    ensures var s' := UpdateValueStep(cfg, s);
      !IsNullish(s.sourceImg) && !(s.sourceImg.Obj? && s.sourceImg.value.src == Some("")) ==>
        Normalize(s'.hidden) == Written(cfg, s) && DecodeImage(s'.hidden) == Some(ImageOf(s))
  {
    var s' := UpdateValueStep(cfg, s);
    NormalizeEncode(ImageOf(s), cfg.targetWidth, cfg.targetHeight);
    if !IsNullish(s.sourceImg) && !(s.sourceImg.Obj? && s.sourceImg.value.src == Some("")) {
      DecodeNormalized(s'.hidden, ImageOf(s), cfg.targetWidth, cfg.targetHeight);
    }
  }

  /** Lines 297-307: when the field holds the record printed with any
      whitespace gap -- the two-space text written at line 294, a compact
      one, another indentation -- and any whitespace around it,
      `updateValue` writes nothing and does not mark the form dirty. */
  lemma WhitespaceVariantClean(cfg: Config, s: St, gap: Text, indent: Text, w1: Text, w2: Text)
    requires AllWs(gap) && AllWs(indent) && AllWs(w1) && AllWs(w2)
    requires s.hidden == w1 + Stringify(TvJson(ImageOf(s), cfg.targetWidth, cfg.targetHeight), gap, indent) + w2
    ensures UpdateValueStep(cfg, s) == s
  {
    NormalizeWhitespace(TvJson(ImageOf(s), cfg.targetWidth, cfg.targetHeight), gap, indent, w1, w2);
  }

  /** A second `updateValue` with the state unchanged writes nothing (the
      text just written normalises to itself); it changes nothing at all
      unless the image is null or undefined, where each call throws again. */
  lemma UpdateValueIdempotent(cfg: Config, s: St)
    ensures var s1 := UpdateValueStep(cfg, s);
      var s2 := UpdateValueStep(cfg, s1);
      s2.hidden == s1.hidden && s2.dirtyCount == s1.dirtyCount
      && (!IsNullish(s.sourceImg) ==> s2 == s1)
  {
    NormalizeEncode(ImageOf(s), cfg.targetWidth, cfg.targetHeight);
  }

  /** `updateValue` touches only the field and the two counters. */
  lemma ValueFrame(cfg: Config, s: St)
    ensures var s' := UpdateValueStep(cfg, s);
      s' == s.(hidden := s'.hidden, dirtyCount := s'.dirtyCount, errorCount := s'.errorCount)
  {
  }

  // -------------------------------------------------------- updateDisplay

  /** What `updateDisplay` leaves alone, whether it accepts or rolls back. */
  lemma DisplayFrame(cfg: Config, s: St)
    ensures var s' := UpdateDisplayStep(cfg, s).0;
      s'.altTag == s.altTag && s'.snapshot == s.snapshot && s'.editor == s.editor
      && s'.pendingSizeFetches == s.pendingSizeFetches && s'.browserOriginal == s.browserOriginal
      && s'.previewSrc == s.previewSrc && s'.previewShown == s.previewShown
  {
    if LargeEnough(s.sourceImg, cfg.targetWidth, cfg.targetHeight) && !IsNullish(s.sourceImg) {
      var path := if s.sourceImg.Obj? then s.sourceImg.value.src.GetOr("") else "";
      ValueFrame(cfg, s.(lastFileLabel := path, pendingPreviews := s.pendingPreviews + 1));
    }
  }

  /** Lines 239-254: a rejected image is replaced by the snapshot, the crop
      comes back from the snapshot's crop when it has one, the browser shows
      the last accepted label (or its original value when there is no
      snapshot), the alert is raised, and the field and dirty count are
      untouched. */
  lemma DisplayRejects(cfg: Config, s: St)
    requires Consistent(s) && !LargeEnough(s.sourceImg, cfg.targetWidth, cfg.targetHeight)
    ensures var (s', ok) := UpdateDisplayStep(cfg, s);
      !ok
      && s'.sourceImg == s.snapshot && s'.snapshot == s.snapshot && Consistent(s')
      && s'.crop == (if s.snapshot.Obj? && s.snapshot.value.crop.Some? then s.snapshot.value.crop.value else s.crop)
      && s'.browserValue == (if !s.snapshot.Obj? then s.browserOriginal else s.lastFileLabel)
      && s'.alertCount == s.alertCount + 1
      && s'.hidden == s.hidden && s'.dirtyCount == s.dirtyCount && s'.errorCount == s.errorCount
      && s'.pendingPreviews == s.pendingPreviews && s'.editor == s.editor
  {
  }

  /** Lines 256-260: an accepted null or undefined image throws at line 256
      and changes nothing else; any other accepted image stays, with its
      crop and snapshot; the label becomes its path (undefined for `false`),
      one preview refresh is pending, no alert is raised, and unless the
      path is empty the field reads back as the accepted image. */
  lemma DisplayAccepts(cfg: Config, s: St)
    requires Consistent(s) && LargeEnough(s.sourceImg, cfg.targetWidth, cfg.targetHeight)
    ensures var (s', ok) := UpdateDisplayStep(cfg, s);
      IsNullish(s.sourceImg) ==> !ok && s' == s.(errorCount := s.errorCount + 1)
    ensures var (s', ok) := UpdateDisplayStep(cfg, s);
      !IsNullish(s.sourceImg) ==>
      ok && s'.sourceImg == s.sourceImg && s'.crop == s.crop && s'.snapshot == s.snapshot
      && s'.lastFileLabel == (if s.sourceImg.Obj? then s.sourceImg.value.src.GetOr("") else "")
      && s'.pendingPreviews == s.pendingPreviews + 1 && s'.alertCount == s.alertCount
      && s'.dirtyCount <= s.dirtyCount + 1 && s'.editor == s.editor && s'.errorCount == s.errorCount
      && (!(s.sourceImg.Obj? && s.sourceImg.value.src == Some("")) ==> DecodeImage(s'.hidden) == Some(ImageOf(s)))
  {
    if !IsNullish(s.sourceImg) {
      var path := if s.sourceImg.Obj? then s.sourceImg.value.src.GetOr("") else "";
      var s1 := s.(lastFileLabel := path, pendingPreviews := s.pendingPreviews + 1);
      WriteGate(cfg, s1);
    }
  }

  // ------------------------------------------------------ onImageSelected

  /** Lines 174 and 187-202: choosing the image already shown keeps the
      crop, unless the image is rejected and the snapshot has a crop
      (lines 244-249), and opens no editor. */
  lemma ReselectKeepsCrop(cfg: Config, s: St, sel: Selection, view: Viewport)
    requires !Differs(s, sel)
    ensures var s' := SelectStep(cfg, s, sel, view);
      var rejected := !LargeEnough(Obj(Selected(cfg, sel)), cfg.targetWidth, cfg.targetHeight);
      s'.crop == (if rejected && s.sourceImg.value.crop.Some? then s.sourceImg.value.crop.value else s.crop)
      && s'.editor == s.editor
  {
  }

  /** Lines 187-213: an accepted new path gets the reset crop of lines
      189-201, is written to the field through the gate, and opens the
      editor unless one is open or the path is empty. */
  lemma NewPathResetsCrop(cfg: Config, s: St, sel: Selection, view: Viewport)
    requires Differs(s, sel)
    requires LargeEnough(Obj(Selected(cfg, sel)), cfg.targetWidth, cfg.targetHeight)
    ensures var s' := SelectStep(cfg, s, sel, view);
      s'.crop == ResetCrop(sel.imageWidth, sel.imageHeight, cfg.targetRatio)
      && s'.sourceImg == Obj(Selected(cfg, sel))
      && s'.snapshot == Obj(CopyOf(s.sourceImg)) && !s'.aliased
      && s'.lastFileLabel == sel.relativeUrl
      && s'.alertCount == s.alertCount
      && s'.editor == (if s.editor.None? && sel.relativeUrl != ""
                       then Some(Layout(sel.imageWidth as real, sel.imageHeight as real,
                                        view.innerWidth, view.innerHeight))
                       else s.editor)
  {
    var a := Select(cfg, s, sel, CopyOf(s.sourceImg));
    assert UpdateDisplayStep(cfg, a) == (UpdateValueStep(cfg, Shown(a)), true);
    ValueFrame(cfg, Shown(a));
  }

  /** Lines 239-255 after line 176: a rejected selection leaves the copy of
      the previous image in place, shared with the snapshot, restores the
      crop only from a crop stored on that copy, leaves the field and the
      dirty count untouched and opens no editor (line 208). */
  lemma RejectRollsBack(cfg: Config, s: St, sel: Selection, view: Viewport)
    requires !LargeEnough(Obj(Selected(cfg, sel)), cfg.targetWidth, cfg.targetHeight)
    ensures var s' := SelectStep(cfg, s, sel, view);
      var prev := CopyOf(s.sourceImg);
      s'.sourceImg == Obj(prev) && s'.snapshot == Obj(prev) && s'.aliased
      && s'.crop == (if prev.crop.Some? then prev.crop.value
                     else if Differs(s, sel) then ResetCrop(sel.imageWidth, sel.imageHeight, cfg.targetRatio)
                     else s.crop)
      && s'.browserValue == s.lastFileLabel
      && s'.alertCount == s.alertCount + 1
      && s'.hidden == s.hidden && s'.dirtyCount == s.dirtyCount
      && s'.editor == s.editor && s'.altTag == s.altTag
  {
  }

  /** With the snapshot keeping the crop, a rejected selection brings back
      the crop rectangle and the previous image's path, size and source,
      and writes nothing. */
  lemma KeepingCropRestores(cfg: Config, s: St, sel: Selection, view: Viewport)
    requires !LargeEnough(Obj(Selected(cfg, sel)), cfg.targetWidth, cfg.targetHeight)
    ensures var s' := SelectKeepingCropStep(cfg, s, sel, view);
      s'.crop == s.crop
      && s'.sourceImg == Obj(SetCrop(CopyOf(s.sourceImg), s.crop))
      && s'.hidden == s.hidden && s'.dirtyCount == s.dirtyCount && s'.editor == s.editor
  {
  }

  /** The write gate does not look at the snapshot. */
  lemma UpdateValueIgnoresSnapshot(cfg: Config, s: St, snap: SourceRef)
    ensures UpdateValueStep(cfg, s.(snapshot := snap)) == UpdateValueStep(cfg, s).(snapshot := snap)
  {
    assert Written(cfg, s.(snapshot := snap)) == Written(cfg, s);
  }

  /** An accepted selection behaves the same with or without the correction,
      except for the crop the snapshot keeps. */
  lemma KeepingCropAgreesOnAccept(cfg: Config, s: St, sel: Selection, view: Viewport)
    requires LargeEnough(Obj(Selected(cfg, sel)), cfg.targetWidth, cfg.targetHeight)
    ensures SelectKeepingCropStep(cfg, s, sel, view)
         == SelectStep(cfg, s, sel, view).(snapshot := Obj(SetCrop(CopyOf(s.sourceImg), s.crop)))
  {
    var snap := Obj(SetCrop(CopyOf(s.sourceImg), s.crop));
    var a := Select(cfg, s, sel, CopyOf(s.sourceImg));
    assert Select(cfg, s, sel, snap.value) == a.(snapshot := snap);
    FinishIgnoresSnapshot(cfg, a, snap, Differs(s, sel), view);
  }

  /** Once the image is accepted, the rest of the handler does not read the snapshot. */
  lemma FinishIgnoresSnapshot(cfg: Config, a: St, snap: SourceRef, diff: bool, view: Viewport)
    requires LargeEnough(a.sourceImg, cfg.targetWidth, cfg.targetHeight)
    ensures Finish(cfg, a.(snapshot := snap), diff, view) == Finish(cfg, a, diff, view).(snapshot := snap)
  {
    DisplayIgnoresSnapshot(cfg, a, snap);
    var (s2, ok) := UpdateDisplayStep(cfg, a);
    assert EditImageStep(s2.(snapshot := snap), view) == EditImageStep(s2, view).(snapshot := snap);
  }

  /** An accepted display step does not read the snapshot. */
  lemma DisplayIgnoresSnapshot(cfg: Config, a: St, snap: SourceRef)
    requires LargeEnough(a.sourceImg, cfg.targetWidth, cfg.targetHeight)
    ensures var r := UpdateDisplayStep(cfg, a);
      UpdateDisplayStep(cfg, a.(snapshot := snap)) == (r.0.(snapshot := snap), r.1)
  {
    if !IsNullish(a.sourceImg) {
      var path := if a.sourceImg.Obj? then a.sourceImg.value.src.GetOr("") else "";
      var a1 := a.(lastFileLabel := path, pendingPreviews := a.pendingPreviews + 1);
      UpdateValueIgnoresSnapshot(cfg, a1, snap);
    }
  }

  /** Every selection leaves a snapshot: the "no snapshot" branch of line 242
      is reachable only before the first selection or editor crop, or after
      `clearImage`. */
  lemma SelectLeavesSnapshot(cfg: Config, s: St, sel: Selection, view: Viewport)
    ensures SelectStep(cfg, s, sel, view).snapshot.Obj?
  {
  }

  // ----------------------------------------------------- updateFromEditor

  /** Lines 389-407: the crop is the editor's, a snapshot exists and carries
      that crop (a copy of the image when there was none, empty for an
      absent image), and the editor is closed; whether the display then
      accepts or rolls back, the crop stays the editor's; the display step
      throws exactly when the image is null or undefined; an accepted image
      that was not aliased stays the current image. */
  lemma EditorCropStored(cfg: Config, s: St, c: Crop)
    requires Consistent(s)
    ensures var s' := EditorCropStep(cfg, s, c);
      s'.crop == c
      && s'.snapshot == Obj(SetCrop(if s.snapshot.Obj? then s.snapshot.value else CopyOf(s.sourceImg), c))
      && s'.editor == None
      && s'.errorCount == (if IsNullish(s.sourceImg) then s.errorCount + 1 else s.errorCount)
      && (!s.aliased && LargeEnough(s.sourceImg, cfg.targetWidth, cfg.targetHeight) ==> s'.sourceImg == s.sourceImg)
  {
    var base := if s.snapshot.Obj? then s.snapshot.value else CopyOf(s.sourceImg);
    var snap := SetCrop(base, c);
    var aliased := s.aliased && s.snapshot.Obj?;
    var s1 := s.(crop := c, snapshot := Obj(snap),
                 sourceImg := if aliased then Obj(snap) else s.sourceImg,
                 aliased := aliased, editor := None);
    assert EditorCropStep(cfg, s, c) == UpdateDisplayStep(cfg, s1).0;
    assert Consistent(s1);
    if LargeEnough(s1.sourceImg, cfg.targetWidth, cfg.targetHeight) {
      DisplayAccepts(cfg, s1);
    } else {
      DisplayRejects(cfg, s1);
    }
  }

  // -------------------------------------------------------- size request

  /** Lines 203-205: a selection starts one size request exactly when the
      reported image is at least 800 wide or 600 high, and none otherwise. */
  lemma SelectRequestsSize(cfg: Config, s: St, sel: Selection, view: Viewport)
    ensures var big := sel.imageWidth >= 800 || sel.imageHeight >= 600;
      SelectStep(cfg, s, sel, view).pendingSizeFetches == s.pendingSizeFetches + (if big then 1 else 0)
      && SelectKeepingCropStep(cfg, s, sel, view).pendingSizeFetches == s.pendingSizeFetches + (if big then 1 else 0)
  {
    var a := Select(cfg, s, sel, CopyOf(s.sourceImg));
    var b := Select(cfg, s, sel, SetCrop(CopyOf(s.sourceImg), s.crop));
    DisplayFrame(cfg, a);
    DisplayFrame(cfg, b);
  }

  // ------------------------------------------------------- the finding

  const FindingCfg := Config("7", "1", 100.0, 0.0, 0.0, "150", "/connectors/")
  const FindingView := Viewport(1280, 1024)
  const EditorCrop := Crop(10.0, 10.0, 100.0, 100.0)

  /** A state showing `start.jpg` with no snapshot yet. */
  const FindingStart := St(Obj(Selected(FindingCfg, Selection("start.jpg", 300, 300))),
                           Crop(0.0, 0.0, 300.0, 300.0), None, Undefined, false, "start.jpg", "start.jpg",
                           "start.jpg", [], 0, 0, None, 0, 0, NoImage, true, 0)

  /** Select an image that is accepted, crop it in the editor, then select
      one that is rejected: the rollback brings back the accepted image, but
      its crop is the reset crop of the rejected selection whenever the two
      paths differ, because line 176 replaced the snapshot on which line 400
      had stored the editor's crop. */
  lemma EditorCropLostOnReject(cfg: Config, s: St, first: Selection, c: Crop, second: Selection, view: Viewport)
    requires Consistent(s) && Differs(s, first)
    requires LargeEnough(Obj(Selected(cfg, first)), cfg.targetWidth, cfg.targetHeight)
    requires !LargeEnough(Obj(Selected(cfg, second)), cfg.targetWidth, cfg.targetHeight)
    ensures var s1 := SelectStep(cfg, s, first, view);
      var s2 := EditorCropStep(cfg, s1, c);
      var s3 := SelectStep(cfg, s2, second, view);
      s2.crop == c && s3.sourceImg == Obj(Selected(cfg, first))
      && s3.crop == (if second.relativeUrl != first.relativeUrl
                     then ResetCrop(second.imageWidth, second.imageHeight, cfg.targetRatio) else c)
  {
    var s1 := SelectStep(cfg, s, first, view);
    NewPathResetsCrop(cfg, s, first, view);
    SelectKeepsConsistent(cfg, s, first, view);
    EditorCropStored(cfg, s1, c);
    RejectRollsBack(cfg, EditorCropStep(cfg, s1, c), second, view);
  }

  /** The same three steps with the corrected selection keep the editor's
      crop, on the image and on the field's crop. */
  lemma EditorCropKeptOnReject(cfg: Config, s: St, first: Selection, c: Crop, second: Selection, view: Viewport)
    requires Consistent(s) && Differs(s, first)
    requires LargeEnough(Obj(Selected(cfg, first)), cfg.targetWidth, cfg.targetHeight)
    requires !LargeEnough(Obj(Selected(cfg, second)), cfg.targetWidth, cfg.targetHeight)
    ensures var s1 := SelectKeepingCropStep(cfg, s, first, view);
      var s2 := EditorCropStep(cfg, s1, c);
      var s3 := SelectKeepingCropStep(cfg, s2, second, view);
      s3.crop == c && s3.sourceImg == Obj(SetCrop(Selected(cfg, first), c))
  {
    var s1 := SelectKeepingCropStep(cfg, s, first, view);
    KeepingCropAgreesOnAccept(cfg, s, first, view);
    NewPathResetsCrop(cfg, s, first, view);
    SelectKeepsConsistent(cfg, s, first, view);
    EditorCropStored(cfg, s1, c);
    KeepingCropRestores(cfg, EditorCropStep(cfg, s1, c), second, view);
  }

  /** Select `a.jpg` (200x200), crop it in the editor, then select `b.jpg`
      (50x50), which is too small for the 100px target: `a.jpg` comes back
      with the crop (0, 0, 50, 50), not the editor's. */
  lemma RollbackDropsEditorCrop()
    ensures var s1 := SelectStep(FindingCfg, FindingStart, Selection("a.jpg", 200, 200), FindingView);
      var s2 := EditorCropStep(FindingCfg, s1, EditorCrop);
      var s3 := SelectStep(FindingCfg, s2, Selection("b.jpg", 50, 50), FindingView);
      s2.crop == EditorCrop
      && s3.sourceImg.Obj? && s3.sourceImg.value.src == Some("a.jpg")
      && s3.crop == Crop(0.0, 0.0, 50.0, 50.0) && s3.crop != s2.crop
  {
    EditorCropLostOnReject(FindingCfg, FindingStart, Selection("a.jpg", 200, 200), EditorCrop,
                           Selection("b.jpg", 50, 50), FindingView);
    assert ResetCrop(50, 50, 0.0) == Crop(0.0, 0.0, 50.0, 50.0);
  }

  /** The same three steps with the corrected selection keep the editor's crop. */
  lemma KeepingCropKeepsEditorCrop()
    ensures var s1 := SelectKeepingCropStep(FindingCfg, FindingStart, Selection("a.jpg", 200, 200), FindingView);
      var s2 := EditorCropStep(FindingCfg, s1, EditorCrop);
      var s3 := SelectKeepingCropStep(FindingCfg, s2, Selection("b.jpg", 50, 50), FindingView);
      s3.crop == EditorCrop && s3.sourceImg.Obj? && s3.sourceImg.value.src == Some("a.jpg")
  {
    EditorCropKeptOnReject(FindingCfg, FindingStart, Selection("a.jpg", 200, 200), EditorCrop,
                           Selection("b.jpg", 50, 50), FindingView);
  }

  // ------------------------------------------------ stale size callback

  const StaleCfg := Config("7", "1", 0.0, 700.0, 0.0, "150", "/connectors/")

  /** A state showing `a.jpg` at 1000 x 1000 with no request pending. */
  const StaleStart := St(Obj(Selected(StaleCfg, Selection("a.jpg", 1000, 1000))),
                         Crop(0.0, 0.0, 1000.0, 1000.0), None, Undefined, false, "a.jpg", "a.jpg",
                         "a.jpg", [], 0, 0, None, 0, 0, NoImage, true, 0)

  const StaleSelection := Selection("big.jpg", 900, 500)

  /** Selecting `big.jpg` (900 x 500, too low for the 700px target) starts a
      size request (line 204) and is rolled back to `a.jpg`; when the load
      of `big.jpg` answers, lines 226-227 write its size onto `a.jpg`,
      which line 228 then rejects a second time. */
  lemma StaleSizeCallback()
    ensures var s1 := SelectStep(StaleCfg, StaleStart, StaleSelection, FindingView);
      s1.sourceImg.Obj? && s1.pendingSizeFetches == 1
      && var s2 := SizeResolvedStep(StaleCfg, s1, 900, 500, FindingView);
      s2.sourceImg.Obj? && s2.sourceImg.value.src == Some("a.jpg")
      && s2.sourceImg.value.width == Some(900.0) && s2.sourceImg.value.height == Some(500.0)
      && s2.alertCount == 2
  {
    var s1 := SelectStep(StaleCfg, StaleStart, StaleSelection, FindingView);
    assert !LargeEnough(Obj(Selected(StaleCfg, StaleSelection)), 0.0, 700.0);
    RejectRollsBack(StaleCfg, StaleStart, StaleSelection, FindingView);
    SelectRequestsSize(StaleCfg, StaleStart, StaleSelection, FindingView);
    assert s1.sourceImg == StaleStart.sourceImg && s1.aliased && s1.alertCount == 1;
  }

  /** With the callback checking the requested path, the late answer for
      `big.jpg` only ends its request: `a.jpg` keeps its size and no second
      alert is raised. */
  lemma StaleSizeCallbackIgnored()
    ensures var s1 := SelectStep(StaleCfg, StaleStart, StaleSelection, FindingView);
      s1.sourceImg.Obj? && s1.pendingSizeFetches == 1
      && var s2 := SizeResolvedForStep(StaleCfg, s1, "big.jpg", 900, 500, FindingView);
      s2 == s1.(pendingSizeFetches := 0)
      && s2.sourceImg == StaleStart.sourceImg && s2.alertCount == 1
  {
    var s1 := SelectStep(StaleCfg, StaleStart, StaleSelection, FindingView);
    assert !LargeEnough(Obj(Selected(StaleCfg, StaleSelection)), 0.0, 700.0);
    RejectRollsBack(StaleCfg, StaleStart, StaleSelection, FindingView);
    SelectRequestsSize(StaleCfg, StaleStart, StaleSelection, FindingView);
  }

  /** The checked callback is the callback as written while the requested
      file is still the current image, and otherwise changes nothing but
      the request count. */
  lemma SizeResolvedForChecks(cfg: Config, s: St, requested: string, width: nat, height: nat, view: Viewport)
    requires s.pendingSizeFetches > 0
    ensures var s' := SizeResolvedForStep(cfg, s, requested, width, height, view);
      var current := s.sourceImg.Obj? && s.sourceImg.value.src == Some(requested);
      (current ==> s' == SizeResolvedStep(cfg, s, width, height, view))
      && (!current ==>
            s' == s.(pendingSizeFetches := s.pendingSizeFetches - 1)
            && s'.sourceImg == s.sourceImg && s'.hidden == s.hidden && s'.alertCount == s.alertCount)
  {
  }

  // ------------------------------------------------------------ clearImage

  /** Lines 375-386 followed by a rejected selection: the rollback restores
      the empty copy of the missing image, the browser shows nothing and the
      cleared field stays empty. */
  lemma ClearThenRejectedSelect(cfg: Config, s: St, sel: Selection, view: Viewport)
    requires !LargeEnough(Obj(Selected(cfg, sel)), cfg.targetWidth, cfg.targetHeight)
    ensures var s' := SelectStep(cfg, ClearStep(s), sel, view);
      s'.sourceImg == Obj(EmptyCopy) && s'.browserValue == "" && s'.hidden == []
      && s'.dirtyCount == s.dirtyCount + 1
  {
    RejectRollsBack(cfg, ClearStep(s), sel, view);
  }

  /** After that rollback an alt-text change writes `"sourceImg": {}`: the
      empty copy's `src` is undefined, which line 306 lets through, and a
      record without a path cannot be loaded again (line 89). */
  lemma ClearRejectThenAltTagUnloadable(cfg: Config, s: St, sel: Selection, view: Viewport, text: string)
    requires !LargeEnough(Obj(Selected(cfg, sel)), cfg.targetWidth, cfg.targetHeight)
    ensures var s1 := SelectStep(cfg, ClearStep(s), sel, view);
      var s2 := AltTagStep(cfg, s1, text);
      s2.dirtyCount == s1.dirtyCount + 1 && s2.sourceImg == Obj(EmptyCopy)
      && DecodeImage(s2.hidden) == Some(ImageOf(s2)) && !Loadable(cfg, s2.hidden)
  {
    var s1 := SelectStep(cfg, ClearStep(s), sel, view);
    ClearThenRejectedSelect(cfg, s, sel, view);
    var a := s1.(altTag := Some(text));
    PrintNonEmpty(TvJson(ImageOf(a), cfg.targetWidth, cfg.targetHeight));
    assert Normalize(a.hidden) != Written(cfg, a);
    DecodeEncode(ImageOf(a), cfg.targetWidth, cfg.targetHeight);
  }

  // ------------------------------------------------------------ onReset

  /** Lines 79-83 and 163-167: a reset of another TV changes nothing; a reset
      of this one empties the browser, drops the image and schedules a
      preview refresh, which then hides the preview. */
  lemma TvResetFilter(cfg: Config, s: St, changedId: string, fmt: real -> string)
    ensures changedId != cfg.tvId ==> TvResetStep(cfg, s, changedId) == s
    ensures changedId == cfg.tvId ==>
      var s' := TvResetStep(cfg, s, changedId);
      s'.sourceImg == False && !s'.aliased && s'.browserValue == "" && s'.pendingPreviews == s.pendingPreviews + 1
      && s'.snapshot == s.snapshot && s'.hidden == s.hidden && s'.crop == s.crop
      && !PreviewStep(cfg, s', fmt).previewShown
  {
  }

  /** Lines 163-167, then 216-219 and 306: a reset sets the image to
      `false`; an alt change then reads `false.src` as undefined, passes the
      path check and writes a record whose `sourceImg` is `false`. That record
      reads back, but the constructor cannot load it (line 88 splits the
      `src` of `false`). */
  lemma ResetThenAltTagUnloadable(cfg: Config, s: St, text: string)
    requires Consistent(s) && s.sourceImg.Obj? && Normalize(s.hidden) == Written(cfg, s)
    ensures var s2 := AltTagStep(cfg, ResetStep(s), text);
      s2.dirtyCount == s.dirtyCount + 1 && s2.errorCount == s.errorCount && s2.sourceImg == False
      && DecodeImage(s2.hidden) == Some(ImageOf(s2)) && !Loadable(cfg, s2.hidden)
  {
    var a := ResetStep(s).(altTag := Some(text));
    if Written(cfg, a) == Written(cfg, s) {
      EncodeInjective(ImageOf(a), ImageOf(s), cfg.targetWidth, cfg.targetHeight);
      assert false;
    }
    DecodeEncode(ImageOf(a), cfg.targetWidth, cfg.targetHeight);
  }

  /** The gate with the guard of line 305: it never throws, and whatever it
      writes names an image with a path, so reopening the resource loads the
      same image again. */
  lemma GuardedWritesLoadable(cfg: Config, s: St)
    requires Consistent(s)
    ensures var s' := UpdateValueGuardedStep(cfg, s);
      s'.errorCount == s.errorCount && (s' == s || s' == Write(cfg, s))
    ensures var s' := UpdateValueGuardedStep(cfg, s);
      s' != s ==> Loadable(cfg, s'.hidden) && ImageOf(Loaded(cfg, s'.hidden)) == ImageOf(s)
  {
    var s' := UpdateValueGuardedStep(cfg, s);
    if s' != s {
      DecodeEncode(ImageOf(s), cfg.targetWidth, cfg.targetHeight);
    }
  }

  /** Where the image is an object with a path, the guarded gate and the
      gate as written agree. */
  lemma GuardedAgrees(cfg: Config, s: St)
    requires s.sourceImg.Obj? && s.sourceImg.value.src.Some?
    ensures UpdateValueGuardedStep(cfg, s) == UpdateValueStep(cfg, s)
  {
  }

  /** With the guard, a reset followed by an alt change leaves the stored
      record alone. */
  lemma ResetThenAltTagGuarded(cfg: Config, s: St, text: string)
    ensures var a := ResetStep(s).(altTag := Some(text));
      UpdateValueGuardedStep(cfg, a) == a && a.hidden == s.hidden
  {
  }

  // ------------------------------------------------------ size callback

  /** Lines 226-231: the loaded size replaces the recorded one, in the
      snapshot too when the two are one object; when the image is large
      enough the field is rewritten through the gate, and the editor is
      opened when the crop is still empty. */
  lemma SizeResolvedUpdatesSize(cfg: Config, s: St, width: nat, height: nat, view: Viewport)
    requires s.sourceImg.Obj? && s.pendingSizeFetches > 0 && Consistent(s)
    requires LargeEnough(Obj(SetSize(s.sourceImg.value, width as real, height as real)),
                         cfg.targetWidth, cfg.targetHeight)
    ensures var s' := SizeResolvedStep(cfg, s, width, height, view);
      var img := SetSize(s.sourceImg.value, width as real, height as real);
      s'.sourceImg == Obj(img) && Consistent(s')
      && (s.aliased ==> s'.snapshot == Obj(img))
      && s'.crop == s.crop
      && s'.pendingSizeFetches == s.pendingSizeFetches - 1
      && (s.editor.None? && (s.crop.width == 0.0 || s.crop.height == 0.0) && img.src.Some? && img.src.value != ""
          ==> s'.editor.Some?)
  {
    var s0 := s.(pendingSizeFetches := s.pendingSizeFetches - 1);
    var a := ApplySize(s0, width, height);
    ApplySizeObj(s0, width, height);
    DisplayAccepts(cfg, a);
    DisplayKeepsConsistent(cfg, a);
    EditIfNoCropFacts(UpdateDisplayStep(cfg, a).0, view);
    SizeResolvedOnObject(cfg, s, width, height, view);
  }

  /** Lines 225-231 on an image object: the size goes on, then the display
      step, then the editor check. */
  lemma SizeResolvedOnObject(cfg: Config, s: St, width: nat, height: nat, view: Viewport)
    requires s.sourceImg.Obj? && s.pendingSizeFetches > 0
    ensures SizeResolvedStep(cfg, s, width, height, view)
         == EditIfNoCrop(UpdateDisplayStep(cfg, ApplySize(s.(pendingSizeFetches := s.pendingSizeFetches - 1), width, height)).0, view)
  {
  }

  /** Lines 226-227 on an image object. */
  lemma ApplySizeObj(s: St, width: nat, height: nat)
    requires s.sourceImg.Obj? && Consistent(s)
    ensures var a := ApplySize(s, width, height);
      var img := SetSize(s.sourceImg.value, width as real, height as real);
      a.sourceImg == Obj(img) && a.snapshot == (if s.aliased then Obj(img) else s.snapshot)
      && a.crop == s.crop && a.editor == s.editor && a.pendingSizeFetches == s.pendingSizeFetches
      && Consistent(a)
  {
  }

  /** Lines 229-231: only the editor changes, and it opens for an empty
      crop on an image with a path. */
  lemma EditIfNoCropFacts(s: St, view: Viewport)
    requires Consistent(s)
    ensures var e := EditIfNoCrop(s, view);
      e.sourceImg == s.sourceImg && e.snapshot == s.snapshot && e.crop == s.crop
      && e.pendingSizeFetches == s.pendingSizeFetches && Consistent(e)
      && (s.editor.None? && (s.crop.width == 0.0 || s.crop.height == 0.0) && s.sourceImg.Obj?
          && s.sourceImg.value.src.Some? && s.sourceImg.value.src.value != ""
          ==> e.editor.Some?)
  {
  }

  /** Lines 226-231 without an image object: for a null or undefined image
      line 226 throws and only the request ends; after `onReset` the size
      assignment on `false` is ignored and the display step runs, which
      writes the record with `"sourceImg": false` and opens no editor. */
  lemma SizeResolvedWithoutImage(cfg: Config, s: St, width: nat, height: nat, view: Viewport)
    requires s.pendingSizeFetches > 0 && !s.sourceImg.Obj? && Consistent(s)
    ensures var s' := SizeResolvedStep(cfg, s, width, height, view);
      IsNullish(s.sourceImg) ==>
        s' == s.(pendingSizeFetches := s.pendingSizeFetches - 1, errorCount := s.errorCount + 1)
    ensures var s' := SizeResolvedStep(cfg, s, width, height, view);
      s.sourceImg.False? ==>
        s'.sourceImg == False && s'.crop == s.crop && s'.editor == s.editor && s'.errorCount == s.errorCount
        && s'.lastFileLabel == "" && s'.pendingPreviews == s.pendingPreviews + 1
        && s'.pendingSizeFetches == s.pendingSizeFetches - 1
        && Normalize(s'.hidden) == Written(cfg, s') && DecodeImage(s'.hidden) == Some(ImageOf(s'))
  {
    if s.sourceImg.False? {
      var s0 := s.(pendingSizeFetches := s.pendingSizeFetches - 1);
      DisplayAccepts(cfg, s0);
      WriteGate(cfg, s0.(lastFileLabel := "", pendingPreviews := s0.pendingPreviews + 1));
    }
  }

  // --------------------------------------------------------- creation

  /** Lines 265-281: a stored text that does not decode as a record is a
      bare path, read with zero size, the configured media source and an
      empty crop. */
  lemma LegacyLoad(cfg: Config, stored: Text)
    requires IsPlain(stored) && DecodeImage(stored).None?
    ensures Loadable(cfg, stored)
    ensures var s := Loaded(cfg, stored);
      s.sourceImg == Obj(SrcImg(Some(Unlit(stored)), Some(0.0), Some(0.0), Some(cfg.mediaSource), None, ["height", "width", "source", "src"]))
      && s.crop == Crop(0.0, 0.0, 0.0, 0.0) && s.browserValue == Unlit(stored)
  {
  }

  /** The bare path `/images/foo.jpg` is read as a legacy value. */
  lemma LegacyBarePath(cfg: Config)
    ensures Loadable(cfg, Lit("/images/foo.jpg"))
    ensures Loaded(cfg, Lit("/images/foo.jpg")).sourceImg
         == Obj(SrcImg(Some("/images/foo.jpg"), Some(0.0), Some(0.0), Some(cfg.mediaSource), None, ["height", "width", "source", "src"]))
  {
    BarePathIsLegacy("/images/foo.jpg");
    LegacyLoad(cfg, Lit("/images/foo.jpg"));
  }

  /** A value the widget wrote is read back as the same image, and writing
      it again with the same targets changes nothing: reopening a saved
      resource does not mark it dirty. */
  lemma StoredRoundTrip(cfg: Config, img: Image)
    requires img.sourceImg.Obj? && WellFormed(img.sourceImg.value) && img.sourceImg.value.src.Some?
    ensures Loadable(cfg, Encode(img, cfg.targetWidth, cfg.targetHeight))
    ensures var s := Loaded(cfg, Encode(img, cfg.targetWidth, cfg.targetHeight));
      ImageOf(s) == img && UpdateValueStep(cfg, s) == s
  {
    DecodeEncode(img, cfg.targetWidth, cfg.targetHeight);
    NormalizeEncode(img, cfg.targetWidth, cfg.targetHeight);
  }

  /** A bare path is rewritten once, as the legacy literal of lines 267-272
      orders it (height, width, source, src); that text reads back as the
      same image in the same order, and writing it again changes nothing,
      so re-opening an upgraded resource does not mark it dirty. */
  lemma LegacyUpgradeReloadsClean(cfg: Config, raw: string)
    requires raw != [] && raw[0] == '/'
    ensures Loadable(cfg, Lit(raw))
    ensures var s0 := Loaded(cfg, Lit(raw));
      var s1 := UpdateValueStep(cfg, s0);
      s1.hidden == Written(cfg, s0) && s1.dirtyCount == 1
      && Loadable(cfg, s1.hidden)
      && ImageOf(Loaded(cfg, s1.hidden)) == ImageOf(s0)
      && Loaded(cfg, s1.hidden).sourceImg.value.order == ["height", "width", "source", "src"]
      && UpdateValueStep(cfg, Loaded(cfg, s1.hidden)) == Loaded(cfg, s1.hidden)
  {
    BarePathIsLegacy(raw);
    LegacyLoad(cfg, Lit(raw));
    var s0 := Loaded(cfg, Lit(raw));
    PrintNonEmpty(TvJson(ImageOf(s0), cfg.targetWidth, cfg.targetHeight));
    StoredRoundTrip(cfg, ImageOf(s0));
  }

  // ------------------------------------------------------------ editImage

  /** Lines 335-372: the editor opens exactly when none is open and the
      image has a non-empty path, with the layout of lines 338-366 and
      nothing else changed; a second call while it is open does nothing. */
  lemma EditImageOpens(s: St, view: Viewport)
    ensures var s' := EditImageStep(s, view);
      var opens := s.editor.None? && s.sourceImg.Obj? && s.sourceImg.value.src.Some?
                   && s.sourceImg.value.src.value != "";
      (opens ==> s' == s.(editor := Some(Layout(Dim(s.sourceImg.value.width), Dim(s.sourceImg.value.height),
                                                view.innerWidth, view.innerHeight))))
      && (!opens ==> s' == s)
      && EditImageStep(s', view) == s'
  {
  }

  // ------------------------------------------------------- onAltTagChange

  /** Lines 216-219: the alt text is recorded; the field then holds the
      encoding of the new state unless the path is empty or the image is
      null or undefined, where the field keeps its text. */
  lemma AltTagRecorded(cfg: Config, s: St, text: string)
    ensures var s' := AltTagStep(cfg, s, text);
      s'.altTag == Some(text) && s'.sourceImg == s.sourceImg && s'.crop == s.crop
      && (!IsNullish(s.sourceImg) && !(s.sourceImg.Obj? && s.sourceImg.value.src == Some(""))
          ==> Normalize(s'.hidden) == Written(cfg, s'))
      && (IsNullish(s.sourceImg) ==> s'.hidden == s.hidden && s'.dirtyCount == s.dirtyCount)
  {
    var s1 := s.(altTag := Some(text));
    NormalizeEncode(ImageOf(s1), cfg.targetWidth, cfg.targetHeight);
  }

  // ---------------------------------------------------- updatePreviewImage

  /** Lines 409-425: the preview is shown exactly when there is an image and
      its crop has a width, and then its `src` is the thumbnail URL built
      from the crop; otherwise it is hidden and keeps its `src`. */
  lemma PreviewShows(cfg: Config, s: St, fmt: real -> string)
    requires s.pendingPreviews > 0
    ensures var s' := PreviewStep(cfg, s, fmt);
      (s'.previewShown <==> s.sourceImg.Obj? && s.crop.width != 0.0)
      && (s'.previewShown ==>
            SrcAttribute(s'.previewSrc) == ThumbUrl(cfg.connectorsUrl, cfg.thumbnailWidth, Str(s.sourceImg.value.source),
                                                    PreviewParams(s.sourceImg.value, s.crop, fmt)))
      && (!s'.previewShown ==> s'.previewSrc == s.previewSrc)
      && s'.pendingPreviews == s.pendingPreviews - 1
      && s'.sourceImg == s.sourceImg && s'.hidden == s.hidden
  {
  }

  // ------------------------------------------------------------ clearImage

  /** Lines 375-386: the image, the snapshot, the label, the field and the
      browser are emptied, the preview shows the blank image, the form is
      marked dirty, and a preview refresh after it hides the preview. */
  lemma ClearEmpties(cfg: Config, s: St, fmt: real -> string)
    ensures var s' := ClearStep(s);
      s'.sourceImg == Null && s'.snapshot == Null && s'.lastFileLabel == "" && s'.hidden == []
      && s'.browserValue == ""
      && SrcAttribute(s'.previewSrc) == BlankGif
      && s'.dirtyCount == s.dirtyCount + 1 && s'.crop == s.crop && s'.altTag == s.altTag && s'.editor == s.editor
      && (s'.pendingPreviews > 0 ==> !PreviewStep(cfg, s', fmt).previewShown)
  {
  }

  // ---------------------------------------------------------- consistency

  /** Every handler keeps an aliased snapshot equal to the current image. */
  lemma FinishKeepsConsistent(cfg: Config, s: St, diff: bool, view: Viewport)
    requires Consistent(s)
    ensures Consistent(Finish(cfg, s, diff, view))
  {
    DisplayKeepsConsistent(cfg, s);
  }

  lemma SelectKeepsConsistent(cfg: Config, s: St, sel: Selection, view: Viewport)
    requires Consistent(s)
    ensures Consistent(SelectStep(cfg, s, sel, view))
    ensures Consistent(SelectKeepingCropStep(cfg, s, sel, view))
  {
    var copy := CopyOf(s.sourceImg);
    FinishKeepsConsistent(cfg, Select(cfg, s, sel, copy), Differs(s, sel), view);
    FinishKeepsConsistent(cfg, Select(cfg, s, sel, SetCrop(copy, s.crop)), Differs(s, sel), view);
  }

  lemma DisplayKeepsConsistent(cfg: Config, s: St)
    requires Consistent(s)
    ensures Consistent(UpdateDisplayStep(cfg, s).0)
    ensures Consistent(UpdateValueStep(cfg, s))
  {
  }

  lemma EditorCropKeepsConsistent(cfg: Config, s: St, c: Crop)
    requires Consistent(s)
    ensures Consistent(EditorCropStep(cfg, s, c))
  {
  }

  lemma OtherStepsKeepConsistent(cfg: Config, s: St, view: Viewport, text: string, id: string, fmt: real -> string)
    requires Consistent(s)
    ensures Consistent(EditImageStep(s, view))
    ensures Consistent(ClearStep(s))
    ensures Consistent(TvResetStep(cfg, s, id))
    ensures Consistent(AltTagStep(cfg, s, text))
    ensures s.pendingPreviews > 0 ==> Consistent(PreviewStep(cfg, s, fmt))
  {
  }
}
