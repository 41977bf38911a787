/** The value the widget keeps and the record it stores in the hidden field
    (imageplus.panel.input.js, `getValue` and `updateValue`). */
module TvCodec {
  import opened Wrappers
  import opened Json

  /** The crop rectangle, in source-image pixels. */
  datatype Crop = Crop(x: real, y: real, width: real, height: real)

  /** A source image as a JavaScript object: every property may be missing
      (the empty copy `{}` of a missing image, or a stored record that lacks
      one), and a copy may carry the `crop` the editor stored on it.
      `order` lists the present properties in the order they were added,
      which is the order `for ... in` and `JSON.stringify` visit them. */
  datatype SrcImg = SrcImg(
    src: Option<string>,
    width: Option<real>,
    height: Option<real>,
    source: Option<string>,
    crop: Option<Crop>,
    order: seq<string>)

  /** The copy of a missing image: an object with no properties. */
  const EmptyCopy := SrcImg(None, None, None, None, None, [])

  /** The properties of a source image the widget reads. */
  const SrcImgKeys := ["src", "width", "height", "source", "crop"]

  predicate Distinct(ks: seq<string>) {
    forall i, j :: 0 <= i < j < |ks| ==> ks[i] != ks[j]
  }

  /** `obj[k] = ...` on an object: a new property goes last. */
  function AddKey(order: seq<string>, k: string): (r: seq<string>)
    ensures Distinct(order) ==> Distinct(r)
    ensures forall k' :: k' in r <==> k' in order || k' == k
  {
    if k in order then order else order + [k]
  }

  /** Lines 226-227: the loaded size is assigned onto the image object. */
  function SetSize(s: SrcImg, width: real, height: real): (r: SrcImg)
    ensures WellFormed(s) ==> WellFormed(r)
    ensures r.width == Some(width) && r.height == Some(height)
    ensures r.src == s.src && r.source == s.source && r.crop == s.crop
  {
    s.(width := Some(width), height := Some(height), order := AddKey(AddKey(s.order, "width"), "height"))
  }

  /** Lines 400-404: a crop is assigned onto the image object. */
  function SetCrop(s: SrcImg, c: Crop): (r: SrcImg)
    ensures WellFormed(s) ==> WellFormed(r)
    ensures r.crop == Some(c)
    ensures r.src == s.src && r.width == s.width && r.height == s.height && r.source == s.source
  {
    s.(crop := Some(c), order := AddKey(s.order, "crop"))
  }

  /** What `this.image.sourceImg` holds: `undefined` (a record without it,
      or a rollback to a snapshot never taken), `null` (after `clearImage`),
      `false` (after `onReset`) or an image object.  Reading a property of
      `undefined` or `null` throws a `TypeError`; of `false` it gives
      `undefined`, and assigning one is ignored. */
  datatype SourceRef = Undefined | Null | False | Obj(value: SrcImg)

  /** `undefined` or `null`: a property read on it throws. */
  predicate IsNullish(r: SourceRef) {
    r.Undefined? || r.Null?
  }

  predicate WellFormedRef(r: SourceRef) {
    r.Obj? ==> WellFormed(r.value)
  }

  /** `this.image`: the source image, the crop rectangle and the alt text
      (absent while undefined). */
  datatype Image = Image(sourceImg: SourceRef, crop: Crop, altTag: Option<string>)

  // ---------------------------------------------------------------- encoding

  function StrField(k: string, o: Option<string>): (r: seq<Member>) {
    if o.Some? then [Member(k, JStr(o.value))] else []
  }

  function CropJson(c: Crop): (j: JValue) {
    JObj([Member("x", JNum(c.x)), Member("y", JNum(c.y)),
          Member("width", JNum(c.width)), Member("height", JNum(c.height))])
  }

  /** The member a key of a source image's object reads. */
  function SrcImgMember(s: SrcImg, k: string): (v: Option<JValue>)
    ensures v.Some? ==> k in SrcImgKeys
  {
    if k == "src" then (if s.src.Some? then Some(JStr(s.src.value)) else None)
    else if k == "width" then (if s.width.Some? then Some(JNum(s.width.value)) else None)
    else if k == "height" then (if s.height.Some? then Some(JNum(s.height.value)) else None)
    else if k == "source" then (if s.source.Some? then Some(JStr(s.source.value)) else None)
    else if k == "crop" then (if s.crop.Some? then Some(CropJson(s.crop.value)) else None)
    else None
  }

  /** `order` lists exactly the present properties, each once. */
  predicate WellFormed(s: SrcImg) {
    Distinct(s.order)
    && (forall k :: k in s.order ==> SrcImgMember(s, k).Some?)
    && (forall k :: k in SrcImgKeys && SrcImgMember(s, k).Some? ==> k in s.order)
  }

  /** The members for the keys `ks`, in that order; undefined ones are left out. */
  function MembersOf(s: SrcImg, ks: seq<string>): (r: seq<Member>)
    decreases |ks|
  {
    if ks == [] then []
    else
      var n := |ks| - 1;
      MembersOf(s, ks[..n]) + (match SrcImgMember(s, ks[n]) case Some(v) => [Member(ks[n], v)] case None => [])
  }

  /** `JSON.stringify` visits the properties in `order`. */
  function SrcImgJson(s: SrcImg): (j: JValue) {
    JObj(MembersOf(s, s.order))
  }

  /** How `JSON.stringify` writes a source image: `undefined` is left out. */
  function SourceRefJson(r: SourceRef): (o: Option<JValue>)
    ensures o.None? <==> r.Undefined?
  {
    match r
    case Undefined => None
    case Null => Some(JNull)
    case False => Some(JBool(false))
    case Obj(img) => Some(SrcImgJson(img))
  }

  function SourceField(r: SourceRef): (ms: seq<Member>) {
    match SourceRefJson(r)
    case None => []
    case Some(j) => [Member("sourceImg", j)]
  }

  /** The record of lines 287-293, keys in that order; undefined members are left out. */
  function TvJson(img: Image, targetWidth: real, targetHeight: real): (j: JValue) {
    JObj(SourceField(img.sourceImg)
         + [Member("crop", CropJson(img.crop)),
            Member("targetWidth", JNum(targetWidth)),
            Member("targetHeight", JNum(targetHeight))]
         + StrField("altTag", img.altTag))
  }

  /** The text `updateValue` writes into the hidden field. */
  function Encode(img: Image, targetWidth: real, targetHeight: real): (t: Text) {
    Print(TvJson(img, targetWidth, targetHeight))
  }

  // ---------------------------------------------------------------- decoding

  /** Property access on a parsed object: when a key repeats, the last wins. */
  function Get(ms: seq<Member>, k: string): (r: Option<JValue>) {
    if ms == [] then None
    else if ms[|ms| - 1].key == k then Some(ms[|ms| - 1].value)
    else Get(ms[..|ms| - 1], k)
  }

  /** An optional string property: `Some(None)` when missing, `None` when of another type. */
  function StrProp(o: Option<JValue>): (r: Option<Option<string>>) {
    match o
    case None => Some(None)
    case Some(JStr(s)) => Some(Some(s))
    case Some(_) => None
  }

  function NumProp(o: Option<JValue>): (r: Option<Option<real>>) {
    match o
    case None => Some(None)
    case Some(JNum(n)) => Some(Some(n))
    case Some(_) => None
  }

  function CropFrom(j: JValue): (r: Option<Crop>) {
    match j
    case JObj(ms) =>
      var x, y, w, h := Get(ms, "x"), Get(ms, "y"), Get(ms, "width"), Get(ms, "height");
      if x.Some? && x.value.JNum? && y.Some? && y.value.JNum?
         && w.Some? && w.value.JNum? && h.Some? && h.value.JNum?
      then Some(Crop(x.value.n, y.value.n, w.value.n, h.value.n))
      else None
    case _ => None
  }

  function CropProp(o: Option<JValue>): (r: Option<Option<Crop>>) {
    match o
    case None => Some(None)
    case Some(j) =>
      match CropFrom(j)
      case Some(c) => Some(Some(c))
      case None => None
  }

  function MemberKeys(ms: seq<Member>): (ks: seq<string>)
    ensures |ks| == |ms| && forall i :: 0 <= i < |ms| ==> ks[i] == ms[i].key
  {
    seq(|ms|, i requires 0 <= i < |ms| => ms[i].key)
  }

  /** The keys of `ks` the widget reads, in order. */
  function KnownKeys(ks: seq<string>): (r: seq<string>)
    ensures forall k :: k in r <==> k in ks && k in SrcImgKeys
    decreases |ks|
  {
    if ks == [] then []
    else
      var n := |ks| - 1;
      assert ks == ks[..n] + [ks[n]];
      KnownKeys(ks[..n]) + (if ks[n] in SrcImgKeys then [ks[n]] else [])
  }

  /** A stored source image: its known properties, in their stored order;
      a repeated known key is not read. */
  function SrcImgFrom(j: JValue): (r: Option<SrcImg>)
    ensures r.Some? ==> WellFormed(r.value)
  {
    match j
    case JObj(ms) =>
      var src, w, h := StrProp(Get(ms, "src")), NumProp(Get(ms, "width")), NumProp(Get(ms, "height"));
      var source, crop := StrProp(Get(ms, "source")), CropProp(Get(ms, "crop"));
      var order := KnownKeys(MemberKeys(ms));
      if src.Some? && w.Some? && h.Some? && source.Some? && crop.Some? && Distinct(order)
      then
        var s := SrcImg(src.value, w.value, h.value, source.value, crop.value, order);
        DecodedWellFormed(ms, s);
        Some(s)
      else None
    case _ => None
  }

  /** `sourceImg` as stored: missing reads as `undefined`; null, false and
      an object as themselves. */
  function SourceImgProp(o: Option<JValue>): (r: Option<SourceRef>)
    ensures r.Some? ==> WellFormedRef(r.value)
  {
    match o
    case None => Some(Undefined)
    case Some(JNull) => Some(Null)
    case Some(JBool(false)) => Some(False)
    case Some(j) =>
      match SrcImgFrom(j)
      case Some(s) => Some(Obj(s))
      case None => None
  }

  function ImageFrom(j: JValue): (r: Option<Image>)
    ensures r.Some? ==> WellFormedRef(r.value.sourceImg)
  {
    match j
    case JObj(ms) =>
      var s, c, a := SourceImgProp(Get(ms, "sourceImg")), Get(ms, "crop"), StrProp(Get(ms, "altTag"));
      if s.Some? && c.Some? && CropFrom(c.value).Some? && a.Some?
      then Some(Image(s.value, CropFrom(c.value).value, a.value))
      else None
    case _ => None
  }

  /** The structured reading of a stored value; `None` sends `getValue` to
      the legacy bare-path reading. */
  function DecodeImage(t: Text): (r: Option<Image>)
    ensures r.Some? ==> WellFormedRef(r.value.sourceImg)
  {
    match Parse(t)
    case Some(j) => ImageFrom(j)
    case None => None
  }

  /** Lines 267-280: a stored value that is not a record is a bare path,
      with the properties in the order of that literal. */
  function LegacyImage(raw: string, mediaSource: string): (img: Image)
    ensures img.sourceImg.Obj? && WellFormed(img.sourceImg.value)
  {
    var s := SrcImg(Some(raw), Some(0.0), Some(0.0), Some(mediaSource), None, ["height", "width", "source", "src"]);
    assert forall k :: k in s.order <==> SrcImgMember(s, k).Some?;
    Image(Obj(s), Crop(0.0, 0.0, 0.0, 0.0), None)
  }

  // ------------------------------------------------------------------ proofs

  lemma {:induction false} GetAppend(a: seq<Member>, b: seq<Member>, k: string)
    ensures Get(a + b, k) == if Get(b, k).Some? then Get(b, k) else Get(a, k)
    decreases |b|
  {
    if b != [] {
      var n := |b| - 1;
      assert (a + b)[..|a + b| - 1] == a + b[..n];
      assert (a + b)[|a + b| - 1] == b[n];
      GetAppend(a, b[..n], k);
    } else {
      assert a + b == a;
    }
  }

  lemma GetSnoc(ms: seq<Member>, m: Member, k: string)
    ensures Get(ms + [m], k) == if m.key == k then Some(m.value) else Get(ms, k)
  {
    assert (ms + [m])[..|ms|] == ms;
  }

  /** Property access on a three-member object. */
  lemma Get3(a: Member, b: Member, c: Member, k: string)
    ensures Get([a, b, c], k) ==
      if c.key == k then Some(c.value) else if b.key == k then Some(b.value)
      else if a.key == k then Some(a.value) else None
  {
    assert [a, b, c] == [a, b] + [c];
    assert [a, b] == [a] + [b];
    assert [a] == [] + [a];
    GetSnoc([a, b], c, k);
    GetSnoc([a], b, k);
    GetSnoc([], a, k);
  }

  /** Property access on a four-member object. */
  lemma Get4(a: Member, b: Member, c: Member, d: Member, k: string)
    ensures Get([a, b, c, d], k) ==
      if d.key == k then Some(d.value) else if c.key == k then Some(c.value)
      else if b.key == k then Some(b.value) else if a.key == k then Some(a.value) else None
  {
    assert [a, b, c, d] == [a, b, c] + [d];
    assert [a, b, c] == [a, b] + [c];
    assert [a, b] == [a] + [b];
    assert [a] == [] + [a];
    GetSnoc([a, b, c], d, k);
    GetSnoc([a, b], c, k);
    GetSnoc([a], b, k);
    GetSnoc([], a, k);
  }

  lemma CropRoundTrip(c: Crop)
    ensures CropFrom(CropJson(c)) == Some(c)
  {
    var mx, my := Member("x", JNum(c.x)), Member("y", JNum(c.y));
    var mw, mh := Member("width", JNum(c.width)), Member("height", JNum(c.height));
    Get4(mx, my, mw, mh, "x");
    Get4(mx, my, mw, mh, "y");
    Get4(mx, my, mw, mh, "width");
    Get4(mx, my, mw, mh, "height");
  }

  lemma GetOne(m: Member, k: string)
    ensures Get([m], k) == if m.key == k then Some(m.value) else None
  {
    GetSnoc([], m, k);
    assert [] + [m] == [m];
  }

  /** A field of at most one member, named `key`. */
  lemma GetField(f: seq<Member>, key: string, k: string)
    requires |f| <= 1 && (f != [] ==> f[0].key == key)
    ensures Get(f, k) == if f != [] && k == key then Some(f[0].value) else None
  {
    if f != [] {
      GetOne(f[0], k);
    }
  }

  lemma {:induction false} MembersOfGet(s: SrcImg, ks: seq<string>, k: string)
    ensures Get(MembersOf(s, ks), k) == if k in ks then SrcImgMember(s, k) else None
    decreases |ks|
  {
    if ks != [] {
      var n := |ks| - 1;
      MembersOfGet(s, ks[..n], k);
      var tail := match SrcImgMember(s, ks[n]) case Some(v) => [Member(ks[n], v)] case None => [];
      GetAppend(MembersOf(s, ks[..n]), tail, k);
      if tail != [] {
        GetOne(tail[0], k);
      }
      assert ks == ks[..n] + [ks[n]];
    }
  }

  lemma {:induction false} MembersOfKeys(s: SrcImg, ks: seq<string>)
    requires forall k :: k in ks ==> SrcImgMember(s, k).Some?
    ensures MemberKeys(MembersOf(s, ks)) == ks
    decreases |ks|
  {
    if ks != [] {
      var n := |ks| - 1;
      assert ks == ks[..n] + [ks[n]];
      MembersOfKeys(s, ks[..n]);
      var ms := MembersOf(s, ks);
      assert ms == MembersOf(s, ks[..n]) + [Member(ks[n], SrcImgMember(s, ks[n]).value)];
      assert MemberKeys(ms) == MemberKeys(MembersOf(s, ks[..n])) + [ks[n]];
    }
  }

  lemma {:induction false} KnownKeysAll(ks: seq<string>)
    requires forall k :: k in ks ==> k in SrcImgKeys
    ensures KnownKeys(ks) == ks
    decreases |ks|
  {
    if ks != [] {
      var n := |ks| - 1;
      assert ks == ks[..n] + [ks[n]];
      KnownKeysAll(ks[..n]);
    }
  }

  lemma {:induction false} GetPresent(ms: seq<Member>, k: string)
    ensures Get(ms, k).Some? <==> k in MemberKeys(ms)
    decreases |ms|
  {
    if ms != [] {
      var n := |ms| - 1;
      GetPresent(ms[..n], k);
      assert MemberKeys(ms) == MemberKeys(ms[..n]) + [ms[n].key];
    }
  }

  /** A decoded source image lists exactly its present properties. */
  lemma DecodedWellFormed(ms: seq<Member>, s: SrcImg)
    requires StrProp(Get(ms, "src")) == Some(s.src) && NumProp(Get(ms, "width")) == Some(s.width)
    requires NumProp(Get(ms, "height")) == Some(s.height) && StrProp(Get(ms, "source")) == Some(s.source)
    requires CropProp(Get(ms, "crop")) == Some(s.crop)
    requires s.order == KnownKeys(MemberKeys(ms)) && Distinct(s.order)
    ensures WellFormed(s)
  {
    forall k | k in SrcImgKeys
      ensures k in s.order <==> SrcImgMember(s, k).Some?
    {
      GetPresent(ms, k);
    }
  }

  lemma SrcImgGet(s: SrcImg, k: string)
    requires WellFormed(s)
    ensures Get(SrcImgJson(s).members, k) == SrcImgMember(s, k)
  {
    MembersOfGet(s, s.order, k);
  }

  /** Decoding an object whose members read as the properties of `s`. */
  lemma SrcImgFromMembers(ms: seq<Member>, s: SrcImg)
    requires StrProp(Get(ms, "src")) == Some(s.src) && NumProp(Get(ms, "width")) == Some(s.width)
    requires NumProp(Get(ms, "height")) == Some(s.height) && StrProp(Get(ms, "source")) == Some(s.source)
    requires CropProp(Get(ms, "crop")) == Some(s.crop)
    requires KnownKeys(MemberKeys(ms)) == s.order && Distinct(s.order)
    ensures SrcImgFrom(JObj(ms)) == Some(s)
  {
  }

  /** The printed members read back as the properties of `s`. */
  lemma SrcImgProps(s: SrcImg)
    requires WellFormed(s)
    ensures var ms := SrcImgJson(s).members;
      StrProp(Get(ms, "src")) == Some(s.src) && NumProp(Get(ms, "width")) == Some(s.width)
      && NumProp(Get(ms, "height")) == Some(s.height) && StrProp(Get(ms, "source")) == Some(s.source)
  {
    SrcImgGet(s, "src");
    SrcImgGet(s, "width");
    SrcImgGet(s, "height");
    SrcImgGet(s, "source");
  }

  lemma SrcImgCropProp(s: SrcImg)
    requires WellFormed(s)
    ensures CropProp(Get(SrcImgJson(s).members, "crop")) == Some(s.crop)
  {
    SrcImgGet(s, "crop");
    if s.crop.Some? {
      CropRoundTrip(s.crop.value);
    }
  }

  lemma SrcImgRoundTrip(s: SrcImg)
    requires WellFormed(s)
    ensures SrcImgFrom(SrcImgJson(s)) == Some(s)
  {
    var ms := SrcImgJson(s).members;
    SrcImgProps(s);
    SrcImgCropProp(s);
    MembersOfKeys(s, s.order);
    KnownKeysAll(s.order);
    SrcImgFromMembers(ms, s);
  }

  /** The three members of the stored record that are read back. */
  lemma TvJsonGets(img: Image, targetWidth: real, targetHeight: real)
    ensures var ms := TvJson(img, targetWidth, targetHeight).members;
      Get(ms, "sourceImg") == SourceRefJson(img.sourceImg)
      && Get(ms, "crop") == Some(CropJson(img.crop))
      && StrProp(Get(ms, "altTag")) == Some(img.altTag)
  {
    var src := SourceField(img.sourceImg);
    var mid := [Member("crop", CropJson(img.crop)),
                Member("targetWidth", JNum(targetWidth)),
                Member("targetHeight", JNum(targetHeight))];
    var tail := StrField("altTag", img.altTag);
    assert TvJson(img, targetWidth, targetHeight).members == (src + mid) + tail;
    GetAppend(src + mid, tail, "sourceImg");
    GetAppend(src + mid, tail, "crop");
    GetAppend(src + mid, tail, "altTag");
    GetAppend(src, mid, "sourceImg");
    GetAppend(src, mid, "crop");
    GetAppend(src, mid, "altTag");
    Get3(mid[0], mid[1], mid[2], "sourceImg");
    Get3(mid[0], mid[1], mid[2], "crop");
    Get3(mid[0], mid[1], mid[2], "altTag");
    GetField(src, "sourceImg", "sourceImg");
    GetField(src, "sourceImg", "crop");
    GetField(src, "sourceImg", "altTag");
    GetField(tail, "altTag", "sourceImg");
    GetField(tail, "altTag", "crop");
    GetField(tail, "altTag", "altTag");
  }

  lemma SourceRefRoundTrip(r: SourceRef)
    requires WellFormedRef(r)
    ensures SourceImgProp(SourceRefJson(r)) == Some(r)
  {
    if r.Obj? {
      SrcImgRoundTrip(r.value);
    }
  }

  /** Reading back what `updateValue` wrote gives the same image
      (the stored target sizes are not read back). */
  lemma DecodeEncode(img: Image, targetWidth: real, targetHeight: real)
    requires WellFormedRef(img.sourceImg)
    ensures DecodeImage(Encode(img, targetWidth, targetHeight)) == Some(img)
  {
    var j := TvJson(img, targetWidth, targetHeight);
    ParsePrint(j);
    TvJsonGets(img, targetWidth, targetHeight);
    SourceRefRoundTrip(img.sourceImg);
    CropRoundTrip(img.crop);
    var ms := j.members;
    assert SourceImgProp(Get(ms, "sourceImg")) == Some(img.sourceImg);
    assert ImageFrom(j) == Some(img);
  }

  /** The stored text of an image is already in normal form. */
  lemma NormalizeEncode(img: Image, targetWidth: real, targetHeight: real)
    ensures Normalize(Encode(img, targetWidth, targetHeight)) == Encode(img, targetWidth, targetHeight)
  {
    NormalizePrint(TvJson(img, targetWidth, targetHeight));
  }

  /** Encoding is injective on images: two images with the same stored text
      are the same image. */
  lemma EncodeInjective(a: Image, b: Image, targetWidth: real, targetHeight: real)
    requires WellFormedRef(a.sourceImg) && WellFormedRef(b.sourceImg)
    requires Encode(a, targetWidth, targetHeight) == Encode(b, targetWidth, targetHeight)
    ensures a == b
  {
    DecodeEncode(a, targetWidth, targetHeight);
    DecodeEncode(b, targetWidth, targetHeight);
  }

  /** A stored text whose normal form is the encoding of an image decodes
      to that image: what `updateValue` compares equal to its new text
      reads back as the current image. */
  lemma DecodeNormalized(t: Text, img: Image, targetWidth: real, targetHeight: real)
    requires WellFormedRef(img.sourceImg)
    requires Normalize(t) == Encode(img, targetWidth, targetHeight)
    ensures DecodeImage(t) == Some(img)
  {
    var e := TvJson(img, targetWidth, targetHeight);
    PrintNonEmpty(e);
    ParsePrint(e);
    DecodeEncode(img, targetWidth, targetHeight);
    match Parse(t)
    case Some(j) =>
      ParsePrint(j);
      assert Print(j) == Print(e);
    case None =>
  }

  /** A bare path read as a legacy value (the example of a stored
      "/images/foo.jpg"): it is not JSON, so it reads as a path. */
  lemma BarePathIsLegacy(raw: string)
    requires raw != [] && raw[0] == '/'
    ensures Parse(Lit(raw)) == None && Normalize(Lit(raw)) == []
    ensures DecodeImage(Lit(raw)) == None
  {
    assert Lit(raw)[0] == Ch('/');
  }
}
