/** The thumbnail URL of the preview (imageplus.panel.input.js,
    `generateThumbUrl`, lines 147-161) and the preview decision of
    `updatePreviewImage` (lines 409-420). */
module Thumb {
  import opened Wrappers
  import opened TvCodec

  /** A JavaScript object with string values, as its keys enumerate: in
      insertion order. */
  type Params = seq<(string, string)>

  function Keys(m: Params): (ks: seq<string>)
    ensures |ks| == |m| && forall i :: 0 <= i < |m| ==> ks[i] == m[i].0
  {
    seq(|m|, i requires 0 <= i < |m| => m[i].0)
  }

  /** `obj[k] = v`: an existing key keeps its place, a new key goes last. */
  function Put(m: Params, k: string, v: string): (r: Params) {
    if m == [] then [(k, v)]
    else if m[0].0 == k then [(k, v)] + m[1..]
    else [m[0]] + Put(m[1..], k, v)
  }

  /** Lines 154-156: every parameter, in order, is assigned onto the defaults. */
  function Merge(defaults: Params, params: Params): (m: Params)
    decreases |params|
  {
    if params == [] then defaults
    else
      var n := |params| - 1;
      Put(Merge(defaults, params[..n]), params[n].0, params[n].1)
  }

  /** Lines 157-159: `&k=v` for every key, in order. */
  function Query(m: Params): (r: string)
    decreases |m|
  {
    if m == [] then ""
    else
      var n := |m| - 1;
      Query(m[..n]) + "&" + m[n].0 + "=" + m[n].1
  }

  const Endpoint := "system/phpthumb.php?imageplus=1"

  /** Lines 149-153. */
  function Defaults(thumbnailWidth: string, source: string): (m: Params) {
    [("wctx", "mgr"), ("w", thumbnailWidth), ("source", source)]
  }

  function ThumbUrl(connectorsUrl: string, thumbnailWidth: string, source: string, params: Params): (r: string) {
    connectorsUrl + Endpoint + Query(Merge(Defaults(thumbnailWidth, source), params))
  }

  /** Lines 147-161, with its two loops. */
  method GenerateThumbUrl(connectorsUrl: string, thumbnailWidth: string, source: string, params: Params)
    returns (url: string)
    ensures url == ThumbUrl(connectorsUrl, thumbnailWidth, source, params)
  {
    url := connectorsUrl + Endpoint;
    var defaults := Defaults(thumbnailWidth, source);
    var i := 0;
    while i < |params|
      invariant 0 <= i <= |params|
      invariant defaults == Merge(Defaults(thumbnailWidth, source), params[..i])
    {
      assert params[..i + 1][..i] == params[..i];
      defaults := Put(defaults, params[i].0, params[i].1);
      i := i + 1;
    }
    assert params[..|params|] == params;
    var j := 0;
    while j < |defaults|
      invariant 0 <= j <= |defaults|
      invariant url == connectorsUrl + Endpoint + Query(defaults[..j])
    {
      assert defaults[..j + 1][..j] == defaults[..j];
      url := url + "&" + defaults[j].0 + "=" + defaults[j].1;
      j := j + 1;
    }
    assert defaults[..|defaults|] == defaults;
  }

  // ------------------------------------------------------------ properties

  /** The value of the last occurrence of `k`. */
  function Lookup(m: Params, k: string): (r: Option<string>)
    decreases |m|
  {
    if m == [] then None
    else if m[|m| - 1].0 == k then Some(m[|m| - 1].1)
    else Lookup(m[..|m| - 1], k)
  }

  /** The keys of `ks` not in `seen`, each at its first occurrence, in order. */
  function Fresh(seen: seq<string>, ks: seq<string>): (r: seq<string>)
    decreases |ks|
  {
    if ks == [] then []
    else
      var n := |ks| - 1;
      var f := Fresh(seen, ks[..n]);
      if ks[n] in seen || ks[n] in f then f else f + [ks[n]]
  }

  /** The value a merged key ends with: the last parameter value, else the default. */
  function Resolved(defaults: Params, params: Params, k: string): (r: string) {
    if Lookup(params, k).Some? then Lookup(params, k).value else Lookup(defaults, k).GetOr("")
  }

  lemma {:induction false} LookupIn(m: Params, k: string)
    ensures Lookup(m, k).Some? <==> k in Keys(m)
    decreases |m|
  {
    if m != [] {
      var n := |m| - 1;
      LookupIn(m[..n], k);
      assert Keys(m) == Keys(m[..n]) + [m[n].0];
    }
  }

  lemma {:induction false} LookupDistinct(m: Params, i: nat)
    requires Distinct(Keys(m)) && i < |m|
    ensures Lookup(m, m[i].0) == Some(m[i].1)
    decreases |m|
  {
    var n := |m| - 1;
    if i < n {
      assert Keys(m[..n]) == Keys(m)[..n];
      LookupDistinct(m[..n], i);
    }
  }

  lemma {:induction false} PutExisting(m: Params, k: string, v: string, p: nat)
    requires p < |m| && m[p].0 == k && forall i :: 0 <= i < p ==> m[i].0 != k
    ensures |Put(m, k, v)| == |m|
    ensures forall i :: 0 <= i < |m| ==> Put(m, k, v)[i] == if i == p then (k, v) else m[i]
    decreases |m|
  {
    if p > 0 {
      PutExisting(m[1..], k, v, p - 1);
    }
  }

  lemma {:induction false} PutNew(m: Params, k: string, v: string)
    requires k !in Keys(m)
    ensures Put(m, k, v) == m + [(k, v)]
    decreases |m|
  {
    if m != [] {
      assert Keys(m[1..]) == Keys(m)[1..];
      PutNew(m[1..], k, v);
    }
  }

  lemma {:induction false} FreshFacts(seen: seq<string>, ks: seq<string>)
    ensures Distinct(Fresh(seen, ks))
    ensures forall k :: k in Fresh(seen, ks) <==> k in ks && k !in seen
    decreases |ks|
  {
    if ks != [] {
      var n := |ks| - 1;
      FreshFacts(seen, ks[..n]);
      assert ks == ks[..n] + [ks[n]];
    }
  }

  lemma KeysAppend(a: Params, b: Params)
    ensures Keys(a + b) == Keys(a) + Keys(b)
  {
  }

  lemma {:induction false} PutKeys(m: Params, k: string, v: string)
    ensures Keys(Put(m, k, v)) == if k in Keys(m) then Keys(m) else Keys(m) + [k]
    decreases |m|
  {
    if m == [] {
      assert Keys([(k, v)]) == [k];
    } else {
      var tail := Keys(m[1..]);
      assert m == [m[0]] + m[1..];
      KeysAppend([m[0]], m[1..]);
      assert Keys([m[0]]) == [m[0].0];
      if m[0].0 == k {
        KeysAppend([(k, v)], m[1..]);
        assert Keys([(k, v)]) == [k];
      } else {
        PutKeys(m[1..], k, v);
        var r := Put(m[1..], k, v);
        KeysAppend([m[0]], r);
        assert k in Keys(m) <==> k in tail;
        if k !in tail {
          assert [m[0].0] + (tail + [k]) == ([m[0].0] + tail) + [k];
        }
      }
    }
  }

  lemma DistinctConcat(a: seq<string>, b: seq<string>)
    requires Distinct(a) && Distinct(b)
    requires forall k :: k in b ==> k !in a
    ensures Distinct(a + b)
  {
    var c := a + b;
    forall i, j | 0 <= i < j < |c| ensures c[i] != c[j] {
      if j >= |a| && i < |a| {
        assert c[j] == b[j - |a|];
        assert c[i] in a;
      } else if i >= |a| {
        assert c[i] == b[i - |a|] && c[j] == b[j - |a|];
      }
    }
  }

  /** Merging keeps every default at its position and appends each new
      parameter key once, in order of first appearance. */
  lemma {:induction false} MergeKeys(defaults: Params, params: Params)
    ensures Keys(Merge(defaults, params)) == Keys(defaults) + Fresh(Keys(defaults), Keys(params))
    decreases |params|
  {
    if params != [] {
      var n := |params| - 1;
      var q := params[..n];
      MergeKeys(defaults, q);
      PutKeys(Merge(defaults, q), params[n].0, params[n].1);
      assert Keys(params)[..n] == Keys(q);
    }
  }

  /** No key of the merged object repeats. */
  lemma MergeDistinct(defaults: Params, params: Params)
    requires Distinct(Keys(defaults))
    ensures Distinct(Keys(Merge(defaults, params)))
  {
    MergeKeys(defaults, params);
    FreshFacts(Keys(defaults), Keys(params));
    DistinctConcat(Keys(defaults), Fresh(Keys(defaults), Keys(params)));
  }

  lemma PutValues(m: Params, k: string, v: string)
    requires Distinct(Keys(m))
    ensures forall i :: 0 <= i < |Put(m, k, v)| ==>
      Put(m, k, v)[i].1 == if Put(m, k, v)[i].0 == k then v else Lookup(m, Put(m, k, v)[i].0).GetOr("")
  {
    if k in Keys(m) {
      var p :| 0 <= p < |m| && m[p].0 == k;
      PutExisting(m, k, v, p);
      forall i | 0 <= i < |m| && i != p ensures m[i].1 == Lookup(m, m[i].0).GetOr("") {
        LookupDistinct(m, i);
      }
    } else {
      PutNew(m, k, v);
      forall i | 0 <= i < |m| ensures m[i].1 == Lookup(m, m[i].0).GetOr("") && m[i].0 != k {
        LookupDistinct(m, i);
      }
    }
  }

  /** Each merged key ends with its last parameter value, or its default
      value when no parameter sets it. */
  lemma {:induction false} MergeValues(defaults: Params, params: Params)
    requires Distinct(Keys(defaults))
    ensures forall i :: 0 <= i < |Merge(defaults, params)| ==>
      Merge(defaults, params)[i].1 == Resolved(defaults, params, Merge(defaults, params)[i].0)
    decreases |params|
  {
    if params == [] {
      forall i | 0 <= i < |defaults| ensures defaults[i].1 == Resolved(defaults, params, defaults[i].0) {
        LookupDistinct(defaults, i);
      }
    } else {
      var n := |params| - 1;
      var q := params[..n];
      var k, v := params[n].0, params[n].1;
      var m := Merge(defaults, q);
      MergeValues(defaults, q);
      MergeDistinct(defaults, q);
      PutValues(m, k, v);
      var m' := Put(m, k, v);
      assert m' == Merge(defaults, params);
      forall i | 0 <= i < |m'| ensures m'[i].1 == Resolved(defaults, params, m'[i].0) {
        var k' := m'[i].0;
        if k' != k {
          assert Lookup(params, k') == Lookup(q, k');
          PutKeys(m, k, v);
          assert k' in Keys(m);
          var j :| 0 <= j < |m| && m[j].0 == k';
          LookupDistinct(m, j);
        }
      }
    }
  }

  /** Every URL starts with the endpoint; what follows it is one `&k=v` per
      merged key, the defaults first, and no key repeats. */
  lemma ThumbUrlShape(connectorsUrl: string, thumbnailWidth: string, source: string, params: Params)
    ensures var m := Merge(Defaults(thumbnailWidth, source), params);
      ThumbUrl(connectorsUrl, thumbnailWidth, source, params) == connectorsUrl + Endpoint + Query(m)
      && Distinct(Keys(m))
      && |m| >= 3 && Keys(m)[..3] == ["wctx", "w", "source"]
  {
    var d := Defaults(thumbnailWidth, source);
    assert Keys(d) == ["wctx", "w", "source"];
    MergeKeys(d, params);
    MergeDistinct(d, params);
  }

  // --------------------------------------------------------------- preview

  /** Concatenating `undefined` into a string writes "undefined". */
  function Str(o: Option<string>): (r: string) {
    o.GetOr("undefined")
  }

  /** Lines 414-420; `fmt` is JavaScript's number-to-string conversion. */
  function PreviewParams(img: SrcImg, crop: Crop, fmt: real -> string): (m: Params) {
    [("src", Str(img.src)), ("sw", fmt(crop.width)), ("sh", fmt(crop.height)),
     ("sx", fmt(crop.x)), ("sy", fmt(crop.y))]
  }

  /** Lines 409-424: hide the preview (`None`) when there is no image or no
      crop width, otherwise show the thumbnail at the returned URL. */
  function PreviewFor(connectorsUrl: string, thumbnailWidth: string, img: SourceRef, crop: Crop,
                      fmt: real -> string): (p: Option<string>)
    ensures p.None? <==> !img.Obj? || crop.width == 0.0
  {
    if !img.Obj? || crop.width == 0.0 then None
    else Some(ThumbUrl(connectorsUrl, thumbnailWidth, Str(img.value.source), PreviewParams(img.value, crop, fmt)))
  }

  /** Keys that are all new and all different are all kept, in order. */
  lemma {:induction false} FreshAllNew(seen: seq<string>, ks: seq<string>)
    requires Distinct(ks) && forall k :: k in ks ==> k !in seen
    ensures Fresh(seen, ks) == ks
    decreases |ks|
  {
    if ks != [] {
      var n := |ks| - 1;
      FreshAllNew(seen, ks[..n]);
      assert ks[n] !in ks[..n];
      assert ks[..n] + [ks[n]] == ks;
    }
  }

  /** A shown preview asks for the thumbnail with the three defaults first and
      the five crop parameters after them, each key once. */
  lemma PreviewQueryKeys(img: SrcImg, crop: Crop, thumbnailWidth: string, fmt: real -> string)
    ensures Keys(Merge(Defaults(thumbnailWidth, Str(img.source)), PreviewParams(img, crop, fmt)))
         == ["wctx", "w", "source", "src", "sw", "sh", "sx", "sy"]
  {
    var d := Defaults(thumbnailWidth, Str(img.source));
    var p := PreviewParams(img, crop, fmt);
    assert Keys(d) == ["wctx", "w", "source"];
    assert Keys(p) == ["src", "sw", "sh", "sx", "sy"];
    MergeKeys(d, p);
    FreshAllNew(Keys(d), Keys(p));
  }
}
