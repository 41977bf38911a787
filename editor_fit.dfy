/** The guard and the window sizing of `editImage`
    (imageplus.panel.input.js, lines 333-372). */
module EditorFit {

  /** What the editor window is opened with: the display ratio and the
      window's outer width and height. */
  datatype EditorLayout = EditorLayout(ratio: real, width: real, height: real)

  /** Lines 344-356: shrink the image so it fits `maxW` x `maxH`, never enlarge. */
  function DisplayRatio(imgW: real, imgH: real, maxW: real, maxH: real): (r: real)
    requires maxW >= 0.0 && maxH >= 0.0
  {
    if imgH > maxH then
      var r := maxH / imgH;
      if imgW * r > maxW then maxW / imgW else r
    else if imgW > maxW then maxW / imgW
    else 1.0
  }

  /** The scaled image fits the limits and is never enlarged. */
  lemma DisplayRatioFits(imgW: real, imgH: real, maxW: real, maxH: real)
    requires imgW >= 0.0 && imgH >= 0.0 && maxW >= 0.0 && maxH >= 0.0
    ensures var r := DisplayRatio(imgW, imgH, maxW, maxH);
      0.0 <= r <= 1.0 && imgW * r <= maxW && imgH * r <= maxH
  {
    var r := DisplayRatio(imgW, imgH, maxW, maxH);
    if imgH > maxH {
      var q := maxH / imgH;
      assert 0.0 <= q < 1.0;
      assert imgH * q == maxH;
      if imgW * q > maxW {
        assert imgW > 0.0;
        assert r == maxW / imgW && imgW * r == maxW;
        assert r < q by {
          assert imgW * r < imgW * q;
        }
        assert imgH * r <= imgH * q;
      } else {
        assert r == q;
      }
    } else if imgW > maxW {
      assert r == maxW / imgW && imgW * r == maxW;
      assert r < 1.0;
      assert imgH * r <= imgH;
    }
  }

  /** The ratio is 1 exactly when the image already fits. */
  lemma DisplayRatioOne(imgW: real, imgH: real, maxW: real, maxH: real)
    requires imgW >= 0.0 && imgH >= 0.0 && maxW >= 0.0 && maxH >= 0.0
    ensures DisplayRatio(imgW, imgH, maxW, maxH) == 1.0 <==> imgW <= maxW && imgH <= maxH
  {
    var r := DisplayRatio(imgW, imgH, maxW, maxH);
    if imgH > maxH {
      DisplayRatioFits(imgW, imgH, maxW, maxH);
      assert imgH * r <= maxH < imgH;
    } else if imgW > maxW {
      DisplayRatioFits(imgW, imgH, maxW, maxH);
      assert imgW * r <= maxW < imgW;
    }
  }

  /** When the image is shrunk, one side exactly meets its limit. */
  lemma DisplayRatioTight(imgW: real, imgH: real, maxW: real, maxH: real)
    requires imgW >= 0.0 && imgH >= 0.0 && maxW >= 0.0 && maxH >= 0.0
    ensures var r := DisplayRatio(imgW, imgH, maxW, maxH);
      r == 1.0 || imgW * r == maxW || imgH * r == maxH
  {
  }

  /** Lines 338-341, 365-366: limits are 90% of the window width and 70% of
      its height; the window adds 20 pixels of padding and 84 of chrome. */
  function Layout(imgW: real, imgH: real, innerWidth: nat, innerHeight: nat): (l: EditorLayout)
    ensures imgW >= 0.0 && imgH >= 0.0 ==>
      l.width <= innerWidth as real * 0.9 + 20.0 && l.height <= innerHeight as real * 0.7 + 104.0
    ensures imgW >= 0.0 && imgH >= 0.0 ==> 0.0 <= l.ratio <= 1.0
  {
    var maxH := innerHeight as real * 0.7;
    var maxW := innerWidth as real * 0.9;
    var ratio := DisplayRatio(imgW, imgH, maxW, maxH);
    var l := EditorLayout(ratio, imgW * ratio + 20.0, imgH * ratio + 20.0 + 84.0);
    if imgW >= 0.0 && imgH >= 0.0 then DisplayRatioFits(imgW, imgH, maxW, maxH); l else l
  }
}
