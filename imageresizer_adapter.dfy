/**
 * The ImageResizer adapter: the same crop parameters as Imageflow Server, and
 * the padding as `margin` in whole source pixels, top, right, bottom, left.
 */
module ImageResizerAdapter {
  import opened Wrappers
  import opened Types
  import opened Text
  import opened Querystring
  import opened Riapi

  /** The parameter ImageResizer reads the padding from. */
  const MARGIN_PARAM: string := "margin"

  /** toParams: the crop parameters, `margin` exactly when some side is padded, and the query string. */
  method ToParams(sel: CropSelection, srcW: real, srcH: real, n: NumberText, c: UriCodec) returns (r: RiapiResult)
    ensures r == PaddedParams(sel, srcW, srcH, MARGIN_PARAM, n, c)
    ensures HasPadding(sel.pad) <==> Get(r.params, MARGIN_PARAM).Some?
  {
    r := ToPaddedParams(sel, srcW, srcH, MARGIN_PARAM, n, c);
  }

  /** fromParams: nothing without a four-number crop; otherwise the crop over its units and the padding from `margin`. */
  method FromParams(params: Params, srcW: real, srcH: real, n: NumberText) returns (r: Option<CropSelection>)
    requires UnitsUsable(params, n)
    ensures r == PaddedSelection(params, srcW, srcH, MARGIN_PARAM, n)
    ensures r.None? <==> CropFields(params, n).None?
  {
    r := FromPaddedParams(params, srcW, srcH, MARGIN_PARAM, n);
  }

  /**
   * Through the URL and back: the crop exactly, the margin rounded to whole
   * source pixels (zero when no side was padded).
   */
  lemma RoundTrip(sel: CropSelection, srcW: real, srcH: real, n: NumberText, c: UriCodec)
    requires CropReadsBack(n, sel.crop) && (HasPadding(sel.pad) ==> PadReadsBack(n, sel.pad, srcW, srcH))
    requires FaithfulCodec(c) && srcW > 0.0 && srcH > 0.0
    ensures var res := PaddedParams(sel, srcW, srcH, MARGIN_PARAM, n, c);
      && ParsedQuery(res.querystring, c) == Some(res.params)
      && UnitsUsable(res.params, n)
      && PaddedSelection(res.params, srcW, srcH, MARGIN_PARAM, n)
         == Some(CropSelection(sel.crop, if HasPadding(sel.pad) then RoundedPad(sel.pad, srcW, srcH) else ZERO_PAD))
  {
    PaddedUrlRoundTrip(sel, srcW, srcH, MARGIN_PARAM, n, c);
  }

  /** Five hundredths of a 1000 by 1000 image on every side is a 50-pixel margin. */
  lemma MarginExample(n: NumberText)
    requires n.show(50.0) == "50"
    ensures var sel := CropSelection(CropRect(0.0, 0.0, 1.0, 1.0), PadRect(0.05, 0.05, 0.05, 0.05));
      Get(PaddedRecord(sel, 1000.0, 1000.0, MARGIN_PARAM, n), MARGIN_PARAM) == Some("50,50,50,50")
  {
    var pad := PadRect(0.05, 0.05, 0.05, 0.05);
    assert PadPixels(pad, 1000.0, 1000.0) == [50.0, 50.0, 50.0, 50.0];
    MarginTextExample(n);
  }

  /** The text of a 50-pixel margin on every side. */
  lemma MarginTextExample(n: NumberText)
    requires n.show(50.0) == "50"
    ensures NumbersText([50.0, 50.0, 50.0, 50.0], n) == "50,50,50,50"
  {
    var shown := Shown([50.0, 50.0, 50.0, 50.0], n);
    assert shown == ["50", "50", "50", "50"];
    assert Join(shown[2..], ',') == "50,50";
    assert Join(shown[1..], ',') == "50,50,50";
  }

  /** Without padding no `margin` parameter is written, and a crop alone reads back with zero padding. */
  lemma NoMarginExample(n: NumberText)
    requires ReadsBack(n, 0.1) && ReadsBack(n, 0.9) && n.parse("1") == Some(1.0)
    ensures var sel := CropSelection(CropRect(0.1, 0.1, 0.9, 0.9), ZERO_PAD);
      var params := PaddedRecord(sel, 1000.0, 1000.0, MARGIN_PARAM, n);
      && Get(params, MARGIN_PARAM).None?
      && UnitsUsable(params, n)
      && PaddedSelection(params, 1000.0, 1000.0, MARGIN_PARAM, n) == Some(sel)
  {
    var sel := CropSelection(CropRect(0.1, 0.1, 0.9, 0.9), ZERO_PAD);
    assert CropNumbers(sel.crop) == [0.1, 0.1, 0.9, 0.9];
    PaddedRoundTrip(sel, 1000.0, 1000.0, MARGIN_PARAM, n);
  }
}
