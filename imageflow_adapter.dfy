/**
 * The Imageflow Server adapter: the crop as four fractions with both units
 * '1', and the padding as `s.pad` in whole source pixels, top, right, bottom,
 * left.
 */
module ImageflowAdapter {
  import opened Wrappers
  import opened Types
  import opened Text
  import opened Querystring
  import opened Riapi

  /** The parameter Imageflow Server reads the padding from. */
  const PAD_PARAM: string := "s.pad"

  /** toParams: the crop parameters, `s.pad` exactly when some side is padded, and the query string. */
  method ToParams(sel: CropSelection, srcW: real, srcH: real, n: NumberText, c: UriCodec) returns (r: RiapiResult)
    ensures r == PaddedParams(sel, srcW, srcH, PAD_PARAM, n, c)
    ensures HasPadding(sel.pad) <==> Get(r.params, PAD_PARAM).Some?
  {
    r := ToPaddedParams(sel, srcW, srcH, PAD_PARAM, n, c);
  }

  /** fromParams: nothing without a four-number crop; otherwise the crop over its units and the padding from `s.pad`. */
  method FromParams(params: Params, srcW: real, srcH: real, n: NumberText) returns (r: Option<CropSelection>)
    requires UnitsUsable(params, n)
    ensures r == PaddedSelection(params, srcW, srcH, PAD_PARAM, n)
    ensures r.None? <==> CropFields(params, n).None?
  {
    r := FromPaddedParams(params, srcW, srcH, PAD_PARAM, n);
  }

  /**
   * Through the URL and back: the crop exactly, the padding rounded to whole
   * source pixels (zero when no side was padded).
   */
  lemma RoundTrip(sel: CropSelection, srcW: real, srcH: real, n: NumberText, c: UriCodec)
    requires CropReadsBack(n, sel.crop) && (HasPadding(sel.pad) ==> PadReadsBack(n, sel.pad, srcW, srcH))
    requires FaithfulCodec(c) && srcW > 0.0 && srcH > 0.0
    ensures var res := PaddedParams(sel, srcW, srcH, PAD_PARAM, n, c);
      && ParsedQuery(res.querystring, c) == Some(res.params)
      && UnitsUsable(res.params, n)
      && PaddedSelection(res.params, srcW, srcH, PAD_PARAM, n)
         == Some(CropSelection(sel.crop, if HasPadding(sel.pad) then RoundedPad(sel.pad, srcW, srcH) else ZERO_PAD))
  {
    PaddedUrlRoundTrip(sel, srcW, srcH, PAD_PARAM, n, c);
  }

  /** A tenth of a 1000 by 800 image on every side is 80 pixels top and bottom and 100 at the sides. */
  lemma PadPixelsExample(n: NumberText)
    requires n.show(80.0) == "80" && n.show(100.0) == "100"
    ensures var sel := CropSelection(CropRect(0.0, 0.0, 1.0, 1.0), PadRect(0.1, 0.1, 0.1, 0.1));
      Get(PaddedRecord(sel, 1000.0, 800.0, PAD_PARAM, n), PAD_PARAM) == Some("80,100,80,100")
  {
    var pad := PadRect(0.1, 0.1, 0.1, 0.1);
    assert PadPixels(pad, 1000.0, 800.0) == [80.0, 100.0, 80.0, 100.0];
    PadTextExample(n);
  }

  /** The text of 80, 100, 80, 100 pixels. */
  lemma PadTextExample(n: NumberText)
    requires n.show(80.0) == "80" && n.show(100.0) == "100"
    ensures NumbersText([80.0, 100.0, 80.0, 100.0], n) == "80,100,80,100"
  {
    var shown := Shown([80.0, 100.0, 80.0, 100.0], n);
    assert shown == ["80", "100", "80", "100"];
    assert Join(shown[2..], ',') == "80,100";
    assert Join(shown[1..], ',') == "100,80,100";
  }

  /** Padding that is a whole number of pixels comes back exactly. */
  lemma WholePixelPaddingExample(n: NumberText)
    requires ReadsBack(n, 0.0) && ReadsBack(n, 1.0) && ReadsBack(n, 100.0) && ReadsBack(n, 200.0)
    requires n.parse("1") == Some(1.0)
    ensures var sel := CropSelection(CropRect(0.0, 0.0, 1.0, 1.0), PadRect(0.1, 0.2, 0.1, 0.2));
      PaddedSelection(PaddedRecord(sel, 1000.0, 1000.0, PAD_PARAM, n), 1000.0, 1000.0, PAD_PARAM, n) == Some(sel)
  {
    var sel := CropSelection(CropRect(0.0, 0.0, 1.0, 1.0), PadRect(0.1, 0.2, 0.1, 0.2));
    assert CropNumbers(sel.crop) == [0.0, 0.0, 1.0, 1.0];
    assert PadPixels(sel.pad, 1000.0, 1000.0) == [100.0, 200.0, 100.0, 200.0];
    PaddedRoundTrip(sel, 1000.0, 1000.0, PAD_PARAM, n);
    assert RoundedPad(sel.pad, 1000.0, 1000.0) == sel.pad;
  }
}
