/**
 * The generic RIAPI adapter: the crop as four fractions with both units '1';
 * padding is not sent and reads back as zero.
 */
module GenericAdapter {
  import opened Wrappers
  import opened Types
  import opened Text
  import opened Querystring
  import opened Riapi

  /** toParams: the crop parameters and their query string; the source size and the padding play no part. */
  function ToParams(sel: CropSelection, srcW: real, srcH: real, n: NumberText, c: UriCodec): (r: RiapiResult)
    ensures UniqueKeys(r.params) && |r.params| == 3
    ensures Get(r.params, "crop") == Some(CropText(sel.crop, n))
    ensures Get(r.params, "cropxunits") == Some("1") && Get(r.params, "cropyunits") == Some("1")
    ensures r.querystring == BuildQuerystring(r.params, c)
  {
    var params := CropParams(sel.crop, n);
    RiapiResult(params, BuildQuerystring(params, c))
  }

  /**
   * fromParams: nothing unless `crop` holds four numbers; otherwise the crop
   * divided by its units, with zero padding.
   */
  function FromParams(params: Params, srcW: real, srcH: real, n: NumberText): (r: Option<CropSelection>)
    requires UnitsUsable(params, n)
    ensures r.None? <==> CropFields(params, n).None?
    ensures r.Some? ==> Some(r.value.crop) == ReadCrop(params, n) && r.value.pad == ZERO_PAD
  {
    match ReadCrop(params, n)
    case None => None
    case Some(crop) => Some(CropSelection(crop, ZERO_PAD))
  }

  /** Reading back the record toParams emits gives the crop exactly and drops the padding. */
  lemma RoundTrip(sel: CropSelection, srcW: real, srcH: real, n: NumberText, c: UriCodec)
    requires CropReadsBack(n, sel.crop)
    ensures var params := ToParams(sel, srcW, srcH, n, c).params;
      && UnitsUsable(params, n)
      && FromParams(params, srcW, srcH, n) == Some(CropSelection(sel.crop, ZERO_PAD))
  {
    CropParamsRoundTrip(sel.crop, ToParams(sel, srcW, srcH, n, c).params, n);
  }

  /** End to end through the URL: the query string parses back to the record, and the record to the crop. */
  lemma UrlRoundTrip(sel: CropSelection, srcW: real, srcH: real, n: NumberText, c: UriCodec)
    requires CropReadsBack(n, sel.crop) && FaithfulCodec(c)
    ensures var res := ToParams(sel, srcW, srcH, n, c);
      && ParsedQuery(res.querystring, c) == Some(res.params)
      && UnitsUsable(res.params, n)
      && FromParams(res.params, srcW, srcH, n) == Some(CropSelection(sel.crop, ZERO_PAD))
  {
    var res := ToParams(sel, srcW, srcH, n, c);
    assert res.params == CropParams(sel.crop, n);
    ParamsThroughUrl(res.params, c);
    RoundTrip(sel, srcW, srcH, n, c);
  }

  /**
   * A number text that prints and reads only 0, 1/2 and 1, as "0", "0.5" and
   * "1"; every other number prints as "NaN", and every other text reads as NaN.
   */
  function HalvesText(): NumberText
  {
    NumberText(
      x => if x == 0.0 then "0" else if x == 0.5 then "0.5" else if x == 1.0 then "1" else "NaN",
      s => if s == "0" then Some(0.0) else if s == "0.5" then Some(0.5) else if s == "1" then Some(1.0) else None)
  }

  /** With that number text, the coordinates of the right half of an image read back, and '1' reads as 1. */
  lemma HalvesReadBack()
    ensures CropReadsBack(HalvesText(), CropRect(0.5, 0.0, 1.0, 1.0))
  {
    var n := HalvesText();
    var xs := CropNumbers(CropRect(0.5, 0.0, 1.0, 1.0));
    assert ReadsBack(n, 0.5) && ReadsBack(n, 0.0) && ReadsBack(n, 1.0);
    assert xs == [0.5, 0.0, 1.0, 1.0];
  }

  /** With that number text, the right half of an image meets the round trip's hypothesis and comes back exactly. */
  lemma RightHalfRoundTrip(srcW: real, srcH: real, c: UriCodec)
    ensures var sel := CropSelection(CropRect(0.5, 0.0, 1.0, 1.0), ZERO_PAD);
      var params := ToParams(sel, srcW, srcH, HalvesText(), c).params;
      && UnitsUsable(params, HalvesText())
      && FromParams(params, srcW, srcH, HalvesText()) == Some(sel)
  {
    HalvesReadBack();
    RoundTrip(CropSelection(CropRect(0.5, 0.0, 1.0, 1.0), ZERO_PAD), srcW, srcH, HalvesText(), c);
  }

  /** Without a `crop` parameter there is no selection. */
  lemma MissingCropExample(srcW: real, srcH: real, n: NumberText)
    ensures FromParams([], srcW, srcH, n) == None
  {
  }

  /** The legacy pixel crop text splits into its four fields. */
  lemma PixelCropSplit()
    ensures Split("100,200,800,900", ',') == ["100", "200", "800", "900"]
  {
    var fields := ["100", "200", "800", "900"];
    assert Join(fields[2..], ',') == "800,900";
    assert Join(fields[1..], ',') == "200,800,900";
    assert Join(fields, ',') == "100,200,800,900";
    SplitJoin(fields, ',');
  }

  /** The legacy pixel crop text reads as four numbers. */
  lemma PixelCropFields(n: NumberText)
    requires n.parse("100") == Some(100.0) && n.parse("200") == Some(200.0)
    requires n.parse("800") == Some(800.0) && n.parse("900") == Some(900.0)
    ensures FourFields("100,200,800,900", n) == Some([100.0, 200.0, 800.0, 900.0])
  {
    PixelCropSplit();
    var fields := ["100", "200", "800", "900"];
    var xs := [100.0, 200.0, 800.0, 900.0];
    forall i | 0 <= i < 4
      ensures n.parse(fields[i]) == Some(xs[i])
    {
      if i == 0 {} else if i == 1 {} else if i == 2 {} else {}
    }
    FieldNumbersOf(fields, xs, n);
  }

  /** The legacy pixel parameters: four crop numbers and units of 1000. */
  lemma PixelParams(n: NumberText)
    requires n.parse("100") == Some(100.0) && n.parse("200") == Some(200.0)
    requires n.parse("800") == Some(800.0) && n.parse("900") == Some(900.0)
    requires n.parse("1000") == Some(1000.0)
    ensures var params := [("crop", "100,200,800,900"), ("cropxunits", "1000"), ("cropyunits", "1000")];
      && CropFields(params, n) == Some([100.0, 200.0, 800.0, 900.0])
      && Units(params, "cropxunits", n) == Some(1000.0)
      && Units(params, "cropyunits", n) == Some(1000.0)
  {
    var params := [("crop", "100,200,800,900"), ("cropxunits", "1000"), ("cropyunits", "1000")];
    PixelCropFields(n);
    assert Get(params, "crop") == Some("100,200,800,900");
    assert Get(params, "cropxunits") == Some("1000");
    assert Get(params, "cropyunits") == Some("1000");
  }

  /** A crop given in pixels of a 1000-wide, 1000-high image reads as fractions. */
  lemma PixelUnitsExample(n: NumberText)
    requires n.parse("100") == Some(100.0) && n.parse("200") == Some(200.0)
    requires n.parse("800") == Some(800.0) && n.parse("900") == Some(900.0)
    requires n.parse("1000") == Some(1000.0)
    ensures var params := [("crop", "100,200,800,900"), ("cropxunits", "1000"), ("cropyunits", "1000")];
      && UnitsUsable(params, n)
      && FromParams(params, 1000.0, 1000.0, n) == Some(CropSelection(CropRect(0.1, 0.2, 0.8, 0.9), ZERO_PAD))
  {
    PixelParams(n);
    assert CropFromFields([100.0, 200.0, 800.0, 900.0], 1000.0, 1000.0) == CropRect(0.1, 0.2, 0.8, 0.9);
  }
}
