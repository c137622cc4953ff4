/**
 * What the three RIAPI adapters have in common: the `crop` / `cropxunits` /
 * `cropyunits` parameters, four comma-separated numeric fields, unit divisors
 * defaulting to 1, and, for the two servers that take padding, a four-field
 * padding parameter in whole source pixels. Printing and reading numbers is a
 * parameter, a `NumberText`. A round trip assumes only that the particular
 * numbers it prints read back (`ReadsBack`), and that '1' reads as 1.
 */
module Riapi {
  import opened Wrappers
  import opened Types
  import opened Constraints
  import opened Text
  import opened Querystring

  /** `${x}` and `Number(s)` for the numbers the adapters print and read; `parse` gives None for NaN. */
  datatype NumberText = NumberText(show: real -> string, parse: string -> Option<real>)

  /** Reading the printed form of `x` gives `x` back, and that form holds no ','. */
  predicate ReadsBack(n: NumberText, x: real)
  {
    n.parse(n.show(x)) == Some(x) && ',' !in n.show(x)
  }

  /** Every number of `xs` reads back. */
  predicate AllReadBack(n: NumberText, xs: seq<real>)
  {
    forall i :: 0 <= i < |xs| ==> ReadsBack(n, xs[i])
  }

  /** `Math.round`: the nearest integer, a half rounded up. */
  function RoundHalfUp(x: real): (r: int)
    ensures r as real - 0.5 <= x < r as real + 0.5
  {
    (x + 0.5).Floor
  }

  /** The printed form of each number, in order. */
  function Shown(xs: seq<real>, n: NumberText): (r: seq<string>)
    ensures |r| == |xs|
  {
    seq(|xs|, i requires 0 <= i < |xs| => n.show(xs[i]))
  }

  /** `${a},${b},...`: the numbers printed and joined by commas. */
  function NumbersText(xs: seq<real>, n: NumberText): string
  {
    Join(Shown(xs, n), ',')
  }

  /** `fields.map(Number)`, or None when some field reads as NaN. */
  function FieldNumbers(fields: seq<string>, n: NumberText): (r: Option<seq<real>>)
    ensures r.None? <==> exists i :: 0 <= i < |fields| && n.parse(fields[i]).None?
    ensures r.Some? ==> |r.value| == |fields|
    ensures r.Some? ==> forall i :: 0 <= i < |fields| ==> n.parse(fields[i]) == Some(r.value[i])
  {
    if exists i :: 0 <= i < |fields| && n.parse(fields[i]).None? then None
    else Some(seq(|fields|, i requires 0 <= i < |fields| => n.parse(fields[i]).value))
  }

  /** Fields that each read as a number give those numbers. */
  lemma FieldNumbersOf(fields: seq<string>, xs: seq<real>, n: NumberText)
    requires |fields| == |xs|
    requires forall i :: 0 <= i < |fields| ==> n.parse(fields[i]) == Some(xs[i])
    ensures FieldNumbers(fields, n) == Some(xs)
  {
    var r := FieldNumbers(fields, n);
    assert r.Some?;
    assert r.value == xs;
  }

  /** `str.split(',').map(Number)`: one number per comma-separated field, in order, or None when some field reads as NaN. */
  function ParsedFields(str: string, n: NumberText): Option<seq<real>>
  {
    FieldNumbers(Split(str, ','), n)
  }

  /** Reading printed numbers that each read back gives them all back, in order. */
  lemma NumbersRoundTrip(xs: seq<real>, n: NumberText)
    requires AllReadBack(n, xs) && |xs| >= 1
    ensures ParsedFields(NumbersText(xs, n), n) == Some(xs)
  {
    var shown := Shown(xs, n);
    forall i | 0 <= i < |shown|
      ensures ',' !in shown[i] && n.parse(shown[i]) == Some(xs[i])
    {
      assert ReadsBack(n, xs[i]);
    }
    SplitJoin(shown, ',');
    assert Split(NumbersText(xs, n), ',') == shown;
    var r := ParsedFields(NumbersText(xs, n), n);
    assert r.Some?;
    assert r.value == xs;
  }

  /** Exactly four numeric fields: `parts.length !== 4 || parts.some(isNaN)` rejects everything else. */
  function FourFields(str: string, n: NumberText): (r: Option<seq<real>>)
    ensures r.Some? <==> ParsedFields(str, n).Some? && |ParsedFields(str, n).value| == 4
    ensures r.Some? ==> r == ParsedFields(str, n)
  {
    var f := ParsedFields(str, n);
    if f.Some? && |f.value| == 4 then f else None
  }

  /** `params[key]` when it is truthy: set and not ''. */
  function NonEmpty(params: Params, key: string): (r: Option<string>)
    ensures r.Some? <==> Get(params, key).Some? && Get(params, key).value != ""
    ensures r.Some? ==> r == Get(params, key)
  {
    match Get(params, key)
    case Some(v) => if v != "" then Some(v) else None
    case None => None
  }

  /** The crop fields: params['crop'] present, not empty, and four numbers. */
  function CropFields(params: Params, n: NumberText): (r: Option<seq<real>>)
    ensures r.Some? <==> NonEmpty(params, "crop").Some? && FourFields(NonEmpty(params, "crop").value, n).Some?
    ensures r.Some? ==> |r.value| == 4
  {
    match NonEmpty(params, "crop")
    case None => None
    case Some(s) => FourFields(s, n)
  }

  /** `Number(params[key] || '1')`: a unit divisor, '1' when the parameter is missing or ''. None stands for NaN. */
  function Units(params: Params, key: string, n: NumberText): (r: Option<real>)
    ensures NonEmpty(params, key).None? ==> r == n.parse("1")
    ensures NonEmpty(params, key).Some? ==> r == n.parse(Get(params, key).value)
  {
    n.parse(match NonEmpty(params, key) case None => "1" case Some(s) => s)
  }

  /**
   * The unit divisors are numbers other than zero whenever the crop is read
   * (otherwise the division would give NaN or an infinity).
   */
  predicate UnitsUsable(params: Params, n: NumberText)
  {
    CropFields(params, n).Some? ==>
      && Units(params, "cropxunits", n).Some? && Units(params, "cropxunits", n).value != 0.0
      && Units(params, "cropyunits", n).Some? && Units(params, "cropyunits", n).value != 0.0
  }

  /** The crop four fields describe, x fields divided by the x unit and y fields by the y unit. */
  function CropFromFields(f: seq<real>, xunits: real, yunits: real): (r: CropRect)
    requires |f| == 4 && xunits != 0.0 && yunits != 0.0
    ensures r.x1 * xunits == f[0] && r.x2 * xunits == f[2]
    ensures r.y1 * yunits == f[1] && r.y2 * yunits == f[3]
  {
    CropRect(F32(f[0] / xunits), F32(f[1] / yunits), F32(f[2] / xunits), F32(f[3] / yunits))
  }

  /** The crop the parameters describe, if any. */
  function ReadCrop(params: Params, n: NumberText): (r: Option<CropRect>)
    requires UnitsUsable(params, n)
    ensures r.Some? <==> CropFields(params, n).Some?
  {
    match CropFields(params, n)
    case None => None
    case Some(f) => Some(CropFromFields(f, Units(params, "cropxunits", n).value, Units(params, "cropyunits", n).value))
  }

  /** The crop's coordinates in the order the `crop` parameter lists them. */
  function CropNumbers(crop: CropRect): seq<real>
  {
    [crop.x1, crop.y1, crop.x2, crop.y2]
  }

  /** `${x1},${y1},${x2},${y2}`. */
  function CropText(crop: CropRect, n: NumberText): string
  {
    NumbersText(CropNumbers(crop), n)
  }

  /** What reading a crop back needs of the number text: its four coordinates read back, and '1' reads as 1. */
  predicate CropReadsBack(n: NumberText, crop: CropRect)
  {
    AllReadBack(n, CropNumbers(crop)) && n.parse("1") == Some(1.0)
  }

  /** The parameters every adapter emits for the crop; the units are always '1' (fractions). */
  function CropParams(crop: CropRect, n: NumberText): (r: Params)
    ensures UniqueKeys(r)
    ensures Get(r, "crop") == Some(CropText(crop, n))
    ensures Get(r, "cropxunits") == Some("1") && Get(r, "cropyunits") == Some("1")
    ensures forall i :: 0 <= i < |r| ==> IsCropKey(r[i].0) && r[i].1 != ""
    ensures |r| == 3
  {
    CropTextNotEmpty(crop, n);
    var r := [("crop", CropText(crop, n)), ("cropxunits", "1"), ("cropyunits", "1")];
    GetEntry(r, "cropxunits", "1");
    GetEntry(r, "cropyunits", "1");
    r
  }

  /** Reading back the crop parameters of a crop gives the crop. */
  lemma CropParamsRoundTrip(crop: CropRect, extra: Params, n: NumberText)
    requires CropReadsBack(n, crop)
    requires Get(extra, "crop") == Some(CropText(crop, n))
    requires Get(extra, "cropxunits") == Some("1") && Get(extra, "cropyunits") == Some("1")
    ensures CropFields(extra, n) == Some([crop.x1, crop.y1, crop.x2, crop.y2])
    ensures UnitsUsable(extra, n) && ReadCrop(extra, n) == Some(crop)
  {
    NumbersRoundTrip(CropNumbers(crop), n);
    JoinHasSeparator(Shown(CropNumbers(crop), n), ',');
    assert CropFromFields(CropNumbers(crop), 1.0, 1.0) == crop;
  }

  // ---------------------------------------------------------------------------
  // Padding in source pixels (Imageflow `s.pad`, ImageResizer `margin`)
  // ---------------------------------------------------------------------------

  /** `top > 0 || right > 0 || bottom > 0 || left > 0`. */
  predicate HasPadding(pad: PadRect)
  {
    pad.top > 0.0 || pad.right > 0.0 || pad.bottom > 0.0 || pad.left > 0.0
  }

  /** `Math.round(frac * size)`: a fraction of a source dimension in whole pixels. */
  function Pixels(frac: real, size: real): int
  {
    RoundHalfUp(frac * size)
  }

  /** The padding in whole source pixels, top, right, bottom, left: top and bottom scaled by srcH, the sides by srcW. */
  function PadPixels(pad: PadRect, srcW: real, srcH: real): (r: seq<real>)
    ensures |r| == 4
  {
    [Pixels(pad.top, srcH) as real, Pixels(pad.right, srcW) as real,
     Pixels(pad.bottom, srcH) as real, Pixels(pad.left, srcW) as real]
  }

  /** What reading a padding back needs of the number text: its four pixel counts read back. */
  predicate PadReadsBack(n: NumberText, pad: PadRect, srcW: real, srcH: real)
  {
    AllReadBack(n, PadPixels(pad, srcW, srcH))
  }

  /** The padding four pixel fields describe: top and bottom divided by srcH, the sides by srcW. */
  function PadFromFields(f: seq<real>, srcW: real, srcH: real): (r: PadRect)
    requires |f| == 4 && srcW > 0.0 && srcH > 0.0
    ensures r.top * srcH == f[0] && r.bottom * srcH == f[2]
    ensures r.right * srcW == f[1] && r.left * srcW == f[3]
  {
    PadRect(F32(f[0] / srcH), F32(f[1] / srcW), F32(f[2] / srcH), F32(f[3] / srcW))
  }

  /**
   * The padding the parameter `padKey` describes: zero unless it is present and
   * not empty, both source dimensions are positive and it holds four numbers.
   */
  function ReadPad(params: Params, srcW: real, srcH: real, padKey: string, n: NumberText): (r: PadRect)
    ensures NonEmpty(params, padKey).None? || srcW <= 0.0 || srcH <= 0.0 ==> r == ZERO_PAD
    ensures NonEmpty(params, padKey).Some? && FourFields(NonEmpty(params, padKey).value, n).None? ==> r == ZERO_PAD
    ensures (NonEmpty(params, padKey).Some? && srcW > 0.0 && srcH > 0.0
             && FourFields(NonEmpty(params, padKey).value, n).Some?) ==>
      r == PadFromFields(FourFields(NonEmpty(params, padKey).value, n).value, srcW, srcH)
  {
    match NonEmpty(params, padKey)
    case None => ZERO_PAD
    case Some(s) =>
      if srcW > 0.0 && srcH > 0.0 then
        match FourFields(s, n)
        case Some(f) => PadFromFields(f, srcW, srcH)
        case None => ZERO_PAD
      else ZERO_PAD
  }

  /** The parameter names of the crop itself, which a padding parameter must not reuse. */
  predicate IsCropKey(key: string)
  {
    key == "crop" || key == "cropxunits" || key == "cropyunits"
  }

  /** The padding parameter's value: the padding in pixels, comma-separated. */
  function PadText(pad: PadRect, srcW: real, srcH: real, n: NumberText): string
  {
    NumbersText(PadPixels(pad, srcW, srcH), n)
  }

  /**
   * The record toParams of an adapter with a padding parameter emits: the crop
   * parameters, plus `padKey` with the padding in pixels exactly when some
   * side is padded.
   */
  function PaddedRecord(sel: CropSelection, srcW: real, srcH: real, padKey: string, n: NumberText): (r: Params)
    requires !IsCropKey(padKey)
    ensures UniqueKeys(r)
    ensures Get(r, "crop") == Some(CropText(sel.crop, n))
    ensures Get(r, "cropxunits") == Some("1") && Get(r, "cropyunits") == Some("1")
    ensures HasPadding(sel.pad) ==> Get(r, padKey) == Some(PadText(sel.pad, srcW, srcH, n))
    ensures !HasPadding(sel.pad) ==> Get(r, padKey).None?
  {
    var base := CropParams(sel.crop, n);
    if HasPadding(sel.pad) then
      var v := PadText(sel.pad, srcW, srcH, n);
      PutUnique(base, padKey, v);
      PutOther(base, padKey, v, "crop");
      PutOther(base, padKey, v, "cropxunits");
      PutOther(base, padKey, v, "cropyunits");
      Put(base, padKey, v)
    else base
  }

  /** toParams of an adapter with a padding parameter: the record and the query string built from it. */
  function PaddedParams(sel: CropSelection, srcW: real, srcH: real, padKey: string,
                        n: NumberText, c: UriCodec): RiapiResult
    requires !IsCropKey(padKey)
  {
    var params := PaddedRecord(sel, srcW, srcH, padKey, n);
    RiapiResult(params, BuildQuerystring(params, c))
  }

  /** toParams of the padded adapters, inserting the padding parameter into the record in place. */
  method ToPaddedParams(sel: CropSelection, srcW: real, srcH: real, padKey: string,
                        n: NumberText, c: UriCodec) returns (r: RiapiResult)
    requires !IsCropKey(padKey)
    ensures r == PaddedParams(sel, srcW, srcH, padKey, n, c)
    ensures UniqueKeys(r.params) && Get(r.params, "crop") == Some(CropText(sel.crop, n))
    ensures HasPadding(sel.pad) <==> Get(r.params, padKey).Some?
  {
    var params := CropParams(sel.crop, n);
    var hasPadding := sel.pad.top > 0.0 || sel.pad.right > 0.0 || sel.pad.bottom > 0.0 || sel.pad.left > 0.0;
    if hasPadding {
      var pixels := PadPixels(sel.pad, srcW, srcH);
      params := Put(params, padKey, NumbersText(pixels, n));
    }
    assert params == PaddedRecord(sel, srcW, srcH, padKey, n);
    r := RiapiResult(params, BuildQuerystring(params, c));
  }

  /**
   * fromParams of an adapter with a padding parameter: nothing without a
   * four-number crop; otherwise the crop over its units and the padding read
   * from `padKey`.
   */
  function PaddedSelection(params: Params, srcW: real, srcH: real, padKey: string, n: NumberText): (r: Option<CropSelection>)
    requires UnitsUsable(params, n)
    ensures r.None? <==> CropFields(params, n).None?
    ensures r.Some? ==> Some(r.value.crop) == ReadCrop(params, n)
    ensures r.Some? ==> r.value.pad == ReadPad(params, srcW, srcH, padKey, n)
  {
    match ReadCrop(params, n)
    case None => None
    case Some(crop) => Some(CropSelection(crop, ReadPad(params, srcW, srcH, padKey, n)))
  }

  /** fromParams of the padded adapters, step by step: crop checks, units, then the padding rebound when it is valid. */
  method FromPaddedParams(params: Params, srcW: real, srcH: real, padKey: string, n: NumberText)
    returns (r: Option<CropSelection>)
    requires UnitsUsable(params, n)
    ensures r == PaddedSelection(params, srcW, srcH, padKey, n)
  {
    var cropStr := Get(params, "crop");
    if cropStr.None? || cropStr.value == "" {
      return None;
    }
    var parts := ParsedFields(cropStr.value, n);
    if parts.None? || |parts.value| != 4 {
      return None;
    }
    var xunits := Units(params, "cropxunits", n).value;
    var yunits := Units(params, "cropyunits", n).value;
    var f := parts.value;

    var pad := ZERO_PAD;
    var padStr := Get(params, padKey);
    if padStr.Some? && padStr.value != "" && srcW > 0.0 && srcH > 0.0 {
      var padParts := ParsedFields(padStr.value, n);
      if padParts.Some? && |padParts.value| == 4 {
        var p := padParts.value;
        pad := PadRect(F32(p[0] / srcH), F32(p[1] / srcW), F32(p[2] / srcH), F32(p[3] / srcW));
      }
    }
    return Some(CropSelection(
      CropRect(F32(f[0] / xunits), F32(f[1] / yunits), F32(f[2] / xunits), F32(f[3] / yunits)), pad));
  }

  /** The padding a padded adapter reads back: each side rounded to whole source pixels, within half a pixel. */
  function RoundedPad(pad: PadRect, srcW: real, srcH: real): (r: PadRect)
    requires srcW > 0.0 && srcH > 0.0
    ensures WithinHalfPixel(pad.top, r.top, srcH) && WithinHalfPixel(pad.bottom, r.bottom, srcH)
    ensures WithinHalfPixel(pad.right, r.right, srcW) && WithinHalfPixel(pad.left, r.left, srcW)
  {
    PadRect(RoundedFraction(pad.top, srcH), RoundedFraction(pad.right, srcW),
            RoundedFraction(pad.bottom, srcH), RoundedFraction(pad.left, srcW))
  }

  /** A fraction of `size` differs from `rounded` by at most half a pixel, a half rounding up. */
  predicate WithinHalfPixel(exact: real, rounded: real, size: real)
  {
    (exact - rounded) * size < 0.5 && (rounded - exact) * size <= 0.5
  }

  /** A fraction of `size` rounded to whole pixels and divided back: within half a pixel of it. */
  function RoundedFraction(frac: real, size: real): (r: real)
    requires size > 0.0
    ensures WithinHalfPixel(frac, r, size)
  {
    PixelsWithinHalf(frac, size);
    Pixels(frac, size) as real / size
  }

  /** Rounding to whole pixels moves a side by at most half a pixel. */
  lemma PixelsWithinHalf(frac: real, size: real)
    requires size > 0.0
    ensures WithinHalfPixel(frac, Pixels(frac, size) as real / size, size)
  {
    var p := Pixels(frac, size) as real;
    assert p - 0.5 <= frac * size < p + 0.5;
    assert (p / size) * size == p;
    assert (frac - p / size) * size == frac * size - p;
    assert (p / size - frac) * size == p - frac * size;
  }

  /** Dividing the pixel fields back gives the rounded padding. */
  lemma RoundedPadPixels(pad: PadRect, srcW: real, srcH: real)
    requires srcW > 0.0 && srcH > 0.0
    ensures PadFromFields(PadPixels(pad, srcW, srcH), srcW, srcH) == RoundedPad(pad, srcW, srcH)
  {
  }

  /** Reading a padding parameter written from a padding gives the padding rounded to whole pixels. */
  lemma PadRoundTrip(params: Params, pad: PadRect, srcW: real, srcH: real, padKey: string, n: NumberText)
    requires PadReadsBack(n, pad, srcW, srcH) && srcW > 0.0 && srcH > 0.0
    requires Get(params, padKey) == Some(PadText(pad, srcW, srcH, n))
    ensures ReadPad(params, srcW, srcH, padKey, n) == RoundedPad(pad, srcW, srcH)
  {
    var px := PadPixels(pad, srcW, srcH);
    NumbersRoundTrip(px, n);
    JoinHasSeparator(Shown(px, n), ',');
    assert NonEmpty(params, padKey) == Some(PadText(pad, srcW, srcH, n));
    assert FourFields(PadText(pad, srcW, srcH, n), n) == Some(px);
    RoundedPadPixels(pad, srcW, srcH);
  }

  /**
   * Round trip of the padded adapters: reading back the record toParams emits
   * gives the crop exactly and the padding rounded to whole source pixels, or
   * zero padding when no side was padded.
   */
  lemma PaddedRoundTrip(sel: CropSelection, srcW: real, srcH: real, padKey: string, n: NumberText)
    requires CropReadsBack(n, sel.crop) && (HasPadding(sel.pad) ==> PadReadsBack(n, sel.pad, srcW, srcH))
    requires srcW > 0.0 && srcH > 0.0 && !IsCropKey(padKey)
    ensures var params := PaddedRecord(sel, srcW, srcH, padKey, n);
      && UnitsUsable(params, n)
      && PaddedSelection(params, srcW, srcH, padKey, n)
         == Some(CropSelection(sel.crop, if HasPadding(sel.pad) then RoundedPad(sel.pad, srcW, srcH) else ZERO_PAD))
  {
    var params := PaddedRecord(sel, srcW, srcH, padKey, n);
    CropParamsRoundTrip(sel.crop, params, n);
    if HasPadding(sel.pad) {
      PadRoundTrip(params, sel.pad, srcW, srcH, padKey, n);
    }
  }

  /**
   * A record whose keys are unique and whose keys and values are all non-empty,
   * with no key PROTO_KEY, comes back unchanged from its query string.
   */
  lemma ParamsThroughUrl(p: Params, c: UriCodec)
    requires FaithfulCodec(c) && UniqueKeys(p)
    requires forall i :: 0 <= i < |p| ==> p[i].0 != "" && p[i].0 != PROTO_KEY && p[i].1 != ""
    ensures ParsedQuery(BuildQuerystring(p, c), c) == Some(p)
  {
    QuerystringRoundTrip(p, c);
    FilterAll(p, Kept);
  }

  /** The crop text is never empty: it holds three commas. */
  lemma CropTextNotEmpty(crop: CropRect, n: NumberText)
    ensures CropText(crop, n) != ""
  {
    JoinHasSeparator(Shown(CropNumbers(crop), n), ',');
  }

  /**
   * Every key and every value of a padded record is non-empty and no key is
   * PROTO_KEY, so none is dropped on the way through the URL.
   */
  lemma PaddedRecordFilled(sel: CropSelection, srcW: real, srcH: real, padKey: string, n: NumberText)
    requires !IsCropKey(padKey) && padKey != "" && padKey != PROTO_KEY
    ensures var p := PaddedRecord(sel, srcW, srcH, padKey, n);
      forall i :: 0 <= i < |p| ==> p[i].0 != "" && p[i].0 != PROTO_KEY && p[i].1 != ""
  {
    var base := CropParams(sel.crop, n);
    if HasPadding(sel.pad) {
      var v := PadText(sel.pad, srcW, srcH, n);
      JoinHasSeparator(Shown(PadPixels(sel.pad, srcW, srcH), n), ',');
      assert Get(base, padKey).None?;
      assert PaddedRecord(sel, srcW, srcH, padKey, n) == base + [(padKey, v)];
    }
  }

  /**
   * End to end through the URL: parsing the query string of a padded
   * adapter's toParams gives back its record, so reading the URL gives the
   * crop exactly and the padding rounded to whole source pixels.
   */
  lemma PaddedUrlRoundTrip(sel: CropSelection, srcW: real, srcH: real, padKey: string, n: NumberText, c: UriCodec)
    requires CropReadsBack(n, sel.crop) && (HasPadding(sel.pad) ==> PadReadsBack(n, sel.pad, srcW, srcH))
    requires FaithfulCodec(c) && srcW > 0.0 && srcH > 0.0
    requires !IsCropKey(padKey) && padKey != "" && padKey != PROTO_KEY
    ensures var res := PaddedParams(sel, srcW, srcH, padKey, n, c);
      && ParsedQuery(res.querystring, c) == Some(res.params)
      && UnitsUsable(res.params, n)
      && PaddedSelection(res.params, srcW, srcH, padKey, n)
         == Some(CropSelection(sel.crop, if HasPadding(sel.pad) then RoundedPad(sel.pad, srcW, srcH) else ZERO_PAD))
  {
    var p := PaddedRecord(sel, srcW, srcH, padKey, n);
    PaddedRecordFilled(sel, srcW, srcH, padKey, n);
    ParamsThroughUrl(p, c);
    PaddedRoundTrip(sel, srcW, srcH, padKey, n);
  }
}
