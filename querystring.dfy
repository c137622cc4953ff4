/**
 * The query-string helpers the RIAPI adapters share: a string record kept in
 * insertion order, `buildQuerystring` and `parseQuerystring`, and the result
 * shape an adapter returns. Percent-encoding is a parameter, a `UriCodec`,
 * about which the round trip assumes only what `FaithfulCodec` states.
 */
module Querystring {
  import opened Wrappers
  import opened Text

  /** A `Record<string, string>`: its entries in insertion order. */
  type Params = seq<(string, string)>

  /** An object has each key once. */
  predicate UniqueKeys(p: Params)
  {
    forall i, j :: 0 <= i < j < |p| ==> p[i].0 != p[j].0
  }

  /** `params[key]`: the value stored under `key`, or None when it is undefined. */
  function Get(p: Params, key: string): (r: Option<string>)
    ensures r.None? <==> forall i :: 0 <= i < |p| ==> p[i].0 != key
    ensures r.Some? ==> (key, r.value) in p
    decreases |p|
  {
    if |p| == 0 then None
    else if p[0].0 == key then Some(p[0].1)
    else Get(p[1..], key)
  }

  /** In an object with unique keys, an entry is what a lookup of its key finds. */
  lemma {:induction false} GetEntry(p: Params, key: string, value: string)
    requires UniqueKeys(p) && (key, value) in p
    ensures Get(p, key) == Some(value)
    decreases |p|
  {
    if p[0] != (key, value) {
      assert p[0].0 != key;
      assert (key, value) in p[1..];
      GetEntry(p[1..], key, value);
    }
  }

  /**
   * `params[key] = value`: an existing key keeps its place and takes the new
   * value, a new key is appended. Every other key reads as before.
   */
  function Put(p: Params, key: string, value: string): (r: Params)
    ensures Get(r, key) == Some(value)
    ensures Get(p, key).None? ==> r == p + [(key, value)]
    decreases |p|
  {
    if |p| == 0 then [(key, value)]
    else if p[0].0 == key then [(key, value)] + p[1..]
    else [p[0]] + Put(p[1..], key, value)
  }

  /** Setting a key keeps the keys unique. */
  lemma {:induction false} PutUnique(p: Params, key: string, value: string)
    ensures UniqueKeys(p) ==> UniqueKeys(Put(p, key, value))
    decreases |p|
  {
    if UniqueKeys(p) && |p| > 0 && p[0].0 != key {
      PutUnique(p[1..], key, value);
      PutOther(p[1..], key, value, p[0].0);
      assert Get(p[1..], p[0].0).None?;
    }
  }

  /** Setting one key leaves every other key reading as before. */
  lemma {:induction false} PutOther(p: Params, key: string, value: string, other: string)
    requires other != key
    ensures Get(Put(p, key, value), other) == Get(p, other)
    decreases |p|
  {
    if |p| > 0 && p[0].0 != key {
      PutOther(p[1..], key, value, other);
    }
  }

  /** Percent-encoding and -decoding; `decode` gives None where `decodeURIComponent` throws. */
  datatype UriCodec = UriCodec(encode: string -> string, decode: string -> Option<string>)

  /**
   * What the round trip needs of `encodeURIComponent` and `decodeURIComponent`:
   * decoding undoes encoding, encoded text has no '&' or '=' (both are escaped),
   * and only the empty string encodes to the empty string.
   */
  ghost predicate FaithfulCodec(c: UriCodec)
  {
    && (forall s :: c.decode(c.encode(s)) == Some(s))
    && (forall s :: '&' !in c.encode(s) && '=' !in c.encode(s))
    && (forall s :: c.encode(s) == "" <==> s == "")
  }

  /** An entry with a value other than ''. */
  function HasValue(e: (string, string)): bool { e.1 != "" }

  /**
   * The one key an assignment on a plain object does not store: it goes to the
   * prototype setter, which ignores a string value.
   */
  const PROTO_KEY := "__proto__"

  /** An entry whose key parsing stores: neither '' nor PROTO_KEY. */
  function HasKey(e: (string, string)): bool { e.0 != "" && e.0 != PROTO_KEY }

  /** An entry that survives a build-and-parse round trip: a stored key and a value other than ''. */
  function Kept(e: (string, string)): bool { e.0 != "" && e.0 != PROTO_KEY && e.1 != "" }

  /** `${encodeURIComponent(k)}=${encodeURIComponent(v)}`. */
  function EncodedEntry(e: (string, string), c: UriCodec): string
  {
    c.encode(e.0) + "=" + c.encode(e.1)
  }

  /** The encoded form of each entry, in order. */
  function EncodedEntries(p: Params, c: UriCodec): (r: seq<string>)
    ensures |r| == |p|
    ensures forall i :: 0 <= i < |p| ==> r[i] == EncodedEntry(p[i], c)
  {
    seq(|p|, i requires 0 <= i < |p| => EncodedEntry(p[i], c))
  }

  /**
   * buildQuerystring: '' when no entry has a value; otherwise '?' and the
   * encoded entries with a value, joined by '&', in entry order.
   */
  function BuildQuerystring(p: Params, c: UriCodec): (r: string)
    ensures r == "" <==> forall i :: 0 <= i < |p| ==> p[i].1 == ""
    ensures r != "" ==> r[0] == '?' && r[1..] == Join(EncodedEntries(Filter(p, HasValue), c), '&')
  {
    var entries := Filter(p, HasValue);
    if |entries| == 0 then
      assert forall i :: 0 <= i < |p| ==> p[i] in p;
      ""
    else
      assert entries[0] in entries;
      "?" + Join(EncodedEntries(entries, c), '&')
  }

  /** `const [k, v] = part.split('=')`, with a missing value read as ''. Neither half contains '='. */
  function PartKeyValue(part: string): (r: (string, string))
    ensures '=' !in r.0 && '=' !in r.1
    ensures '=' !in part ==> r == (part, "")
  {
    var kv := Split(part, '=');
    (kv[0], if |kv| >= 2 then kv[1] else "")
  }

  /** A part with more than one '=' keeps only the text between the first two. */
  lemma SecondEqualsDropsRest(k: string, v: string, rest: string)
    requires '=' !in k && '=' !in v
    ensures PartKeyValue(k + "=" + v + "=" + rest) == (k, v)
  {
    assert k + "=" + v + "=" + rest == k + ['='] + (v + ['='] + rest);
    SplitPrefix(k, '=', v + ['='] + rest);
    SplitPrefix(v, '=', rest);
  }

  /** A part `k=v` with no other '=' splits into k and v. */
  lemma PairKeyValue(k: string, v: string)
    requires '=' !in k && '=' !in v
    ensures PartKeyValue(k + "=" + v) == (k, v)
  {
    assert k + "=" + v == k + ['='] + v;
    SplitPrefix(k, '=', v);
  }

  /**
   * One step of parseQuerystring's loop: a part with an empty key is skipped;
   * otherwise the decoded key is set to the decoded value, and a decoding
   * failure aborts the parse. A decoded key PROTO_KEY is assigned but not
   * stored, so the record is unchanged.
   */
  function ParsePart(m: Params, part: string, c: UriCodec): (r: Option<Params>)
    ensures PartKeyValue(part).0 == "" ==> r == Some(m)
    ensures PartKeyValue(part).0 != "" ==>
      (r.Some? <==> c.decode(PartKeyValue(part).0).Some? && c.decode(PartKeyValue(part).1).Some?)
    ensures r.Some? && PartKeyValue(part).0 != "" && c.decode(PartKeyValue(part).0).value != PROTO_KEY ==>
      Get(r.value, c.decode(PartKeyValue(part).0).value) == c.decode(PartKeyValue(part).1)
    ensures r.Some? && PartKeyValue(part).0 != "" && c.decode(PartKeyValue(part).0).value == PROTO_KEY ==>
      r == Some(m)
    ensures UniqueKeys(m) && r.Some? ==> UniqueKeys(r.value)
  {
    var kv := PartKeyValue(part);
    if kv.0 == "" then Some(m)
    else
      match (c.decode(kv.0), c.decode(kv.1))
      case (Some(k), Some(v)) =>
        if k == PROTO_KEY then Some(m) else PutUnique(m, k, v); Some(Put(m, k, v))
      case _ => None
  }

  /** The record the parts build, applied left to right from an empty one; None once a part fails to decode. */
  function ParseParts(parts: seq<string>, c: UriCodec): (r: Option<Params>)
    ensures r.Some? ==> UniqueKeys(r.value)
    decreases |parts|
  {
    if |parts| == 0 then Some([])
    else
      match ParseParts(parts[..|parts| - 1], c)
      case None => None
      case Some(m) => ParsePart(m, parts[|parts| - 1], c)
  }

  /** A failed prefix fails the whole parse: the exception ends the loop. */
  lemma {:induction false} ParseFailureSticks(parts: seq<string>, i: nat, c: UriCodec)
    requires i <= |parts| && ParseParts(parts[..i], c).None?
    ensures ParseParts(parts, c).None?
    decreases |parts| - i
  {
    if i < |parts| {
      assert parts[..i + 1][..i] == parts[..i];
      ParseFailureSticks(parts, i + 1, c);
    } else {
      assert parts[..i] == parts;
    }
  }

  /**
   * parseQuerystring as a value: one leading '?' is dropped; an empty rest gives
   * an empty record; otherwise the '&'-separated parts are applied in order.
   */
  function ParsedQuery(qs: string, c: UriCodec): (r: Option<Params>)
    ensures qs == "" || qs == "?" ==> r == Some([])
    ensures r.Some? ==> UniqueKeys(r.value)
  {
    var str := if |qs| > 0 && qs[0] == '?' then qs[1..] else qs;
    if str == "" then Some([]) else ParseParts(Split(str, '&'), c)
  }

  /** parseQuerystring, filling the record in a loop as the source does. None stands for a thrown URIError. */
  method ParseQuerystring(qs: string, c: UriCodec) returns (r: Option<Params>)
    ensures r == ParsedQuery(qs, c)
  {
    var params: Params := [];
    var str := if |qs| > 0 && qs[0] == '?' then qs[1..] else qs;
    if str == "" {
      return Some(params);
    }
    var parts := Split(str, '&');
    var i := 0;
    while i < |parts|
      invariant 0 <= i <= |parts|
      invariant ParseParts(parts[..i], c) == Some(params)
    {
      assert parts[..i + 1][..i] == parts[..i];
      assert ParseParts(parts[..i + 1], c) == ParsePart(params, parts[i], c);
      var kv := Split(parts[i], '=');
      var k := kv[0];
      var v := if |kv| >= 2 then kv[1] else "";
      assert (k, v) == PartKeyValue(parts[i]);
      if k != "" {
        var dk := c.decode(k);
        var dv := c.decode(v);
        if dk.None? || dv.None? {
          ParseFailureSticks(parts, i + 1, c);
          return None;
        }
        if dk.value != PROTO_KEY {
          params := Put(params, dk.value, dv.value);
        }
      }
      i := i + 1;
    }
    assert parts[..i] == parts;
    return Some(params);
  }

  /** The entries a round trip keeps: those with a value, then those with a key. */
  lemma {:induction false} FilterKeptSplit(p: Params)
    ensures Filter(Filter(p, HasValue), HasKey) == Filter(p, Kept)
    decreases |p|
  {
    if |p| > 0 {
      var init := p[..|p| - 1];
      FilterKeptSplit(init);
    }
  }

  /** Filtering keeps keys unique. */
  lemma {:induction false} FilterUnique(p: Params, keep: ((string, string)) -> bool)
    requires UniqueKeys(p)
    ensures UniqueKeys(Filter(p, keep))
    decreases |p|
  {
    if |p| > 0 {
      var init := p[..|p| - 1];
      FilterUnique(init, keep);
      var f := Filter(init, keep);
      forall i | 0 <= i < |f|
        ensures f[i].0 != p[|p| - 1].0
      {
        assert f[i] in init;
      }
    }
  }

  /** Parsing the encoded entries of a record whose values are all set gives back its entries with a key. */
  lemma {:induction false} EncodedPartsRoundTrip(e: Params, c: UriCodec)
    requires FaithfulCodec(c) && UniqueKeys(e)
    requires forall i :: 0 <= i < |e| ==> e[i].1 != ""
    ensures ParseParts(EncodedEntries(e, c), c) == Some(Filter(e, HasKey))
    decreases |e|
  {
    if |e| > 0 {
      var init := e[..|e| - 1];
      var last := e[|e| - 1];
      var m := Filter(init, HasKey);
      EncodedPartsRoundTrip(init, c);
      EncodedPartsStep(e, m, c);
      LastPartRoundTrip(m, last, c);
      if HasKey(last) {
        FreshKey(e, HasKey);
      }
    }
  }

  /** Parsing the encoded entries takes one more step than parsing all but the last. */
  lemma EncodedPartsStep(e: Params, m: Params, c: UriCodec)
    requires |e| > 0 && ParseParts(EncodedEntries(e[..|e| - 1], c), c) == Some(m)
    ensures ParseParts(EncodedEntries(e, c), c) == ParsePart(m, EncodedEntry(e[|e| - 1], c), c)
  {
    var parts := EncodedEntries(e, c);
    assert parts[..|e| - 1] == EncodedEntries(e[..|e| - 1], c);
  }

  /** The key of a record's last entry is not among the kept entries before it, when keys are unique. */
  lemma FreshKey(e: Params, keep: ((string, string)) -> bool)
    requires UniqueKeys(e) && |e| > 0
    ensures Get(Filter(e[..|e| - 1], keep), e[|e| - 1].0).None?
  {
    var m := Filter(e[..|e| - 1], keep);
    forall i | 0 <= i < |m|
      ensures m[i].0 != e[|e| - 1].0
    {
      assert m[i] in e[..|e| - 1];
    }
  }

  /** Parsing one encoded entry sets its key to its value, or skips it when the key is empty or PROTO_KEY. */
  lemma LastPartRoundTrip(m: Params, entry: (string, string), c: UriCodec)
    requires FaithfulCodec(c)
    ensures !HasKey(entry) ==> ParsePart(m, EncodedEntry(entry, c), c) == Some(m)
    ensures HasKey(entry) ==> ParsePart(m, EncodedEntry(entry, c), c) == Some(Put(m, entry.0, entry.1))
  {
    PairKeyValue(c.encode(entry.0), c.encode(entry.1));
  }

  /**
   * Round trip: parsing a built query string gives back, in order, every entry
   * with a non-empty value and a non-empty key other than PROTO_KEY, for a
   * codec that is faithful.
   */
  lemma QuerystringRoundTrip(p: Params, c: UriCodec)
    requires FaithfulCodec(c) && UniqueKeys(p)
    ensures ParsedQuery(BuildQuerystring(p, c), c) == Some(Filter(p, Kept))
  {
    var entries := Filter(p, HasValue);
    FilterKeptSplit(p);
    if |entries| > 0 {
      FilterUnique(p, HasValue);
      forall i | 0 <= i < |entries|
        ensures entries[i].1 != ""
      {
        assert entries[i] in entries;
      }
      var parts := EncodedEntries(entries, c);
      forall i | 0 <= i < |parts|
        ensures '&' !in parts[i]
      {
        assert parts[i] == c.encode(entries[i].0) + "=" + c.encode(entries[i].1);
      }
      SplitJoin(parts, '&');
      var qs := BuildQuerystring(p, c);
      assert qs[1..] == Join(parts, '&');
      assert '=' in parts[0];
      assert qs[1..] != "";
      EncodedPartsRoundTrip(entries, c);
    }
  }

  /**
   * A query string whose only key decodes to PROTO_KEY parses to an empty
   * record: the assignment reaches the prototype setter and stores nothing.
   */
  lemma ProtoKeyDropped(v: string, c: UriCodec)
    requires FaithfulCodec(c)
    ensures ParsedQuery("?" + EncodedEntry((PROTO_KEY, v), c), c) == Some([])
  {
    var part := EncodedEntry((PROTO_KEY, v), c);
    assert ("?" + part)[1..] == part;
    assert part[|c.encode(PROTO_KEY)|] == '=';
    assert '&' !in part by {
      assert part == c.encode(PROTO_KEY) + "=" + c.encode(v);
    }
    var parts, none: seq<string> := Split(part, '&'), [];
    assert parts == [part] && parts[..0] == none;
    LastPartRoundTrip([], (PROTO_KEY, v), c);
    assert ParseParts(parts, c) == ParsePart([], part, c);
  }

  /** An empty record builds the empty query string, and the empty query string parses to an empty record. */
  lemma EmptyQuerystring(c: UriCodec)
    ensures BuildQuerystring([], c) == ""
    ensures ParsedQuery("", c) == Some([])
  {
  }

  /** What an adapter's toParams returns: the record and the query string built from it. */
  datatype RiapiResult = RiapiResult(params: Params, querystring: string)
}
