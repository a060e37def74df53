/**
 * The merchant data string of `createOrder` and its parser `parseResponseString`:
 * `key=value` segments joined by `&`, without escaping.
 */
module Payload {
  import opened Wrappers
  import opened PhpString
  import opened OrderedMap

  // ---------------------------------------------------------------------------
  // Formatting (createOrder)

  /** `$key . '=' . $value` for every entry, in order. */
  function Segments(fields: Entries<string>): (segs: seq<string>)
    ensures |segs| == |fields|
    ensures forall i :: 0 <= i < |fields| ==> segs[i] == fields[i].0 + "=" + fields[i].1
  {
    if |fields| == 0 then []
    else
      var last := fields[|fields| - 1];
      Segments(fields[..|fields| - 1]) + [last.0 + "=" + last.1]
  }

  /** The merchant data string: the segments joined by `&`, then every trailing `&` stripped. */
  function MerchantString(fields: Entries<string>): string {
    RTrim(Implode("&", Segments(fields)), '&')
  }

  /** What the `foreach` of `createOrder` has built after the first `|fields|` entries. */
  function Accumulated(fields: Entries<string>): string {
    if |fields| == 0 then ""
    else
      var last := fields[|fields| - 1];
      Accumulated(fields[..|fields| - 1]) + last.0 + "=" + last.1 + "&"
  }

  lemma {:induction false} ImplodeSnoc(glue: string, parts: seq<string>, x: string)
    requires |parts| >= 1
    ensures Implode(glue, parts + [x]) == Implode(glue, parts) + glue + x
  {
    if |parts| > 1 {
      ImplodeSnoc(glue, parts[1..], x);
      assert (parts + [x])[1..] == parts[1..] + [x];
    }
  }

  lemma {:induction false} AccumulatedIsImplode(fields: Entries<string>)
    requires |fields| >= 1
    ensures Accumulated(fields) == Implode("&", Segments(fields)) + "&"
  {
    var init := fields[..|fields| - 1];
    var last := fields[|fields| - 1];
    if |init| > 0 {
      AccumulatedIsImplode(init);
      ImplodeSnoc("&", Segments(init), last.0 + "=" + last.1);
    }
  }

  /**
   * The `foreach` and `rtrim` of `createOrder`: each entry appended as `key=value&`, then
   * every trailing `&` stripped.
   */
  method MerchantDataString(merchantData: Entries<string>) returns (merchantDataString: string)
    ensures merchantDataString == MerchantString(merchantData)
    ensures |merchantDataString| == 0 || merchantDataString[|merchantDataString| - 1] != '&'
  {
    merchantDataString := "";
    for i := 0 to |merchantData|
      invariant merchantDataString == Accumulated(merchantData[..i])
    {
      var (key, value) := merchantData[i];
      assert merchantData[..i + 1][..i] == merchantData[..i];
      merchantDataString := merchantDataString + key + "=" + value + "&";
    }
    assert merchantData[..|merchantData|] == merchantData;
    var untrimmed := merchantDataString;
    merchantDataString := RTrim(merchantDataString, '&');
    if |merchantData| > 0 {
      AccumulatedIsImplode(merchantData);
      RTrimAppended(Implode("&", Segments(merchantData)), '&');
    }
  }

  /**
   * When the last value does not end in `&`, nothing but the separator is stripped: the
   * string is exactly the segments joined by `&`.
   */
  lemma MerchantStringIsJoin(fields: Entries<string>)
    requires |fields| >= 1
    requires |fields[|fields| - 1].1| == 0 || fields[|fields| - 1].1[|fields[|fields| - 1].1| - 1] != '&'
    ensures MerchantString(fields) == Implode("&", Segments(fields))
  {
    var segs := Segments(fields);
    var s := Implode("&", segs);
    var n := |segs|;
    if n > 1 {
      assert segs == segs[..n - 1] + [segs[n - 1]];
      ImplodeSnoc("&", segs[..n - 1], segs[n - 1]);
    }
    assert s[|s| - 1] == segs[n - 1][|segs[n - 1]| - 1];
  }

  // ---------------------------------------------------------------------------
  // Parsing (parseResponseString)

  /** A segment is kept when `explode('=', ...)` yields exactly two parts: it holds exactly one `=`. */
  predicate Kept(pair: string) {
    |Explode('=', pair)| == 2
  }

  /** The segment is kept and assigns key `k` (the raw text before the `=`). */
  predicate Assigns(pair: string, k: string) {
    Kept(pair) && Explode('=', pair)[0] == k
  }

  /** The url-decoded value of a kept segment. */
  function DecodedValue(pair: string): string
    requires Kept(pair)
  {
    UrlDecode(Explode('=', pair)[1])
  }

  /** One pass of the `foreach` of `parseResponseString`. */
  function ParseStep(responseData: Entries<string>, pair: string): Entries<string> {
    if Kept(pair) then Put(responseData, Explode('=', pair)[0], DecodedValue(pair)) else responseData
  }

  /** What the `foreach` has built after the given segments. */
  function ParsedPairs(pairs: seq<string>): Entries<string> {
    if |pairs| == 0 then [] else ParseStep(ParsedPairs(pairs[..|pairs| - 1]), pairs[|pairs| - 1])
  }

  /** What `parseResponseString` returns. */
  function ParseResponse(responseString: string): Entries<string> {
    ParsedPairs(Explode('&', responseString))
  }

  /** `parseResponseString`. */
  method ParseResponseString(responseString: string) returns (responseData: Entries<string>)
    ensures responseData == ParseResponse(responseString)
  {
    responseData := [];
    var pairs := Explode('&', responseString);
    for i := 0 to |pairs|
      invariant responseData == ParsedPairs(pairs[..i])
    {
      var pair := pairs[i];
      var keyValue := Explode('=', pair);
      assert pairs[..i + 1][..i] == pairs[..i];
      if |keyValue| == 2 {
        responseData := Put(responseData, keyValue[0], UrlDecode(keyValue[1]));
      }
    }
    assert pairs[..|pairs|] == pairs;
  }

  /** The parsed response never holds a key twice. */
  lemma {:induction false} ParsedDistinct(pairs: seq<string>)
    ensures DistinctKeys(ParsedPairs(pairs))
  {
    if |pairs| > 0 {
      var last := pairs[|pairs| - 1];
      ParsedDistinct(pairs[..|pairs| - 1]);
      if Kept(last) {
        PutDistinct(ParsedPairs(pairs[..|pairs| - 1]), Explode('=', last)[0], DecodedValue(last));
      }
    }
  }

  /** Some segment of `pairs` is kept and assigns `k`. */
  ghost predicate AssignedIn(pairs: seq<string>, k: string) {
    exists i :: 0 <= i < |pairs| && Assigns(pairs[i], k)
  }

  lemma AssignedInSnoc(pairs: seq<string>, k: string)
    requires |pairs| > 0
    ensures AssignedIn(pairs, k) <==> AssignedIn(pairs[..|pairs| - 1], k) || Assigns(pairs[|pairs| - 1], k)
  {
    var init := pairs[..|pairs| - 1];
    if AssignedIn(init, k) {
      var i :| 0 <= i < |init| && Assigns(init[i], k);
      assert pairs[i] == init[i];
    }
    if AssignedIn(pairs, k) {
      var i :| 0 <= i < |pairs| && Assigns(pairs[i], k);
      if i < |init| {
        assert pairs[i] == init[i];
      }
    }
  }

  /** The parsed response has a key exactly when some kept segment assigns it (keys are not decoded). */
  lemma {:induction false} ParsedKeys(pairs: seq<string>, k: string)
    ensures k in Keys(ParsedPairs(pairs)) <==> AssignedIn(pairs, k)
  {
    if |pairs| > 0 {
      var init := pairs[..|pairs| - 1];
      var last := pairs[|pairs| - 1];
      ParsedKeys(init, k);
      AssignedInSnoc(pairs, k);
      if Kept(last) {
        PutSpec(ParsedPairs(init), Explode('=', last)[0], DecodedValue(last));
      }
    }
  }

  /** The value of a key is the url-decoded value of the LAST kept segment that assigns it. */
  lemma {:induction false} ParsedLast(pairs: seq<string>, k: string, i: nat)
    requires i < |pairs| && Assigns(pairs[i], k)
    requires forall j :: i < j < |pairs| ==> !Assigns(pairs[j], k)
    ensures Get(ParsedPairs(pairs), k) == Some(DecodedValue(pairs[i]))
  {
    var n := |pairs|;
    var init := pairs[..n - 1];
    var last := pairs[n - 1];
    if i < n - 1 {
      forall j | i < j < |init| ensures !Assigns(init[j], k) {
        assert init[j] == pairs[j];
      }
      ParsedLast(init, k, i);
      if Kept(last) {
        PutSpec(ParsedPairs(init), Explode('=', last)[0], DecodedValue(last));
      }
    } else {
      PutSpec(ParsedPairs(init), k, DecodedValue(last));
    }
  }

  /** A segment with no `=`, or with two or more, leaves the parsed response as it was. */
  lemma DroppedSegment(pairs: seq<string>, p: string)
    requires Count('=', p) != 1
    ensures !Kept(p)
    ensures ParsedPairs(pairs + [p]) == ParsedPairs(pairs)
  {
    ParsedPairsSnoc(pairs, p);
  }

  /**
   * A kept segment `k=v` sets `k` to the url-decoded `v`: a key already present keeps its
   * position and gets the new value, a new key is appended; every other key is untouched.
   */
  lemma KeptSegment(pairs: seq<string>, k: string, v: string)
    requires '=' !in k && '=' !in v
    ensures Get(ParsedPairs(pairs + [k + "=" + v]), k) == Some(UrlDecode(v))
    ensures forall k' :: k' != k ==> Get(ParsedPairs(pairs + [k + "=" + v]), k') == Get(ParsedPairs(pairs), k')
    ensures Keys(ParsedPairs(pairs + [k + "=" + v]))
         == if k in Keys(ParsedPairs(pairs)) then Keys(ParsedPairs(pairs)) else Keys(ParsedPairs(pairs)) + [k]
  {
    ParsedPairsSnoc(pairs, k + "=" + v);
    KeyValueSegment(k, v);
    assert k + "=" + v == k + ['='] + v;
    ExplodeAfterPart('=', k, v);
    ExplodePlain('=', v);
    PutSpec(ParsedPairs(pairs), k, UrlDecode(v));
  }

  // ---------------------------------------------------------------------------
  // Round trip

  /**
   * Fields the wire format can carry: distinct keys, no `&` or `=` in keys or values,
   * and no `%` or `+` in values (which `urldecode` would rewrite).
   */
  ghost predicate Transmittable(fields: Entries<string>) {
    && DistinctKeys(fields)
    && forall i :: 0 <= i < |fields| ==>
         '&' !in fields[i].0 && '=' !in fields[i].0
         && '&' !in fields[i].1 && '=' !in fields[i].1 && '%' !in fields[i].1 && '+' !in fields[i].1
  }

  /** A segment `k=v` with no `=` in `k` or `v` is kept, assigns `k`, and decodes to `v` when `v` has no `%` or `+`. */
  lemma KeyValueSegment(k: string, v: string)
    requires '=' !in k && '=' !in v
    ensures Kept(k + "=" + v) && Explode('=', k + "=" + v)[0] == k
    ensures '%' !in v && '+' !in v ==> DecodedValue(k + "=" + v) == v
  {
    assert k + "=" + v == k + ['='] + v;
    ExplodeAfterPart('=', k, v);
    ExplodePlain('=', v);
    if '%' !in v && '+' !in v {
      UrlDecodePlain(v);
    }
  }

  /** Parsing one more segment is one more step of the `foreach`. */
  lemma ParsedPairsSnoc(pairs: seq<string>, p: string)
    ensures ParsedPairs(pairs + [p]) == ParseStep(ParsedPairs(pairs), p)
  {
    assert (pairs + [p])[..|pairs|] == pairs;
  }

  lemma {:induction false} ParseSegments(fields: Entries<string>)
    requires Transmittable(fields)
    ensures ParsedPairs(Segments(fields)) == fields
  {
    var n := |fields|;
    if n > 0 {
      var init := fields[..n - 1];
      var (k, v) := fields[n - 1];
      assert fields == init + [(k, v)];
      assert Keys(fields) == Keys(init) + [k];
      assert Transmittable(init);
      ParseSegments(init);
      ParsedPairsSnoc(Segments(init), k + "=" + v);
      KeyValueSegment(k, v);
      PutNew(init, k, v);
    }
  }

  /** Parsing the merchant string of transmittable fields gives back the same fields, in order. */
  lemma ParseMerchantString(fields: Entries<string>)
    requires Transmittable(fields)
    ensures ParseResponse(MerchantString(fields)) == fields
  {
    var segs := Segments(fields);
    if |fields| == 0 {
      assert MerchantString(fields) == "";
      assert Explode('&', "") == [""];
      assert Explode('=', "") == [""];
      assert [""][..0] == [];
    } else {
      MerchantStringIsJoin(fields);
      forall i | 0 <= i < |segs| ensures '&' !in segs[i] {
        assert segs[i] == fields[i].0 + "=" + fields[i].1;
      }
      ExplodeImplode('&', segs);
      ParseSegments(fields);
    }
  }

  /**
   * Segments a well-formed response string is made of: each holds exactly one `=` and no `&`,
   * no value holds `%` or `+`, and no two segments assign the same key.
   */
  ghost predicate WellFormedSegments(segs: seq<string>) {
    && (forall i :: 0 <= i < |segs| ==>
          && Count('=', segs[i]) == 1 && '&' !in segs[i]
          && '%' !in Explode('=', segs[i])[1] && '+' !in Explode('=', segs[i])[1])
    && (forall i, j :: 0 <= i < j < |segs| ==> Explode('=', segs[i])[0] != Explode('=', segs[j])[0])
  }

  /** The key and value of each segment that holds exactly one `=`. */
  function SegmentFields(segs: seq<string>): (fields: Entries<string>)
    requires forall i :: 0 <= i < |segs| ==> Count('=', segs[i]) == 1
    ensures |fields| == |segs|
    ensures forall i :: 0 <= i < |segs| ==> fields[i] == (Explode('=', segs[i])[0], Explode('=', segs[i])[1])
  {
    if |segs| == 0 then []
    else [(Explode('=', segs[0])[0], Explode('=', segs[0])[1])] + SegmentFields(segs[1..])
  }

  /** A segment with exactly one `=` is its key, `=`, and its value. */
  lemma SplitSegment(seg: string)
    requires Count('=', seg) == 1
    ensures seg == Explode('=', seg)[0] + "=" + Explode('=', seg)[1]
  {
    var parts := Explode('=', seg);
    assert parts[1..] == [parts[1]];
  }

  /** The fields of well-formed segments can be sent, and writing them gives the segments back. */
  lemma SegmentFieldsTransmittable(segs: seq<string>)
    requires WellFormedSegments(segs)
    ensures Transmittable(SegmentFields(segs))
    ensures Segments(SegmentFields(segs)) == segs
  {
    var fields := SegmentFields(segs);
    forall i | 0 <= i < |segs|
      ensures segs[i] == fields[i].0 + "=" + fields[i].1
      ensures '&' !in fields[i].0 && '&' !in fields[i].1
    {
      SplitSegment(segs[i]);
    }
    assert DistinctKeys(fields);
  }

  /**
   * The other direction of the round trip: parsing a well-formed response string and writing
   * the result as a merchant string gives back the same string.
   */
  lemma MerchantStringOfParse(segs: seq<string>)
    requires WellFormedSegments(segs)
    ensures MerchantString(ParseResponse(Implode("&", segs))) == Implode("&", segs)
  {
    var fields := SegmentFields(segs);
    SegmentFieldsTransmittable(segs);
    ParseMerchantString(fields);
    if |segs| == 0 {
      assert MerchantString(fields) == "";
    } else {
      MerchantStringIsJoin(fields);
    }
  }
}
