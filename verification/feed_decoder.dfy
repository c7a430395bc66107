/**
 * The lossy decoder of the USGS GeoJSON summary feed
 * (`RawContentNestedStructs` in EarthQuake/Model/DataTransferModel.swift).
 *
 * Two levels of failure: a malformed root, a feature entry that is not an
 * object, or an entry without a string `id` aborts the whole decode; an
 * entry whose `properties` group does not decode in full is skipped and
 * the walk goes on with the next entry.
 */
module FeedDecoder {
  import opened Wrappers
  import opened Json
  import opened QuakeModel

  /** The four properties the app keeps; every one is required. */
  datatype Properties = Properties(mag: real, place: string, time: Date, code: string)

  /** One feature entry that survived decoding. */
  datatype Feature = Feature(id: string, properties: Properties)

  /**
   * The fatal errors of the decode, as the platform's JSON decoder reports
   * them: the body is not JSON, a key is absent, or a value has the wrong
   * type (JSON null included). Entry errors carry the entry's index.
   */
  datatype DecodingError =
    | DataCorrupted
    | RootNotObject
    | FeaturesMissing
    | FeaturesNotArray
    | FeatureNotObject(index: nat)
    | IdMissing(index: nat)
    | IdNotString(index: nat)
  {
    /** The error names one entry of the features array. */
    predicate AtEntry() {
      FeatureNotObject? || IdMissing? || IdNotString?
    }
  }

  // ---------------------------------------------------------------------
  // Properties: decoded as a unit, or not at all
  // ---------------------------------------------------------------------

  /** A `Float` field: any JSON number. */
  function DecodeFloatField(m: map<string, Json>, key: string): Option<real> {
    if key in m && m[key].JNumber? then Some(m[key].n) else None
  }

  /** A `String` field: a JSON string (null is not a string). */
  function DecodeStringField(m: map<string, Json>, key: string): Option<string> {
    if key in m && m[key].JString? then Some(m[key].s) else None
  }

  /** A `Date` field under the milliseconds-since-1970 strategy: a JSON number. */
  function DecodeDateField(m: map<string, Json>, key: string): Option<Date> {
    if key in m && m[key].JNumber? then Some(FromMillis(m[key].n)) else None
  }

  /** The four required members are present with the right JSON types. */
  predicate HasValidProperties(v: Json) {
    && v.JObject?
    && "mag" in v.fields && v.fields["mag"].JNumber?
    && "place" in v.fields && v.fields["place"].JString?
    && "time" in v.fields && v.fields["time"].JNumber?
    && "code" in v.fields && v.fields["code"].JString?
  }

  /**
   * The synthesized `Properties` decoder under `try?`: the whole group,
   * or nothing. Members other than the four are ignored.
   */
  function DecodeProperties(v: Json): (r: Option<Properties>)
    ensures r.Some? <==> HasValidProperties(v)
    ensures r.Some? ==>
      && r.value.mag == v.fields["mag"].n
      && r.value.place == v.fields["place"].s
      && r.value.time.millisSince1970 == v.fields["time"].n
      && r.value.code == v.fields["code"].s
  {
    if !v.JObject? then None
    else
      var mag :- DecodeFloatField(v.fields, "mag");
      var place :- DecodeStringField(v.fields, "place");
      var time :- DecodeDateField(v.fields, "time");
      var code :- DecodeStringField(v.fields, "code");
      Some(Properties(mag, place, time, code))
  }

  // ---------------------------------------------------------------------
  // One feature entry
  // ---------------------------------------------------------------------

  /** The entry is an object with a string `id`; anything else is fatal. */
  predicate WellFormedEntry(e: Json) {
    e.JObject? && "id" in e.fields && e.fields["id"].JString?
  }

  /** The fatal error for the entry at `index`, checked in the decoder's order. */
  function EntryError(e: Json, index: nat): (err: Option<DecodingError>)
    ensures err.None? <==> WellFormedEntry(e)
    ensures err.Some? ==>
      err.value.AtEntry() && err.value.index == index
    ensures err == Some(FeatureNotObject(index)) <==> !e.JObject?
    ensures err == Some(IdMissing(index)) <==> e.JObject? && "id" !in e.fields
    ensures err == Some(IdNotString(index)) <==>
      e.JObject? && "id" in e.fields && !e.fields["id"].JString?
  {
    if !e.JObject? then Some(FeatureNotObject(index))
    else if "id" !in e.fields then Some(IdMissing(index))
    else if !e.fields["id"].JString? then Some(IdNotString(index))
    else None
  }

  /**
   * A well-formed entry: its feature when the `properties` group decodes
   * in full, `None` (skipped) when the group is absent or incomplete.
   */
  function DecodeEntry(e: Json): (r: Option<Feature>)
    requires WellFormedEntry(e)
    ensures r.Some? <==> "properties" in e.fields && HasValidProperties(e.fields["properties"])
    ensures r.Some? ==>
      r.value.id == e.fields["id"].s && Some(r.value.properties) == DecodeProperties(e.fields["properties"])
  {
    var id := e.fields["id"].s;
    if "properties" !in e.fields then None
    else
      match DecodeProperties(e.fields["properties"])
      case Some(p) => Some(Feature(id, p))
      case None => None
  }

  // ---------------------------------------------------------------------
  // The features array and the root
  // ---------------------------------------------------------------------

  predicate AllWellFormed(es: seq<Json>) {
    forall i :: 0 <= i < |es| ==> WellFormedEntry(es[i])
  }

  /**
   * The single pass over the features array, one entry at a time: stop at
   * the first fatal entry, otherwise append the entry's feature if it has one.
   */
  function DecodeEntries(es: seq<Json>): (r: Result<seq<Feature>, DecodingError>)
    ensures r.Success? ==> |r.value| <= |es|
    ensures r.Failure? ==> r.error.AtEntry() && r.error.index < |es|
    decreases |es|
  {
    if es == [] then Success([])
    else
      var n := |es| - 1;
      match DecodeEntries(es[..n])
      case Failure(err) => Failure(err)
      case Success(features) =>
        match EntryError(es[n], n)
        case Some(err) => Failure(err)
        case None =>
          match DecodeEntry(es[n])
          case Some(f) => Success(features + [f])
          case None => Success(features)
  }

  /** The root must be an object whose `features` member is an array. */
  function DecodeFeed(root: Json): (r: Result<seq<Feature>, DecodingError>)
    ensures r.Success? ==>
      && root.JObject? && "features" in root.fields && root.fields["features"].JArray?
      && |r.value| <= |root.fields["features"].elems|
    ensures r.Failure? ==> r.error != DataCorrupted
    ensures root.JObject? && "features" in root.fields && root.fields["features"].JArray? ==>
      r == DecodeEntries(root.fields["features"].elems)
  {
    if !root.JObject? then Failure(RootNotObject)
    else if "features" !in root.fields then Failure(FeaturesMissing)
    else if !root.fields["features"].JArray? then Failure(FeaturesNotArray)
    else DecodeEntries(root.fields["features"].elems)
  }

  /**
   * `RawContentNestedStructs.init(from:)`: a `while !isAtEnd` walk over the
   * features array that appends each surviving feature.
   */
  method DecodeRawContent(root: Json) returns (r: Result<seq<Feature>, DecodingError>)
    ensures r == DecodeFeed(root)
  {
    if !root.JObject? {
      return Failure(RootNotObject);
    }
    if "features" !in root.fields {
      return Failure(FeaturesMissing);
    }
    if !root.fields["features"].JArray? {
      return Failure(FeaturesNotArray);
    }
    var entries := root.fields["features"].elems;
    var features: seq<Feature> := [];
    var i := 0;
    while i < |entries|
      invariant 0 <= i <= |entries|
      invariant DecodeEntries(entries[..i]) == Success(features)
    {
      assert entries[..i + 1][..i] == entries[..i];
      var entry := entries[i];
      if !entry.JObject? {
        FailureIsFinal(entries, i + 1);
        return Failure(FeatureNotObject(i));
      }
      if "id" !in entry.fields {
        FailureIsFinal(entries, i + 1);
        return Failure(IdMissing(i));
      }
      if !entry.fields["id"].JString? {
        FailureIsFinal(entries, i + 1);
        return Failure(IdNotString(i));
      }
      var featureId := entry.fields["id"].s;
      var properties := if "properties" in entry.fields then DecodeProperties(entry.fields["properties"]) else None;
      if properties.Some? {
        features := features + [Feature(featureId, properties.value)];
      }
      i := i + 1;
    }
    assert entries[..i] == entries;
    return Success(features);
  }

  /** Once a prefix has failed, no later entry changes the outcome. */
  lemma {:induction false} FailureIsFinal(es: seq<Json>, k: nat)
    requires k <= |es| && DecodeEntries(es[..k]).Failure?
    ensures DecodeEntries(es) == DecodeEntries(es[..k])
    decreases |es| - k
  {
    if k < |es| {
      assert es[..k + 1][..k] == es[..k];
      FailureIsFinal(es, k + 1);
    } else {
      assert es[..k] == es;
    }
  }

  // ---------------------------------------------------------------------
  // What the decode promises
  // ---------------------------------------------------------------------

  /** The first entry of `es` that is fatal, if any. */
  predicate FirstMalformedAt(es: seq<Json>, i: nat) {
    i < |es| && !WellFormedEntry(es[i]) && AllWellFormed(es[..i])
  }

  /**
   * The decode of the array fails exactly when some entry is not an object
   * with a string `id`, and it then reports the first such entry, by index.
   */
  lemma {:induction false} EntriesFailOnFirstMalformed(es: seq<Json>)
    ensures DecodeEntries(es).Failure? <==> !AllWellFormed(es)
    ensures DecodeEntries(es).Failure? ==>
      var i := DecodeEntries(es).error.index;
      FirstMalformedAt(es, i) && EntryError(es[i], i) == Some(DecodeEntries(es).error)
    decreases |es|
  {
    if es != [] {
      var n := |es| - 1;
      EntriesFailOnFirstMalformed(es[..n]);
      assert forall i :: 0 <= i < n ==> es[..n][i] == es[i];
      if DecodeEntries(es[..n]).Failure? {
        var i := DecodeEntries(es[..n]).error.index;
        assert es[..n][..i] == es[..i];
      } else {
        assert es[..n] == es[..n][..n];
      }
    }
  }

  /** Decoding works entry by entry: the features of `a + b` are those of `a` followed by those of `b`. */
  lemma {:induction false} DecodeEntriesAppend(a: seq<Json>, b: seq<Json>)
    requires AllWellFormed(a + b)
    ensures AllWellFormed(a) && AllWellFormed(b)
    ensures DecodeEntries(a).Success? && DecodeEntries(b).Success?
    ensures DecodeEntries(a + b) == Success(DecodeEntries(a).value + DecodeEntries(b).value)
    decreases |b|
  {
    assert forall i :: 0 <= i < |a| ==> a[i] == (a + b)[i];
    assert forall i :: 0 <= i < |b| ==> b[i] == (a + b)[|a| + i];
    EntriesFailOnFirstMalformed(a);
    EntriesFailOnFirstMalformed(b);
    if b == [] {
      assert a + b == a;
      assert DecodeEntries(b) == Success([]);
      assert DecodeEntries(a).value + [] == DecodeEntries(a).value;
    } else {
      var n := |b| - 1;
      assert (a + b)[..|a + b| - 1] == a + b[..n];
      assert forall i :: 0 <= i < n ==> b[..n][i] == b[i];
      DecodeEntriesAppend(a, b[..n]);
      assert (a + b)[|a + b| - 1] == b[n];
      assert EntryError(b[n], n).None? && EntryError(b[n], |a + b| - 1).None?;
      var fa, fb := DecodeEntries(a).value, DecodeEntries(b[..n]).value;
      assert DecodeEntries(a + b[..n]) == Success(fa + fb);
      match DecodeEntry(b[n])
      case Some(f) =>
        assert DecodeEntries(b) == Success(fb + [f]);
        assert fa + fb + [f] == fa + (fb + [f]);
      case None =>
        assert DecodeEntries(b) == Success(fb);
    }
  }

  /**
   * An entry whose `properties` group does not decode contributes nothing
   * and has no effect on the entries around it.
   */
  lemma SkippedEntryContributesNothing(a: seq<Json>, e: Json, b: seq<Json>)
    requires WellFormedEntry(e) && DecodeEntry(e).None?
    ensures DecodeEntries(a + [e] + b).Success? <==> DecodeEntries(a + b).Success?
    ensures DecodeEntries(a + [e] + b).Success? ==> DecodeEntries(a + [e] + b) == DecodeEntries(a + b)
  {
    WellFormedWithoutEntry(a, e, b);
    EntriesFailOnFirstMalformed(a + [e] + b);
    EntriesFailOnFirstMalformed(a + b);
    if AllWellFormed(a + [e] + b) {
      DecodeEntriesAppend(a + [e], b);
      DecodeEntriesAppend(a, [e]);
      assert [e][..0] == [];
      DecodeEntriesAppend(a, b);
    }
  }

  /** Taking a well-formed entry out neither adds nor removes a fatal entry. */
  lemma WellFormedWithoutEntry(a: seq<Json>, e: Json, b: seq<Json>)
    requires WellFormedEntry(e)
    ensures AllWellFormed(a + [e] + b) <==> AllWellFormed(a + b)
  {
    var with, without := a + [e] + b, a + b;
    if AllWellFormed(with) {
      forall i | 0 <= i < |without| ensures WellFormedEntry(without[i]) {
        assert without[i] == with[if i < |a| then i else i + 1];
      }
    }
    if AllWellFormed(without) {
      forall i | 0 <= i < |with| ensures WellFormedEntry(with[i]) {
        if i != |a| {
          assert with[i] == without[if i < |a| then i else i - 1];
        }
      }
    }
  }

  /** A feature is decoded exactly when it is the decode of some entry with complete properties. */
  lemma {:induction false} DecodedFeaturesComeFromEntries(es: seq<Json>)
    requires AllWellFormed(es)
    ensures DecodeEntries(es).Success?
    ensures forall f :: f in DecodeEntries(es).value <==>
      exists i :: 0 <= i < |es| && DecodeEntry(es[i]) == Some(f)
    decreases |es|
  {
    EntriesFailOnFirstMalformed(es);
    if es != [] {
      var n := |es| - 1;
      assert forall i :: 0 <= i < n ==> es[..n][i] == es[i];
      DecodedFeaturesComeFromEntries(es[..n]);
    }
  }

  /** The indices of the entries whose `properties` group decodes in full. */
  function DecodableIndices(es: seq<Json>): set<nat>
    requires AllWellFormed(es)
  {
    set i: nat | i < |es| && DecodeEntry(es[i]).Some?
  }

  /** One feature per entry with complete properties: no more, no fewer. */
  lemma {:induction false} DecodedCount(es: seq<Json>)
    requires AllWellFormed(es)
    ensures DecodeEntries(es).Success?
    ensures |DecodeEntries(es).value| == |DecodableIndices(es)|
    decreases |es|
  {
    EntriesFailOnFirstMalformed(es);
    if es != [] {
      var n := |es| - 1;
      assert forall i :: 0 <= i < n ==> es[..n][i] == es[i];
      DecodedCount(es[..n]);
      if DecodeEntry(es[n]).Some? {
        assert DecodableIndices(es) == DecodableIndices(es[..n]) + {n};
      } else {
        assert DecodableIndices(es) == DecodableIndices(es[..n]);
      }
    }
  }

  /**
   * A root that is not an object, or has no `features` array, fails the
   * whole decode with a root-level error and yields no features at all.
   */
  lemma RootErrors(root: Json)
    ensures DecodeFeed(root) == Failure(RootNotObject) <==> !root.JObject?
    ensures DecodeFeed(root) == Failure(FeaturesMissing) <==>
      root.JObject? && "features" !in root.fields
    ensures DecodeFeed(root) == Failure(FeaturesNotArray) <==>
      root.JObject? && "features" in root.fields && !root.fields["features"].JArray?
  {
  }
}
