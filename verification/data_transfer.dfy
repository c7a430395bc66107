/**
 * The fetch-and-import side of `QuakesProvider`
 * (EarthQuake/Model/DataTransferModel.swift): the HTTP status guard, the
 * decode, the field-for-field conversion to `Quake`, the batch import
 * into a staging context, and the `lastUpdated` stamp.
 */
module DataTransfer {
  import opened Wrappers
  import opened Json
  import opened QuakeModel
  import opened Store
  import opened FeedDecoder
  import opened DataErrors

  // ---------------------------------------------------------------------
  // Feature to Quake
  // ---------------------------------------------------------------------

  /** `Quake.init(from:)`: copies the four properties, leaves the feature id behind. */
  function QuakeFrom(f: Feature): (q: Quake)
    ensures q.magnitude == f.properties.mag && q.place == f.properties.place
    ensures q.timestamp == f.properties.time && q.code == f.properties.code
  {
    NewQuake(f.properties.mag, f.properties.place, f.properties.time, f.properties.code)
  }

  /** The properties a stored quake was built from. */
  function PropertiesOf(q: Quake): Properties {
    Properties(q.magnitude, q.place, q.timestamp, q.code)
  }

  /** The conversion loses none of the properties. */
  lemma QuakeFromKeepsProperties(f: Feature)
    ensures PropertiesOf(QuakeFrom(f)) == f.properties
  {
  }

  /** The quakes of a batch, one per feature, in feed order. */
  function QuakesFrom(features: seq<Feature>): (qs: seq<Quake>)
    ensures |qs| == |features|
    ensures forall i :: 0 <= i < |features| ==> qs[i] == QuakeFrom(features[i])
  {
    seq(|features|, i requires 0 <= i < |features| => QuakeFrom(features[i]))
  }

  /** The codes a batch of features carries. */
  function FeatureCodes(features: seq<Feature>): set<string> {
    set f | f in features :: f.properties.code
  }

  /** After importing a batch, the store holds exactly its old codes and the batch's codes. */
  lemma ImportedCodes(rows: seq<Quake>, features: seq<Feature>)
    ensures Codes(Commit(rows, QuakesFrom(features))) == Codes(rows) + FeatureCodes(features)
  {
    CommitCodes(rows, QuakesFrom(features));
    var qs := QuakesFrom(features);
    forall c | c in FeatureCodes(features) ensures c in Codes(qs) {
      var f :| f in features && f.properties.code == c;
      var i :| 0 <= i < |features| && features[i] == f;
      assert qs[i] in qs;
    }
  }

  // ---------------------------------------------------------------------
  // The fetch
  // ---------------------------------------------------------------------

  /**
   * What the network round trip delivered: a transport error, a response
   * that is not HTTP, or an HTTP status with a body that parsed as JSON
   * (`Some`) or did not (`None`).
   */
  datatype Response =
    | TransportError
    | NotHttp
    | Http(statusCode: int, body: Option<Json>)

  /** Everything `fetchSummary` can throw. */
  datatype FetchError = Data(dataError: DataError) | Decoding(decodingError: DecodingError)

  /** The features one fetch yields, or the error it throws before importing anything. */
  function FetchedFeatures(response: Response): (r: Result<seq<Feature>, FetchError>)
    ensures r.Failure? && r.error.Data? ==>
      r.error.dataError == NoData && !(response.Http? && response.statusCode == 200)
    ensures r.Failure? && r.error.Decoding? ==> response.Http? && response.statusCode == 200
    ensures response.Http? && response.statusCode == 200 && response.body.None? ==>
      r == Failure(Decoding(DataCorrupted))
    ensures (response.Http? && response.statusCode == 200 && response.body.Some? &&
             DecodeFeed(response.body.value).Failure?) ==>
      r == Failure(Decoding(DecodeFeed(response.body.value).error))
    ensures r.Success? ==>
      response.Http? && response.statusCode == 200 && response.body.Some? &&
      DecodeFeed(response.body.value) == Success(r.value)
  {
    if !response.Http? || response.statusCode != 200 then Failure(Data(NoData))
    else if response.body.None? then Failure(Decoding(DataCorrupted))
    else
      match DecodeFeed(response.body.value)
      case Failure(err) => Failure(Decoding(err))
      case Success(features) => Success(features)
  }

  /** Only an HTTP 200 response gets past the guard; every other outcome is `noData`. */
  lemma OnlyStatus200Passes(response: Response)
    ensures FetchedFeatures(response) == Failure(Data(NoData)) <==>
      !(response.Http? && response.statusCode == 200)
  {
  }

  /** A fetch that passes the guard yields exactly the decoder's features. */
  lemma FetchedFeaturesAreDecoded(response: Response)
    ensures FetchedFeatures(response).Success? <==>
      response.Http? && response.statusCode == 200 && response.body.Some? &&
      DecodeFeed(response.body.value).Success?
    ensures FetchedFeatures(response).Success? ==>
      FetchedFeatures(response).value == DecodeFeed(response.body.value).value
  {
  }

  /** The key under which `lastUpdated` is kept in the user defaults. */
  const LastUpdatedKey := "lastUpdatedTimeStamp"

  /** The user defaults after `lastUpdated` is set to `now`: that one entry changes. */
  function Stamped(defaults: map<string, Date>, now: Date): (d: map<string, Date>)
    ensures LastUpdatedKey in d && d[LastUpdatedKey] == now
    ensures forall k :: k != LastUpdatedKey ==> (k in d <==> k in defaults)
    ensures forall k :: k != LastUpdatedKey && k in defaults ==> d[k] == defaults[k]
  {
    defaults[LastUpdatedKey := now]
  }

  class QuakesProvider {
    /** The date entries of the user defaults, read and written under `LastUpdatedKey`. */
    var defaults: map<string, Date>

    constructor (persisted: map<string, Date>)
      ensures defaults == persisted
    {
      defaults := persisted;
    }

    /** The `lastUpdated` getter: the stored stamp, or `distantPast` when there is none. */
    function LastUpdated(): (d: Date)
      reads this
      ensures LastUpdatedKey in defaults ==> d == defaults[LastUpdatedKey]
      ensures LastUpdatedKey !in defaults ==> d == DistantPast
    {
      if LastUpdatedKey in defaults then defaults[LastUpdatedKey] else DistantPast
    }

    /**
     * `importSummary(features:)`: one `Quake` per feature is inserted into a
     * fresh staging context; if that context has changes they are saved in
     * one commit and `lastUpdated` is stamped with `now`.
     */
    method ImportSummary(features: seq<Feature>, store: QuakeStore, now: Date) returns (updateCount: nat)
      requires store.Valid()
      modifies this, store
      ensures store.Valid()
      ensures updateCount == |features|
      ensures store.rows == Commit(old(store.rows), QuakesFrom(features))
      ensures defaults == if features != [] then Stamped(old(defaults), now) else old(defaults)
    {
      var context := new ModelContext(store);
      updateCount := 0;
      for i := 0 to |features|
        invariant context.store == store && store.rows == old(store.rows)
        invariant defaults == old(defaults)
        invariant updateCount == i
        invariant context.staged == QuakesFrom(features[..i])
      {
        var quake := QuakeFrom(features[i]);
        context.Insert(quake);
        updateCount := updateCount + 1;
      }
      assert features[..|features|] == features;
      if context.HasChanges() {
        context.Save();
        defaults := Stamped(defaults, now);
      } else {
        assert QuakesFrom(features) == [];
      }
    }

    /**
     * `fetchSummary()`: anything but an HTTP 200 response throws `noData`,
     * a decode failure throws the decoder's error, and in both cases neither
     * the store nor `lastUpdated` changes; otherwise the features are imported.
     */
    method FetchSummary(response: Response, store: QuakeStore, now: Date) returns (r: Outcome<FetchError>)
      requires store.Valid()
      modifies this, store
      ensures store.Valid()
      ensures FetchedFeatures(response).Failure? ==>
        && r == Fail(FetchedFeatures(response).error)
        && store.rows == old(store.rows)
        && defaults == old(defaults)
      ensures FetchedFeatures(response).Success? ==>
        var features := FetchedFeatures(response).value;
        && r == Pass
        && store.rows == Commit(old(store.rows), QuakesFrom(features))
        && defaults == if features != [] then Stamped(old(defaults), now) else old(defaults)
    {
      if !response.Http? || response.statusCode != 200 {
        return Fail(Data(NoData));
      }
      if response.body.None? {
        return Fail(Decoding(DataCorrupted));
      }
      var raw := DecodeRawContent(response.body.value);
      if raw.Failure? {
        return Fail(Decoding(raw.error));
      }
      var _ := ImportSummary(raw.value, store, now);
      return Pass;
    }
  }
}
