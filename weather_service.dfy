/**
 * WeatherService (Services/WeatherService.cs): the cache-through lookup
 * GetWeatherByCityAsync, the transactional save and the upstream fetch, as a
 * class whose fields are the tables of the database context and the log of
 * requests sent to the weather provider.
 *
 * The clock, the provider's answer and the database call that throws (if
 * any) are parameters: `now` is the Unix time of the call, `reply` is what the
 * provider answers to the request the call makes, and `fault` names the
 * query, SaveChanges, BeginTransaction or Commit the database rejects.
 */
module Weather {
  import opened Wrappers
  import opened WeatherModels
  import opened WeatherJson
  import opened Normalizer
  import opened StoreQueries
  import opened Render
  import opened Upstream
  import opened Persist
  import opened CacheRoundTrip

  /** What one lookup answers, the store it leaves, and whether it asked the provider. */
  datatype Served = Served(response: Result<Payload, Error>, store: Store, fetched: bool)

  /**
   * Whether one of the two cache queries throws: the city query always runs,
   * the reading query only when a city matches.
   */
  predicate LookupFails(s: Store, city: string, fault: Option<DbCall>) {
    Fails(fault, QueryCachedCity) || (FindCity(s.cities, city).Some? && Fails(fault, QueryCachedReading))
  }

  /**
   * Lines 27-62: a fresh cached reading is rendered from the store; otherwise
   * the provider is asked, its body is saved and returned unchanged. A failed
   * cache query, a failed fetch or a failed save leaves the store as it was and
   * reports the error; a failed cache query asks the provider nothing.
   */
  function GetWeather(s: Store, city: string, now: int, reply: HttpResponse, fault: Option<DbCall>): (r: Served)
    ensures r.fetched <==> !LookupFails(s, city, fault) && CachedReading(s, city, now).None?
    ensures LookupFails(s, city, fault) ==> r.store == s && r.response == Err(DatabaseFailure(fault.value))
    ensures !r.fetched && !LookupFails(s, city, fault) ==>
      r.store == s && r.response == Ok(ConvertToJson(CachedReading(s, city, now).value))
    ensures r.fetched && r.response.Ok? ==>
      && IsSuccessStatusCode(reply.status)
      && r.response.value == reply.body
      && Save(s, reply.body, fault) == Ok(r.store)
    ensures r.response.Err? ==> r.store == s
    ensures r.fetched && r.response.Err? ==>
      || FetchResult(city, reply) == Err(r.response.error)
      || (IsSuccessStatusCode(reply.status) && Save(s, reply.body, fault) == Err(r.response.error))
  {
    if LookupFails(s, city, fault) then Served(Err(DatabaseFailure(fault.value)), s, false)
    else
      match CachedReading(s, city, now)
      case Some(w) => Served(Ok(ConvertToJson(w)), s, false)
      case None =>
        match FetchResult(city, reply)
        case Err(e) => Served(Err(e), s, true)
        case Ok(body) =>
          match Save(s, body, fault)
          case Err(e) => Served(Err(e), s, true)
          case Ok(t) => Served(Ok(body), t, true)
  }

  /** A lookup keeps the store's keys unique and its references resolved. */
  lemma GetWeatherPreservesValid(s: Store, city: string, now: int, reply: HttpResponse, fault: Option<DbCall>)
    requires Valid(s)
    ensures Valid(GetWeather(s, city, now, reply, fault).store)
  {
    if CachedReading(s, city, now).None? && IsSuccessStatusCode(reply.status) && Save(s, reply.body, fault).Ok? {
      SavePreservesValid(s, reply.body, fault);
    }
  }

  /** A lookup that asks the provider and succeeds adds exactly one reading, one wind and one sun. */
  lemma FetchAddsOneReading(s: Store, city: string, now: int, reply: HttpResponse, fault: Option<DbCall>)
    requires GetWeather(s, city, now, reply, fault).fetched && GetWeather(s, city, now, reply, fault).response.Ok?
    ensures var t := GetWeather(s, city, now, reply, fault).store;
      && |t.currents| == |s.currents| + 1 && Extends(s.currents, t.currents)
      && |t.winds| == |s.winds| + 1 && Extends(s.winds, t.winds)
      && |t.suns| == |s.suns| + 1 && Extends(s.suns, t.suns)
      && Extends(s.cities, t.cities) && Extends(s.conditions, t.conditions)
  {
    SaveAppends(s, reply.body, fault);
  }

  /**
   * The cache works: after a lookup that fetched and saved a reading whose city
   * name matches the query and whose `dt` is still inside the freshness window
   * at a later time `later`, a lookup for the same city at `later` is served
   * from the store without asking the provider, whatever it would answer.
   */
  lemma SecondLookupHitsCache(s: Store, city: string, now: int, reply: HttpResponse, fault: Option<DbCall>,
                              later: int, reply2: HttpResponse, fault2: Option<DbCall>)
    requires Valid(s)
    requires GetWeather(s, city, now, reply, fault).fetched && GetWeather(s, city, now, reply, fault).response.Ok?
    requires SameName(city, StoredName(reply.body))
    requires reply.body.dt.Present? && reply.body.dt.value > (later - FreshnessWindow) as real
    ensures !GetWeather(GetWeather(s, city, now, reply, fault).store, city, later, reply2, fault2).fetched
  {
    SavedReadingIsServed(s, reply.body, fault, GetWeather(s, city, now, reply, fault).store, city, later);
  }

  /**
   * The body a lookup returns after a fetch is what a later cache hit on the
   * reading it stored renders back, up to the fields the tables keep.
   */
  lemma FetchedBodyRenderedBack(s: Store, city: string, now: int, reply: HttpResponse, fault: Option<DbCall>)
    requires Valid(s)
    requires GetWeather(s, city, now, reply, fault).fetched && GetWeather(s, city, now, reply, fault).response.Ok?
    ensures var t := GetWeather(s, city, now, reply, fault).store;
      && WellFormed(reply.body) && |t.currents| == |s.currents| + 1
      && ReproducesMeasurements(ConvertToJson(Load(t, t.currents[|s.currents|])), reply.body)
  {
    RenderAfterSave(s, reply.body, fault, GetWeather(s, city, now, reply, fault).store);
  }

  class WeatherService {
    var cities: seq<City>
    var conditions: seq<WeatherCondition>
    var currents: seq<WeatherCurrent>
    var winds: seq<Wind>
    var suns: seq<Sun>
    /** The cities sent to the provider, oldest first. */
    var requests: seq<string>

    /** The tables as one value. */
    function Snapshot(): Store
      reads this
    {
      Store(cities, conditions, currents, winds, suns)
    }

    ghost predicate Valid()
      reads this
    {
      WeatherModels.Valid(Snapshot())
    }

    /** Lines 15-25: a service over the given database, before any request. */
    constructor(initial: Store)
      requires WeatherModels.Valid(initial)
      ensures Snapshot() == initial && requests == []
      ensures Valid()
    {
      cities, conditions, currents, winds, suns := initial.cities, initial.conditions, initial.currents, initial.winds, initial.suns;
      requests := [];
    }

    /**
     * Lines 27-62: the response, the store left behind and the requests made are
     * those of `GetWeather`; a cache hit or a failed cache query sends no
     * request, a miss sends exactly one.
     */
    method GetWeatherByCity(city: string, now: int, reply: HttpResponse, fault: Option<DbCall>)
      returns (r: Result<Payload, Error>)
      modifies this
      ensures var g := GetWeather(old(Snapshot()), city, now, reply, fault);
        && r == g.response
        && Snapshot() == g.store
        && requests == old(requests) + (if g.fetched then [city] else [])
      requires Valid()
      ensures Valid()
    {
      ghost var g := GetWeather(Snapshot(), city, now, reply, fault);
      GetWeatherPreservesValid(Snapshot(), city, now, reply, fault);
      if Fails(fault, QueryCachedCity) {
        return Err(DatabaseFailure(QueryCachedCity));
      }
      var found := FindCity(cities, city);
      if found.Some? {
        if Fails(fault, QueryCachedReading) {
          return Err(DatabaseFailure(QueryCachedReading));
        }
        var newest := NewestFresh(currents, cities[found.value].cityId, now);
        if newest.Some? {
          return Ok(ConvertToJson(Load(Snapshot(), currents[newest.value])));
        }
      }
      var fetched := FetchWeatherFromApi(city, reply);
      if fetched.Err? {
        return Err(fetched.error);
      }
      var saved := SaveWeatherToDatabase(fetched.value, fault);
      if saved.Fail? {
        return Err(saved.error);
      }
      r := Ok(fetched.value);
    }

    /** Lines 229-258: one request for `city`, answered by `reply`, classified by status. */
    method FetchWeatherFromApi(city: string, reply: HttpResponse) returns (r: Result<Payload, Error>)
      modifies this
      ensures r == FetchResult(city, reply)
      ensures requests == old(requests) + [city]
      ensures Snapshot() == old(Snapshot())
    {
      requests := requests + [city];
      if !IsSuccessStatusCode(reply.status) {
        if reply.status == StatusNotFound {
          return Err(CityNotFound(city));
        } else if reply.status == StatusUnauthorized {
          return Err(InvalidApiKey);
        }
        return Err(FetchFailed(city, reply.status));
      }
      r := Ok(reply.body);
    }

    /**
     * Lines 64-176: the steps run inside one transaction; on the first exception
     * the transaction is rolled back (or, when BeginTransaction itself throws,
     * never started), so the tables are as they were before the call, and the
     * exception is rethrown.
     */
    method SaveWeatherToDatabase(body: Payload, fault: Option<DbCall>) returns (r: Outcome<Error>)
      modifies this
      ensures r.Pass? ==> Save(old(Snapshot()), body, fault) == Ok(Snapshot())
      ensures r.Fail? ==> Save(old(Snapshot()), body, fault) == Err(r.error) && Snapshot() == old(Snapshot())
      ensures requests == old(requests)
    {
      var transaction := Snapshot();
      r := ApplySave(body, fault);
      if r.Fail? {
        cities, conditions, currents, winds, suns :=
          transaction.cities, transaction.conditions, transaction.currents, transaction.winds, transaction.suns;
      }
    }

    /** Lines 67-167: the reads, queries and writes of the save, stopping at the first exception. */
    method ApplySave(body: Payload, fault: Option<DbCall>) returns (r: Outcome<Error>)
      modifies this
      ensures r.Pass? ==> Save(old(Snapshot()), body, fault) == Ok(Snapshot())
      ensures r.Fail? ==> Save(old(Snapshot()), body, fault) == Err(r.error)
      ensures requests == old(requests)
    {
      ghost var s := Snapshot();
      if Fails(fault, BeginTransaction) {
        return Fail(DatabaseFailure(BeginTransaction));
      }
      var cityFields := ReadCity(body);
      if cityFields.Err? {
        return Fail(cityFields.error);
      }
      var cf := cityFields.value;
      if Fails(fault, QueryCity) {
        return Fail(DatabaseFailure(QueryCity));
      }
      var cityId: nat;
      var foundCity := FindCity(cities, cf.name);
      if foundCity.Some? {
        cityId := cities[foundCity.value].cityId;
      } else {
        cityId := NextCityId(cities);
        cities := cities + [City(cityId, cf.name, cf.code, cf.timezone)];
        if Fails(fault, SaveCity) {
          return Fail(DatabaseFailure(SaveCity));
        }
      }
      assert cities == FindOrCreateCity(s.cities, cf).rows && cityId == FindOrCreateCity(s.cities, cf).id;
      assert Save(s, body, fault) == SaveFromCondition(s, body, fault, cf);
      r := ApplyFromCondition(body, fault, s, cf, cityId);
    }

    /** Lines 102-167: the rest of the save, once the city is found or created. */
    method ApplyFromCondition(body: Payload, fault: Option<DbCall>, ghost s: Store, cf: CityFields, cityId: nat)
      returns (r: Outcome<Error>)
      requires Snapshot() == s.(cities := FindOrCreateCity(s.cities, cf).rows)
      requires cityId == FindOrCreateCity(s.cities, cf).id
      modifies this
      ensures r.Pass? ==> SaveFromCondition(s, body, fault, cf) == Ok(Snapshot())
      ensures r.Fail? ==> SaveFromCondition(s, body, fault, cf) == Err(r.error)
      ensures requests == old(requests)
    {
      var conditionFields := ReadCondition(body);
      if conditionFields.Err? {
        return Fail(conditionFields.error);
      }
      var kf := conditionFields.value;
      if Fails(fault, QueryCondition) {
        return Fail(DatabaseFailure(QueryCondition));
      }
      var conditionId: nat;
      var foundCondition := FindCondition(conditions, kf.mainName, kf.description);
      if foundCondition.Some? {
        conditionId := conditions[foundCondition.value].weatherConditionId;
      } else {
        conditionId := NextConditionId(conditions);
        conditions := conditions + [WeatherCondition(conditionId, kf.mainName, kf.description, kf.icon)];
        if Fails(fault, SaveCondition) {
          return Fail(DatabaseFailure(SaveCondition));
        }
      }
      assert conditions == FindOrCreateCondition(s.conditions, kf).rows;
      assert conditionId == FindOrCreateCondition(s.conditions, kf).id;
      assert SaveFromCondition(s, body, fault, cf) == SaveFromReading(s, body, fault, cf, kf);
      r := ApplyFromReading(body, fault, s, cf, kf, cityId, conditionId);
    }

    /** Lines 126-167: the reading, the wind and the sun, once the city and the condition are found or created. */
    method ApplyFromReading(body: Payload, fault: Option<DbCall>, ghost s: Store, cf: CityFields, kf: ConditionFields,
                            cityId: nat, conditionId: nat)
      returns (r: Outcome<Error>)
      requires Snapshot() == s.(cities := FindOrCreateCity(s.cities, cf).rows,
                                conditions := FindOrCreateCondition(s.conditions, kf).rows)
      requires cityId == FindOrCreateCity(s.cities, cf).id
      requires conditionId == FindOrCreateCondition(s.conditions, kf).id
      modifies this
      ensures r.Pass? ==> SaveFromReading(s, body, fault, cf, kf) == Ok(Snapshot())
      ensures r.Fail? ==> SaveFromReading(s, body, fault, cf, kf) == Err(r.error)
      ensures requests == old(requests)
    {
      var readingFields := ReadReading(body);
      if readingFields.Err? {
        return Fail(readingFields.error);
      }
      var reading := NewReading(NextCurrentId(currents), cityId, conditionId, readingFields.value);
      currents := currents + [reading];
      if Fails(fault, SaveReading) {
        return Fail(DatabaseFailure(SaveReading));
      }

      var windSun := ReadWindSun(body);
      if windSun.Err? {
        return Fail(windSun.error);
      }
      var ws := windSun.value;
      winds := winds + [Wind(NextWindId(winds), reading.weatherCurrentId, ws.speed, ws.deg, ws.gust)];
      suns := suns + [Sun(NextSunId(suns), reading.weatherCurrentId, ws.sunrise, ws.sunset)];
      if Fails(fault, SaveWindSun) {
        return Fail(DatabaseFailure(SaveWindSun));
      }
      if Fails(fault, Commit) {
        return Fail(DatabaseFailure(Commit));
      }
      assert Snapshot() == Committed(s, cf, kf, readingFields.value, ws);
      r := Pass;
    }
  }
}
