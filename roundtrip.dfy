/**
 * How the two halves of the cache fit together: the payload that a save
 * stores is served back, on a later lookup inside the freshness window, as a
 * rendering that reproduces every field the tables represent.
 */
module CacheRoundTrip {
  import opened Wrappers
  import opened WeatherModels
  import opened WeatherJson
  import opened Normalizer
  import opened StoreQueries
  import opened Render
  import opened Persist

  /** A stored optional number as it is rendered: absence comes back as null, never as 0. */
  function Echo(x: Prop<real>): Prop<real> {
    if x.Present? then x else Null
  }

  /** The measurements of `r` are those of `p`, with absent values rendered as null and visibility defaulted. */
  predicate ReproducesMeasurements(r: Payload, p: Payload)
    requires p.main.Present? && p.clouds.Present? && p.wind.Present? && p.sys.Present?
  {
    var m := p.main.value;
    && r.main == Present(MainSection(Echo(m.temp), Echo(m.feelsLike), Echo(m.tempMin), Echo(m.tempMax),
                                     Echo(m.pressure), Echo(m.humidity)))
    && r.clouds == Present(CloudsSection(Echo(p.clouds.value.all)))
    && r.wind == Present(WindSection(Echo(p.wind.value.speed), Echo(p.wind.value.deg), Echo(p.wind.value.gust)))
    && r.sys.Present? && r.sys.value.sunrise == p.sys.value.sunrise && r.sys.value.sunset == p.sys.value.sunset
    && r.visibility == (if p.visibility.Present? then p.visibility else Present(DefaultVisibility as real))
    && r.dt == p.dt
  }

  lemma CityByIdUnique(cs: seq<City>, i: nat)
    requires CityKeysUnique(cs) && i < |cs|
    ensures CityById(cs, cs[i].cityId) == Some(cs[i])
  {
    var r := CityById(cs, cs[i].cityId);
    assert cs[i] in cs;
    var j :| 0 <= j < |cs| && cs[j] == r.value;
  }

  lemma ConditionByIdUnique(ks: seq<WeatherCondition>, i: nat)
    requires ConditionKeysUnique(ks) && i < |ks|
    ensures ConditionById(ks, ks[i].weatherConditionId) == Some(ks[i])
  {
    var r := ConditionById(ks, ks[i].weatherConditionId);
    assert ks[i] in ks;
    var j :| 0 <= j < |ks| && ks[j] == r.value;
  }

  /** A row appended under an owner no earlier row has is the only row of that owner. */
  lemma {:induction false} RowsOfNew<T(!new)>(rows: seq<T>, owner: T -> nat, x: T)
    requires forall y :: y in rows ==> owner(y) != owner(x)
    ensures RowsOf(rows + [x], owner, owner(x)) == [x]
  {
    if |rows| > 0 {
      assert (rows + [x])[1..] == rows[1..] + [x];
      assert forall y :: y in rows[1..] ==> y in rows;
      RowsOfNew(rows[1..], owner, x);
    }
  }

  /** The rows loaded with the reading a commit adds: its city, its condition, its one wind and its one sun. */
  lemma LoadCommitted(s: Store, cf: CityFields, kf: ConditionFields, rf: ReadingFields, ws: WindSunFields)
    requires Valid(s)
    ensures var t := Committed(s, cf, kf, rf, ws); var w := t.currents[|s.currents|];
      && FindCity(t.cities, cf.name).Some?
      && FindCondition(t.conditions, kf.mainName, kf.description).Some?
      && Load(t, w) == LoadedReading(w,
           Some(t.cities[FindCity(t.cities, cf.name).value]),
           Some(t.conditions[FindCondition(t.conditions, kf.mainName, kf.description).value]),
           [t.winds[|s.winds|]], [t.suns[|s.suns|]])
  {
    var t := Committed(s, cf, kf, rf, ws);
    var w := t.currents[|s.currents|];
    CommitAppends(s, cf, kf, rf, ws);
    CommitPreservesValid(s, cf, kf, rf, ws);
    CityByIdUnique(t.cities, FindCity(t.cities, cf.name).value);
    ConditionByIdUnique(t.conditions, FindCondition(t.conditions, kf.mainName, kf.description).value);
    assert t.winds == s.winds + [t.winds[|s.winds|]];
    assert t.suns == s.suns + [t.suns[|s.suns|]];
    RowsOfNew(s.winds, WindReading, t.winds[|s.winds|]);
    RowsOfNew(s.suns, SunReading, t.suns[|s.suns|]);
  }

  /** `r` renders the decoded fields, with `c` the city the reading belongs to. */
  predicate RendersFields(r: Payload, c: City, kf: ConditionFields, rf: ReadingFields, ws: WindSunFields) {
    && r.main == Present(MainSection(NumberOrNull(rf.temperature), NumberOrNull(rf.feelsLike),
                                     NumberOrNull(rf.temperatureMin), NumberOrNull(rf.temperatureMax),
                                     IntOrNull(rf.pressure), IntOrNull(rf.humidity)))
    && r.clouds == Present(CloudsSection(IntOrNull(rf.cloudiness)))
    && r.wind == Present(WindSection(NumberOrNull(ws.speed), IntOrNull(ws.deg), NumberOrNull(ws.gust)))
    && r.sys == Present(SysSection(StringOrNull(c.code), Present(ws.sunrise as real), Present(ws.sunset as real)))
    && r.visibility == Present((if rf.visibility.Some? then TruncateToInt(rf.visibility.value * 1000.0)
                                else DefaultVisibility) as real)
    && r.dt == Present(rf.timeStamp as real)
    && r.weather.Present? && |r.weather.value| == 1
    && r.weather.value[0].main == Present(kf.mainName)
    && r.weather.value[0].description == Present(kf.description)
    && r.name == Present(c.name)
    && r.timezone == IntOrNull(c.timezone)
  }

  /** The rendering of a reading loaded with its city, its condition, one wind and one sun. */
  lemma RenderRows(w: WeatherCurrent, c: City, k: WeatherCondition, wi: Wind, su: Sun,
                   kf: ConditionFields, rf: ReadingFields, ws: WindSunFields)
    requires w == NewReading(w.weatherCurrentId, w.cityId, w.weatherConditionId, rf)
    requires wi == Wind(wi.windId, wi.weatherCurrentId, ws.speed, ws.deg, ws.gust)
    requires su == Sun(su.sunId, su.weatherCurrentId, ws.sunrise, ws.sunset)
    requires k.mainName == kf.mainName && k.description == kf.description
    ensures RendersFields(ConvertToJson(LoadedReading(w, Some(c), Some(k), [wi], [su])), c, kf, rf, ws)
  {
  }

  /** The rows a commit adds carry the decoded fields. */
  lemma CommittedRows(s: Store, cf: CityFields, kf: ConditionFields, rf: ReadingFields, ws: WindSunFields)
    ensures var t := Committed(s, cf, kf, rf, ws);
      && |t.currents| == |s.currents| + 1 && |t.winds| == |s.winds| + 1 && |t.suns| == |s.suns| + 1
      && var w := t.currents[|s.currents|];
      && w == NewReading(w.weatherCurrentId, w.cityId, w.weatherConditionId, rf)
      && t.winds[|s.winds|] == Wind(t.winds[|s.winds|].windId, t.winds[|s.winds|].weatherCurrentId, ws.speed, ws.deg, ws.gust)
      && t.suns[|s.suns|] == Sun(t.suns[|s.suns|].sunId, t.suns[|s.suns|].weatherCurrentId, ws.sunrise, ws.sunset)
  {
  }

  /** The condition a commit finds or creates has the decoded main name and description. */
  lemma CommittedCondition(s: Store, cf: CityFields, kf: ConditionFields, rf: ReadingFields, ws: WindSunFields)
    requires FindCondition(Committed(s, cf, kf, rf, ws).conditions, kf.mainName, kf.description).Some?
    ensures var t := Committed(s, cf, kf, rf, ws);
      var k := t.conditions[FindCondition(t.conditions, kf.mainName, kf.description).value];
      k.mainName == kf.mainName && k.description == kf.description
  {
  }

  /** The reading a commit adds renders the decoded fields, with the city found under the decoded name. */
  lemma RenderCommitted(s: Store, cf: CityFields, kf: ConditionFields, rf: ReadingFields, ws: WindSunFields)
    requires Valid(s)
    ensures var t := Committed(s, cf, kf, rf, ws);
      && |t.currents| == |s.currents| + 1
      && FindCity(t.cities, cf.name).Some?
      && RendersFields(ConvertToJson(Load(t, t.currents[|s.currents|])), t.cities[FindCity(t.cities, cf.name).value],
                       kf, rf, ws)
  {
    var t := Committed(s, cf, kf, rf, ws);
    LoadCommitted(s, cf, kf, rf, ws);
    CommittedRows(s, cf, kf, rf, ws);
    CommittedCondition(s, cf, kf, rf, ws);
    var c := t.cities[FindCity(t.cities, cf.name).value];
    var k := t.conditions[FindCondition(t.conditions, kf.mainName, kf.description).value];
    RenderRows(t.currents[|s.currents|], c, k, t.winds[|s.winds|], t.suns[|s.suns|], kf, rf, ws);
  }

  lemma EchoDouble(x: Prop<real>, o: Option<real>)
    requires o == Known(x)
    ensures NumberOrNull(o) == Echo(x)
  {
  }

  lemma EchoInt(x: Prop<real>, o: Option<int>)
    requires KnownInt(o) == Known(x)
    ensures IntOrNull(o) == Echo(x)
  {
  }

  /** A rendering of the fields decoded from `p` reproduces the measurements of `p`. */
  lemma FieldsReproduce(r: Payload, p: Payload, c: City, kf: ConditionFields, rf: ReadingFields, ws: WindSunFields)
    requires ReadReading(p) == Ok(rf) && ReadWindSun(p) == Ok(ws)
    requires RendersFields(r, c, kf, rf, ws)
    ensures ReproducesMeasurements(r, p)
  {
    var m := p.main.value;
    EchoDouble(m.temp, rf.temperature);
    EchoDouble(m.feelsLike, rf.feelsLike);
    EchoDouble(m.tempMin, rf.temperatureMin);
    EchoDouble(m.tempMax, rf.temperatureMax);
    EchoInt(m.pressure, rf.pressure);
    EchoInt(m.humidity, rf.humidity);
    EchoInt(p.clouds.value.all, rf.cloudiness);
    EchoDouble(p.wind.value.speed, ws.speed);
    EchoInt(p.wind.value.deg, ws.deg);
    EchoDouble(p.wind.value.gust, ws.gust);
    if p.visibility.Present? {
      assert rf.visibility.value * 1000.0 == p.visibility.value;
    }
  }

  /** The city a save creates renders the payload's name, country code and time zone. */
  lemma CreatedCityEchoed(r: Payload, p: Payload, c: City, kf: ConditionFields, rf: ReadingFields, ws: WindSunFields)
    requires ReadCity(p).Ok? && p.sys.Present?
    requires c.name == ReadCity(p).value.name && c.code == ReadCity(p).value.code && c.timezone == ReadCity(p).value.timezone
    requires RendersFields(r, c, kf, rf, ws)
    ensures r.name == Present(StoredName(p))
    ensures r.sys.value.country == (if p.sys.value.country.Present? then p.sys.value.country else Null)
    ensures r.timezone == Echo(p.timezone)
  {
    var tz := p.timezone;
    assert tz.Present? ==> c.timezone == Some(tz.value.Floor) && tz.value.Floor as real == tz.value;
  }

  /**
   * Render after save: the rendering of the reading a save adds reproduces the
   * payload's measurements (absent values as null, visibility back in metres
   * or 10000 when absent, `dt`, sunrise and sunset unchanged), a single
   * `weather` element with the payload's main name and description, and the
   * name of the stored city that matches the payload's name; when the save
   * created that city, its name, country code and time zone are the payload's.
   */
  lemma RenderAfterSave(s: Store, p: Payload, fault: Option<DbCall>, t: Store)
    requires Valid(s) && Save(s, p, fault) == Ok(t)
    ensures WellFormed(p) && |t.currents| == |s.currents| + 1
    ensures var r := ConvertToJson(Load(t, t.currents[|s.currents|]));
      && ReproducesMeasurements(r, p)
      && |r.weather.value| == 1
      && r.weather.value[0].main == Present(PayloadCondition(p).mainName)
      && r.weather.value[0].description == Present(PayloadCondition(p).description)
      && r.name.Present? && SameName(r.name.value, StoredName(p))
    ensures FindCity(s.cities, StoredName(p)).None? ==>
      var r := ConvertToJson(Load(t, t.currents[|s.currents|]));
      && r.name == Present(StoredName(p))
      && r.sys.value.country == (if p.sys.value.country.Present? then p.sys.value.country else Null)
      && r.timezone == Echo(p.timezone)
  {
    SaveSucceedsIff(s, p, fault);
    var cf, kf, rf, ws := ReadCity(p).value, ReadCondition(p).value, ReadReading(p).value, ReadWindSun(p).value;
    assert cf.name == StoredName(p);
    assert t == Committed(s, cf, kf, rf, ws);
    RenderCommitted(s, cf, kf, rf, ws);
    var r := ConvertToJson(Load(t, t.currents[|s.currents|]));
    var c := t.cities[FindCity(t.cities, cf.name).value];
    FieldsReproduce(r, p, c, kf, rf, ws);
    if FindCity(s.cities, StoredName(p)).None? {
      CommitAppends(s, cf, kf, rf, ws);
      CityFoundAfterAppend(s.cities, t.cities[|s.cities|], cf.name);
      CreatedCityEchoed(r, p, c, kf, rf, ws);
    }
  }

  /** Names that match case-insensitively find the same city. */
  lemma FindCityRespectsSameName(cs: seq<City>, a: string, b: string)
    requires SameName(a, b)
    ensures FindCity(cs, a) == FindCity(cs, b)
  {
    assert forall k :: 0 <= k < |cs| ==> (SameName(cs[k].name, a) <==> SameName(cs[k].name, b));
  }

  /**
   * A saved reading is served: after a save, a lookup by any name matching the
   * payload's name case-insensitively, at a time when the payload's `dt` is
   * inside the freshness window, is a cache hit.
   */
  lemma SavedReadingIsServed(s: Store, p: Payload, fault: Option<DbCall>, t: Store, query: string, now: int)
    requires Valid(s) && Save(s, p, fault) == Ok(t)
    requires SameName(query, StoredName(p))
    requires p.dt.Present? && p.dt.value > (now - FreshnessWindow) as real
    ensures CachedReading(t, query, now).Some?
  {
    SaveSucceedsIff(s, p, fault);
    var cf, kf, rf, ws := ReadCity(p).value, ReadCondition(p).value, ReadReading(p).value, ReadWindSun(p).value;
    assert cf.name == StoredName(p);
    assert t == Committed(s, cf, kf, rf, ws);
    CommitAppends(s, cf, kf, rf, ws);
    FindCityRespectsSameName(t.cities, query, StoredName(p));
    var i := FindCity(t.cities, query).value;
    var w := t.currents[|s.currents|];
    assert w.timeStamp == Some(rf.timeStamp);
    assert IsFresh(w, t.cities[i].cityId, now);
  }
}
