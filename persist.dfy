/**
 * The effect of SaveWeatherToDatabaseAsync (Services/WeatherService.cs:64-176)
 * on the store, as a function of the store before the call, the payload, and
 * the database call that fails (if any), with the properties the save keeps.
 */
module Persist {
  import opened Wrappers
  import opened WeatherModels
  import opened WeatherJson
  import opened Normalizer
  import opened StoreQueries

  /** The rows of a table after a find-or-create, and the key of the row found or created. */
  datatype Found<T> = Found(rows: seq<T>, id: nat, created: bool)

  /**
   * Lines 84-98: reuse the first city whose name matches case-insensitively,
   * unchanged; otherwise append one new city with a fresh key.
   */
  function FindOrCreateCity(cs: seq<City>, f: CityFields): (r: Found<City>)
    ensures r.created <==> FindCity(cs, f.name).None?
    ensures !r.created ==> r.rows == cs && r.id == cs[FindCity(cs, f.name).value].cityId
    ensures r.created ==> r.rows == cs + [City(r.id, f.name, f.code, f.timezone)] && !HasCity(cs, r.id)
  {
    match FindCity(cs, f.name)
    case Some(i) => Found(cs, cs[i].cityId, false)
    case None =>
      var id := NextCityId(cs);
      assert forall c :: c in cs ==> c.cityId < id;
      Found(cs + [City(id, f.name, f.code, f.timezone)], id, true)
  }

  /**
   * Lines 109-123: reuse the first condition with the same main name and
   * description (its icon is left as it is); otherwise append one new condition.
   */
  function FindOrCreateCondition(ks: seq<WeatherCondition>, f: ConditionFields): (r: Found<WeatherCondition>)
    ensures r.created <==> FindCondition(ks, f.mainName, f.description).None?
    ensures !r.created ==> r.rows == ks && r.id == ks[FindCondition(ks, f.mainName, f.description).value].weatherConditionId
    ensures r.created ==>
      r.rows == ks + [WeatherCondition(r.id, f.mainName, f.description, f.icon)] && !HasCondition(ks, r.id)
  {
    match FindCondition(ks, f.mainName, f.description)
    case Some(i) => Found(ks, ks[i].weatherConditionId, false)
    case None =>
      var id := NextConditionId(ks);
      assert forall k :: k in ks ==> k.weatherConditionId < id;
      Found(ks + [WeatherCondition(id, f.mainName, f.description, f.icon)], id, true)
  }

  /**
   * Lines 131-144: the new reading, under the given key, referencing the city
   * and the condition found or created before it; its time stamp is always set
   * (from `dt`), so the freshness filter of the cache lookup can see it.
   */
  function NewReading(id: nat, cityId: nat, conditionId: nat, f: ReadingFields): (r: WeatherCurrent)
    ensures r.weatherCurrentId == id && r.cityId == cityId && r.weatherConditionId == conditionId
    ensures r.timeStamp == Some(f.timeStamp)
    ensures r.temperature == f.temperature && r.visibility == f.visibility
  {
    WeatherCurrent(id, cityId, conditionId, f.temperature, f.temperatureMin, f.temperatureMax, f.feelsLike,
                   f.pressure, f.humidity, f.cloudiness, f.visibility, Some(f.timeStamp))
  }

  /** Whether the database call `call` is the one that throws. */
  predicate Fails(fault: Option<DbCall>, call: DbCall) {
    fault == Some(call)
  }

  /** The store after the transaction commits the rows built from the decoded fields. */
  function Committed(s: Store, cf: CityFields, kf: ConditionFields, rf: ReadingFields, ws: WindSunFields): Store {
    var city := FindOrCreateCity(s.cities, cf);
    var condition := FindOrCreateCondition(s.conditions, kf);
    var reading := NewReading(NextCurrentId(s.currents), city.id, condition.id, rf);
    Store(
      city.rows,
      condition.rows,
      s.currents + [reading],
      s.winds + [Wind(NextWindId(s.winds), reading.weatherCurrentId, ws.speed, ws.deg, ws.gust)],
      s.suns + [Sun(NextSunId(s.suns), reading.weatherCurrentId, ws.sunrise, ws.sunset)])
  }

  /**
   * The committed store, or the exception that rolls the transaction back.
   * The steps are made in the order of lines 67-167: begin the transaction,
   * read the city fields, query the city and create it (SaveChanges) when none
   * matches, read the condition fields, query the condition and create it
   * (SaveChanges) when none matches, read and add the reading (SaveChanges),
   * read and add the wind and the sun (SaveChanges), commit.
   */
  function Save(s: Store, p: Payload, fault: Option<DbCall>): (r: Result<Store, Error>)
    ensures Fails(fault, BeginTransaction) ==> r == Err(DatabaseFailure(BeginTransaction))
    ensures r.Err? && r.error.DatabaseFailure? ==> fault == Some(r.error.call)
  {
    if Fails(fault, BeginTransaction) then Err(DatabaseFailure(BeginTransaction))
    else
      var cityFields :- ReadCity(p);
      if Fails(fault, QueryCity) then Err(DatabaseFailure(QueryCity))
      else if FindOrCreateCity(s.cities, cityFields).created && Fails(fault, SaveCity) then Err(DatabaseFailure(SaveCity))
      else SaveFromCondition(s, p, fault, cityFields)
  }

  /** The save from line 102 on, after the city is found or created. */
  function SaveFromCondition(s: Store, p: Payload, fault: Option<DbCall>, cityFields: CityFields): (r: Result<Store, Error>)
    ensures r.Err? && r.error.DatabaseFailure? ==> fault == Some(r.error.call)
  {
    var conditionFields :- ReadCondition(p);
    if Fails(fault, QueryCondition) then Err(DatabaseFailure(QueryCondition))
    else if FindOrCreateCondition(s.conditions, conditionFields).created && Fails(fault, SaveCondition)
    then Err(DatabaseFailure(SaveCondition))
    else SaveFromReading(s, p, fault, cityFields, conditionFields)
  }

  /** The save from line 126 on, after the condition is found or created. */
  function SaveFromReading(s: Store, p: Payload, fault: Option<DbCall>, cityFields: CityFields,
                              conditionFields: ConditionFields): (r: Result<Store, Error>)
    ensures r.Err? && r.error.DatabaseFailure? ==> fault == Some(r.error.call)
  {
    var readingFields :- ReadReading(p);
    if Fails(fault, SaveReading) then Err(DatabaseFailure(SaveReading))
    else
      var windSun :- ReadWindSun(p);
      if Fails(fault, SaveWindSun) then Err(DatabaseFailure(SaveWindSun))
      else if Fails(fault, Commit) then Err(DatabaseFailure(Commit))
      else Ok(Committed(s, cityFields, conditionFields, readingFields, windSun))
  }

  /** The name under which a payload's city is stored (a null name becomes "Unknown"). */
  function StoredName(p: Payload): string {
    if p.name.Present? then p.name.value else "Unknown"
  }

  /** Every part the save reads is well formed. */
  predicate WellFormed(p: Payload) {
    ReadCity(p).Ok? && ReadCondition(p).Ok? && ReadReading(p).Ok? && ReadWindSun(p).Ok?
  }

  /** The store a committed save of a well-formed payload produces. */
  function CommittedFrom(s: Store, p: Payload): Store
    requires WellFormed(p)
  {
    Committed(s, ReadCity(p).value, ReadCondition(p).value, ReadReading(p).value, ReadWindSun(p).value)
  }

  /**
   * The save commits exactly when every part it reads is well formed and the
   * database does not reject one of the calls the save makes; the calls made
   * are BeginTransaction, the city query, SaveChanges for a created city, the
   * condition query, SaveChanges for a created condition, for the reading and
   * for the wind and sun, and the commit. The two cache queries are not part
   * of the save. What it commits depends on the payload and the store alone.
   */
  lemma SaveSucceedsIff(s: Store, p: Payload, fault: Option<DbCall>)
    ensures Save(s, p, fault).Ok? <==>
      && WellFormed(p)
      && !Fails(fault, BeginTransaction) && !Fails(fault, QueryCity) && !Fails(fault, QueryCondition)
      && !(Fails(fault, SaveCity) && FindCity(s.cities, StoredName(p)).None?)
      && !(Fails(fault, SaveCondition) &&
           FindCondition(s.conditions, ReadCondition(p).value.mainName, ReadCondition(p).value.description).None?)
      && !Fails(fault, SaveReading) && !Fails(fault, SaveWindSun) && !Fails(fault, Commit)
    ensures Save(s, p, fault).Ok? ==> Save(s, p, fault).value == CommittedFrom(s, p)
  {
    if ReadCity(p).Ok? {
      assert ReadCity(p).value.name == StoredName(p);
    }
  }

  /** A missing name, sys, weather[0], main, clouds, wind, dt, sunrise or sunset makes the save fail. */
  lemma RequiredPartsMissing(s: Store, p: Payload, fault: Option<DbCall>)
    requires
      || p.name.Absent? || !p.sys.Present? || !p.weather.Present? || |p.weather.value| == 0
      || !p.main.Present? || !p.clouds.Present? || !p.wind.Present? || !p.dt.Present?
      || !p.sys.value.sunrise.Present? || !p.sys.value.sunset.Present?
    ensures Save(s, p, fault).Err?
  {
    SaveSucceedsIff(s, p, fault);
  }

  /** `prefix` is an initial segment of `rows`: existing rows are untouched. */
  predicate Extends<T(==)>(prefix: seq<T>, rows: seq<T>) {
    |prefix| <= |rows| && rows[..|prefix|] == prefix
  }

  /**
   * A commit keeps every existing row, adds at most one city (exactly when
   * none matched the payload's name), at most one condition (exactly when none
   * matched its main name and description), and exactly one reading, one wind
   * and one sun. The wind and the sun reference the new reading; the reading
   * references the found or created city and condition.
   */
  lemma CommitAppends(s: Store, cf: CityFields, kf: ConditionFields, rf: ReadingFields, ws: WindSunFields)
    ensures var t := Committed(s, cf, kf, rf, ws);
      && Extends(s.cities, t.cities) && Extends(s.conditions, t.conditions)
      && (|t.cities| == |s.cities| + 1 <==> FindCity(s.cities, cf.name).None?)
      && (|t.conditions| == |s.conditions| + 1 <==> FindCondition(s.conditions, kf.mainName, kf.description).None?)
      && |t.cities| <= |s.cities| + 1
      && |t.conditions| <= |s.conditions| + 1
      && |t.currents| == |s.currents| + 1 && Extends(s.currents, t.currents)
      && |t.winds| == |s.winds| + 1 && Extends(s.winds, t.winds)
      && |t.suns| == |s.suns| + 1 && Extends(s.suns, t.suns)
    ensures var t := Committed(s, cf, kf, rf, ws); var w := t.currents[|s.currents|];
      && t.winds[|s.winds|].weatherCurrentId == w.weatherCurrentId
      && t.suns[|s.suns|].weatherCurrentId == w.weatherCurrentId
      && !HasCurrent(s.currents, w.weatherCurrentId)
      && FindCity(t.cities, cf.name).Some?
      && w.cityId == t.cities[FindCity(t.cities, cf.name).value].cityId
      && FindCondition(t.conditions, kf.mainName, kf.description).Some?
      && w.weatherConditionId == t.conditions[FindCondition(t.conditions, kf.mainName, kf.description).value].weatherConditionId
  {
    var id := NextCurrentId(s.currents);
    assert forall w :: w in s.currents ==> w.weatherCurrentId < id;
    var city := FindOrCreateCity(s.cities, cf);
    if city.created {
      CityFoundAfterAppend(s.cities, City(city.id, cf.name, cf.code, cf.timezone), cf.name);
    }
    var condition := FindOrCreateCondition(s.conditions, kf);
    if condition.created {
      ConditionFoundAfterAppend(s.conditions, WeatherCondition(condition.id, kf.mainName, kf.description, kf.icon));
    }
  }

  /** After appending a city named `name` to a table with no match, the lookup finds it. */
  lemma CityFoundAfterAppend(cs: seq<City>, c: City, name: string)
    requires FindCity(cs, name).None? && SameName(c.name, name)
    ensures FindCity(cs + [c], name) == Some(|cs|)
  {
    var r := FindCity(cs + [c], name);
    assert forall k :: 0 <= k < |cs| ==> (cs + [c])[k] == cs[k];
    assert (cs + [c])[|cs|] == c;
  }

  /** After appending a condition to a table with no match, the lookup finds it. */
  lemma ConditionFoundAfterAppend(ks: seq<WeatherCondition>, k: WeatherCondition)
    requires FindCondition(ks, k.mainName, k.description).None?
    ensures FindCondition(ks + [k], k.mainName, k.description) == Some(|ks|)
  {
    assert forall j :: 0 <= j < |ks| ==> (ks + [k])[j] == ks[j];
    assert (ks + [k])[|ks|] == k;
  }

  /** Appending rows keeps the rows referenced so far. */
  lemma HasCityGrows(cs: seq<City>, more: seq<City>, id: nat)
    requires HasCity(cs, id)
    ensures HasCity(cs + more, id)
  {
    var c :| c in cs && c.cityId == id;
    assert c in cs + more;
  }

  lemma HasConditionGrows(ks: seq<WeatherCondition>, more: seq<WeatherCondition>, id: nat)
    requires HasCondition(ks, id)
    ensures HasCondition(ks + more, id)
  {
    var k :| k in ks && k.weatherConditionId == id;
    assert k in ks + more;
  }

  lemma HasCurrentGrows(ws: seq<WeatherCurrent>, more: seq<WeatherCurrent>, id: nat)
    requires HasCurrent(ws, id)
    ensures HasCurrent(ws + more, id)
  {
    var w :| w in ws && w.weatherCurrentId == id;
    assert w in ws + more;
  }

  lemma AppendCityKeepsKeysUnique(cs: seq<City>, c: City)
    requires CityKeysUnique(cs) && !HasCity(cs, c.cityId)
    ensures CityKeysUnique(cs + [c])
  {
    forall i, j | 0 <= i < j < |cs| + 1
      ensures (cs + [c])[i].cityId != (cs + [c])[j].cityId
    {
      if j == |cs| { assert cs[i] in cs; }
    }
  }

  lemma AppendConditionKeepsKeysUnique(ks: seq<WeatherCondition>, k: WeatherCondition)
    requires ConditionKeysUnique(ks) && !HasCondition(ks, k.weatherConditionId)
    ensures ConditionKeysUnique(ks + [k])
  {
    forall i, j | 0 <= i < j < |ks| + 1
      ensures (ks + [k])[i].weatherConditionId != (ks + [k])[j].weatherConditionId
    {
      if j == |ks| { assert ks[i] in ks; }
    }
  }

  /** A commit keeps every primary key unique: each new key differs from the keys before it. */
  lemma CommitKeepsKeysUnique(s: Store, cf: CityFields, kf: ConditionFields, rf: ReadingFields, ws: WindSunFields)
    requires Valid(s)
    ensures var t := Committed(s, cf, kf, rf, ws);
      && CityKeysUnique(t.cities) && ConditionKeysUnique(t.conditions) && CurrentKeysUnique(t.currents)
      && WindKeysUnique(t.winds) && SunKeysUnique(t.suns)
  {
    var t := Committed(s, cf, kf, rf, ws);
    var city := FindOrCreateCity(s.cities, cf);
    if city.created {
      AppendCityKeepsKeysUnique(s.cities, t.cities[|s.cities|]);
    }
    var condition := FindOrCreateCondition(s.conditions, kf);
    if condition.created {
      AppendConditionKeepsKeysUnique(s.conditions, t.conditions[|s.conditions|]);
    }
    assert CurrentKeysUnique(t.currents) by {
      var id := NextCurrentId(s.currents);
      assert forall i :: 0 <= i < |s.currents| ==> s.currents[i].weatherCurrentId < id;
    }
    assert WindKeysUnique(t.winds) by {
      var id := NextWindId(s.winds);
      assert forall i :: 0 <= i < |s.winds| ==> s.winds[i].windId < id;
    }
    assert SunKeysUnique(t.suns) by {
      var id := NextSunId(s.suns);
      assert forall i :: 0 <= i < |s.suns| ==> s.suns[i].sunId < id;
    }
  }

  /** A commit keeps every reading's city and condition, and gives the new reading existing ones. */
  lemma CommitKeepsReadingReferences(s: Store, cf: CityFields, kf: ConditionFields, rf: ReadingFields, ws: WindSunFields)
    requires Valid(s)
    ensures var t := Committed(s, cf, kf, rf, ws);
      forall x :: x in t.currents ==> HasCity(t.cities, x.cityId) && HasCondition(t.conditions, x.weatherConditionId)
  {
    var t := Committed(s, cf, kf, rf, ws);
    var city := FindOrCreateCity(s.cities, cf);
    var condition := FindOrCreateCondition(s.conditions, kf);
    var w := t.currents[|s.currents|];
    assert t.currents == s.currents + [w];
    assert HasCity(t.cities, w.cityId) by {
      if city.created {
        assert t.cities[|s.cities|] in t.cities;
      } else {
        assert s.cities[FindCity(s.cities, cf.name).value] in t.cities;
      }
    }
    assert HasCondition(t.conditions, w.weatherConditionId) by {
      if condition.created {
        assert t.conditions[|s.conditions|] in t.conditions;
      } else {
        assert s.conditions[FindCondition(s.conditions, kf.mainName, kf.description).value] in t.conditions;
      }
    }
    var moreCities := t.cities[|s.cities|..];
    var moreConditions := t.conditions[|s.conditions|..];
    assert s.cities + moreCities == t.cities;
    assert s.conditions + moreConditions == t.conditions;
    forall x | x in t.currents
      ensures HasCity(t.cities, x.cityId) && HasCondition(t.conditions, x.weatherConditionId)
    {
      if x != w {
        assert x in s.currents;
        HasCityGrows(s.cities, moreCities, x.cityId);
        HasConditionGrows(s.conditions, moreConditions, x.weatherConditionId);
      }
    }
  }

  /** A commit keeps every wind and sun attached to a reading, the new ones to the new reading. */
  lemma CommitKeepsWindSunReferences(s: Store, cf: CityFields, kf: ConditionFields, rf: ReadingFields, ws: WindSunFields)
    requires Valid(s)
    ensures var t := Committed(s, cf, kf, rf, ws);
      && (forall x :: x in t.winds ==> HasCurrent(t.currents, x.weatherCurrentId))
      && (forall x :: x in t.suns ==> HasCurrent(t.currents, x.weatherCurrentId))
  {
    var t := Committed(s, cf, kf, rf, ws);
    var w := t.currents[|s.currents|];
    assert t.currents == s.currents + [w];
    assert w in t.currents;
    forall x | x in t.winds
      ensures HasCurrent(t.currents, x.weatherCurrentId)
    {
      if x in s.winds {
        HasCurrentGrows(s.currents, [w], x.weatherCurrentId);
      }
    }
    forall x | x in t.suns
      ensures HasCurrent(t.currents, x.weatherCurrentId)
    {
      if x in s.suns {
        HasCurrentGrows(s.currents, [w], x.weatherCurrentId);
      }
    }
  }

  /** A commit keeps the database invariant: unique keys and intact foreign keys. */
  lemma CommitPreservesValid(s: Store, cf: CityFields, kf: ConditionFields, rf: ReadingFields, ws: WindSunFields)
    requires Valid(s)
    ensures Valid(Committed(s, cf, kf, rf, ws))
  {
    CommitKeepsKeysUnique(s, cf, kf, rf, ws);
    CommitKeepsReadingReferences(s, cf, kf, rf, ws);
    CommitKeepsWindSunReferences(s, cf, kf, rf, ws);
  }

  /** A committed save keeps the database invariant. */
  lemma SavePreservesValid(s: Store, p: Payload, fault: Option<DbCall>)
    requires Valid(s) && Save(s, p, fault).Ok?
    ensures Valid(Save(s, p, fault).value)
  {
    SaveSucceedsIff(s, p, fault);
    CommitPreservesValid(s, ReadCity(p).value, ReadCondition(p).value, ReadReading(p).value, ReadWindSun(p).value);
  }

  /** The condition the payload describes: main name and description of `weather[0]`. */
  function PayloadCondition(p: Payload): ConditionFields
    requires ReadCondition(p).Ok?
  {
    ReadCondition(p).value
  }

  /**
   * What a committed save adds, stated on the payload: at most one city (exactly
   * when no city's name matches the payload's name case-insensitively), at most
   * one condition, and exactly one reading, wind and sun, the wind and the sun
   * referencing the reading and the reading referencing the city matched by the
   * payload's name and the condition matched by `weather[0]`.
   */
  lemma SaveAppends(s: Store, p: Payload, fault: Option<DbCall>)
    requires Save(s, p, fault).Ok?
    ensures WellFormed(p)
    ensures var t := Save(s, p, fault).value;
      && Extends(s.cities, t.cities) && Extends(s.conditions, t.conditions)
      && (|t.cities| == |s.cities| + 1 <==> FindCity(s.cities, StoredName(p)).None?)
      && |t.cities| <= |s.cities| + 1 && |t.conditions| <= |s.conditions| + 1
      && |t.currents| == |s.currents| + 1 && Extends(s.currents, t.currents)
      && |t.winds| == |s.winds| + 1 && Extends(s.winds, t.winds)
      && |t.suns| == |s.suns| + 1 && Extends(s.suns, t.suns)
    ensures var t := Save(s, p, fault).value; var w := t.currents[|s.currents|]; var k := PayloadCondition(p);
      && t.winds[|s.winds|].weatherCurrentId == w.weatherCurrentId
      && t.suns[|s.suns|].weatherCurrentId == w.weatherCurrentId
      && FindCity(t.cities, StoredName(p)).Some?
      && w.cityId == t.cities[FindCity(t.cities, StoredName(p)).value].cityId
      && FindCondition(t.conditions, k.mainName, k.description).Some?
      && w.weatherConditionId == t.conditions[FindCondition(t.conditions, k.mainName, k.description).value].weatherConditionId
  {
    SaveSucceedsIff(s, p, fault);
    assert ReadCity(p).value.name == StoredName(p);
    CommitAppends(s, ReadCity(p).value, ReadCondition(p).value, ReadReading(p).value, ReadWindSun(p).value);
  }

  /** Committing again with the same city and condition fields reuses the rows the first commit found or created. */
  lemma CommitTwiceReuses(s: Store, cf: CityFields, kf: ConditionFields, rf: ReadingFields, ws: WindSunFields,
                          rf2: ReadingFields, ws2: WindSunFields)
    ensures var t := Committed(s, cf, kf, rf, ws); var u := Committed(t, cf, kf, rf2, ws2);
      && u.cities == t.cities && u.conditions == t.conditions
      && u.currents[|t.currents|].cityId == t.currents[|s.currents|].cityId
      && u.currents[|t.currents|].weatherConditionId == t.currents[|s.currents|].weatherConditionId
  {
    CommitAppends(s, cf, kf, rf, ws);
  }

  /**
   * Find-or-create is idempotent: saving the same payload again reuses the
   * city and the condition the first save found or created.
   */
  lemma SaveTwiceReusesCityAndCondition(s: Store, p: Payload, fault1: Option<DbCall>, fault2: Option<DbCall>,
                                        t: Store, u: Store)
    requires Save(s, p, fault1) == Ok(t) && Save(t, p, fault2) == Ok(u)
    ensures u.cities == t.cities && u.conditions == t.conditions
    ensures |s.currents| < |t.currents| < |u.currents|
    ensures u.currents[|t.currents|].cityId == t.currents[|s.currents|].cityId
    ensures u.currents[|t.currents|].weatherConditionId == t.currents[|s.currents|].weatherConditionId
  {
    SaveSucceedsIff(s, p, fault1);
    SaveSucceedsIff(t, p, fault2);
    var cf, kf, rf, ws := ReadCity(p).value, ReadCondition(p).value, ReadReading(p).value, ReadWindSun(p).value;
    assert t == Committed(s, cf, kf, rf, ws);
    assert u == Committed(t, cf, kf, rf, ws);
    CommitTwiceReuses(s, cf, kf, rf, ws, rf, ws);
  }

  /** No two cities have names that match case-insensitively. */
  predicate CityNamesDistinct(cs: seq<City>) {
    forall i, j :: 0 <= i < j < |cs| ==> !SameName(cs[i].name, cs[j].name)
  }

  /** No two conditions have the same main name and description. */
  predicate ConditionsDistinct(ks: seq<WeatherCondition>) {
    forall i, j :: 0 <= i < j < |ks| ==> !SameCondition(ks[i], ks[j].mainName, ks[j].description)
  }

  /** A save never creates a second city or condition for what an existing row already matches. */
  lemma SaveKeepsRowsDistinct(s: Store, p: Payload, fault: Option<DbCall>)
    requires Save(s, p, fault).Ok?
    requires CityNamesDistinct(s.cities) && ConditionsDistinct(s.conditions)
    ensures CityNamesDistinct(Save(s, p, fault).value.cities)
    ensures ConditionsDistinct(Save(s, p, fault).value.conditions)
  {
    SaveSucceedsIff(s, p, fault);
    var cf := ReadCity(p).value;
    var kf := ReadCondition(p).value;
    var city := FindOrCreateCity(s.cities, cf);
    var condition := FindOrCreateCondition(s.conditions, kf);
    if city.created {
      var cs := city.rows;
      forall i, j | 0 <= i < j < |cs|
        ensures !SameName(cs[i].name, cs[j].name)
      {
        if j == |s.cities| {
          assert cs[j].name == cf.name && cs[i] == s.cities[i];
        }
      }
    }
    if condition.created {
      var ks := condition.rows;
      forall i, j | 0 <= i < j < |ks|
        ensures !SameCondition(ks[i], ks[j].mainName, ks[j].description)
      {
        if j == |s.conditions| {
          assert ks[i] == s.conditions[i];
        }
      }
    }
  }
}
