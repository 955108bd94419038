/**
 * The five tables of the weather cache (Models/City.cs, Models/WeatherCondition.cs,
 * Models/WeatherCurrent.cs, Models/Wind.cs, Models/Sun.cs) and the keys and foreign
 * keys that Data/WeatherDbContext.cs declares over them.
 *
 * Nullable columns are `Option`s. Doubles are exact reals. Identity keys are naturals.
 */
module WeatherModels {
  import opened Wrappers

  datatype City = City(cityId: nat, name: string, code: Option<string>, timezone: Option<int>)

  datatype WeatherCondition = WeatherCondition(
    weatherConditionId: nat, mainName: string, description: string, icon: string)

  /** One stored observation ("reading") of a city's weather. */
  datatype WeatherCurrent = WeatherCurrent(
    weatherCurrentId: nat,
    cityId: nat,
    weatherConditionId: nat,
    temperature: Option<real>,
    temperatureMin: Option<real>,
    temperatureMax: Option<real>,
    feelsLike: Option<real>,
    pressure: Option<int>,
    humidity: Option<int>,
    cloudiness: Option<int>,
    visibility: Option<real>,   // kilometres
    timeStamp: Option<int>)     // Unix seconds

  datatype Wind = Wind(windId: nat, weatherCurrentId: nat, speed: Option<real>, deg: Option<int>, gust: Option<real>)

  datatype Sun = Sun(sunId: nat, weatherCurrentId: nat, sunrise: int, sunset: int)

  /** The contents of the database: one sequence of rows per table. */
  datatype Store = Store(
    cities: seq<City>,
    conditions: seq<WeatherCondition>,
    currents: seq<WeatherCurrent>,
    winds: seq<Wind>,
    suns: seq<Sun>)

  /** A key larger than every key already in `rows` (the next identity value). */
  function NextKey<T>(rows: seq<T>, key: T -> nat): (r: nat)
    ensures r > 0
    ensures forall i :: 0 <= i < |rows| ==> key(rows[i]) < r
  {
    if |rows| == 0 then 1
    else
      var rest := NextKey(rows[1..], key);
      assert forall i :: 1 <= i < |rows| ==> key(rows[i]) == key(rows[1..][i - 1]);
      if key(rows[0]) < rest then rest else key(rows[0]) + 1
  }

  function NextCityId(cs: seq<City>): nat { NextKey(cs, (c: City) => c.cityId) }
  function NextConditionId(ks: seq<WeatherCondition>): nat { NextKey(ks, (k: WeatherCondition) => k.weatherConditionId) }
  function NextCurrentId(ws: seq<WeatherCurrent>): nat { NextKey(ws, (w: WeatherCurrent) => w.weatherCurrentId) }
  function NextWindId(ws: seq<Wind>): nat { NextKey(ws, (w: Wind) => w.windId) }
  function NextSunId(ss: seq<Sun>): nat { NextKey(ss, (s: Sun) => s.sunId) }

  // Primary keys (the HasKey calls of Data/WeatherDbContext.cs).

  predicate CityKeysUnique(cs: seq<City>) {
    forall i, j :: 0 <= i < j < |cs| ==> cs[i].cityId != cs[j].cityId
  }
  predicate ConditionKeysUnique(ks: seq<WeatherCondition>) {
    forall i, j :: 0 <= i < j < |ks| ==> ks[i].weatherConditionId != ks[j].weatherConditionId
  }
  predicate CurrentKeysUnique(ws: seq<WeatherCurrent>) {
    forall i, j :: 0 <= i < j < |ws| ==> ws[i].weatherCurrentId != ws[j].weatherCurrentId
  }
  predicate WindKeysUnique(ws: seq<Wind>) {
    forall i, j :: 0 <= i < j < |ws| ==> ws[i].windId != ws[j].windId
  }
  predicate SunKeysUnique(ss: seq<Sun>) {
    forall i, j :: 0 <= i < j < |ss| ==> ss[i].sunId != ss[j].sunId
  }

  predicate HasCity(cs: seq<City>, id: nat) { exists c :: c in cs && c.cityId == id }
  predicate HasCondition(ks: seq<WeatherCondition>, id: nat) { exists k :: k in ks && k.weatherConditionId == id }
  predicate HasCurrent(ws: seq<WeatherCurrent>, id: nat) { exists w :: w in ws && w.weatherCurrentId == id }

  /**
   * The database invariant: primary keys are unique and every foreign key
   * (WeatherCurrent -> City, WeatherCurrent -> WeatherCondition, Wind -> WeatherCurrent,
   * Sun -> WeatherCurrent) names an existing row.
   */
  predicate Valid(s: Store) {
    && CityKeysUnique(s.cities)
    && ConditionKeysUnique(s.conditions)
    && CurrentKeysUnique(s.currents)
    && WindKeysUnique(s.winds)
    && SunKeysUnique(s.suns)
    && (forall w :: w in s.currents ==> HasCity(s.cities, w.cityId) && HasCondition(s.conditions, w.weatherConditionId))
    && (forall x :: x in s.winds ==> HasCurrent(s.currents, x.weatherCurrentId))
    && (forall x :: x in s.suns ==> HasCurrent(s.currents, x.weatherCurrentId))
  }
}
