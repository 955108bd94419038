/**
 * The decomposition of a provider payload into the fields of the rows that
 * SaveWeatherToDatabaseAsync writes (Services/WeatherService.cs:76-162).
 *
 * The reads are split into the four stages the save interleaves with database
 * calls; within a stage they are made in the order the C# code makes them, so
 * the first failing read names the error that the save rethrows.
 */
module Normalizer {
  import opened Wrappers
  import opened WeatherJson

  datatype CityFields = CityFields(name: string, code: Option<string>, timezone: Option<int>)

  datatype ConditionFields = ConditionFields(mainName: string, description: string, icon: string)

  datatype ReadingFields = ReadingFields(
    temperature: Option<real>, temperatureMin: Option<real>, temperatureMax: Option<real>, feelsLike: Option<real>,
    pressure: Option<int>, humidity: Option<int>, cloudiness: Option<int>,
    visibility: Option<real>, timeStamp: int)

  datatype WindSunFields = WindSunFields(speed: Option<real>, deg: Option<int>, gust: Option<real>, sunrise: int, sunset: int)

  /** Lines 76-78: the city's name (null becomes "Unknown"), country code and UTC offset. */
  function ReadCity(p: Payload): (r: Result<CityFields, Error>)
    ensures r.Ok? <==> !p.name.Absent? && p.sys.Present? && !p.sys.value.country.Absent? && !p.timezone.Null?
                       && (p.timezone.Present? ==> IsInteger(p.timezone.value) && Int32Min <= p.timezone.value.Floor <= Int32Max)
    ensures r.Ok? ==> r.value.name == (if p.name.Present? then p.name.value else "Unknown")
    ensures r.Ok? ==> (r.value.code.Some? <==> p.sys.value.country.Present?)
    ensures r.Ok? && p.sys.value.country.Present? ==> r.value.code == Some(p.sys.value.country.value)
    ensures r.Ok? ==> (r.value.timezone.Some? <==> p.timezone.Present?)
    ensures r.Ok? && p.timezone.Present? ==> r.value.timezone.value as real == p.timezone.value
    ensures p.name.Absent? ==> r == Err(MissingProperty("name"))
  {
    var name :- StringOr(p.name, "name", "Unknown");
    var sys :- AsObject(p.sys, "sys");
    var code :- NullableString(sys.country, "sys.country");
    var timezone :- OptionalInt32(p.timezone, "timezone");
    Ok(CityFields(name, code, timezone))
  }

  /** Lines 102-106: only the first element of `weather` is read; nulls become "". */
  function ReadCondition(p: Payload): (r: Result<ConditionFields, Error>)
    ensures r.Ok? <==> p.weather.Present? && |p.weather.value| > 0
                       && !p.weather.value[0].main.Absent? && !p.weather.value[0].description.Absent?
                       && !p.weather.value[0].icon.Absent?
    ensures r.Ok? ==> r.value == ConditionFields(
                        p.weather.value[0].main.GetOr(""),
                        p.weather.value[0].description.GetOr(""),
                        p.weather.value[0].icon.GetOr(""))
  {
    var items :- AsObject(p.weather, "weather");
    if |items| == 0 then Err(MissingProperty("weather[0]"))
    else
      var first := items[0];
      var mainName :- StringOr(first.main, "weather[0].main", "");
      var description :- StringOr(first.description, "weather[0].description", "");
      var icon :- StringOr(first.icon, "weather[0].icon", "");
      Ok(ConditionFields(mainName, description, icon))
  }

  /**
   * Lines 126-143: the reading's measurements. Optional numbers that are absent
   * stay absent; visibility is converted from metres to kilometres; `dt` is required.
   */
  function ReadReading(p: Payload): (r: Result<ReadingFields, Error>)
    ensures r.Ok? <==>
      && p.main.Present? && p.clouds.Present? && !p.wind.Absent? && !p.sys.Absent?
      && !p.main.value.temp.Null? && !p.main.value.tempMin.Null?
      && !p.main.value.tempMax.Null? && !p.main.value.feelsLike.Null?
      && FitsInt32OrAbsent(p.main.value.pressure) && FitsInt32OrAbsent(p.main.value.humidity)
      && FitsInt32OrAbsent(p.clouds.value.all) && FitsInt32OrAbsent(p.visibility)
      && FitsInt64(p.dt)
    ensures r.Ok? ==> p.main.Present? && p.clouds.Present? && !p.wind.Absent? && !p.sys.Absent? && p.dt.Present?
    ensures r.Ok? ==>
      && r.value.temperature == Known(p.main.value.temp)
      && r.value.temperatureMin == Known(p.main.value.tempMin)
      && r.value.temperatureMax == Known(p.main.value.tempMax)
      && r.value.feelsLike == Known(p.main.value.feelsLike)
      && KnownInt(r.value.pressure) == Known(p.main.value.pressure)
      && KnownInt(r.value.humidity) == Known(p.main.value.humidity)
      && KnownInt(r.value.cloudiness) == Known(p.clouds.value.all)
      && r.value.timeStamp as real == p.dt.value
    ensures r.Ok? ==> (r.value.visibility.Some? <==> p.visibility.Present?)
    ensures r.Ok? && p.visibility.Present? ==>
              IsInteger(p.visibility.value) && r.value.visibility.value == p.visibility.value / 1000.0
    ensures p.main.Absent? ==> r == Err(MissingProperty("main"))
    ensures p.dt.Absent? ==> r.Err?
  {
    var main :- GetProperty(p.main, "main");
    var clouds :- GetProperty(p.clouds, "clouds");
    var _ :- GetProperty(p.wind, "wind");
    var _ :- GetProperty(p.sys, "sys");
    var m :- AsObject(main, "main");
    var temp :- OptionalDouble(m.temp, "main.temp");
    var tempMin :- OptionalDouble(m.tempMin, "main.temp_min");
    var tempMax :- OptionalDouble(m.tempMax, "main.temp_max");
    var feelsLike :- OptionalDouble(m.feelsLike, "main.feels_like");
    var pressure :- OptionalInt32(m.pressure, "main.pressure");
    var humidity :- OptionalInt32(m.humidity, "main.humidity");
    var c :- AsObject(clouds, "clouds");
    var all :- OptionalInt32(c.all, "clouds.all");
    var visibility :- OptionalInt32(p.visibility, "visibility");
    var dt :- RequiredInt64(p.dt, "dt");
    Ok(ReadingFields(temp, tempMin, tempMax, feelsLike, pressure, humidity, all,
                     if visibility.Some? then Some(visibility.value as real / 1000.0) else None,
                     dt))
  }

  /** Lines 152-162: the wind's measurements and the sun's times; sunrise and sunset are required. */
  function ReadWindSun(p: Payload): (r: Result<WindSunFields, Error>)
    ensures r.Ok? <==>
      && p.wind.Present? && !p.wind.value.speed.Null? && FitsInt32OrAbsent(p.wind.value.deg) && !p.wind.value.gust.Null?
      && p.sys.Present? && FitsInt64(p.sys.value.sunrise) && FitsInt64(p.sys.value.sunset)
    ensures r.Ok? ==>
      && p.wind.Present? && p.sys.Present?
      && p.sys.value.sunrise.Present? && p.sys.value.sunset.Present?
    ensures r.Ok? ==>
      && r.value.speed == Known(p.wind.value.speed)
      && KnownInt(r.value.deg) == Known(p.wind.value.deg)
      && r.value.gust == Known(p.wind.value.gust)
      && r.value.sunrise as real == p.sys.value.sunrise.value
      && r.value.sunset as real == p.sys.value.sunset.value
  {
    var wind :- AsObject(p.wind, "wind");
    var speed :- OptionalDouble(wind.speed, "wind.speed");
    var deg :- OptionalInt32(wind.deg, "wind.deg");
    var gust :- OptionalDouble(wind.gust, "wind.gust");
    var sys :- AsObject(p.sys, "sys");
    var sunrise :- RequiredInt64(sys.sunrise, "sys.sunrise");
    var sunset :- RequiredInt64(sys.sunset, "sys.sunset");
    Ok(WindSunFields(speed, deg, gust, sunrise, sunset))
  }

  /** The value of an optional number property, absence kept as None. */
  function Known(p: Prop<real>): Option<real> {
    if p.Present? then Some(p.value) else None
  }

  function KnownInt(x: Option<int>): Option<real> {
    if x.Some? then Some(x.value as real) else None
  }
}
