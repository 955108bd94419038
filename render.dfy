/** ConvertToJson (Services/WeatherService.cs:178-227): the payload served on a cache hit. */
module Render {
  import opened Wrappers
  import opened WeatherModels
  import opened WeatherJson
  import opened StoreQueries
  import opened Normalizer

  /** Visibility, in metres, reported when none is stored. */
  const DefaultVisibility: int := 10000

  /** The status code written into every rendered payload. */
  const RenderedCod: int := 200

  /** C#'s `(int)` cast of a double: truncation toward zero. */
  function TruncateToInt(x: real): (r: int)
    ensures 0.0 <= x ==> r as real <= x < r as real + 1.0
    ensures x < 0.0 ==> r as real - 1.0 < x <= r as real
    ensures IsInteger(x) ==> r as real == x
  {
    if x >= 0.0 then x.Floor
    else
      assert IsInteger(x) ==> (-x).Floor as real == -x by {
        if IsInteger(x) { assert -(x.Floor) as real == -x; }
      }
      -((-x).Floor)
  }

  function NumberOrNull(x: Option<real>): Prop<real> {
    if x.Some? then Present(x.value) else Null
  }

  function IntOrNull(x: Option<int>): Prop<real> {
    if x.Some? then Present(x.value as real) else Null
  }

  function StringOrNull(x: Option<string>): Prop<string> {
    if x.Some? then Present(x.value) else Null
  }

  /**
   * The payload built from a stored reading. Every property is written (a
   * missing value as null); `wind` and `sys` are null exactly when the reading
   * has no Wind or Sun row, and otherwise carry its first Wind and Sun row;
   * `weather` has exactly one element, the reading's condition or empty
   * strings and 0 without one. Each stored measurement reads back as itself,
   * and a missing one as null; visibility goes back to metres, truncated, and
   * is 10000 when none is stored; `dt` is 0 without a time stamp; `id` is the
   * reading's city key and `cod` is 200.
   */
  function ConvertToJson(w: LoadedReading): (r: Payload)
    ensures Emitted(r)
    ensures r.name == (if w.city.Some? then Present(w.city.value.name) else Null)
    ensures r.timezone == (if w.city.Some? && w.city.value.timezone.Some?
                           then Present(w.city.value.timezone.value as real) else Null)
    ensures |r.weather.value| == 1
    ensures var k := r.weather.value[0];
      && k.id == Present((if w.condition.Some? then w.condition.value.weatherConditionId else 0) as real)
      && k.main == Present(if w.condition.Some? then w.condition.value.mainName else "")
      && k.description == Present(if w.condition.Some? then w.condition.value.description else "")
      && k.icon == Present(if w.condition.Some? then w.condition.value.icon else "")
    ensures r.main.Present? && r.clouds.Present?
    ensures var m := r.main.value;
      && Known(m.temp) == w.current.temperature && Known(m.feelsLike) == w.current.feelsLike
      && Known(m.tempMin) == w.current.temperatureMin && Known(m.tempMax) == w.current.temperatureMax
      && Known(m.pressure) == KnownInt(w.current.pressure) && Known(m.humidity) == KnownInt(w.current.humidity)
      && Known(r.clouds.value.all) == KnownInt(w.current.cloudiness)
    ensures r.wind.Null? <==> |w.winds| == 0
    ensures |w.winds| > 0 ==>
      && Known(r.wind.value.speed) == w.winds[0].speed
      && Known(r.wind.value.deg) == KnownInt(w.winds[0].deg)
      && Known(r.wind.value.gust) == w.winds[0].gust
    ensures r.sys.Null? <==> |w.suns| == 0
    ensures |w.suns| > 0 ==>
      && r.sys.value.sunrise == Present(w.suns[0].sunrise as real)
      && r.sys.value.sunset == Present(w.suns[0].sunset as real)
      && r.sys.value.country == (if w.city.Some? && w.city.value.code.Some? then Present(w.city.value.code.value) else Null)
    ensures w.current.visibility.None? ==> r.visibility == Present(DefaultVisibility as real)
    ensures w.current.visibility.Some? ==> r.visibility == Present(TruncateToInt(w.current.visibility.value * 1000.0) as real)
    ensures r.dt == Present(if w.current.timeStamp.Some? then w.current.timeStamp.value as real else 0.0)
    ensures IsInteger(r.visibility.value) && IsInteger(r.dt.value)
    ensures r.id == Present(w.current.cityId as real)
    ensures r.cod == Present(RenderedCod as real)
  {
    var c := w.current;
    Payload(
      name := if w.city.Some? then Present(w.city.value.name) else Null,
      weather := Present([WeatherItem(
        id := Present((if w.condition.Some? then w.condition.value.weatherConditionId else 0) as real),
        main := Present(if w.condition.Some? then w.condition.value.mainName else ""),
        description := Present(if w.condition.Some? then w.condition.value.description else ""),
        icon := Present(if w.condition.Some? then w.condition.value.icon else ""))]),
      main := Present(MainSection(
        temp := NumberOrNull(c.temperature),
        feelsLike := NumberOrNull(c.feelsLike),
        tempMin := NumberOrNull(c.temperatureMin),
        tempMax := NumberOrNull(c.temperatureMax),
        pressure := IntOrNull(c.pressure),
        humidity := IntOrNull(c.humidity))),
      clouds := Present(CloudsSection(all := IntOrNull(c.cloudiness))),
      wind := if |w.winds| > 0
              then Present(WindSection(NumberOrNull(w.winds[0].speed), IntOrNull(w.winds[0].deg), NumberOrNull(w.winds[0].gust)))
              else Null,
      sys := if |w.suns| > 0
             then Present(SysSection(
                    country := if w.city.Some? then StringOrNull(w.city.value.code) else Null,
                    sunrise := Present(w.suns[0].sunrise as real),
                    sunset := Present(w.suns[0].sunset as real)))
             else Null,
      visibility := Present((if c.visibility.Some? then TruncateToInt(c.visibility.value * 1000.0) else DefaultVisibility) as real),
      dt := Present(c.timeStamp.GetOr(0) as real),
      timezone := if w.city.Some? then IntOrNull(w.city.value.timezone) else Null,
      id := Present(c.cityId as real),
      cod := Present(RenderedCod as real))
  }
}
