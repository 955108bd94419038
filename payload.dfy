/**
 * The JSON document exchanged with the weather provider and returned to callers,
 * restricted to the properties the service reads or writes, and the
 * System.Text.Json accessors the service uses on it.
 *
 * A property is `Absent` (not in the object), `Null` (present with the JSON value
 * null) or `Present`. JSON numbers are exact reals.
 */
module WeatherJson {
  import opened Wrappers

  datatype Prop<+T> = Absent | Null | Present(value: T) {
    /** The value, or `default` for an absent property or a null. */
    function GetOr(default: T): T {
      if Present? then value else default
    }
  }

  datatype WeatherItem = WeatherItem(id: Prop<real>, main: Prop<string>, description: Prop<string>, icon: Prop<string>)

  datatype MainSection = MainSection(
    temp: Prop<real>, feelsLike: Prop<real>, tempMin: Prop<real>, tempMax: Prop<real>,
    pressure: Prop<real>, humidity: Prop<real>)

  datatype CloudsSection = CloudsSection(all: Prop<real>)

  datatype WindSection = WindSection(speed: Prop<real>, deg: Prop<real>, gust: Prop<real>)

  datatype SysSection = SysSection(country: Prop<string>, sunrise: Prop<real>, sunset: Prop<real>)

  datatype Payload = Payload(
    name: Prop<string>,
    weather: Prop<seq<WeatherItem>>,
    main: Prop<MainSection>,
    clouds: Prop<CloudsSection>,
    wind: Prop<WindSection>,
    sys: Prop<SysSection>,
    visibility: Prop<real>,
    dt: Prop<real>,
    timezone: Prop<real>,
    id: Prop<real>,
    cod: Prop<real>)

  /**
   * A database call that can throw, in the order a lookup makes them: the two
   * cache queries (Services/WeatherService.cs:30-31, 36-44), then, inside the
   * save, BeginTransaction (line 67), the city query (84-85), SaveChanges for a
   * created city (96), the condition query (109-111), SaveChanges for a created
   * condition (122), SaveChanges for the reading (147) and for the wind and sun
   * (166), and the commit (167).
   */
  datatype DbCall =
    | QueryCachedCity | QueryCachedReading
    | BeginTransaction | QueryCity | SaveCity | QueryCondition | SaveCondition | SaveReading | SaveWindSun | Commit

  /** The exceptions that abort a weather lookup. */
  datatype Error =
    | CityNotFound(city: string)               // provider answered 404
    | InvalidApiKey                            // provider answered 401
    | FetchFailed(city: string, status: int)   // any other non-success status
    | MissingProperty(path: string)            // GetProperty on an absent property or index
    | InvalidValue(path: string)               // a null or a number of the wrong kind
    | DatabaseFailure(call: DbCall)            // a query, SaveChanges, BeginTransaction or Commit threw

  const Int32Min: int := -0x8000_0000
  const Int32Max: int := 0x7FFF_FFFF
  const Int64Min: int := -0x8000_0000_0000_0000
  const Int64Max: int := 0x7FFF_FFFF_FFFF_FFFF

  predicate IsInteger(x: real) { x.Floor as real == x }

  /** A number `GetInt32` accepts, or an absent property. */
  predicate FitsInt32OrAbsent(p: Prop<real>) {
    p.Absent? || (p.Present? && IsInteger(p.value) && Int32Min <= p.value.Floor <= Int32Max)
  }

  /** A number `GetInt64` accepts. */
  predicate FitsInt64(p: Prop<real>) {
    p.Present? && IsInteger(p.value) && Int64Min <= p.value.Floor <= Int64Max
  }

  /** `GetProperty(name)` on an object: fails only when the property is absent. */
  function GetProperty<T>(p: Prop<T>, path: string): (r: Result<Prop<T>, Error>)
    ensures r.Ok? <==> !p.Absent?
    ensures r.Ok? ==> r.value == p
    ensures r.Err? ==> r.error == MissingProperty(path)
  {
    if p.Absent? then Err(MissingProperty(path)) else Ok(p)
  }

  /** Using an element as an object (`TryGetProperty`, `GetProperty` on it): a null fails. */
  function AsObject<T>(p: Prop<T>, path: string): (r: Result<T, Error>)
    ensures r.Ok? <==> p.Present?
    ensures r.Ok? ==> r.value == p.value
  {
    match p
    case Absent => Err(MissingProperty(path))
    case Null => Err(InvalidValue(path))
    case Present(v) => Ok(v)
  }

  /** `GetProperty(name).GetString() ?? default`. */
  function StringOr(p: Prop<string>, path: string, default: string): (r: Result<string, Error>)
    ensures r.Ok? <==> !p.Absent?
    ensures r.Ok? ==> r.value == (if p.Present? then p.value else default)
  {
    match p
    case Absent => Err(MissingProperty(path))
    case Null => Ok(default)
    case Present(s) => Ok(s)
  }

  /** `GetProperty(name).GetString()`, which may yield null. */
  function NullableString(p: Prop<string>, path: string): (r: Result<Option<string>, Error>)
    ensures r.Ok? <==> !p.Absent?
    ensures r.Ok? ==> (r.value.Some? <==> p.Present?)
    ensures r.Ok? && p.Present? ==> r.value.value == p.value
  {
    match p
    case Absent => Err(MissingProperty(path))
    case Null => Ok(None)
    case Present(s) => Ok(Some(s))
  }

  /** `TryGetProperty(name, out x) ? x.GetDouble() : null`: absence is kept, a null throws. */
  function OptionalDouble(p: Prop<real>, path: string): (r: Result<Option<real>, Error>)
    ensures r.Ok? <==> !p.Null?
    ensures r.Ok? ==> (r.value.Some? <==> p.Present?)
    ensures r.Ok? && p.Present? ==> r.value.value == p.value
  {
    match p
    case Absent => Ok(None)
    case Null => Err(InvalidValue(path))
    case Present(x) => Ok(Some(x))
  }

  /** `TryGetProperty(name, out x) ? x.GetInt32() : null`: a null, a fraction or an out-of-range number throws. */
  function OptionalInt32(p: Prop<real>, path: string): (r: Result<Option<int>, Error>)
    ensures r.Ok? <==> p.Absent? || (p.Present? && IsInteger(p.value) && Int32Min <= p.value.Floor <= Int32Max)
    ensures r.Ok? ==> (r.value.Some? <==> p.Present?)
    ensures r.Ok? && p.Present? ==> r.value.value as real == p.value
  {
    match p
    case Absent => Ok(None)
    case Null => Err(InvalidValue(path))
    case Present(x) =>
      if IsInteger(x) && Int32Min <= x.Floor <= Int32Max then Ok(Some(x.Floor)) else Err(InvalidValue(path))
  }

  /** `GetProperty(name).GetInt64()`: the property is required. */
  function RequiredInt64(p: Prop<real>, path: string): (r: Result<int, Error>)
    ensures r.Ok? <==> p.Present? && IsInteger(p.value) && Int64Min <= p.value.Floor <= Int64Max
    ensures r.Ok? ==> r.value as real == p.value
    ensures p.Absent? ==> r == Err(MissingProperty(path))
  {
    match p
    case Absent => Err(MissingProperty(path))
    case Null => Err(InvalidValue(path))
    case Present(x) =>
      if IsInteger(x) && Int64Min <= x.Floor <= Int64Max then Ok(x.Floor) else Err(InvalidValue(path))
  }

  /** Every property is written, as a value or as null (what the serializer emits). */
  predicate Emitted(p: Payload) {
    && !p.name.Absent? && !p.main.Absent? && !p.clouds.Absent? && !p.wind.Absent? && !p.sys.Absent?
    && !p.visibility.Absent? && !p.dt.Absent? && !p.timezone.Absent? && !p.id.Absent? && !p.cod.Absent?
    && p.weather.Present?
    && (forall i :: 0 <= i < |p.weather.value| ==> ItemEmitted(p.weather.value[i]))
    && (p.main.Present? ==> MainEmitted(p.main.value))
    && (p.clouds.Present? ==> !p.clouds.value.all.Absent?)
    && (p.wind.Present? ==> !p.wind.value.speed.Absent? && !p.wind.value.deg.Absent? && !p.wind.value.gust.Absent?)
    && (p.sys.Present? ==> !p.sys.value.country.Absent? && !p.sys.value.sunrise.Absent? && !p.sys.value.sunset.Absent?)
  }

  predicate ItemEmitted(w: WeatherItem) {
    !w.id.Absent? && !w.main.Absent? && !w.description.Absent? && !w.icon.Absent?
  }

  predicate MainEmitted(m: MainSection) {
    && !m.temp.Absent? && !m.feelsLike.Absent? && !m.tempMin.Absent? && !m.tempMax.Absent?
    && !m.pressure.Absent? && !m.humidity.Absent?
  }
}
