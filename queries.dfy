/**
 * The reads that GetWeatherByCityAsync and SaveWeatherToDatabaseAsync make on
 * the store (Services/WeatherService.cs:30-44, 84-85, 109-111).
 */
module StoreQueries {
  import opened Wrappers
  import opened WeatherModels

  /** The freshness window of the cache, in seconds (30 minutes). */
  const FreshnessWindow: int := 30 * 60

  function LowerChar(c: char): char {
    if 'A' <= c <= 'Z' then (c as int + 32) as char else c
  }

  /** `ToLower` on ASCII letters. */
  function Lower(s: string): (r: string)
    ensures |r| == |s|
  {
    seq(|s|, i requires 0 <= i < |s| => LowerChar(s[i]))
  }

  /** `a.ToLower() == b.ToLower()`: the names match case-insensitively. */
  predicate SameName(a: string, b: string) {
    Lower(a) == Lower(b)
  }

  /** Each upper-case ASCII letter becomes its lower-case letter; every other character, and the order, stay. */
  lemma LowerMapsEachChar(s: string)
    ensures |Lower(s)| == |s|
    ensures forall i :: 0 <= i < |s| ==> Lower(s)[i] == if 'A' <= s[i] <= 'Z' then (s[i] as int + 32) as char else s[i]
    ensures forall i :: 0 <= i < |s| ==> !('A' <= Lower(s)[i] <= 'Z')
  {
  }

  /** Lower-casing a lower-cased name changes nothing, so a name matches its own lower-case form. */
  lemma LowerIdempotent(s: string)
    ensures Lower(Lower(s)) == Lower(s)
    ensures SameName(s, Lower(s))
  {
    assert forall i :: 0 <= i < |s| ==> Lower(Lower(s))[i] == Lower(s)[i];
  }

  /** Two names match exactly when they have the same length and agree at every position up to the case of a letter. */
  lemma SameNameIffCharwise(a: string, b: string)
    ensures SameName(a, b) <==> |a| == |b| && forall i :: 0 <= i < |a| ==> LowerChar(a[i]) == LowerChar(b[i])
  {
    if |a| == |b| && forall i :: 0 <= i < |a| ==> LowerChar(a[i]) == LowerChar(b[i]) {
      assert forall i :: 0 <= i < |a| ==> Lower(a)[i] == Lower(b)[i];
    }
    if SameName(a, b) {
      assert forall i :: 0 <= i < |a| ==> Lower(a)[i] == LowerChar(a[i]) && Lower(b)[i] == LowerChar(b[i]);
    }
  }

  /** `FirstOrDefault(c => c.Name.ToLower() == name.ToLower())`: the first city whose name matches. */
  function FindCity(cs: seq<City>, name: string): (r: Option<nat>)
    ensures r.Some? ==> r.value < |cs| && SameName(cs[r.value].name, name)
    ensures r.Some? ==> forall k :: 0 <= k < r.value ==> !SameName(cs[k].name, name)
    ensures r.None? <==> forall k :: 0 <= k < |cs| ==> !SameName(cs[k].name, name)
  {
    if |cs| == 0 then None
    else if SameName(cs[0].name, name) then Some(0)
    else
      match FindCity(cs[1..], name)
      case None => None
      case Some(k) => Some(k + 1)
  }

  predicate SameCondition(k: WeatherCondition, mainName: string, description: string) {
    k.mainName == mainName && k.description == description
  }

  /** `FirstOrDefault(wc => wc.MainName == mainName && wc.Description == description)`. */
  function FindCondition(ks: seq<WeatherCondition>, mainName: string, description: string): (r: Option<nat>)
    ensures r.Some? ==> r.value < |ks| && SameCondition(ks[r.value], mainName, description)
    ensures r.Some? ==> forall k :: 0 <= k < r.value ==> !SameCondition(ks[k], mainName, description)
    ensures r.None? <==> forall k :: 0 <= k < |ks| ==> !SameCondition(ks[k], mainName, description)
  {
    if |ks| == 0 then None
    else if SameCondition(ks[0], mainName, description) then Some(0)
    else
      match FindCondition(ks[1..], mainName, description)
      case None => None
      case Some(k) => Some(k + 1)
  }

  /**
   * A reading of city `cityId` observed strictly after `now - FreshnessWindow`.
   * A reading without a time stamp is never fresh.
   */
  predicate IsFresh(w: WeatherCurrent, cityId: nat, now: int)
    ensures IsFresh(w, cityId, now) <==>
      w.cityId == cityId && w.timeStamp.Some? && now - w.timeStamp.value < 30 * 60
  {
    w.cityId == cityId && w.timeStamp.Some? && w.timeStamp.value > now - FreshnessWindow
  }

  /**
   * `Where(fresh).OrderByDescending(w => w.TimeStamp).FirstOrDefault()`: the index of a
   * fresh reading with the greatest time stamp (the first such one on a tie).
   */
  function NewestFresh(ws: seq<WeatherCurrent>, cityId: nat, now: int): (r: Option<nat>)
    ensures r.Some? ==> r.value < |ws| && IsFresh(ws[r.value], cityId, now)
    ensures r.Some? ==> forall k :: 0 <= k < |ws| && IsFresh(ws[k], cityId, now) ==>
                          ws[k].timeStamp.value <= ws[r.value].timeStamp.value
    ensures r.None? <==> forall k :: 0 <= k < |ws| ==> !IsFresh(ws[k], cityId, now)
  {
    if |ws| == 0 then None
    else
      var rest := NewestFresh(ws[1..], cityId, now);
      assert forall k :: 1 <= k < |ws| ==> ws[k] == ws[1..][k - 1];
      if !IsFresh(ws[0], cityId, now) then
        (if rest.None? then None else Some(rest.value + 1))
      else if rest.Some? && ws[rest.value + 1].timeStamp.value > ws[0].timeStamp.value then
        Some(rest.value + 1)
      else
        Some(0)
  }

  /** The row that the navigation property `City` of a reading loads. */
  function CityById(cs: seq<City>, id: nat): (r: Option<City>)
    ensures r.Some? <==> HasCity(cs, id)
    ensures r.Some? ==> r.value in cs && r.value.cityId == id
  {
    if |cs| == 0 then None
    else if cs[0].cityId == id then Some(cs[0])
    else
      var r := CityById(cs[1..], id);
      assert forall c :: c in cs[1..] ==> c in cs;
      assert forall c :: c in cs && c != cs[0] ==> c in cs[1..];
      r
  }

  /** The row that the navigation property `WeatherCondition` of a reading loads. */
  function ConditionById(ks: seq<WeatherCondition>, id: nat): (r: Option<WeatherCondition>)
    ensures r.Some? <==> HasCondition(ks, id)
    ensures r.Some? ==> r.value in ks && r.value.weatherConditionId == id
  {
    if |ks| == 0 then None
    else if ks[0].weatherConditionId == id then Some(ks[0])
    else
      var r := ConditionById(ks[1..], id);
      assert forall k :: k in ks[1..] ==> k in ks;
      assert forall k :: k in ks && k != ks[0] ==> k in ks[1..];
      r
  }

  /** The rows of a one-to-many collection that name `id` as their owner, in table order. */
  function RowsOf<T(!new)>(rows: seq<T>, owner: T -> nat, id: nat): (r: seq<T>)
    ensures forall x :: x in r <==> x in rows && owner(x) == id
  {
    if |rows| == 0 then []
    else
      var rest := RowsOf(rows[1..], owner, id);
      assert forall x :: x in rows <==> x == rows[0] || x in rows[1..];
      if owner(rows[0]) == id then [rows[0]] + rest else rest
  }

  /** The reading a Wind row belongs to. */
  function WindReading(x: Wind): nat { x.weatherCurrentId }

  /** The reading a Sun row belongs to. */
  function SunReading(x: Sun): nat { x.weatherCurrentId }

  /** The collection `Winds` of a reading: its wind rows in table order. */
  function WindsOf(ws: seq<Wind>, id: nat): (r: seq<Wind>)
    ensures forall x :: x in r <==> x in ws && x.weatherCurrentId == id
  {
    RowsOf(ws, WindReading, id)
  }

  /** The collection `Suns` of a reading: its sun rows in table order. */
  function SunsOf(ss: seq<Sun>, id: nat): (r: seq<Sun>)
    ensures forall x :: x in r <==> x in ss && x.weatherCurrentId == id
  {
    RowsOf(ss, SunReading, id)
  }

  /** A reading with the rows its `Include` calls load (lines 37-40). */
  datatype LoadedReading = LoadedReading(
    current: WeatherCurrent,
    city: Option<City>,
    condition: Option<WeatherCondition>,
    winds: seq<Wind>,
    suns: seq<Sun>)

  function Load(s: Store, w: WeatherCurrent): (r: LoadedReading)
    ensures r.current == w
    ensures r.city.Some? <==> HasCity(s.cities, w.cityId)
    ensures r.city.Some? ==> r.city.value in s.cities && r.city.value.cityId == w.cityId
    ensures r.condition.Some? <==> HasCondition(s.conditions, w.weatherConditionId)
    ensures r.condition.Some? ==>
      r.condition.value in s.conditions && r.condition.value.weatherConditionId == w.weatherConditionId
    ensures forall x :: x in r.winds <==> x in s.winds && x.weatherCurrentId == w.weatherCurrentId
    ensures forall x :: x in r.suns <==> x in s.suns && x.weatherCurrentId == w.weatherCurrentId
  {
    LoadedReading(w, CityById(s.cities, w.cityId), ConditionById(s.conditions, w.weatherConditionId),
                  WindsOf(s.winds, w.weatherCurrentId), SunsOf(s.suns, w.weatherCurrentId))
  }

  /**
   * The cache lookup of lines 30-44: the newest fresh reading of the first city
   * whose name matches `query` case-insensitively, or None on a cache miss.
   */
  function CachedReading(s: Store, query: string, now: int): (r: Option<LoadedReading>)
    ensures r.None? <==>
      FindCity(s.cities, query).None? ||
      (forall k :: 0 <= k < |s.currents| ==> !IsFresh(s.currents[k], s.cities[FindCity(s.cities, query).value].cityId, now))
    ensures r.Some? ==>
      && r.value.current in s.currents
      && r.value.current.cityId == s.cities[FindCity(s.cities, query).value].cityId
      && r.value == Load(s, r.value.current)
    ensures r.Some? ==>
      && r.value.current.timeStamp.Some?
      && r.value.current.timeStamp.value > now - FreshnessWindow
      && (forall k :: 0 <= k < |s.currents| && s.currents[k].cityId == r.value.current.cityId
                       && s.currents[k].timeStamp.Some? ==>
                         s.currents[k].timeStamp.value <= r.value.current.timeStamp.value)
  {
    match FindCity(s.cities, query)
    case None => None
    case Some(i) =>
      match NewestFresh(s.currents, s.cities[i].cityId, now)
      case None => None
      case Some(k) => Some(Load(s, s.currents[k]))
  }
}
