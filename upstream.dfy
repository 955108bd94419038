/** The status classification of FetchWeatherFromApiAsync (Services/WeatherService.cs:229-258). */
module Upstream {
  import opened Wrappers
  import opened WeatherJson

  /** The provider's answer to one GET: its status code and its body, already parsed. */
  datatype HttpResponse = HttpResponse(status: int, body: Payload)

  const StatusNotFound: int := 404
  const StatusUnauthorized: int := 401

  /** `HttpResponseMessage.IsSuccessStatusCode`. */
  predicate IsSuccessStatusCode(status: int) {
    200 <= status <= 299
  }

  /**
   * A success returns the body unchanged; 404 means the city is unknown, 401 that
   * the API key is wrong, and any other failure reports its numeric status code.
   */
  function FetchResult(city: string, response: HttpResponse): (r: Result<Payload, Error>)
    ensures r.Ok? <==> IsSuccessStatusCode(response.status)
    ensures r.Ok? ==> r.value == response.body
    ensures r == Err(CityNotFound(city)) <==> response.status == StatusNotFound
    ensures r == Err(InvalidApiKey) <==> response.status == StatusUnauthorized
    ensures r.Err? && response.status != StatusNotFound && response.status != StatusUnauthorized ==>
              r.error == FetchFailed(city, response.status)
  {
    if !IsSuccessStatusCode(response.status) then
      if response.status == StatusNotFound then Err(CityNotFound(city))
      else if response.status == StatusUnauthorized then Err(InvalidApiKey)
      else Err(FetchFailed(city, response.status))
    else
      Ok(response.body)
  }
}
