/** The health-check response of the HTTP server (`healthResponse`). */
module Health {
  import opened Common

  datatype HealthBody = HealthBody(status: string, message: string, error: Option<string>)

  datatype HealthResult = HealthResult(httpStatus: int, response: HealthBody)

  const HEALTHY_MESSAGE := "Server and database are running properly"
  const DOWN_MESSAGE := "Database connection failed"
  const FAILED_MESSAGE := "Health check failed"

  /** The status code, status word and message for a database probe; `error` is the
      message of the exception the probe raised, if it raised one. */
  function HealthResponse(isConnected: bool, error: Option<string>): (r: HealthResult)
    ensures r.response.status == "healthy" <==> isConnected
    ensures r.response.status == "unhealthy" <==> !isConnected
    ensures r.httpStatus == 200 <==> isConnected
    ensures r.httpStatus == 503 <==> !isConnected
    ensures error.Some? ==> r.response.message == FAILED_MESSAGE && r.response.error == error
    ensures error.None? ==> r.response.error.None?
    ensures error.None? && isConnected ==> r.response.message == HEALTHY_MESSAGE
    ensures error.None? && !isConnected ==> r.response.message == DOWN_MESSAGE
  {
    var status := if isConnected then "healthy" else "unhealthy";
    var httpStatus := if isConnected then 200 else 503;
    var message :=
      if error.Some? then FAILED_MESSAGE
      else if isConnected then HEALTHY_MESSAGE
      else DOWN_MESSAGE;
    HealthResult(httpStatus, HealthBody(status, message, error))
  }

  /** The `/health` route: a probe that answers gives the plain response, a probe that
      throws gives the failure response as if disconnected. */
  function HealthRoute(probe: Option<bool>, thrown: string): (r: HealthResult)
    ensures r.httpStatus == 200 <==> probe == Some(true)
    ensures probe.None? ==> r.response == HealthBody("unhealthy", FAILED_MESSAGE, Some(thrown))
    ensures probe.Some? ==> r.response.error.None?
  {
    match probe
    case Some(connected) => HealthResponse(connected, None)
    case None => HealthResponse(false, Some(thrown))
  }
}
