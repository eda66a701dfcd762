/** Travel times as the Google Distance Matrix service reports them, and the
    round-trip conversion both suggestion routes apply to them. */
module Travel {
  import opened Common

  /** One element of the matrix's single row: a status and, when the route
      was found, the one-way travel time in seconds. */
  datatype Element = Element(status: string, duration: Option<nat>)

  /** A Distance Matrix reply: the top-level status and the rows (one per
      origin; both routes send one origin). */
  datatype MatrixResponse = MatrixResponse(status: string, rows: seq<seq<Element>>)

  /** `element.status === 'OK' && element.duration`: the element carries a
      usable travel time. */
  predicate Usable(e: Element)
  {
    e.status == "OK" && e.duration.Some?
  }

  /** `Math.ceil((seconds * 2) / 60)`: the round trip in whole minutes,
      rounded up, so the smallest number of minutes covering twice the
      one-way time. */
  function RoundTripMinutes(seconds: nat): (minutes: nat)
    ensures 60 * minutes >= 2 * seconds
    ensures minutes == 0 || 60 * (minutes - 1) < 2 * seconds
  {
    (2 * seconds + 59) / 60
  }

  /** `getDurations`: a reply whose top-level status is not OK is thrown as
      an error; otherwise the elements of the first row are returned (and a
      reply without rows makes `rows[0].elements` throw). */
  function GetDurations(resp: MatrixResponse): (r: Option<seq<Element>>)
    ensures r.None? <==> resp.status != "OK" || resp.rows == []
    ensures r.Some? ==> r.value == resp.rows[0]
  {
    if resp.status != "OK" then None
    else if resp.rows == [] then None
    else Some(resp.rows[0])
  }
}
