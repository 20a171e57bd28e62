/** The two record types of the fuel core: an aircraft's performance profile and
    one leg of a route. Both are plain values; nothing updates them in place. */
module Models {

  /** Performance profile of one aircraft type. */
  datatype Aircraft = Aircraft(
    aircraftType: string,
    cruiseSpeed: real,       // km/h
    fuelBurnPerHour: real    // kg/h
  )

  /** One leg of a route, as read from one row of a route file. */
  datatype RouteSegment = RouteSegment(
    waypoint: string,
    distanceKm: real,
    wind: real,              // km/h, signed: a tailwind is positive
    turbulence: real         // fractional fuel penalty
  )
}
