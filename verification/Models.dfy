/** internal/models: the entities shared by the services. Wall-clock columns are not modelled. */
module Models {
  datatype Option<+T> = None | Some(value: T)

  datatype Result<+T, +E> = Success(value: T) | Failure(error: E)

  datatype Point = Point(lat: real, lng: real)

  datatype LocationUpdate = LocationUpdate(driver: string, at: Point, available: bool)

  datatype RideRequest = RideRequest(rider: string, at: Point)

  datatype Candidate = Candidate(driver: string, at: Point, distance: real)

  datatype TripState = REQUESTED | ASSIGNED | IN_PROGRESS | COMPLETED | CANCELLED

  /** A trip as the API holds it; `created` and `updated` are clock readings, 0 before assignment. */
  datatype Trip = Trip(id: string, rider: string, driver: string, region: string, state: TripState, surge: real,
                       created: int, updated: int)

  datatype TripEvent = TripEvent(trip: string, rider: string, driver: string, region: string, state: TripState, surge: real)

  datatype Notification = Notification(user: string, kind: TripState, trip: string, message: string)
}
