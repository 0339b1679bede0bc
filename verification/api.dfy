/** The records the vehicle list reads from the upstream transit API, reduced
    to the fields its logic looks at. Coordinates, speed, bearing and the
    update timestamp are only displayed, so they are not part of the model. */
module Api {

  datatype Option<+T> = None | Some(value: T)

  /** JavaScript truthiness of an optional string: a missing value and the
      empty string are both falsy. */
  predicate Truthy(s: Option<string>)
  {
    s.Some? && s.value != ""
  }

  /** One element of a `/vehicles` response's `data` array, reduced to
      `attributes.label` (as `labelText`), `attributes.current_status` and
      `relationships.trip.data.id`, each missing when the record lacks it. */
  datatype Vehicle = Vehicle(
    labelText: Option<string>,
    currentStatus: Option<string>,
    tripId: Option<string>)

  /** The outcome of one `fetch` followed by `res.json()`: it either throws
      (network or parse error) or yields a body whose `data` member may be
      missing. */
  datatype Response = Fail | Ok(data: Option<seq<Vehicle>>)

  /** An option of the trip filter control: `value` and `label` (as `text`). */
  datatype TripOption = TripOption(value: string, text: string)
}
