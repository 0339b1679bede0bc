/** The colour class of a vehicle's `current_status`. */
module Status {
  import opened Api

  const InTransit: string := "IN_TRANSIT_TO"
  const StoppedAt: string := "STOPPED_AT"
  const IncomingAt: string := "INCOMING_AT"

  const Green: string := "text-green-600"
  const Red: string := "text-red-600"
  const Yellow: string := "text-yellow-600"
  const Gray: string := "text-gray-600"

  predicate IsKnownStatus(status: Option<string>)
  {
    status == Some(InTransit) || status == Some(StoppedAt) || status == Some(IncomingAt)
  }

  /** The colour class for `status`; every other value, and a missing one,
      is gray. */
  function StatusColor(status: Option<string>): (r: string)
    ensures status == Some(InTransit) ==> r == Green
    ensures status == Some(StoppedAt) ==> r == Red
    ensures status == Some(IncomingAt) ==> r == Yellow
    ensures r == Gray <==> !IsKnownStatus(status)
  {
    match status
    case Some(s) =>
      if s == InTransit then Green
      else if s == StoppedAt then Red
      else if s == IncomingAt then Yellow
      else Gray
    case None => Gray
  }

  /** The class of the status on a vehicle's card and in its detail overlay,
      read from the vehicle's `current_status`: green, red or yellow exactly
      for the three known statuses, gray for every other value. */
  function CardClass(v: Vehicle): (r: string)
    ensures r == Green <==> v.currentStatus == Some(InTransit)
    ensures r == Red <==> v.currentStatus == Some(StoppedAt)
    ensures r == Yellow <==> v.currentStatus == Some(IncomingAt)
    ensures r == Gray <==> !IsKnownStatus(v.currentStatus)
  {
    StatusColor(v.currentStatus)
  }

  /** Each of the three known statuses has a colour of its own: two
      statuses share a colour only when both are unknown or they are the
      same status. */
  lemma StatusColorDistinguishes(a: Option<string>, b: Option<string>)
    ensures StatusColor(a) == StatusColor(b) <==> a == b || (!IsKnownStatus(a) && !IsKnownStatus(b))
  {
  }
}
