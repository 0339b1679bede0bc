/** The `VehicleList` component: its state, the two loaders and the
    handlers of its filter controls. Requests are not sent; the caller
    supplies the outcome of each request the loaders would send. */
module Component {
  import opened Api
  import opened Requests
  import opened Paging
  import opened Fetching
  import opened Trips
  import opened Filters

  class VehicleList {
    var vehicles: seq<Vehicle>
    var allVehicles: seq<Vehicle>
    var loading: bool
    var limit: nat
    var page: int
    var selectedRoutes: seq<string>
    var selectedTrips: seq<string>

    ghost predicate Valid()
      reads this
    {
      limit > 0 && Consistent(State()) && |vehicles| <= limit
    }

    function State(): FilterState
      reads this
    {
      FilterState(selectedRoutes, selectedTrips, page)
    }

    /** `totalPages`: the least number of pages of `limit` rows that holds
        everything fetched, 0 when nothing was. */
    function PageCount(): (r: nat)
      reads this
      requires limit > 0
      ensures |allVehicles| <= r * limit
      ensures r == 0 || (r - 1) * limit < |allVehicles|
      ensures r == 0 <==> allVehicles == []
    {
      TotalPages(|allVehicles|, limit)
    }

    /** The state of a freshly mounted component. */
    constructor ()
      ensures Valid()
      ensures vehicles == [] && allVehicles == [] && loading
      ensures limit == 10 && State() == Initial
    {
      vehicles, allVehicles := [], [];
      loading := true;
      limit, page := 10, 1;
      selectedRoutes, selectedTrips := [], [];
    }

    /** `fetchVehicles`: request the vehicles of every selected route (or of
        all routes) one after the other, append them, keep them all and show
        page `page`. `responses[i]` is the outcome of the i-th request; the
        first that throws ends the run and leaves both lists as they were.
        Returns the URLs requested. */
    method FetchVehicles(responses: seq<Response>) returns (requested: seq<string>)
      requires Valid()
      requires |responses| == |Plan(selectedRoutes, selectedTrips)|
      modifies this
      ensures Valid() && !loading
      ensures State() == old(State()) && limit == old(limit)
      ensures |requested| == Issued(responses, false)
      ensures requested == Plan(selectedRoutes, selectedTrips)[..|requested|]
      ensures match Collect(responses, false)
              case Some(all) => allVehicles == all && vehicles == PageWindow(all, page, limit)
              case None => allVehicles == old(allVehicles) && vehicles == old(vehicles)
    {
      loading := true;
      var outcome;
      requested, outcome := TryFetchVehicles(selectedRoutes, selectedTrips, responses);
      if outcome.Some? {
        allVehicles := outcome.value;
        vehicles := PageWindow(allVehicles, page, limit);
        PageWindowRange(allVehicles, page, limit);
      }
      loading := false;
    }

    /** The `try` block of `fetchVehicles`: one request per entry of the
        plan, in order, concatenating each response's `data`. Stops at the
        first request that throws and then yields `None`. */
    static method TryFetchVehicles(selectedRoutes: seq<string>, selectedTrips: seq<string>, responses: seq<Response>)
      returns (requested: seq<string>, outcome: Option<seq<Vehicle>>)
      requires |responses| == |Plan(selectedRoutes, selectedTrips)|
      ensures |requested| == Issued(responses, false)
      ensures requested == Plan(selectedRoutes, selectedTrips)[..|requested|]
      ensures outcome == Collect(responses, false)
    {
      ghost var plan := Plan(selectedRoutes, selectedTrips);
      var allData: seq<Vehicle> := [];
      var routesToFetch := Targets(selectedRoutes);
      assert |plan| == |routesToFetch| == |responses|;
      requested := [];
      var i := 0;
      while i < |routesToFetch|
        invariant 0 <= i <= |routesToFetch|
        invariant requested == plan[..i]
        invariant Collect(responses[..i], false) == Some(allData)
        invariant forall j :: 0 <= j < i ==> !Throws(responses[j], false)
      {
        var url := RequestUrl(routesToFetch[i], selectedTrips);
        assert url == plan[i];
        assert plan[..i + 1] == plan[..i] + [url];
        requested := requested + [url];
        var res := responses[i];
        if res.Fail? {
          IssuedSkip(responses, false, i);
          CollectFailsIff(responses, false);
          return requested, None;
        }
        CollectStep(responses, false, i);
        allData := allData + Rows(res);
        i := i + 1;
      }
      IssuedSkip(responses, false, i);
      assert responses[..i] == responses;
      outcome := Some(allData);
    }

    /** `loadTrips`: the options of the trip control for the selected
        routes. `responses[i]` is the outcome of the request for the i-th
        route; a request that throws, or a body without `data`, yields no
        options at all (the `catch`). */
    method LoadTrips(responses: seq<Response>) returns (options: seq<TripOption>)
      requires |responses| == |selectedRoutes|
      ensures selectedRoutes == [] ==> options == []
      ensures options == match Collect(responses, true)
                         case None => []
                         case Some(seen) => Derive(seen)
      ensures forall k1, k2 :: 0 <= k1 < k2 < |options| ==> options[k1].value != options[k2].value
    {
      if |selectedRoutes| == 0 {
        return [];
      }
      var outcome := TryLoadTrips(selectedRoutes, responses);
      match outcome
      case None =>
        options := [];
      case Some(found) =>
        options := found;
        NoDuplicateTrips(Collect(responses, true).value);
    }

    /** The `try` block of `loadTrips`: one request per route, in order,
        with the set-plus-list loop over each response's vehicles. `None`
        when a request throws or a body has no `data`. */
    static method TryLoadTrips(routes: seq<string>, responses: seq<Response>)
      returns (outcome: Option<seq<TripOption>>)
      requires |responses| == |routes|
      ensures outcome == match Collect(responses, true)
                         case None => None
                         case Some(seen) => Some(Derive(seen))
    {
      var tripSet: set<string> := {};
      var options: seq<TripOption> := [];
      ghost var seen: seq<Vehicle> := [];
      var i := 0;
      while i < |routes|
        invariant 0 <= i <= |routes|
        invariant Collect(responses[..i], true) == Some(seen)
        invariant tripSet == TripIds(seen)
        invariant options == Derive(seen)
      {
        var res := responses[i];
        if res.Fail? || res.data.None? {
          CollectFailsIff(responses, true);
          return None;
        }
        var data := res.data.value;
        tripSet, options := AddTrips(data, seen, tripSet, options);
        CollectStep(responses, true, i);
        seen := seen + data;
        i := i + 1;
      }
      assert responses[..i] == responses;
      outcome := Some(options);
    }

    /** The inner loop of `loadTrips` over one response's vehicles: a
        vehicle on a trip not in `tripSet` adds the trip to the set and its
        option to the list. Given the set and list for the vehicles `seen`
        so far, it returns those for `seen + data`. */
    static method AddTrips(data: seq<Vehicle>, ghost seen: seq<Vehicle>, tripSet0: set<string>, options0: seq<TripOption>)
      returns (tripSet: set<string>, options: seq<TripOption>)
      requires tripSet0 == TripIds(seen) && options0 == Derive(seen)
      ensures tripSet == TripIds(seen + data)
      ensures options == Derive(seen + data)
    {
      tripSet, options := tripSet0, options0;
      ghost var walked := seen;
      assert seen + data[..0] == seen;
      var j := 0;
      while j < |data|
        invariant 0 <= j <= |data|
        invariant walked == seen + data[..j]
        invariant tripSet == TripIds(walked)
        invariant options == Derive(walked)
      {
        var vehicle := data[j];
        DeriveStep(walked, vehicle, tripSet, options);
        if Truthy(vehicle.tripId) && vehicle.tripId.value !in tripSet {
          tripSet := tripSet + {vehicle.tripId.value};
          options := options + [OptionFor(vehicle)];
        }
        WalkNext(seen, data, j);
        walked := walked + [vehicle];
        j := j + 1;
      }
      assert data[..|data|] == data;
    }

    /** The URL the loop body of `fetchVehicles` builds for one route. */
    static method RequestUrl(route: Option<string>, selectedTrips: seq<string>) returns (url: string)
      ensures url == Url(route, selectedTrips)
    {
      url := Endpoint + "?page[limit]=100";
      if Truthy(route) {
        url := Endpoint + "?filter[route]=" + route.value + "&page[limit]=100";
      }
      ghost var head := url;
      if |selectedTrips| > 0 {
        url := url + "&filter[trip]=" + Join(selectedTrips, ',');
        AppendAssoc(head, "&filter[trip]=", Join(selectedTrips, ','));
      }
      UrlAsTemplate(route, selectedTrips);
    }

    /** The route control's `onChange`. */
    method OnRouteChange(selected: Option<seq<string>>)
      requires Valid()
      modifies this
      ensures Valid()
      ensures State() == Step(old(State()), RouteChange(selected))
      ensures vehicles == old(vehicles) && allVehicles == old(allVehicles)
      ensures loading == old(loading) && limit == old(limit)
    {
      var values := Values(selected);
      selectedRoutes := values;
      selectedTrips := [];
      page := 1;
    }

    /** The trip control's `onChange`; the control is only on screen while
        a route is selected. */
    method OnTripChange(selected: Option<seq<string>>)
      requires Valid()
      requires selectedRoutes != []
      modifies this
      ensures Valid()
      ensures State() == Step(old(State()), TripChange(selected))
      ensures vehicles == old(vehicles) && allVehicles == old(allVehicles)
      ensures loading == old(loading) && limit == old(limit)
    {
      var values := Values(selected);
      selectedTrips := values;
      page := 1;
    }

    /** A page button's `onClick`; only the buttons for the current page
        count are on screen. */
    method SelectPage(p: int)
      requires Valid()
      requires p in PageButtons(PageCount())
      modifies this
      ensures Valid()
      ensures State() == Step(old(State()), PageClick(p))
      ensures vehicles == old(vehicles) && allVehicles == old(allVehicles)
      ensures loading == old(loading) && limit == old(limit)
    {
      page := p;
    }
  }
}
