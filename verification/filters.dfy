/** The filter state of the vehicle list and how the controls change it. */
module Filters {
  import opened Api
  import opened Paging

  datatype FilterState = FilterState(selectedRoutes: seq<string>, selectedTrips: seq<string>, page: int)

  /** What a control reports: a multi-select reports the chosen values, or
      `None` when it is cleared; a page button reports its page. */
  datatype Action =
    | RouteChange(selected: Option<seq<string>>)
    | TripChange(selected: Option<seq<string>>)
    | PageClick(p: int)

  /** `selected ? selected.map(s => s.value) : []` */
  function Values(selected: Option<seq<string>>): seq<string>
  {
    match selected
    case None => []
    case Some(vs) => vs
  }

  const Initial: FilterState := FilterState([], [], 1)

  /** The state after a control fires. A route change also clears the trips
      and returns to page 1; a trip change returns to page 1; a page button
      changes only the page. */
  function Step(s: FilterState, a: Action): (r: FilterState)
    ensures !a.PageClick? ==> r.page == 1
    ensures a.RouteChange? ==> r.selectedRoutes == Values(a.selected) && r.selectedTrips == []
    ensures a.TripChange? ==> r.selectedRoutes == s.selectedRoutes && r.selectedTrips == Values(a.selected)
    ensures a.PageClick? ==> r == s.(page := a.p)
  {
    match a
    case RouteChange(selected) => FilterState(Values(selected), [], 1)
    case TripChange(selected) => s.(selectedTrips := Values(selected), page := 1)
    case PageClick(p) => s.(page := p)
  }

  /** What holds of every reachable state: the page is one a button can
      select, 1 to 5, and trips are selected only while a route is. */
  predicate Consistent(s: FilterState)
  {
    1 <= s.page <= 5 && (s.selectedTrips != [] ==> s.selectedRoutes != [])
  }

  /** Whether the control behind `a` is on screen: the trip control only
      while a route is selected, and only the page buttons for `totalPages`. */
  predicate Enabled(s: FilterState, a: Action, totalPages: int)
  {
    match a
    case RouteChange(_) => true
    case TripChange(_) => s.selectedRoutes != []
    case PageClick(p) => p in PageButtons(totalPages)
  }

  /** Every control that can fire keeps the state consistent. */
  lemma StepConsistent(s: FilterState, a: Action, totalPages: int)
    requires Consistent(s) && Enabled(s, a, totalPages)
    ensures Consistent(Step(s, a))
  {
  }

  /** A route change forgets whatever happened before it: the trips chosen
      and the page clicked under the old routes. */
  lemma RouteChangeForgets(s: FilterState, earlier: Action, selected: Option<seq<string>>)
    ensures Step(Step(s, earlier), RouteChange(selected)) == Step(s, RouteChange(selected))
  {
  }

  /** A trip change keeps the routes and forgets a page clicked before it. */
  lemma TripChangeKeepsRoutes(s: FilterState, selected: Option<seq<string>>, p: int)
    ensures Step(s, TripChange(selected)).selectedRoutes == s.selectedRoutes
    ensures Step(Step(s, PageClick(p)), TripChange(selected)) == Step(s, TripChange(selected))
  {
  }

  /** Whether every action of `trace` is on screen when it fires; each
      action is paired with the page count shown at that moment, which the
      fetches between actions decide. */
  predicate EnabledAlong(s: FilterState, trace: seq<(Action, int)>)
    decreases |trace|
  {
    trace == [] ||
    (Enabled(s, trace[0].0, trace[0].1) && EnabledAlong(Step(s, trace[0].0), trace[1..]))
  }

  /** The state after the actions of `trace`, in order. */
  function Run(s: FilterState, trace: seq<(Action, int)>): FilterState
    decreases |trace|
  {
    if trace == [] then s else Run(Step(s, trace[0].0), trace[1..])
  }

  /** Every state the controls can reach from the initial one is consistent. */
  lemma {:induction false} RunConsistent(s: FilterState, trace: seq<(Action, int)>)
    requires Consistent(s) && EnabledAlong(s, trace)
    ensures Consistent(Run(s, trace))
    decreases |trace|
  {
    if trace != [] {
      StepConsistent(s, trace[0].0, trace[0].1);
      RunConsistent(Step(s, trace[0].0), trace[1..]);
    }
  }
}
