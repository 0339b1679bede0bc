# Vehicle list of the MBTA live tracker, modelled in Dafny

The `VehicleList` React component fetches live vehicles from the MBTA v3 API when it mounts and whenever a filter or the page changes.
It shows them as paginated cards, and it lets the user filter by route and by trip.
This project models the component's sequential logic once the network is taken away:

- **Request planning and merge** (`fetchVehicles`). The component sends one `/vehicles` request per selected route, one after the other. When no route is selected it sends a single unscoped request. Every URL carries the comma-joined trip filter when trips are selected. The component appends the rows of all responses in request order, keeps them all, and shows one page of them. The caller supplies the outcome of each request as a `Response` (`Fail`, or `Ok` with a possibly missing `data`). The first request that throws ends the run, and the previous lists stay on screen.
- **Trip options** (`loadTrips`). The component walks the vehicles of the selected routes, route by route. It keeps a set of trip ids already seen and pushes one option per new id: value the id, label `Trip <id> (<vehicle label or id>)`. A throw anywhere gives no options at all.
- **Pagination**. The page window is `slice((page-1)*limit, page*limit)` with JavaScript's clamping. `totalPages` is `ceil(count/limit)`. The page buttons are `1..min(5, totalPages)`, and they are shown only when there is more than one page.
- **Filter state**. This is a reducer over `{selectedRoutes, selectedTrips, page}`. A route change clears the trips and goes back to page 1. A trip change goes back to page 1. A page button sets the page. The class `VehicleList` holds the component's state and applies these steps.
- **`statusColor`**: a total map from a vehicle status to a CSS class.

Since there are at most five page buttons and every filter change returns to page 1, the page always lies between 1 and 5. Vehicles past the fifth page of the merged list are therefore never shown, even when `totalPages` is larger. The model proves this and keeps it as part of the state invariant.

Modules, one file each:

- `Api` (`api.dfy`): the records.
- `Requests` (`requests.dfy`): URLs, `join`/`split`.
- `Paging` (`paging.dfy`).
- `Fetching` (`fetching.dfy`): what a run of sequential requests yields.
- `Trips` (`trips.dfy`).
- `Filters` (`filters.dfy`).
- `Status` (`status.dfy`).
- `Component` (`component.dfy`): the class.

JavaScript truthiness is modelled explicitly. A missing string and `""` are both falsy. So a vehicle with an empty trip id gives no option, and in `fetchVehicles` an empty route id gets the unscoped URL, as `if (route)` does. `loadTrips` builds its URLs without that test and without the trip filter, so there an empty route id gives `filter[route]=`.
`fetchVehicles` reads `json.data || []`, so a body without `data` contributes no rows. `loadTrips` iterates `json.data` directly, so such a body throws and yields no options. `Fetching.Collect` models both through its `strictData` flag.

## Model

| member | source | states |
|---|---|---|
| `Requests.Targets` | src/components/vehicleList.jsx:48 | `routesToFetch` has at least one entry; the unscoped `null` is in it exactly when no route is selected; otherwise its entries are the selected routes in selection order (this last clause restates the comprehension) |
| `Requests.Url` | src/components/vehicleList.jsx:51-57 | every request URL is the `/vehicles` endpoint followed by `?` and a non-empty query string |
| `Requests.Plan` | src/components/vehicleList.jsx:48-57 | the URLs `fetchVehicles` requests: one per selected route, or exactly one when no route is selected, each on the `/vehicles` endpoint |
| `Requests.TripsUrl` | src/components/vehicleList.jsx:83 | the URL `loadTrips` requests for a route equals the `fetchVehicles` URL for that route without trips exactly when the route id is non-empty; an empty id gives `filter[route]=` rather than the unscoped URL |
| `Requests.UrlAsTemplate` | src/components/vehicleList.jsx:51-57 | the URL of one request is the unscoped `vehicles?page[limit]=100` or, for a truthy route, `vehicles?filter[route]=<route>&page[limit]=100`, followed by `&filter[trip]=<trips joined by ,>` exactly when trips are selected |
| `Requests.PlanShape` | src/components/vehicleList.jsx:48-57 | with no route selected exactly one unscoped request is planned; otherwise one request per selected route, in selection order, each scoped to its route (unscoped for an empty route id, as `if (route)` gives), all with the same trip filter |
| `Requests.SplitJoin` | src/components/vehicleList.jsx:56 | splitting a joined list on its separator gives the list back when no element holds the separator, so the trip filter names exactly the selected trips, in order |
| `Requests.QueryRoundTrip` | src/components/vehicleList.jsx:51-57 | the query string of a planned URL splits on `&` into exactly its parameters when route and trip ids hold no `&`; that the trip value splits back on `,` is `Requests.SplitJoin` |
| `Component.VehicleList.RequestUrl` | src/components/vehicleList.jsx:51-57 | the URL the loop body builds by assignments equals the planned URL for that route |
| `Fetching.Collect` | src/components/vehicleList.jsx:47-61 | the rows a run of requests appends to `allData`: on success exactly the rows of its responses (each row held comes from some response, and every row of every response is held) |
| `Fetching.Issued` | src/components/vehicleList.jsx:50-63 | the number of requests sent is the number of responses, or the position of the first that throws plus one; no earlier response throws |
| `Fetching.CollectFailsIff` | src/components/vehicleList.jsx:46-69 | a run of requests yields no rows exactly when one of its responses throws |
| `Fetching.CollectAppend` | src/components/vehicleList.jsx:61 | running two batches one after the other yields the first batch's rows followed by the second's, and fails if either fails |
| `Fetching.StrictImpliesLenient` | src/components/vehicleList.jsx:86-88 | every run that `loadTrips` completes is completed by `fetchVehicles` with the same rows |
| `Component.VehicleList.FetchVehicles` | src/components/vehicleList.jsx:44-73 | sends a prefix of the plan: all of it, or up to and including the first request that throws. On success `allVehicles` is the concatenation of the responses' `data` (missing `data` gives nothing), in request order, and `vehicles` is page `page` of it. On failure both lists are unchanged. `loading` ends false. The filters are untouched, and at most `limit` vehicles are shown |
| `Component.VehicleList.TryFetchVehicles` | src/components/vehicleList.jsx:46-63 | the `try` block: the URLs requested are the plan's, in order, up to and including the first request that throws; the outcome fails exactly when some response throws, and otherwise is the concatenation of the responses' `data` in request order |
| `Paging.Slice` | src/components/vehicleList.jsx:66 | `slice(start, end)` is the run of the list from the clamped start to the clamped end, and it is empty exactly when the clamped end does not lie past the clamped start |
| `Paging.PageWindow` | src/components/vehicleList.jsx:66 | for page at least 1 the page shows at most `limit` consecutive rows of the list, starting at row `(page-1)*limit` |
| `Paging.SliceIndex` | src/components/vehicleList.jsx:66 | `slice` clamps an argument to `[0, length]`; an argument inside that range is used as is |
| `Paging.PageWindowRange` | src/components/vehicleList.jsx:66 | for page at least 1 the window runs from row `(page-1)*limit` to row `page*limit` (exclusive), cut at the end of the list; it is empty once `(page-1)*limit` reaches the length of the list, and it is at most `limit` long |
| `Paging.PagesCoverAll` | src/components/vehicleList.jsx:66 | the windows of pages `1..totalPages` laid end to end give back the whole list, so every vehicle lies in exactly one page window; only windows 1 to 5 can be displayed (see `Paging.OnlyFirstFivePagesShown`) |
| `Paging.TotalPages` | src/components/vehicleList.jsx:137 | `totalPages` is the least page count whose pages hold every vehicle, and it is 0 exactly for an empty list |
| `Paging.PageWindowNonEmpty` | src/components/vehicleList.jsx:137 | the window of page `p` (at least 1) over a list is non-empty exactly when `p` is at most the `totalPages` of that same list |
| `Paging.PageButtons` | src/components/vehicleList.jsx:282-284 | no buttons unless `totalPages > 1`; otherwise exactly `1..min(5, totalPages)`, each within `[1, totalPages]` |
| `Paging.OnlyFirstFivePagesShown` | src/components/vehicleList.jsx:284 | on any page from 1 to 5, the only pages with buttons, the window depends only on the first `5 * limit` vehicles, so vehicles past them are never shown |
| `Paging.ButtonsOpenNonEmptyPages` | src/components/vehicleList.jsx:282-287 | a button counted from a list opens a non-empty window of that same list (the refetch a click triggers may return a different list; see Left out) |
| `Component.VehicleList.PageCount` | src/components/vehicleList.jsx:137 | `totalPages` is the least number of pages of `limit` rows that holds every fetched vehicle, and 0 exactly when nothing was fetched |
| `Trips.OptionFor` | src/components/vehicleList.jsx:89-97 | the option of a vehicle on a trip has the trip id as value and a label `Trip <id> (...)` whose parenthesised part is the vehicle's label when that is truthy and the trip id otherwise, so it is never empty |
| `Trips.Derive` | src/components/vehicleList.jsx:82-98 | the reference definition of the trip options: vehicles in order, each adding its option when its trip id is truthy and not seen before; there are exactly as many options as distinct trip ids |
| `Trips.DeriveSound` | src/components/vehicleList.jsx:88-98 | every trip option names a trip id some vehicle carries and is the option of the first vehicle carrying it: label `Trip <id> (<label or id>)` |
| `Trips.DeriveComplete` | src/components/vehicleList.jsx:88-98 | every trip id a vehicle carries gets an option |
| `Trips.DeriveOrdered` | src/components/vehicleList.jsx:82-98 | the options come in the order in which their trips first occur, route by route and within a response |
| `Trips.NoDuplicateTrips` | src/components/vehicleList.jsx:92-93 | no trip id is offered twice, and vehicles without a trip id give no option |
| `Component.VehicleList.LoadTrips` | src/components/vehicleList.jsx:75-109 | no options when no route is selected or when any request throws, including a body without `data` (the `catch`); otherwise the first-seen options of all vehicles in route-then-response order, without duplicate ids |
| `Component.VehicleList.TryLoadTrips` | src/components/vehicleList.jsx:78-103 | the `try` block: fails exactly when some response throws or lacks `data`, and otherwise yields the first-seen options of all rows; the set-plus-list loop keeps the set equal to the ids seen and the list equal to their options |
| `Component.VehicleList.AddTrips` | src/components/vehicleList.jsx:88-98 | the inner loop over one response's vehicles: given the set and options for the vehicles seen so far, it returns the set of trip ids and the first-seen options for those vehicles followed by the response's |
| `Status.StatusColor` | src/components/vehicleList.jsx:139-146 | `IN_TRANSIT_TO` is green, `STOPPED_AT` red, `INCOMING_AT` yellow, and the class is gray exactly for every other status, missing included |
| `Status.CardClass` | src/components/vehicleList.jsx:272 | the status on a vehicle's card, read from its `current_status`, is green exactly when in transit, red exactly when stopped, yellow exactly when incoming, and gray otherwise |
| `Status.StatusColorDistinguishes` | src/components/vehicleList.jsx:139-146 | two statuses get the same class exactly when they are equal or both unknown, so green, red and yellow each mark one status |
| `Filters.Step` | src/components/vehicleList.jsx:157-180 | the reducer of the controls: every filter change returns to page 1; a route change sets the routes and clears the trips; a trip change sets the trips and keeps the routes; a page button changes the page and nothing else |
| `Filters.StepConsistent` | src/components/vehicleList.jsx:157-179 | every control on screen keeps the page within 1 to 5 and keeps trips selected only while a route is |
| `Filters.RunConsistent` | src/components/vehicleList.jsx:26-28 | every sequence of on-screen actions from the initial state (no routes, no trips, page 1) reaches only consistent states |
| `Filters.RouteChangeForgets` | src/components/vehicleList.jsx:157-161 | a route change discards any earlier trip choice and page click: the state after it depends only on the routes chosen |
| `Filters.TripChangeKeepsRoutes` | src/components/vehicleList.jsx:176-179 | a trip change keeps the routes and discards an earlier page click |
| `Component.VehicleList.constructor` | src/components/vehicleList.jsx:21-28 | the mounted component has no vehicles, is loading, shows 10 per page, and has no routes, no trips and page 1 selected |
| `Component.VehicleList.OnRouteChange` | src/components/vehicleList.jsx:157-162 | routes become the chosen values (none when cleared), trips are cleared, page becomes 1, and nothing else changes |
| `Component.VehicleList.OnTripChange` | src/components/vehicleList.jsx:176-180 | trips become the chosen values (none when cleared), page becomes 1, and the routes and lists are unchanged; only callable while a route is selected, as the control is only rendered then |
| `Component.VehicleList.SelectPage` | src/components/vehicleList.jsx:287 | clicking a rendered button `p` sets `page` to `p` and changes nothing else |

## Left out

- Network I/O (`fetch`, `res.json()`) is not modelled. The caller supplies one `Response` per request instead.
- The pauses between requests (`delay`, lines 18, 62 and 101) are left out. They only slow the loop down.
- `fetchRoutes` (lines 31-42) is left out. It is one request plus a map with a `long_name || id` fallback.
- `formatDate` (lines 111-122) is left out. It depends on `Date` and locale formatting.
- Markup is not modelled: the cards, the detail overlay and its `'-'`/`0` display defaults, the Leaflet map, the Google Maps link and the framer-motion animation. Neither are coordinates, speed and bearing.
- Opening and closing the detail overlay (`selectedVehicle`) is not modelled. It only chooses what is displayed.
- React scheduling is not modelled. The effects at lines 124-135 are folded into the model: the page reset at 129-131 is already done by both handlers, and the refetch after every filter change is a call of `FetchVehicles` by the caller. Neither is the race in which an older fetch that completes late overwrites newer results, since every call here runs to completion before the next.
- Component.VehicleList.FetchVehicles: states only that `loading` is false on return. The source sets it true on entry, but a call that runs to completion cannot observe the state in between.
- Paging.ButtonsOpenNonEmptyPages: holds only for the list the buttons were counted from. A click changes `page`, and the effect at lines 133-135 refetches. The page then shown is a window over the new responses, which may be empty (fewer rows came back) or may keep the previous page's rows (the refetch failed). Each refetch is a separate `FetchVehicles` call here, and the model relates no two calls' responses.
- The `console.error` logging in the three `catch` blocks (lines 40, 69 and 106) is not modelled. It writes to the console and changes no state.
- Component.VehicleList.LoadTrips: does not return the URLs it requests, nor how many requests go out before a throw. The URL of each request is `Requests.TripsUrl`, and the requests go out one per route in order, as in `fetchVehicles`.
- Requests.QueryRoundTrip: holds only for route and trip ids free of `&` (and `SplitJoin` for trip ids free of `,`). The source interpolates the ids into the URL without escaping.
- `react-select` internals (`cacheOptions`, `defaultOptions`, the `key` that remounts the trip control) are not modelled. The trip control's options are what `LoadTrips` returns.
- The server-offset pagination variant and the query-by-prefix trip lookup are not modelled. They belong to other copies of the component, which are not part of this model.
