/** The request plan of `fetchVehicles`: which `/vehicles` URLs it asks for,
    in which order, for a given route and trip selection. */
module Requests {
  import opened Api

  const Endpoint: string := "https://api-v3.mbta.com/vehicles"
  const LimitParam: string := "page[limit]=100"

  /** `Array.prototype.join` with a one-character separator. */
  function Join(xs: seq<string>, sep: char): string
  {
    if |xs| == 0 then ""
    else if |xs| == 1 then xs[0]
    else xs[0] + [sep] + Join(xs[1..], sep)
  }

  /** Position of the first `c` in `s`. */
  function IndexOf(s: string, c: char): (r: nat)
    requires c in s
    ensures r < |s| && s[r] == c && c !in s[..r]
  {
    if s[0] == c then 0
    else
      assert c in s[1..] by { assert s == [s[0]] + s[1..]; }
      var k := IndexOf(s[1..], c);
      assert s[..k + 1] == [s[0]] + s[1..][..k];
      1 + k
  }

  /** `String.prototype.split` with a one-character separator, the way the
      upstream API reads a comma-separated filter value. */
  function Split(s: string, sep: char): seq<string>
    decreases |s|
  {
    if sep !in s then [s]
    else
      var i := IndexOf(s, sep);
      [s[..i]] + Split(s[i + 1..], sep)
  }

  /** The route filter of each request (`routesToFetch`): at least one
      request; the unscoped `null` appears exactly when nothing is selected,
      and otherwise the selected route ids come in selection order. */
  function Targets(selectedRoutes: seq<string>): (r: seq<Option<string>>)
    ensures |r| == if selectedRoutes == [] then 1 else |selectedRoutes|
    ensures None in r <==> selectedRoutes == []
    ensures forall i :: 0 <= i < |selectedRoutes| ==> r[i] == Some(selectedRoutes[i])
  {
    if |selectedRoutes| > 0 then seq(|selectedRoutes|, i requires 0 <= i < |selectedRoutes| => Some(selectedRoutes[i]))
    else [None]
  }

  /** The query parameters of one request, in the order the URL carries them.
      A route is used only when it is truthy (`if (route)`). */
  function Params(target: Option<string>, selectedTrips: seq<string>): seq<string>
  {
    (if Truthy(target) then ["filter[route]=" + target.value] else [])
    + [LimitParam]
    + (if |selectedTrips| > 0 then ["filter[trip]=" + Join(selectedTrips, ',')] else [])
  }

  /** The URL of one request: the `/vehicles` endpoint followed by a query
      string that is never empty, since it always carries the page limit. */
  function Url(target: Option<string>, selectedTrips: seq<string>): (r: string)
    ensures |r| > |Endpoint| + 1 && r[..|Endpoint| + 1] == Endpoint + "?"
  {
    EndpointPrefix(Join(Params(target, selectedTrips), '&'));
    Endpoint + "?" + Join(Params(target, selectedTrips), '&')
  }

  lemma EndpointPrefix(query: string)
    ensures (Endpoint + "?" + query)[..|Endpoint| + 1] == Endpoint + "?"
  {
  }

  /** Every URL `fetchVehicles` requests, in request order: one per
      selected route, or a single one when no route is selected. */
  function Plan(selectedRoutes: seq<string>, selectedTrips: seq<string>): (r: seq<string>)
    ensures |r| == if selectedRoutes == [] then 1 else |selectedRoutes|
    ensures forall i :: 0 <= i < |r| ==> |r[i]| > |Endpoint| + 1 && r[i][..|Endpoint| + 1] == Endpoint + "?"
  {
    var targets := Targets(selectedRoutes);
    seq(|targets|, i requires 0 <= i < |targets| => Url(targets[i], selectedTrips))
  }

  /** The URL `loadTrips` requests for one route. It has no `if (route)`
      test and no trip filter, so it agrees with the `fetchVehicles` URL
      without trips exactly when the route id is truthy; an empty route id
      gives `filter[route]=` instead of the unscoped URL. */
  function TripsUrl(route: string): (r: string)
    ensures r == Url(Some(route), []) <==> route != ""
  {
    UrlAsTemplate(Some(route), []);
    TripsUrlLiteral(route);
    Endpoint + "?filter[route]=" + route + "&page[limit]=100"
  }

  lemma TripsUrlLiteral(route: string)
    ensures (Endpoint + "?filter[route]=" + route + "&page[limit]=100") + "" == Endpoint + "?filter[route]=" + route + "&page[limit]=100"
    ensures route == "" ==> Endpoint + "?filter[route]=" + route + "&page[limit]=100" != Endpoint + "?page[limit]=100" + ""
  {
    if route == "" {
      assert |Endpoint + "?filter[route]=" + route + "&page[limit]=100"| != |Endpoint + "?page[limit]=100" + ""|;
    }
  }

  /** The trip filter appended to every URL: empty exactly when no trip is selected. */
  function TripFilter(selectedTrips: seq<string>): (r: string)
    ensures r == "" <==> selectedTrips == []
  {
    if |selectedTrips| > 0 then "&filter[trip]=" + Join(selectedTrips, ',') else ""
  }

  /** `Url` is the string the component builds by template: the unscoped
      `vehicles?page[limit]=100` or the route-scoped
      `vehicles?filter[route]=<route>&page[limit]=100`, followed by the trip
      filter when trips are selected. */
  lemma UrlAsTemplate(target: Option<string>, selectedTrips: seq<string>)
    ensures Url(target, selectedTrips) ==
      (if Truthy(target)
       then Endpoint + "?filter[route]=" + target.value + "&page[limit]=100"
       else Endpoint + "?page[limit]=100")
      + TripFilter(selectedTrips)
  {
    var tf := TripFilter(selectedTrips);
    var rest := [LimitParam] + (if |selectedTrips| > 0 then ["filter[trip]=" + Join(selectedTrips, ',')] else []);
    JoinRest(selectedTrips);
    if Truthy(target) {
      var route := "filter[route]=" + target.value;
      assert Params(target, selectedTrips) == [route] + rest;
      JoinCons(route, rest, '&');
      ScopedLiteral(target.value, tf);
    } else {
      assert Params(target, selectedTrips) == rest;
      UnscopedLiteral(tf);
    }
  }

  lemma ScopedLiteral(route: string, tf: string)
    ensures Endpoint + "?" + ("filter[route]=" + route + "&" + (LimitParam + tf))
      == Endpoint + "?filter[route]=" + route + "&page[limit]=100" + tf
  {
  }

  lemma UnscopedLiteral(tf: string)
    ensures Endpoint + "?" + (LimitParam + tf) == Endpoint + "?page[limit]=100" + tf
  {
  }

  lemma AppendAssoc(a: string, b: string, c: string)
    ensures a + b + c == a + (b + c)
  {
  }

  lemma TripLiteral(joined: string)
    ensures LimitParam + "&" + ("filter[trip]=" + joined) == LimitParam + ("&filter[trip]=" + joined)
  {
  }

  lemma JoinRest(selectedTrips: seq<string>)
    ensures Join([LimitParam] + (if |selectedTrips| > 0 then ["filter[trip]=" + Join(selectedTrips, ',')] else []), '&')
      == LimitParam + TripFilter(selectedTrips)
  {
    if |selectedTrips| > 0 {
      var joined := Join(selectedTrips, ',');
      JoinCons(LimitParam, ["filter[trip]=" + joined], '&');
      TripLiteral(joined);
    } else {
      assert [LimitParam] + [] == [LimitParam];
    }
  }

  lemma JoinCons(x: string, xs: seq<string>, sep: char)
    requires xs != []
    ensures Join([x] + xs, sep) == x + [sep] + Join(xs, sep)
  {
    assert ([x] + xs)[1..] == xs;
  }

  /** With no route selected exactly one, unscoped request is planned; with
      routes selected there is one request per route, in selection order,
      each scoped to its route; every request carries the same trip filter. */
  lemma PlanShape(selectedRoutes: seq<string>, selectedTrips: seq<string>)
    ensures selectedRoutes == [] ==>
      Plan(selectedRoutes, selectedTrips) == [Endpoint + "?page[limit]=100" + TripFilter(selectedTrips)]
    ensures selectedRoutes != [] ==>
      |Plan(selectedRoutes, selectedTrips)| == |selectedRoutes|
    ensures forall i :: 0 <= i < |selectedRoutes| && selectedRoutes[i] != "" ==>
      Plan(selectedRoutes, selectedTrips)[i] ==
        Endpoint + "?filter[route]=" + selectedRoutes[i] + "&page[limit]=100" + TripFilter(selectedTrips)
    ensures forall i :: 0 <= i < |selectedRoutes| && selectedRoutes[i] == "" ==>
      Plan(selectedRoutes, selectedTrips)[i] == Endpoint + "?page[limit]=100" + TripFilter(selectedTrips)
  {
    var plan := Plan(selectedRoutes, selectedTrips);
    if selectedRoutes == [] {
      UrlAsTemplate(None, selectedTrips);
    } else {
      forall i | 0 <= i < |selectedRoutes|
        ensures plan[i] == if selectedRoutes[i] != ""
          then Endpoint + "?filter[route]=" + selectedRoutes[i] + "&page[limit]=100" + TripFilter(selectedTrips)
          else Endpoint + "?page[limit]=100" + TripFilter(selectedTrips)
      {
        UrlAsTemplate(Some(selectedRoutes[i]), selectedTrips);
      }
    }
  }

  lemma {:induction false} NotInJoin(xs: seq<string>, sep: char, c: char)
    requires c != sep
    requires forall x :: x in xs ==> c !in x
    ensures c !in Join(xs, sep)
  {
    if |xs| > 1 {
      NotInJoin(xs[1..], sep, c);
    }
  }

  /** The first separator of `x + [sep] + rest` is the one after `x` when
      `x` holds none. */
  lemma SplitCons(x: string, sep: char, rest: string)
    requires sep !in x
    ensures Split(x + [sep] + rest, sep) == [x] + Split(rest, sep)
  {
    var s := x + [sep] + rest;
    assert s[|x|] == sep;
    assert forall j :: 0 <= j < |x| ==> s[j] == x[j];
    var i := IndexOf(s, sep);
    assert forall j :: 0 <= j < i ==> s[..i][j] == s[j];
    assert i == |x|;
    assert s[..i] == x;
    assert s[i + 1..] == rest;
  }

  /** Splitting a joined list gives the list back, provided no element holds
      the separator: a comma-joined trip filter carries exactly the selected
      trips, in order. */
  lemma {:induction false} SplitJoin(xs: seq<string>, sep: char)
    requires |xs| > 0
    requires forall x :: x in xs ==> sep !in x
    ensures Split(Join(xs, sep), sep) == xs
  {
    assert xs[0] in xs;
    if |xs| > 1 {
      var tail := xs[1..];
      assert Join(xs, sep) == xs[0] + [sep] + Join(tail, sep);
      SplitCons(xs[0], sep, Join(tail, sep));
      assert forall x :: x in tail ==> x in xs;
      SplitJoin(tail, sep);
      assert xs == [xs[0]] + tail;
    }
  }

  /** The query string of every planned URL splits on `&` into exactly the
      intended parameters, when route and trip ids hold no `&` (the trip
      value itself splits back by `SplitJoin`). */
  lemma QueryRoundTrip(target: Option<string>, selectedTrips: seq<string>)
    requires target.Some? ==> '&' !in target.value
    requires forall t :: t in selectedTrips ==> '&' !in t
    ensures Split(Join(Params(target, selectedTrips), '&'), '&') == Params(target, selectedTrips)
  {
    var ps := Params(target, selectedTrips);
    if selectedTrips != [] {
      NotInJoin(selectedTrips, ',', '&');
      assert '&' !in "filter[trip]=" + Join(selectedTrips, ',');
    }
    forall p | p in ps ensures '&' !in p {
      if Truthy(target) && p == "filter[route]=" + target.value {
        assert '&' !in "filter[route]=";
      }
    }
    SplitJoin(ps, '&');
  }
}
