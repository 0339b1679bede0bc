/** The trip filter's options, derived from the vehicles currently on the
    selected routes: one option per trip id, taken from the first vehicle
    that carries it. */
module Trips {
  import opened Api

  /** `v` is on trip `id` (`relationships.trip.data.id` is truthy and equal to it). */
  predicate Carries(v: Vehicle, id: string)
  {
    Truthy(v.tripId) && v.tripId.value == id
  }

  /** The trip ids carried by some vehicle of `vs`. */
  function TripIds(vs: seq<Vehicle>): set<string>
  {
    set j | 0 <= j < |vs| && Truthy(vs[j].tripId) :: vs[j].tripId.value
  }

  /** The option a vehicle on a trip gives: value the trip id, label
      `Trip <id> (<vehicle label, or the trip id when the label is falsy>)`.
      The parenthesised part is never empty. */
  function OptionFor(v: Vehicle): (r: TripOption)
    requires Truthy(v.tripId)
    ensures r.value == v.tripId.value
    ensures var head := "Trip " + r.value + " (";
      |r.text| > |head| + 1 && r.text[..|head|] == head && r.text[|r.text| - 1] == ')'
    ensures var head := "Trip " + r.value + " (";
      |r.text| > |head| &&
      r.text[|head|..|r.text| - 1] == if Truthy(v.labelText) then v.labelText.value else r.value
  {
    var id := v.tripId.value;
    var shown := if Truthy(v.labelText) then v.labelText.value else id;
    TripOption(id, "Trip " + id + " (" + shown + ")")
  }

  /** Reference definition of the options for vehicles seen in the order
      `vs`: a vehicle adds its option when it is on a trip no earlier
      vehicle was on. There is one option per distinct trip id. */
  function Derive(vs: seq<Vehicle>): (r: seq<TripOption>)
    ensures |r| == |TripIds(vs)|
  {
    if vs == [] then []
    else
      var prefix, v := vs[..|vs| - 1], vs[|vs| - 1];
      assert vs == prefix + [v];
      TripIdsSnoc(prefix, v);
      if Truthy(v.tripId) && v.tripId.value !in TripIds(prefix)
      then Derive(prefix) + [OptionFor(v)]
      else Derive(prefix)
  }

  /** The position of the first vehicle on trip `id`. */
  function FirstIndex(vs: seq<Vehicle>, id: string): (r: nat)
    requires id in TripIds(vs)
    ensures r < |vs| && Carries(vs[r], id)
    ensures forall j :: 0 <= j < r ==> !Carries(vs[j], id)
  {
    if Carries(vs[0], id) then 0
    else
      assert id in TripIds(vs[1..]) by {
        var j :| 0 <= j < |vs| && Truthy(vs[j].tripId) && vs[j].tripId.value == id;
        assert vs[1..][j - 1] == vs[j];
      }
      var k := FirstIndex(vs[1..], id);
      assert forall j :: 0 < j <= k ==> vs[j] == vs[1..][j - 1];
      k + 1
  }

  lemma TripIdsSnoc(vs: seq<Vehicle>, v: Vehicle)
    ensures TripIds(vs + [v]) == TripIds(vs) + (if Truthy(v.tripId) then {v.tripId.value} else {})
  {
    var s := vs + [v];
    assert forall j :: 0 <= j < |vs| ==> s[j] == vs[j];
    assert s[|vs|] == v;
  }

  /** One more vehicle adds its option exactly when its trip is truthy and
      new. */
  lemma DeriveSnoc(vs: seq<Vehicle>, v: Vehicle)
    ensures Derive(vs + [v]) ==
      if Truthy(v.tripId) && v.tripId.value !in TripIds(vs) then Derive(vs) + [OptionFor(v)] else Derive(vs)
  {
    assert (vs + [v])[..|vs|] == vs;
  }

  /** One step of the set-plus-list loop: given the set of ids and the
      options for `vs`, one more vehicle `v` either adds its new trip to
      both or leaves both as they are, giving the set and options for
      `vs + [v]`. */
  lemma DeriveStep(vs: seq<Vehicle>, v: Vehicle, tripSet: set<string>, options: seq<TripOption>)
    requires tripSet == TripIds(vs) && options == Derive(vs)
    ensures var isNew := Truthy(v.tripId) && v.tripId.value !in tripSet;
      TripIds(vs + [v]) == (if isNew then tripSet + {v.tripId.value} else tripSet) &&
      Derive(vs + [v]) == (if isNew then options + [OptionFor(v)] else options)
  {
    TripIdsSnoc(vs, v);
    DeriveSnoc(vs, v);
  }

  /** Walking one more vehicle of a response extends the vehicles seen by it. */
  lemma WalkNext(seen: seq<Vehicle>, data: seq<Vehicle>, j: nat)
    requires j < |data|
    ensures seen + data[..j + 1] == (seen + data[..j]) + [data[j]]
  {
    assert data[..j + 1] == data[..j] + [data[j]];
  }

  /** An id already seen in the first `m` vehicles has its first occurrence
      there. */
  lemma FirstIndexPrefix(vs: seq<Vehicle>, m: nat, id: string)
    requires m <= |vs|
    requires id in TripIds(vs[..m])
    ensures id in TripIds(vs)
    ensures FirstIndex(vs, id) == FirstIndex(vs[..m], id)
  {
    var a := FirstIndex(vs[..m], id);
    assert vs[..m][a] == vs[a];
    assert forall j :: 0 <= j < a ==> vs[..m][j] == vs[j];
    assert id in TripIds(vs) by {
      assert Truthy(vs[a].tripId) && vs[a].tripId.value == id;
    }
  }

  /** Appending a vehicle leaves the first occurrence of every id seen
      before where it was, and a new id first occurs at the new vehicle. */
  lemma FirstIndexSnoc(prefix: seq<Vehicle>, v: Vehicle)
    ensures forall id :: id in TripIds(prefix) ==>
      id in TripIds(prefix + [v]) && FirstIndex(prefix + [v], id) == FirstIndex(prefix, id)
    ensures Truthy(v.tripId) && v.tripId.value !in TripIds(prefix) ==>
      v.tripId.value in TripIds(prefix + [v]) && FirstIndex(prefix + [v], v.tripId.value) == |prefix|
  {
    var vs := prefix + [v];
    assert vs[..|prefix|] == prefix;
    forall id | id in TripIds(prefix)
      ensures id in TripIds(vs) && FirstIndex(vs, id) == FirstIndex(prefix, id)
    {
      FirstIndexPrefix(vs, |prefix|, id);
    }
    TripIdsSnoc(prefix, v);
    if Truthy(v.tripId) && v.tripId.value !in TripIds(prefix) {
      var id := v.tripId.value;
      forall j | 0 <= j < |prefix| ensures !Carries(vs[j], id) {
        assert vs[j] == prefix[j];
      }
      assert Carries(vs[|prefix|], id);
    }
  }

  /** Every option names a trip id of `vs` and is the option the first
      vehicle on that trip gives. */
  lemma {:induction false} DeriveSound(vs: seq<Vehicle>)
    ensures forall k :: 0 <= k < |Derive(vs)| ==>
      Derive(vs)[k].value in TripIds(vs) &&
      Derive(vs)[k] == OptionFor(vs[FirstIndex(vs, Derive(vs)[k].value)])
  {
    if vs != [] {
      var prefix, v := vs[..|vs| - 1], vs[|vs| - 1];
      assert vs == prefix + [v];
      DeriveSound(prefix);
      FirstIndexSnoc(prefix, v);
      var dp := Derive(prefix);
      forall k | 0 <= k < |dp|
        ensures vs[FirstIndex(prefix, dp[k].value)] == prefix[FirstIndex(prefix, dp[k].value)]
      {
      }
    }
  }

  /** Every trip id of `vs` has an option. */
  lemma {:induction false} DeriveComplete(vs: seq<Vehicle>, id: string)
    requires id in TripIds(vs)
    ensures exists k :: 0 <= k < |Derive(vs)| && Derive(vs)[k].value == id
  {
    var prefix, v := vs[..|vs| - 1], vs[|vs| - 1];
    assert vs == prefix + [v];
    TripIdsSnoc(prefix, v);
    var dp, d := Derive(prefix), Derive(vs);
    var isNew := Truthy(v.tripId) && v.tripId.value !in TripIds(prefix);
    assert d == if isNew then dp + [OptionFor(v)] else dp;
    if id in TripIds(prefix) {
      DeriveComplete(prefix, id);
      var k :| 0 <= k < |dp| && dp[k].value == id;
      assert d[k] == dp[k];
    } else {
      assert isNew && id == v.tripId.value;
      assert d[|dp|].value == id;
    }
  }

  /** The options come in the order of their trips' first occurrences. */
  lemma {:induction false} DeriveOrdered(vs: seq<Vehicle>)
    ensures forall k :: 0 <= k < |Derive(vs)| ==> Derive(vs)[k].value in TripIds(vs)
    ensures forall k1, k2 :: 0 <= k1 < k2 < |Derive(vs)| ==>
      FirstIndex(vs, Derive(vs)[k1].value) < FirstIndex(vs, Derive(vs)[k2].value)
  {
    DeriveSound(vs);
    if vs != [] {
      var prefix, v := vs[..|vs| - 1], vs[|vs| - 1];
      assert vs == prefix + [v];
      DeriveOrdered(prefix);
      forall k1, k2 | 0 <= k1 < k2 < |Derive(vs)|
        ensures FirstIndex(vs, Derive(vs)[k1].value) < FirstIndex(vs, Derive(vs)[k2].value)
      {
        OrderedSnoc(prefix, v, k1, k2);
      }
    }
  }

  /** The inductive step of `DeriveOrdered` for one pair of options: one
      more vehicle keeps the order of the options before it and puts its
      own option, if any, after all of them. */
  lemma OrderedSnoc(prefix: seq<Vehicle>, v: Vehicle, k1: nat, k2: nat)
    requires k1 < k2 < |Derive(prefix + [v])|
    requires forall k :: 0 <= k < |Derive(prefix)| ==> Derive(prefix)[k].value in TripIds(prefix)
    requires k2 < |Derive(prefix)| ==>
      FirstIndex(prefix, Derive(prefix)[k1].value) < FirstIndex(prefix, Derive(prefix)[k2].value)
    ensures Derive(prefix + [v])[k1].value in TripIds(prefix + [v])
    ensures Derive(prefix + [v])[k2].value in TripIds(prefix + [v])
    ensures FirstIndex(prefix + [v], Derive(prefix + [v])[k1].value)
      < FirstIndex(prefix + [v], Derive(prefix + [v])[k2].value)
  {
    var vs := prefix + [v];
    FirstIndexSnoc(prefix, v);
    DeriveSnoc(prefix, v);
    var dp, d := Derive(prefix), Derive(vs);
    assert d[k1] == dp[k1];
    assert FirstIndex(vs, d[k1].value) == FirstIndex(prefix, dp[k1].value) < |prefix|;
    if k2 < |dp| {
      assert d[k2] == dp[k2];
    } else {
      assert d[k2] == OptionFor(v);
    }
  }

  /** No trip id is offered twice, and only vehicles on a trip give options. */
  lemma NoDuplicateTrips(vs: seq<Vehicle>)
    ensures forall k1, k2 :: 0 <= k1 < k2 < |Derive(vs)| ==> Derive(vs)[k1].value != Derive(vs)[k2].value
    ensures forall k :: 0 <= k < |Derive(vs)| ==> Derive(vs)[k].value != ""
  {
    DeriveOrdered(vs);
  }
}
