/** What the component makes of a run of sequential requests: each request
    either throws or returns a body, and the first throw abandons the run. */
module Fetching {
  import opened Api

  /** Whether reading a response throws. Every failed request throws; a body
      without `data` throws only where the code iterates `json.data`
      directly (`strictData`), not where it reads `json.data || []`. */
  predicate Throws(r: Response, strictData: bool)
  {
    r.Fail? || (strictData && r.data.None?)
  }

  /** The rows a successful response contributes: `json.data || []`. */
  function Rows(r: Response): seq<Vehicle>
    requires r.Ok?
  {
    match r.data
    case None => []
    case Some(d) => d
  }

  /** The rows of a run of responses appended in request order, or `None`
      when one of them throws. A successful run holds exactly the rows of its
      responses: each row it holds comes from one of them, and every row of
      every response is there. */
  function Collect(rs: seq<Response>, strictData: bool): (r: Option<seq<Vehicle>>)
    ensures r.Some? ==> forall v :: v in r.value ==>
      exists i :: 0 <= i < |rs| && rs[i].Ok? && v in Rows(rs[i])
    ensures r.Some? ==> forall i, v :: 0 <= i < |rs| && rs[i].Ok? && v in Rows(rs[i]) ==> v in r.value
  {
    if rs == [] then Some([])
    else
      var last := rs[|rs| - 1];
      assert forall i :: 0 <= i < |rs| - 1 ==> rs[..|rs| - 1][i] == rs[i];
      match Collect(rs[..|rs| - 1], strictData)
      case None => None
      case Some(prefix) => if Throws(last, strictData) then None else Some(prefix + Rows(last))
  }

  /** How many requests are actually sent when the responses come back as
      `rs`: all of them, or up to and including the first that throws. */
  function Issued(rs: seq<Response>, strictData: bool): (r: nat)
    ensures r <= |rs|
    ensures |rs| > 0 ==> r > 0
    ensures forall j :: 0 <= j < r - 1 ==> !Throws(rs[j], strictData)
    ensures r == |rs| || Throws(rs[r - 1], strictData)
  {
    if rs == [] then 0
    else if Throws(rs[0], strictData) then 1
    else
      var k := Issued(rs[1..], strictData);
      assert forall j :: 0 <= j < k ==> rs[1..][j] == rs[j + 1];
      1 + k
  }

  /** The run fails exactly when one of its responses throws. */
  lemma {:induction false} CollectFailsIff(rs: seq<Response>, strictData: bool)
    ensures Collect(rs, strictData).None? <==> exists i :: 0 <= i < |rs| && Throws(rs[i], strictData)
  {
    if rs != [] {
      var prefix := rs[..|rs| - 1];
      CollectFailsIff(prefix, strictData);
      assert forall i :: 0 <= i < |prefix| ==> prefix[i] == rs[i];
    }
  }

  /** Running two batches of requests one after the other gives the rows of
      the first followed by the rows of the second; if either fails, the
      whole run fails. */
  lemma {:induction false} CollectAppend(a: seq<Response>, b: seq<Response>, strictData: bool)
    ensures Collect(a + b, strictData) ==
      match (Collect(a, strictData), Collect(b, strictData))
      case (Some(x), Some(y)) => Some(x + y)
      case _ => None
  {
    if b == [] {
      assert a + b == a;
      if Collect(a, strictData).Some? {
        assert Collect(a, strictData).value + [] == Collect(a, strictData).value;
      }
    } else {
      var b', last := b[..|b| - 1], b[|b| - 1];
      CollectAppend(a, b', strictData);
      assert (a + b)[..|a + b| - 1] == a + b';
      assert (a + b)[|a + b| - 1] == last;
      assert Collect(a + b, strictData) ==
        match Collect(a + b', strictData)
        case None => None
        case Some(prefix) => if Throws(last, strictData) then None else Some(prefix + Rows(last));
      if Collect(a, strictData).Some? && Collect(b', strictData).Some? && !Throws(last, strictData) {
        var x, y := Collect(a, strictData).value, Collect(b', strictData).value;
        assert x + (y + Rows(last)) == x + y + Rows(last);
      }
    }
  }

  /** A run that `loadTrips` completes is completed by `fetchVehicles` too,
      with the same rows. */
  lemma {:induction false} StrictImpliesLenient(rs: seq<Response>)
    requires Collect(rs, true).Some?
    ensures Collect(rs, false) == Collect(rs, true)
  {
    if rs != [] {
      StrictImpliesLenient(rs[..|rs| - 1]);
    }
  }

  /** One more response extends the run: it fails if the response throws
      and otherwise appends the response's rows. */
  lemma CollectStep(rs: seq<Response>, strictData: bool, i: nat)
    requires i < |rs|
    ensures Collect(rs[..i + 1], strictData) ==
      match Collect(rs[..i], strictData)
      case None => None
      case Some(prefix) => if Throws(rs[i], strictData) then None else Some(prefix + Rows(rs[i]))
  {
    assert rs[..i + 1][..i] == rs[..i];
  }

  /** Once the first `i` responses have come back without throwing, the
      number of requests sent is `i` plus those sent for the rest. */
  lemma {:induction false} IssuedSkip(rs: seq<Response>, strictData: bool, i: nat)
    requires i <= |rs|
    requires forall j :: 0 <= j < i ==> !Throws(rs[j], strictData)
    ensures Issued(rs, strictData) == i + Issued(rs[i..], strictData)
  {
    if i > 0 {
      IssuedSkip(rs[1..], strictData, i - 1);
      assert rs[1..][i - 1..] == rs[i..];
    } else {
      assert rs[0..] == rs;
    }
  }
}
