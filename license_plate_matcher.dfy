/** service/LicensePlateMatcher.java: checks a recognition result against the watchlist. */
module LicensePlateMatchers {
  import opened Wrappers
  import opened Openalpr
  import opened LicensePlates
  import Preconditions

  const CONFIDENCE_THRESHOLD: real := 80.0

  /** A recognized plate paired with the watchlist entry it matched. */
  type Match = (Plate, LicensePlate)

  /** The index of the first watchlist entry that matches `number`, or |watchlist| if none does. */
  function FirstMatching(watchlist: seq<LicensePlate>, number: string): (k: nat)
    ensures k <= |watchlist|
    ensures k < |watchlist| ==> Matches(watchlist[k], Some(number))
    ensures forall j :: 0 <= j < k ==> !Matches(watchlist[j], Some(number))
  {
    if watchlist == [] then 0
    else if Matches(watchlist[0], Some(number)) then 0
    else 1 + FirstMatching(watchlist[1..], number)
  }

  /** A plate read with confidence of at most 80 never matches, whatever the watchlist holds. */
  lemma LowConfidenceNeverMatches(watchlist: seq<LicensePlate>, plate: Plate)
    requires plate.confidence <= CONFIDENCE_THRESHOLD
    ensures MatchOf(watchlist, plate) == None
  {
  }

  /** What the private findMatches returns, as a value. */
  function MatchOf(watchlist: seq<LicensePlate>, plate: Plate): (r: Option<Match>)
    ensures r.Some? <==> plate.confidence > CONFIDENCE_THRESHOLD && exists j :: 0 <= j < |watchlist| && Matches(watchlist[j], Some(plate.plate))
    ensures r.Some? ==> r.value.0 == plate
    ensures r.Some? ==>
              exists k :: 0 <= k < |watchlist| && r.value.1 == watchlist[k] && Matches(watchlist[k], Some(plate.plate)) &&
                          forall j :: 0 <= j < k ==> !Matches(watchlist[j], Some(plate.plate))
  {
    var k := FirstMatching(watchlist, plate.plate);
    if k < |watchlist| && plate.confidence > CONFIDENCE_THRESHOLD then Some((plate, watchlist[k])) else None
  }

  /** Only the best plate of the first plate result is looked at. */
  function MatchesOf(watchlist: seq<LicensePlate>, result: AlprResult): (r: seq<Match>)
    ensures |r| <= 1
    ensures forall m :: m in r ==> m.0.confidence > CONFIDENCE_THRESHOLD && m.1 in watchlist && Matches(m.1, Some(m.0.plate))
    ensures |result.plates| == 0 ==> r == []
  {
    if |result.plates| > 0 && result.plates[0].Some? && result.plates[0].value.bestPlate.Some? then
      match MatchOf(watchlist, result.plates[0].value.bestPlate.value)
      case None => []
      case Some(m) => [m]
    else []
  }

  /** At most one pair comes back, and it pairs the first result's best plate with a watchlist
      entry that matches it with confidence above the threshold. */
  lemma {:induction false} MatchesOfIsFirstBestPlate(watchlist: seq<LicensePlate>, result: AlprResult)
    ensures |MatchesOf(watchlist, result)| <= 1
    ensures |MatchesOf(watchlist, result)| == 1 ==>
              var m := MatchesOf(watchlist, result)[0];
              result.plates[0].Some? && result.plates[0].value.bestPlate == Some(m.0) &&
              m.0.confidence > CONFIDENCE_THRESHOLD && m.1 in watchlist && Matches(m.1, Some(m.0.plate))
  {
  }

  class LicensePlateMatcher {
    var licensePlates: seq<LicensePlate>

    /** The watchlist starts empty. */
    constructor ()
      ensures licensePlates == []
    {
      licensePlates := [];
    }

    /** The `onResponse` callback of `initialize`: a non-null body replaces the watchlist. */
    method OnResponse(body: Option<seq<LicensePlate>>)
      modifies this
      ensures licensePlates == if body.Some? then body.value else old(licensePlates)
    {
      if body.Some? {
        licensePlates := body.value;
      }
    }

    /** The private findMatches(Plate): the first entry, in list order, that matches. */
    method FindMatch(plate: Plate) returns (r: Option<Match>)
      ensures r.Some? ==> r.value.0 == plate && plate.confidence > CONFIDENCE_THRESHOLD &&
                          r.value.1 in licensePlates && Matches(r.value.1, Some(plate.plate))
      ensures r.None? <==> plate.confidence <= CONFIDENCE_THRESHOLD ||
                           forall j :: 0 <= j < |licensePlates| ==> !Matches(licensePlates[j], Some(plate.plate))
      ensures r == MatchOf(licensePlates, plate)
    {
      var i := 0;
      while i < |licensePlates|
        invariant 0 <= i <= |licensePlates|
        invariant forall j :: 0 <= j < i ==>
                    !(Matches(licensePlates[j], Some(plate.plate)) && plate.confidence > CONFIDENCE_THRESHOLD)
      {
        var licensePlate := licensePlates[i];
        if Matches(licensePlate, Some(plate.plate)) && plate.confidence > CONFIDENCE_THRESHOLD {
          assert FirstMatching(licensePlates, plate.plate) == i;
          return Some((plate, licensePlate));
        }
        i := i + 1;
      }
      return None;
    }

    /** The public findMatches(AlprResult): throws on null, otherwise at most one match. */
    method FindMatches(alprResult: Option<AlprResult>) returns (r: Result<seq<Match>>)
      ensures alprResult.None? <==> r.Throws?
      ensures r.Throws? ==> r.error.IllegalArgument?
      ensures r.Ok? ==> r.value == MatchesOf(licensePlates, alprResult.value)
    {
      var checked := Preconditions.AssertParameterNotNull(alprResult, Some("alprResult"));
      if checked.Throws? {
        return Throws(checked.error);
      }
      var results := checked.value.plates;
      var plateMatches: seq<Match> := [];
      if |results| > 0 {
        var plate := results[0];
        if plate.Some? && plate.value.bestPlate.Some? {
          var found := FindMatch(plate.value.bestPlate.value);
          if found.Some? {
            plateMatches := plateMatches + [found.value];
          }
        }
      }
      return Ok(plateMatches);
    }
  }

  /** Nothing matches before the first response has arrived: the watchlist starts empty. */
  lemma EmptyWatchlistMatchesNothing(result: AlprResult)
    ensures MatchesOf([], result) == []
  {
  }
}
