/**
 * The two catalogue operations of the scraper: listing every reachable
 * catalogued station (get_all_radios) and resolving a free-text query to one
 * station record (search_radio).
 *
 * Each operation is a method with the loop of the original and is proved
 * equal to a recursive specification function; the properties the scraper
 * promises are lemmas about those functions. The player pages each method
 * requests are returned as a ghost trace, in the order they are requested,
 * each page named by its station (id and country); Scraper.RequestedUrls
 * turns such a trace into the URLs requested.
 */
module Lookup {
  import opened Wrappers
  import opened Text
  import opened Scraper

  /** A station as get_all_radios lists it: "nom" and "image_url". */
  datatype Summary = Summary(name: string, imageUrl: string)

  function Summarize(info: RadioInfo): Summary {
    Summary(info.name, info.imageUrl)
  }

  /** The record fetched for a catalogue station. */
  function InfoOf(fetch: Fetcher, station: Station): Option<RadioInfo> {
    GetRadioInfo(fetch, station.id, station.country)
  }

  predicate Reachable(fetch: Fetcher, station: Station) {
    InfoOf(fetch, station).Some?
  }

  // ---------------------------------------------------------------------
  // get_all_radios

  /** The summaries of the reachable stations among `stations`, in order. */
  function Listing(fetch: Fetcher, stations: seq<Station>): (r: seq<Summary>)
    ensures |r| <= |stations|
  {
    if |stations| == 0 then []
    else
      var rest := Listing(fetch, stations[1..]);
      match InfoOf(fetch, stations[0])
      case Some(info) => [Summarize(info)] + rest
      case None => rest
  }

  /**
   * get_all_radios: fetch every catalogue station once, in catalogue order,
   * and keep the name and image of each one that answered with a record.
   */
  method GetAllRadios(fetch: Fetcher) returns (radios: seq<Summary>, ghost requested: seq<Station>)
    ensures radios == Listing(fetch, RadiosMadagascar)
    ensures requested == RadiosMadagascar
  {
    radios := [];
    requested := [];
    for i := 0 to |RadiosMadagascar|
      invariant radios == Listing(fetch, RadiosMadagascar[..i])
      invariant requested == RadiosMadagascar[..i]
    {
      var radio := RadiosMadagascar[i];
      var info := GetRadioInfo(fetch, radio.id, radio.country);
      requested := requested + [Station(radio.id, radio.country)];
      if info.Some? {
        radios := radios + [Summary(info.value.name, info.value.imageUrl)];
      }
      assert RadiosMadagascar[..i + 1] == RadiosMadagascar[..i] + [radio];
      ListingAppend(fetch, RadiosMadagascar[..i], [radio]);
      ListingSingle(fetch, radio);
    }
    assert RadiosMadagascar[..|RadiosMadagascar|] == RadiosMadagascar;
  }

  /** Listing a concatenation lists the two parts one after the other. */
  lemma {:induction false} ListingAppend(fetch: Fetcher, a: seq<Station>, b: seq<Station>)
    ensures Listing(fetch, a + b) == Listing(fetch, a) + Listing(fetch, b)
  {
    if |a| > 0 {
      assert (a + b)[1..] == a[1..] + b;
      ListingAppend(fetch, a[1..], b);
    } else {
      assert a + b == b;
    }
  }

  /**
   * The listing keeps catalogue order: what is listed before station i comes
   * from the stations before it, then what station i contributes (see
   * ListingSingle), then what comes from the stations after it.
   */
  lemma ListingAround(fetch: Fetcher, stations: seq<Station>, i: nat)
    requires i < |stations|
    ensures Listing(fetch, stations) ==
      Listing(fetch, stations[..i]) + Listing(fetch, [stations[i]]) + Listing(fetch, stations[i + 1..])
  {
    var before, here, after := stations[..i], [stations[i]], stations[i + 1..];
    assert stations[..i + 1] == before + here;
    assert stations == stations[..i + 1] + after;
    ListingAppend(fetch, before, here);
    ListingAppend(fetch, stations[..i + 1], after);
  }

  /** One station is listed exactly when it answered. */
  lemma ListingSingle(fetch: Fetcher, station: Station)
    ensures Listing(fetch, [station]) ==
      if Reachable(fetch, station) then [Summarize(InfoOf(fetch, station).value)] else []
  {
    assert [station][1..] == [];
  }

  /** Every station that answered is listed. */
  lemma ListingHasEveryReachable(fetch: Fetcher, stations: seq<Station>, i: nat)
    requires i < |stations| && Reachable(fetch, stations[i])
    ensures Summarize(InfoOf(fetch, stations[i]).value) in Listing(fetch, stations)
  {
    ListingAround(fetch, stations, i);
    ListingSingle(fetch, stations[i]);
  }

  /** Every listed summary is copied, unchanged, from a station that answered. */
  lemma {:induction false} ListingOnlyReachable(fetch: Fetcher, stations: seq<Station>, x: Summary)
    requires x in Listing(fetch, stations)
    ensures exists i :: 0 <= i < |stations| && Reachable(fetch, stations[i])
                        && Summarize(InfoOf(fetch, stations[i]).value) == x
  {
    if x in Listing(fetch, stations[1..]) {
      ListingOnlyReachable(fetch, stations[1..], x);
      var i :| 0 <= i < |stations[1..]| && Reachable(fetch, stations[1..][i])
               && Summarize(InfoOf(fetch, stations[1..][i]).value) == x;
      assert stations[1..][i] == stations[i + 1];
    } else {
      assert Reachable(fetch, stations[0]);
    }
  }

  /** The listing is as long as the station list exactly when every station answered. */
  lemma {:induction false} ListingFullIffAllReachable(fetch: Fetcher, stations: seq<Station>)
    ensures |Listing(fetch, stations)| == |stations| <==> forall i :: 0 <= i < |stations| ==> Reachable(fetch, stations[i])
  {
    if |stations| > 0 {
      ListingFullIffAllReachable(fetch, stations[1..]);
      assert forall i :: 1 <= i < |stations| ==> stations[i] == stations[1..][i - 1];
    }
  }

  /** The listing is empty exactly when no station answered. */
  lemma {:induction false} ListingEmptyIffNoneReachable(fetch: Fetcher, stations: seq<Station>)
    ensures Listing(fetch, stations) == [] <==> forall i :: 0 <= i < |stations| ==> !Reachable(fetch, stations[i])
  {
    if |stations| > 0 {
      ListingEmptyIffNoneReachable(fetch, stations[1..]);
      assert forall i :: 1 <= i < |stations| ==> stations[i] == stations[1..][i - 1];
    }
  }

  // ---------------------------------------------------------------------
  // search_radio

  /** The query as search_radio uses it: lower-cased, then stripped. */
  function Normalize(query: string): (q: string)
    ensures Trimmed(q) && NoUpper(q)
  {
    StripKeepsNoUpper(Lower(query));
    Strip(Lower(query))
  }

  /** Normalising a normalised query changes nothing. */
  lemma NormalizeIdempotent(query: string)
    ensures Normalize(Normalize(query)) == Normalize(query)
  {
    var q := Normalize(query);
    LowerOfNoUpper(q);
    StripTrimmed(q);
  }

  /** A catalogue station matches a normalised query whose text occurs in its id. */
  predicate Matches(q: string, station: Station) {
    Contains(Lower(station.id), q)
  }

  /** Station ends the catalogue scan: it matches and it answered with a record. */
  predicate Hit(fetch: Fetcher, q: string, station: Station) {
    Matches(q, station) && Reachable(fetch, station)
  }

  /** The catalogue scan: the record of the first station that is a hit. */
  function Scan(fetch: Fetcher, q: string, stations: seq<Station>): Option<RadioInfo> {
    if |stations| == 0 then None
    else if Hit(fetch, q, stations[0]) then InfoOf(fetch, stations[0])
    else Scan(fetch, q, stations[1..])
  }

  /** The pages the catalogue scan requests: every matching station up to the first hit. */
  function ScanRequests(fetch: Fetcher, q: string, stations: seq<Station>): seq<Station> {
    if |stations| == 0 then []
    else if Matches(q, stations[0]) then
      [stations[0]] + (if Reachable(fetch, stations[0]) then [] else ScanRequests(fetch, q, stations[1..]))
    else
      ScanRequests(fetch, q, stations[1..])
  }

  /** The stations that match q, in order, whatever the network answers. */
  function Matching(q: string, stations: seq<Station>): seq<Station> {
    if |stations| == 0 then []
    else (if Matches(q, stations[0]) then [stations[0]] else []) + Matching(q, stations[1..])
  }

  /** The direct-id fallback: the query itself as a Malagasy station id. */
  function Direct(fetch: Fetcher, q: string): Option<RadioInfo> {
    GetRadioInfo(fetch, q, Madagascar)
  }

  /**
   * search_radio on the normalised query q: the first catalogue hit, whatever
   * its name; failing that, the direct-id record, but only when its name is
   * not empty.
   */
  function SearchFor(fetch: Fetcher, q: string): Option<RadioInfo> {
    match Scan(fetch, q, RadiosMadagascar)
    case Some(info) => Some(info)
    case None =>
      var direct := Direct(fetch, q);
      if direct.Some? && direct.value.name != "" then direct else None
  }

  /** The pages search_radio requests for the normalised query q, in order. */
  function RequestsFor(fetch: Fetcher, q: string): seq<Station> {
    ScanRequests(fetch, q, RadiosMadagascar)
      + (if Scan(fetch, q, RadiosMadagascar).Some? then [] else [Station(q, Madagascar)])
  }

  /** search_radio: the query is normalised once and drives the whole search. */
  function Search(fetch: Fetcher, query: string): Option<RadioInfo> {
    SearchFor(fetch, Normalize(query))
  }

  /** The pages search_radio requests, in order. */
  function SearchRequests(fetch: Fetcher, query: string): seq<Station> {
    RequestsFor(fetch, Normalize(query))
  }

  /**
   * search_radio: scan the catalogue in order, fetching each matching
   * station and returning the first record obtained; then fall back to the
   * query as a station id.
   */
  method SearchRadio(fetch: Fetcher, query: string) returns (r: Option<RadioInfo>, ghost requested: seq<Station>)
    ensures r == Search(fetch, query)
    ensures requested == SearchRequests(fetch, query)
  {
    var q := Normalize(query);
    requested := [];
    for i := 0 to |RadiosMadagascar|
      invariant Scan(fetch, q, RadiosMadagascar[..i]) == None
      invariant requested == ScanRequests(fetch, q, RadiosMadagascar[..i])
    {
      var radio := RadiosMadagascar[i];
      ScanStep(fetch, q, RadiosMadagascar, i);
      if Contains(Lower(radio.id), q) {
        var info := GetRadioInfo(fetch, radio.id, radio.country);
        requested := requested + [Station(radio.id, radio.country)];
        if info.Some? {
          SearchAtHit(fetch, query, i);
          return info, requested;
        }
      }
    }
    SearchAfterMiss(fetch, query);
    var info := GetRadioInfo(fetch, q, Madagascar);
    requested := requested + [Station(q, Madagascar)];
    if info.Some? && info.value.name != "" {
      return info, requested;
    }
    return None, requested;
  }

  /** When the scan of the whole catalogue had no hit, the search is the direct fetch. */
  lemma SearchAfterMiss(fetch: Fetcher, query: string)
    requires Scan(fetch, Normalize(query), RadiosMadagascar[..|RadiosMadagascar|]) == None
    ensures var direct := Direct(fetch, Normalize(query));
      Search(fetch, query) == if direct.Some? && direct.value.name != "" then direct else None
    ensures SearchRequests(fetch, query) ==
      ScanRequests(fetch, Normalize(query), RadiosMadagascar[..|RadiosMadagascar|]) + [Station(Normalize(query), Madagascar)]
  {
    assert RadiosMadagascar[..|RadiosMadagascar|] == RadiosMadagascar;
  }

  /** The search ends at station i when the scan reaches it without a hit and it is one. */
  lemma SearchAtHit(fetch: Fetcher, query: string, i: nat)
    requires i < |RadiosMadagascar|
    requires Scan(fetch, Normalize(query), RadiosMadagascar[..i]) == None
    requires Hit(fetch, Normalize(query), RadiosMadagascar[i])
    ensures Search(fetch, query) == InfoOf(fetch, RadiosMadagascar[i])
    ensures SearchRequests(fetch, query) ==
      ScanRequests(fetch, Normalize(query), RadiosMadagascar[..i]) + [RadiosMadagascar[i]]
  {
    ScanStep(fetch, Normalize(query), RadiosMadagascar, i);
  }

  /**
   * One step of the scan loop: with no hit before station i, station i
   * decides the scan when it is a hit, and is otherwise passed over after
   * being requested if it matches.
   */
  lemma ScanStep(fetch: Fetcher, q: string, stations: seq<Station>, i: nat)
    requires i < |stations| && Scan(fetch, q, stations[..i]) == None
    ensures Scan(fetch, q, stations[..i + 1]) == if Hit(fetch, q, stations[i]) then InfoOf(fetch, stations[i]) else None
    ensures ScanRequests(fetch, q, stations[..i + 1]) ==
      ScanRequests(fetch, q, stations[..i]) + (if Matches(q, stations[i]) then [stations[i]] else [])
    ensures Hit(fetch, q, stations[i]) ==>
      Scan(fetch, q, stations) == InfoOf(fetch, stations[i])
      && ScanRequests(fetch, q, stations) == ScanRequests(fetch, q, stations[..i + 1])
  {
    assert stations[..i + 1] == stations[..i] + [stations[i]];
    ScanAppend(fetch, q, stations[..i], [stations[i]]);
    ScanRequestsAppend(fetch, q, stations[..i], [stations[i]]);
    assert stations[..i + 1] + stations[i + 1..] == stations;
    ScanAppend(fetch, q, stations[..i + 1], stations[i + 1..]);
    ScanRequestsAppend(fetch, q, stations[..i + 1], stations[i + 1..]);
  }

  /** The scan of a concatenation scans the second part only when the first had no hit. */
  lemma {:induction false} ScanAppend(fetch: Fetcher, q: string, a: seq<Station>, b: seq<Station>)
    ensures Scan(fetch, q, a + b) == if Scan(fetch, q, a).Some? then Scan(fetch, q, a) else Scan(fetch, q, b)
  {
    if |a| > 0 {
      assert (a + b)[1..] == a[1..] + b;
      ScanAppend(fetch, q, a[1..], b);
    } else {
      assert a + b == b;
    }
  }

  /** The scan of a concatenation requests nothing from the second part once the first had a hit. */
  lemma {:induction false} ScanRequestsAppend(fetch: Fetcher, q: string, a: seq<Station>, b: seq<Station>)
    ensures ScanRequests(fetch, q, a + b) ==
      ScanRequests(fetch, q, a) + (if Scan(fetch, q, a).Some? then [] else ScanRequests(fetch, q, b))
  {
    if |a| > 0 {
      assert (a + b)[1..] == a[1..] + b;
      ScanRequestsAppend(fetch, q, a[1..], b);
    } else {
      assert a + b == b;
    }
  }

  /**
   * The scan returns the record of the first hit, and it has then requested
   * exactly the matching stations up to and including that one.
   */
  lemma {:induction false} ScanFirstHit(fetch: Fetcher, q: string, stations: seq<Station>, i: nat)
    requires i < |stations| && Hit(fetch, q, stations[i])
    requires forall j :: 0 <= j < i ==> !Hit(fetch, q, stations[j])
    ensures Scan(fetch, q, stations) == InfoOf(fetch, stations[i])
    ensures ScanRequests(fetch, q, stations) == Matching(q, stations[..i + 1])
  {
    if i > 0 {
      var rest := stations[1..];
      forall j | 0 <= j < i - 1 ensures !Hit(fetch, q, rest[j]) {
        assert rest[j] == stations[j + 1];
      }
      ScanFirstHit(fetch, q, rest, i - 1);
      assert !Hit(fetch, q, stations[0]);
      assert stations[..i + 1][1..] == rest[..i];
    } else {
      assert stations[..1] == [stations[0]];
    }
  }

  /** A record the scan returns is that of a station that matches and answered. */
  lemma {:induction false} ScanResultIsHit(fetch: Fetcher, q: string, stations: seq<Station>)
    requires Scan(fetch, q, stations).Some?
    ensures exists i :: 0 <= i < |stations| && Hit(fetch, q, stations[i])
                        && InfoOf(fetch, stations[i]) == Scan(fetch, q, stations)
  {
    if !Hit(fetch, q, stations[0]) {
      var rest := stations[1..];
      ScanResultIsHit(fetch, q, rest);
      var i :| 0 <= i < |rest| && Hit(fetch, q, rest[i]) && InfoOf(fetch, rest[i]) == Scan(fetch, q, rest);
      assert rest[i] == stations[i + 1];
    } else {
      assert Hit(fetch, q, stations[0]);
    }
  }

  /**
   * The scan finds nothing exactly when no station is a hit, and it has then
   * requested every matching station.
   */
  lemma {:induction false} ScanMiss(fetch: Fetcher, q: string, stations: seq<Station>)
    ensures Scan(fetch, q, stations) == None <==> forall i :: 0 <= i < |stations| ==> !Hit(fetch, q, stations[i])
    ensures Scan(fetch, q, stations) == None ==> ScanRequests(fetch, q, stations) == Matching(q, stations)
  {
    if |stations| > 0 {
      ScanMiss(fetch, q, stations[1..]);
      assert forall i :: 1 <= i < |stations| ==> stations[i] == stations[1..][i - 1];
    }
  }

  /** A station that is no hit, in particular a matching one whose fetch failed, does not end the scan. */
  lemma ScanSkipsNonHit(fetch: Fetcher, q: string, stations: seq<Station>, i: nat)
    requires i < |stations| && !Hit(fetch, q, stations[i])
    ensures Scan(fetch, q, stations) == Scan(fetch, q, stations[..i] + stations[i + 1..])
  {
    assert stations == stations[..i] + ([stations[i]] + stations[i + 1..]);
    ScanAppend(fetch, q, stations[..i], [stations[i]] + stations[i + 1..]);
    ScanAppend(fetch, q, stations[..i], stations[i + 1..]);
    assert ([stations[i]] + stations[i + 1..])[1..] == stations[i + 1..];
  }

  /**
   * A catalogue hit is returned whatever its name, the direct fetch is not
   * made, and no station after the hit is requested.
   */
  lemma SearchReturnsFirstHit(fetch: Fetcher, query: string, i: nat)
    requires i < |RadiosMadagascar| && Hit(fetch, Normalize(query), RadiosMadagascar[i])
    requires forall j :: 0 <= j < i ==> !Hit(fetch, Normalize(query), RadiosMadagascar[j])
    ensures Search(fetch, query) == InfoOf(fetch, RadiosMadagascar[i])
    ensures SearchRequests(fetch, query) == Matching(Normalize(query), RadiosMadagascar[..i + 1])
  {
    ScanFirstHit(fetch, Normalize(query), RadiosMadagascar, i);
  }

  /**
   * Without a catalogue hit, every matching station is requested, then the
   * query as a Malagasy id; that record is returned only when its name is
   * not empty.
   */
  lemma SearchFallsBackToDirect(fetch: Fetcher, query: string)
    requires forall i :: 0 <= i < |RadiosMadagascar| ==> !Hit(fetch, Normalize(query), RadiosMadagascar[i])
    ensures var direct := Direct(fetch, Normalize(query));
      Search(fetch, query) == if direct.Some? && direct.value.name != "" then direct else None
    ensures SearchRequests(fetch, query) ==
      Matching(Normalize(query), RadiosMadagascar) + [Station(Normalize(query), Madagascar)]
  {
    ScanMiss(fetch, Normalize(query), RadiosMadagascar);
  }

  /** search_radio finds nothing exactly when there is no catalogue hit and the
      direct fetch fails or gives an empty name. */
  lemma SearchNotFound(fetch: Fetcher, query: string)
    ensures Search(fetch, query) == None <==>
      (forall i :: 0 <= i < |RadiosMadagascar| ==> !Hit(fetch, Normalize(query), RadiosMadagascar[i]))
      && (Direct(fetch, Normalize(query)).None? || Direct(fetch, Normalize(query)).value.name == "")
  {
    ScanMiss(fetch, Normalize(query), RadiosMadagascar);
  }

  /**
   * A record search_radio returns is either the record fetched for a
   * catalogue station whose id matches the query, or the record fetched for
   * the query itself taken as an id.
   */
  lemma SearchResultOrigin(fetch: Fetcher, query: string)
    requires Search(fetch, query).Some?
    ensures var q := Normalize(query);
      || Search(fetch, query) == Direct(fetch, q)
      || exists i :: 0 <= i < |RadiosMadagascar| && Matches(q, RadiosMadagascar[i])
                     && Search(fetch, query) == InfoOf(fetch, RadiosMadagascar[i])
    ensures var r := Search(fetch, query).value;
      || r.radioId == Normalize(query)
      || exists i :: 0 <= i < |RadiosMadagascar| && RadiosMadagascar[i].id == r.radioId
                     && Matches(Normalize(query), RadiosMadagascar[i])
  {
    var q := Normalize(query);
    if Scan(fetch, q, RadiosMadagascar).Some? {
      ScanResultIsHit(fetch, q, RadiosMadagascar);
    }
  }

  /** search_radio ignores case: a query and its lower-case form give the same
      result and the same requests. */
  lemma SearchIgnoresCase(fetch: Fetcher, query: string)
    ensures Search(fetch, Lower(query)) == Search(fetch, query)
    ensures SearchRequests(fetch, Lower(query)) == SearchRequests(fetch, query)
  {
    LowerIdempotent(query);
    assert Normalize(Lower(query)) == Normalize(query);
  }

  /** search_radio sends at most one request per catalogue station plus the direct one. */
  lemma SearchRequestBound(fetch: Fetcher, query: string)
    ensures |SearchRequests(fetch, query)| <= |RadiosMadagascar| + 1
  {
    var q := Normalize(query);
    MatchingLength(q, RadiosMadagascar);
    ScanRequestsPrefix(fetch, q, RadiosMadagascar);
  }

  lemma {:induction false} MatchingLength(q: string, stations: seq<Station>)
    ensures |Matching(q, stations)| <= |stations|
  {
    if |stations| > 0 {
      MatchingLength(q, stations[1..]);
    }
  }

  /** The scan requests the matching stations in order, stopping at the first hit. */
  lemma {:induction false} ScanRequestsPrefix(fetch: Fetcher, q: string, stations: seq<Station>)
    ensures |ScanRequests(fetch, q, stations)| <= |Matching(q, stations)|
    ensures ScanRequests(fetch, q, stations) == Matching(q, stations)[..|ScanRequests(fetch, q, stations)|]
  {
    if |stations| > 0 {
      var head, tail := stations[0], stations[1..];
      var rs, ms := ScanRequests(fetch, q, tail), Matching(q, tail);
      ScanRequestsPrefix(fetch, q, tail);
      if !Matches(q, head) {
        assert Matching(q, stations) == [] + ms == ms;
      } else if Reachable(fetch, head) {
        assert Matching(q, stations) == [head] + ms;
        assert ([head] + ms)[..1] == [head];
      } else {
        assert Matching(q, stations) == [head] + ms;
        assert ([head] + ms)[..1 + |rs|] == [head] + ms[..|rs|];
      }
    }
  }

  /** Searching for the normalised query is searching for the query. */
  lemma SearchNormalForm(fetch: Fetcher, query: string)
    ensures Search(fetch, Normalize(query)) == Search(fetch, query)
    ensures SearchRequests(fetch, Normalize(query)) == SearchRequests(fetch, query)
  {
    NormalizeIdempotent(query);
  }

  /**
   * A query of white space only normalises to "", which occurs in every id:
   * the search returns the first catalogue station that answers.
   */
  lemma BlankQueryTakesFirstReachable(fetch: Fetcher, query: string, i: nat)
    requires AllSpace(query)
    requires i < |RadiosMadagascar| && Reachable(fetch, RadiosMadagascar[i])
    requires forall j :: 0 <= j < i ==> !Reachable(fetch, RadiosMadagascar[j])
    ensures Search(fetch, query) == InfoOf(fetch, RadiosMadagascar[i])
  {
    assert AllSpace(Lower(query));
    StripEmptyIffAllSpace(Lower(query));
    assert Normalize(query) == "";
    forall j | 0 <= j < |RadiosMadagascar| ensures Matches("", RadiosMadagascar[j]) {
      EmptyOccursEverywhere(Lower(RadiosMadagascar[j].id));
    }
    SearchReturnsFirstHit(fetch, query, i);
  }
}
