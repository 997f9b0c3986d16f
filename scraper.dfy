/**
 * The station catalogue and the single-station fetch of the OnlineRadioBox
 * scraper: the player-page URL, the record read from the page's
 * `button#set_radio_button` element, and the rule that every failure yields
 * no record.
 *
 * The HTTP request and the HTML parsing are not modelled; they are an oracle
 * `Fetcher` that maps the station whose player page is requested to the
 * outcome of requesting and parsing that page.
 */
module Scraper {
  import opened Wrappers
  import opened Text

  const BaseUrl: string := "http://p.onlineradiobox.com"

  /** The country every fixed catalogue station, and the direct-id fallback, uses. */
  const Madagascar: string := "mg"

  /** One entry of the fixed catalogue: a station slug and its country code. */
  datatype Station = Station(id: string, country: string)

  /** The ten catalogued Malagasy stations, in the order they are tried. */
  const RadiosMadagascar: seq<Station> := [
    Station("rdj", Madagascar),
    Station("rnm", Madagascar),
    Station("rta", Madagascar),
    Station("viva", Madagascar),
    Station("mbs", Madagascar),
    Station("tvm", Madagascar),
    Station("antsiva", Madagascar),
    Station("lazan", Madagascar),
    Station("fm-plus", Madagascar),
    Station("radiodon", Madagascar)
  ]

  /** The attributes of the `set_radio_button` element, by attribute name. */
  type Attributes = map<string, string>

  /**
   * What requesting and parsing a player page can come to. `Failure` stands
   * for every exception the original catches: a connection error or timeout,
   * an HTTP error status, a parse error. `Page(None)` is a page without the
   * button element.
   */
  datatype Response = Failure | Page(button: Option<Attributes>)

  /**
   * The network seen from the scraper: the response to the request for the
   * player page of a station, that is for PlayerUrl(station.country,
   * station.id). Keying the oracle by station rather than by URL loses
   * nothing: PlayerUrlInjective shows that distinct stations have distinct
   * player URLs.
   */
  type Fetcher = Station -> Response

  /** A station's record, keyed in the JSON output as "nom", "image_url",
      "url_stream" and "radio_id". */
  datatype RadioInfo = RadioInfo(name: string, imageUrl: string, streamUrl: string, radioId: string)

  /** The mobile player page of station `radioId` in `country`. */
  function PlayerUrl(country: string, radioId: string): string {
    BaseUrl + "/" + country + "/" + radioId + "/player/?played=1&cs=" + country + "." + radioId + "&os=android"
  }

  /** The value of attribute `key`, or "" when the element does not carry it. */
  function Attr(button: Attributes, key: string): string {
    if key in button then button[key] else ""
  }

  /** A protocol-relative image URL ("//host/path") is given the https scheme;
      any other string, "" included, is kept. */
  function UpgradeImage(img: string): (r: string)
    ensures StartsWith(img, "//") ==> r == "https:" + img
    ensures !StartsWith(img, "//") ==> r == img
    ensures !StartsWith(r, "//")
  {
    if img != "" && StartsWith(img, "//") then
      var r := "https:" + img;
      assert r[0] == 'h';
      r
    else
      img
  }

  /**
   * The record read from one response: none when the request failed or the
   * page has no button, and otherwise the button's attributes with "" for a
   * missing one, the image upgraded, and the requested id.
   */
  function InfoFromResponse(radioId: string, response: Response): (r: Option<RadioInfo>)
    ensures r.Some? <==> response.Page? && response.button.Some?
    ensures r.Some? ==>
      var button := response.button.value;
      && r.value.radioId == radioId
      && r.value.name == Attr(button, "radioname")
      && r.value.streamUrl == Attr(button, "stream")
      && r.value.imageUrl == UpgradeImage(Attr(button, "radioimg"))
  {
    match response
    case Failure => None
    case Page(None) => None
    case Page(Some(button)) =>
      Some(RadioInfo(
        name := Attr(button, "radioname"),
        imageUrl := UpgradeImage(Attr(button, "radioimg")),
        streamUrl := Attr(button, "stream"),
        radioId := radioId))
  }

  /** get_radio_info: request the player page of radioId in country and read its record. */
  function GetRadioInfo(fetch: Fetcher, radioId: string, country: string): (r: Option<RadioInfo>)
    ensures r.Some? ==> r.value.radioId == radioId && !StartsWith(r.value.imageUrl, "//")
    ensures r.Some? <==> fetch(Station(radioId, country)).Page? && fetch(Station(radioId, country)).button.Some?
  {
    InfoFromResponse(radioId, fetch(Station(radioId, country)))
  }

  // Properties of the pieces above.

  /**
   * Distinct stations are requested at distinct URLs: the player URL
   * determines the country and the id. The country stands in the URL twice,
   * once before a '/' and once before a '.', so no other split fits.
   */
  lemma PlayerUrlInjective(c1: string, id1: string, c2: string, id2: string)
    requires PlayerUrl(c1, id1) == PlayerUrl(c2, id2)
    ensures c1 == c2 && id1 == id2
  {
    PlayerUrlParts(c1, id1);
    PlayerUrlParts(c2, id2);
    var path1, path2 := c1 + "/" + id1, c2 + "/" + id2;
    var cs1, cs2 := c1 + "." + id1, c2 + "." + id2;
    assert path1 == path2 && cs1 == cs2 by {
      SplitEqual(BaseUrl + "/", path1 + "/player/?played=1&cs=", cs1 + "&os=android",
                 path2 + "/player/?played=1&cs=", cs2 + "&os=android");
      DropSuffix(path1, path2, "/player/?played=1&cs=");
      DropSuffix(cs1, cs2, "&os=android");
    }
    assert path1[|c1|] == '/' && cs1[|c1|] == '.';
    assert path2[|c2|] == '/' && cs2[|c2|] == '.';
    assert |c1| == |c2|;
    assert c1 == path1[..|c1|] && c2 == path2[..|c2|];
    assert id1 == path1[|c1| + 1..] && id2 == path2[|c2| + 1..];
  }

  /** A player URL is the base, the path with country and id, then the query with country and id. */
  lemma PlayerUrlParts(c: string, id: string)
    ensures PlayerUrl(c, id) ==
      (BaseUrl + "/") + ((c + "/" + id) + "/player/?played=1&cs=") + ((c + "." + id) + "&os=android")
  {
  }

  /** Equal strings with a common head and middle parts of equal length have equal parts. */
  lemma SplitEqual(head: string, x1: string, y1: string, x2: string, y2: string)
    requires head + x1 + y1 == head + x2 + y2 && |x1| + |y1| == |x2| + |y2|
    requires |x1| - |y1| == |x2| - |y2|
    ensures x1 == x2 && y1 == y2
  {
    var u := head + x1 + y1;
    assert x1 == u[|head|..|head| + |x1|] && y1 == u[|head| + |x1|..];
    assert x2 == u[|head|..|head| + |x2|] && y2 == u[|head| + |x2|..];
  }

  /** A common suffix can be dropped from both sides of an equation. */
  lemma DropSuffix(a: string, b: string, tail: string)
    requires a + tail == b + tail
    ensures a == b
  {
    assert a == (a + tail)[..|a|] && b == (b + tail)[..|b|];
  }

  /** The URLs requested for a sequence of stations, one player URL each, in order. */
  ghost function RequestedUrls(stations: seq<Station>): seq<string> {
    seq(|stations|, i requires 0 <= i < |stations| => PlayerUrl(stations[i].country, stations[i].id))
  }

  /**
   * A trace of stations and the trace of URLs requested for it carry the same
   * information: the URLs give back the stations.
   */
  lemma RequestedUrlsDetermineStations(a: seq<Station>, b: seq<Station>)
    requires RequestedUrls(a) == RequestedUrls(b)
    ensures a == b
  {
    forall i | 0 <= i < |a| ensures a[i] == b[i] {
      assert RequestedUrls(a)[i] == RequestedUrls(b)[i];
      PlayerUrlInjective(a[i].country, a[i].id, b[i].country, b[i].id);
    }
  }

  /** The player page of the first catalogue station: its path, then its query. */
  lemma PlayerUrlExample()
    ensures PlayerUrl("mg", "rdj") ==
      "http://p.onlineradiobox.com/mg/rdj" + "/player/?played=1&cs=mg.rdj&os=android"
  {
    PlayerUrlExamplePath();
    PlayerUrlExampleQuery();
    assert PlayerUrl("mg", "rdj") ==
      (BaseUrl + "/" + "mg" + "/" + "rdj") + ("/player/?played=1&cs=" + "mg" + "." + "rdj" + "&os=android");
  }

  /** The path part of PlayerUrlExample. */
  lemma PlayerUrlExamplePath()
    ensures BaseUrl + "/" + "mg" + "/" + "rdj" == "http://p.onlineradiobox.com/mg/rdj"
  {
  }

  /** The query part of PlayerUrlExample. */
  lemma PlayerUrlExampleQuery()
    ensures "/player/?played=1&cs=" + "mg" + "." + "rdj" + "&os=android" == "/player/?played=1&cs=mg.rdj&os=android"
  {
  }

  /** An image URL that the upgrade has already seen is not changed again. */
  lemma UpgradeImageIdempotent(img: string)
    ensures UpgradeImage(UpgradeImage(img)) == UpgradeImage(img)
  {
  }

  /** The protocol-relative example is given the https scheme. */
  lemma UpgradeImageExample()
    ensures UpgradeImage("//cdn.example.com/x.png") == "https://cdn.example.com/x.png"
  {
    assert StartsWith("//cdn.example.com/x.png", "//");
  }

  /** A button that carries none of the three attributes gives a record of empty
      strings for the requested id. */
  lemma BareButtonGivesEmptyRecord(radioId: string)
    ensures InfoFromResponse(radioId, Page(Some(map[]))) == Some(RadioInfo("", "", "", radioId))
  {
    assert !StartsWith("", "//");
  }

  /** The catalogue holds ten stations, all Malagasy, with lower-case ids. */
  lemma CatalogueShape()
    ensures |RadiosMadagascar| == 10
    ensures forall i :: 0 <= i < |RadiosMadagascar| ==>
      RadiosMadagascar[i].country == Madagascar && Lower(RadiosMadagascar[i].id) == RadiosMadagascar[i].id
  {
    forall i | 0 <= i < |RadiosMadagascar|
      ensures Lower(RadiosMadagascar[i].id) == RadiosMadagascar[i].id
    {
      LowerOfNoUpper(RadiosMadagascar[i].id);
    }
  }

  /** No two catalogue stations share an id, so no two share a player page. */
  lemma CatalogueUrlsDistinct(i: nat, j: nat)
    requires i < j < |RadiosMadagascar|
    ensures RadiosMadagascar[i].id != RadiosMadagascar[j].id
    ensures PlayerUrl(RadiosMadagascar[i].country, RadiosMadagascar[i].id)
            != PlayerUrl(RadiosMadagascar[j].country, RadiosMadagascar[j].id)
  {
    var a, b := RadiosMadagascar[i], RadiosMadagascar[j];
    assert a.id != b.id;
    if PlayerUrl(a.country, a.id) == PlayerUrl(b.country, b.id) {
      PlayerUrlInjective(a.country, a.id, b.country, b.id);
    }
  }
}
