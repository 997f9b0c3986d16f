# Radio scraper: a Dafny model of station resolution

This project models the core of a small Flask service that scrapes
OnlineRadioBox player pages for Malagasy radio stations (`main.py`). It covers:

- the fixed catalogue of ten stations (`RADIOS_MADAGASCAR`);
- `get_radio_info`: the player-page URL, the record read from the page's
  `button#set_radio_button` element (with `""` for a missing attribute), the
  upgrade of a protocol-relative image URL to `https:`, and the rule that
  every failure yields `None`;
- `get_all_radios`: the in-order listing of the name and image of every
  catalogue station that answered;
- `search_radio`: the query normalised by `lower()` then `strip()`, the
  catalogue scan that returns the first matching station that answers,
  and the direct-id fallback in country `mg` whose record is accepted only
  with a non-empty name.

The network is a parameter, `Fetcher = Station -> Response`: the response to
the request for a station's player page, the URL `PlayerUrl(country, id)`.
Keying the oracle by station loses nothing, because distinct stations have
distinct player URLs (`Scraper.PlayerUrlInjective`). `Response` is `Failure`
(any exception the original catches: connection error, timeout, HTTP error
status, parse error) or `Page(button)`, where `button` is the optional
attribute map of the `set_radio_button` element. Everything else is
deterministic given that oracle. The two loops of the original are Dafny
methods (`GetAllRadios`, `SearchRadio`) proved equal to recursive
specification functions (`Listing`, `Search`). Each method also returns,
as a ghost trace, the stations whose pages it requests, in order, proved
equal to the catalogue and to `SearchRequests`. This states and proves that
no station after the first hit is fetched and that the fallback is requested
only when the scan failed. `RequestedUrls` maps such a trace to the URLs
actually requested, and `RequestedUrlsDetermineStations` shows that the URL
trace determines the station trace.

Files: `wrappers.dfy` (Option), `text.dfy` (ASCII `lower`, `strip`,
`startswith` and substring test), `scraper.dfy` (catalogue and
`get_radio_info`), `lookup.dfy` (`get_all_radios`, `search_radio`).

## Model

| member | source | states |
|---|---|---|
| Text.IsSpace | main.py:70 | the characters `strip()` removes: the ASCII characters `str.isspace()` accepts (9-13, 28-31 and the space); Text.LeadingSpace, Text.TrailingSpace and Text.StripSurrounds use it |
| Text.Lower | main.py:70 | lower-casing keeps the length, turns each ASCII capital into its lower-case letter, and changes no other character |
| Text.LowerExample | main.py:70 | "RDJ" lower-cases to "rdj" |
| Text.LowerIdempotent | main.py:70 | lower-casing twice is lower-casing once |
| Text.LowerOfNoUpper | main.py:70 | a string without capitals is its own lower-case form |
| Text.LowerChar | main.py:70 | `lower()` on one character: an ASCII capital becomes its lower-case letter, anything else is kept; Text.Lower states it for every position |
| Text.LeadingSpace | main.py:70 | the count of leading white space is within the string, everything it covers is white space, and the character after it is not |
| Text.TrailingSpace | main.py:70 | the count of trailing white space is within the string, everything it covers is white space, and the character before it is not |
| Text.StripLeft | main.py:70 | the result is a suffix of the input, everything dropped is white space, and it does not start with white space |
| Text.StripRight | main.py:70 | the result is a prefix of the input, everything dropped is white space, and it does not end with white space |
| Text.Strip | main.py:70 | the result has no white space at either end |
| Text.StripSurrounds | main.py:70 | the stripped query stands in the input where its leading white space ends, with only white space before and after it |
| Text.StripTrimmed | main.py:70 | stripping a string with no surrounding white space changes nothing |
| Text.StripIdempotent | main.py:70 | stripping twice is stripping once |
| Text.StripKeepsNoUpper | main.py:70 | stripping a lower-cased string leaves it without capitals |
| Text.StripEmptyIffAllSpace | main.py:70 | a string strips to "" exactly when it is all white space |
| Text.Contains | main.py:73 | the substring test `q in id`, defined by recursion on id; Text.ContainsAt ties it to an occurrence at a position |
| Text.ContainsAt | main.py:73 | the substring test `q in id` holds exactly when q occurs at some position of id |
| Text.EmptyOccursEverywhere | main.py:73 | the empty query occurs in every id |
| Text.StartsWith | main.py:41 | `img.startswith("//")`, by position; Scraper.UpgradeImage states what it decides |
| Scraper.Attr | main.py:37-39 | an attribute of the button, or "" when the button does not carry it; Scraper.BareButtonGivesEmptyRecord shows the defaults |
| Scraper.UpgradeImage | main.py:41-42 | an image URL starting with "//" gets "https:" prepended, any other (including "") is kept, and the result never starts with "//" |
| Scraper.UpgradeImageIdempotent | main.py:41-42 | upgrading an upgraded image URL changes nothing |
| Scraper.UpgradeImageExample | main.py:41-42 | "//cdn.example.com/x.png" becomes "https://cdn.example.com/x.png" |
| Scraper.InfoFromResponse | main.py:34-54 | a record exists exactly when the page came back with the button; it carries the requested id, the radioname and stream attributes, and the upgraded radioimg, each "" when absent |
| Scraper.BareButtonGivesEmptyRecord | main.py:37-49 | a button without the three attributes gives a record of empty strings for the requested id |
| Scraper.GetRadioInfo | main.py:27-54 | the fetch of the player URL yields a record exactly when that page has the button, never raises, and the record's id is the requested id and its image is never protocol-relative |
| Scraper.PlayerUrl | main.py:29 | the player-page URL of a station from the base URL, the country and the id; Scraper.PlayerUrlExample and Scraper.PlayerUrlInjective characterise it |
| Scraper.PlayerUrlExample | main.py:29 | station "rdj" in "mg" is requested at http://p.onlineradiobox.com/mg/rdj/player/?played=1&cs=mg.rdj&os=android |
| Scraper.PlayerUrlInjective | main.py:29 | the player URL built from country and id determines both, for every country code and id |
| Scraper.RequestedUrls | main.py:29-30 | the URLs requested for a trace of stations, one player URL each, in order; Scraper.RequestedUrlsDetermineStations relates it to the station trace |
| Scraper.RequestedUrlsDetermineStations | main.py:29-30 | the URLs requested give back the stations requested, so a station trace and its URL trace carry the same information |
| Scraper.CatalogueShape | main.py:13-24 | the catalogue has ten stations, all in country "mg", with lower-case ids |
| Scraper.CatalogueUrlsDistinct | main.py:13-24 | no two catalogue stations share an id or a player URL |
| Lookup.Summarize | main.py:62-65 | a listed station keeps only the name and image of its record; Lookup.ListingSingle and Lookup.ListingOnlyReachable state what is listed |
| Lookup.InfoOf | main.py:60 | the record get_radio_info gives for a catalogue station, fetched with its own id and country (also main.py:74); Lookup.ListingSingle and Lookup.ScanFirstHit use it |
| Lookup.Reachable | main.py:74-75 | the test `if info:` (also main.py:61): a record is returned exactly when get_radio_info gives a dict, and that dict always has four keys, so it is always truthy; Lookup.ListingSingle and Lookup.ScanFirstHit use it |
| Lookup.Listing | main.py:57-66 | the listing is never longer than the station list |
| Lookup.GetAllRadios | main.py:57-66 | the loop returns the in-order listing of the stations that answered and requests each catalogue page once, in catalogue order |
| Lookup.ListingAppend | main.py:59-65 | listing a concatenation is the concatenation of the listings (order is kept) |
| Lookup.ListingAround | main.py:59-65 | around any station i the listing is: the listing of the stations before i, then the listing of i alone, then the listing of the stations after i |
| Lookup.ListingSingle | main.py:61-65 | one station is listed, with its name and image, exactly when it answered |
| Lookup.ListingHasEveryReachable | main.py:59-65 | every station that answered has its name and image listed |
| Lookup.ListingOnlyReachable | main.py:59-65 | every listed entry is the name and image, copied unchanged, of a station that answered |
| Lookup.ListingFullIffAllReachable | main.py:57-66 | the listing has one entry per station exactly when every station answered |
| Lookup.ListingEmptyIffNoneReachable | main.py:57-66 | the listing is empty exactly when no station answered |
| Lookup.Normalize | main.py:70 | the normalised query has no surrounding white space and no capitals |
| Lookup.NormalizeIdempotent | main.py:70 | normalising a normalised query changes nothing |
| Lookup.Matches | main.py:73 | `query_lower in radio["id"].lower()`; Text.ContainsAt ties it to an occurrence at a position |
| Lookup.Hit | main.py:73-75 | the loop ends at a station exactly when its id contains the query and its fetch gives a record; characterised by Lookup.ScanFirstHit, Lookup.ScanResultIsHit and Lookup.ScanMiss |
| Lookup.ScanRequests | main.py:73-74 | the pages the catalogue loop requests, every matching station up to the first hit; characterised by Lookup.ScanFirstHit, Lookup.ScanMiss and Lookup.ScanRequestsPrefix |
| Lookup.Direct | main.py:78 | the record fetched for the normalised query itself as an "mg" id; Lookup.SearchFallsBackToDirect states when it is requested and returned |
| Lookup.SearchFor | main.py:72-82 | the first catalogue hit, whatever its name, else the direct record only when it has a non-empty name; characterised by Lookup.SearchReturnsFirstHit, Lookup.SearchFallsBackToDirect and Lookup.SearchNotFound |
| Lookup.RequestsFor | main.py:72-82 | the scan's requests, then the direct page only when the scan had no hit; characterised by Lookup.SearchReturnsFirstHit and Lookup.SearchFallsBackToDirect |
| Lookup.Scan | main.py:72-76 | the catalogue scan, the record of the first station that matches and answers; characterised by Lookup.ScanFirstHit and Lookup.ScanMiss |
| Lookup.Search | main.py:69-82 | search_radio's result; characterised by Lookup.SearchReturnsFirstHit, Lookup.SearchFallsBackToDirect and Lookup.SearchNotFound |
| Lookup.SearchRequests | main.py:69-82 | the pages search_radio requests, in order; characterised by Lookup.SearchReturnsFirstHit, Lookup.SearchFallsBackToDirect and Lookup.SearchRequestBound |
| Lookup.SearchAtHit | main.py:72-76 | when the scan reaches station i without a hit and i is one, the search returns i's record and has requested i's page last |
| Lookup.SearchAfterMiss | main.py:78-82 | when the whole scan had no hit, the search returns the direct-id record only if it has a non-empty name, and the direct page is requested last |
| Lookup.SearchRadio | main.py:69-82 | the loop with early return and the fallback compute the search result, and request exactly the specified pages in order |
| Lookup.ScanStep | main.py:72-76 | with no hit so far, station i ends the scan when it matches and answers, and is otherwise passed over (requested only if it matches) |
| Lookup.ScanAppend | main.py:72-76 | the scan of a concatenation looks at the second part only when the first had no hit |
| Lookup.ScanRequestsAppend | main.py:72-76 | the scan of a concatenation requests nothing from the second part once the first had a hit |
| Lookup.ScanFirstHit | main.py:72-76 | the scan returns the record of the first station that matches and answers, having requested exactly the matching stations up to it |
| Lookup.ScanResultIsHit | main.py:72-76 | a record the scan returns belongs to a station whose id contains the query and which answered |
| Lookup.ScanMiss | main.py:72-76 | the scan finds nothing exactly when no station both matches and answers, and it has then requested every matching station |
| Lookup.ScanSkipsNonHit | main.py:74-76 | a station that does not match, or matches but fails, can be removed without changing the scan's result |
| Lookup.SearchReturnsFirstHit | main.py:72-76 | a catalogue hit is returned whatever its name; the direct fetch and later stations are not requested |
| Lookup.SearchFallsBackToDirect | main.py:78-82 | without a catalogue hit, the query is fetched as an "mg" id after every matching station, and that record is returned only with a non-empty name |
| Lookup.SearchNotFound | main.py:69-82 | the search returns None exactly when there is no catalogue hit and the direct fetch fails or has an empty name |
| Lookup.SearchResultOrigin | main.py:69-82 | a returned record is the record fetched for a catalogue station whose id contains the query, or the record fetched for the query itself as an "mg" id |
| Lookup.SearchRequestBound | main.py:69-82 | a search sends at most eleven requests |
| Lookup.ScanRequestsPrefix | main.py:72-76 | the scan requests matching stations only, in catalogue order, as a prefix of the list of all matching stations (Lookup.ScanFirstHit states where it stops) |
| Lookup.MatchingLength | main.py:72-73 | there are at most as many matching stations as stations |
| Lookup.SearchNormalForm | main.py:70 | the one normalised query drives both the matching and the fallback: searching for it is searching for the raw query |
| Lookup.SearchIgnoresCase | main.py:70 | a query and its lower-case form give the same result and the same requests |
| Lookup.BlankQueryTakesFirstReachable | main.py:70-76 | a query of white space only matches every id, so the search returns the first catalogue station that answers |

## Left out

- The HTTP request (`requests.get`, its headers, the 15-second timeout and `raise_for_status`) is not modelled; its outcome is the `Fetcher` oracle, with every exception folded into `Failure`.
- HTML parsing (BeautifulSoup, lxml, the `button#set_radio_button` selector) is not modelled; its output is the optional attribute map in `Page`.
- The oracle answers a station's page the same way every time within one search. The original can request the same page twice (the query "rdj" when that station fails: once in the scan, once as the direct id) and the real server could answer differently the second time; the model does not capture that.
- The error message printed when a fetch fails is not modelled; it does not affect any result.
- The Flask routes (`/`, `/radios`, `/recherche`), `jsonify`, the 400 and 404 responses and `app.run` are not modelled. The `/recherche` route rejects an empty `radio` parameter before `search_radio` runs; a parameter of white space only is not rejected, and `Lookup.BlankQueryTakesFirstReachable` states what the search then returns.
- Text.Lower: models ASCII lower-casing only, not Python's full Unicode `lower()`.
- Text.Strip: removes only the ASCII characters Python counts as white space, not the other Unicode spaces `strip()` removes.
