/**
 * The two Flickr endpoints of the client: the photo-search REST call and
 * the static image URL of one search hit, and the conversion of their text
 * into a URL value.
 */
module Endpoints {
  import opened Wrappers
  import opened Text
  import opened Coordinates
  import opened Responses

  const BaseFlickr: string := "https://www.flickr.com/services/rest"
  const BaseStaticFlickr: string := "https://live.staticflickr.com"

  datatype Endpoint =
    | GetLocationUrl(latitude: Coord, longitude: Coord, perPage: int, page: int)
    | GetPhotoUrl(server: string, id: string, secret: string)

  /** The search request text, concatenated in the order the client writes it. */
  function LocationString(key: string, describe: Describe, latitude: Coord, longitude: Coord,
                          perPage: int, page: int): string
  {
    BaseFlickr + "/?method=flickr.photos.search&api_key=" + key
      + "&lat=" + describe(latitude) + "&lon=" + describe(longitude)
      + "&per_page=" + IntToDecimal(perPage) + "&page=" + IntToDecimal(page)
      + "&format=json&nojsoncallback=1"
  }

  function PhotoString(server: string, id: string, secret: string): string {
    BaseStaticFlickr + "/" + server + "/" + id + "_" + secret + ".jpg"
  }

  /** The text of an endpoint; `key` is the API key and `describe` renders a coordinate. */
  function StringValue(e: Endpoint, key: string, describe: Describe): string {
    match e
    case GetLocationUrl(latitude, longitude, perPage, page) =>
      LocationString(key, describe, latitude, longitude, perPage, page)
    case GetPhotoUrl(server, id, secret) => PhotoString(server, id, secret)
  }

  // The characters of section 2 of RFC 3986: unreserved, reserved and the
  // percent sign that introduces a percent-encoded octet.

  predicate Unreserved(c: char) {
    ('A' <= c <= 'Z') || ('a' <= c <= 'z') || ('0' <= c <= '9') || c == '-' || c == '.' || c == '_' || c == '~'
  }

  predicate Reserved(c: char) {
    c in ":/?#[]@" || c in "!$&'()*+,;="
  }

  predicate UrlChar(c: char) {
    Unreserved(c) || Reserved(c) || c == '%'
  }

  predicate UrlSafe(s: string) {
    forall i | 0 <= i < |s| :: UrlChar(s[i])
  }

  lemma UrlSafeConcat(a: string, b: string)
    ensures UrlSafe(a + b) <==> UrlSafe(a) && UrlSafe(b)
  {
    if UrlSafe(a + b) {
      assert forall i | 0 <= i < |a| :: (a + b)[i] == a[i];
      assert forall i | 0 <= i < |b| :: (a + b)[|a| + i] == b[i];
    }
  }

  lemma DecimalIsUrlSafe(n: int)
    ensures UrlSafe(IntToDecimal(n))
  {
    if n < 0 {
      UrlSafeConcat("-", NatToDecimal(-n));
    }
  }

  /** A parsed URL; the model keeps only its absolute text. */
  datatype Url = Url(absoluteString: string)

  /**
   * `URL(string:)`: non-empty text made only of RFC 3986 characters is
   * accepted and kept as it is; the empty string or any other character
   * makes the parse fail (`nil`).
   */
  function ParseUrl(s: string): (r: Option<Url>)
    ensures r.Some? <==> |s| > 0 && UrlSafe(s)
    ensures r.Some? ==> r.value.absoluteString == s
  {
    if |s| > 0 && UrlSafe(s) then Some(Url(s)) else None
  }

  /** `Endpoints.url`: `None` is the failed force-unwrap. */
  function EndpointUrl(e: Endpoint, key: string, describe: Describe): Option<Url> {
    ParseUrl(StringValue(e, key, describe))
  }

  /** The process trap raised by force-unwrapping a URL that did not parse. */
  datatype Trap = UnparseableUrl(text: string)

  lemma PhotoStringSafe(server: string, id: string, secret: string)
    ensures UrlSafe(PhotoString(server, id, secret)) <==> UrlSafe(server) && UrlSafe(id) && UrlSafe(secret)
  {
    assert UrlSafe(BaseStaticFlickr + "/");
    UrlSafeConcat(BaseStaticFlickr + "/", server);
    UrlSafeConcat(BaseStaticFlickr + "/" + server, "/");
    UrlSafeConcat(BaseStaticFlickr + "/" + server + "/", id);
    UrlSafeConcat(BaseStaticFlickr + "/" + server + "/" + id, "_");
    UrlSafeConcat(BaseStaticFlickr + "/" + server + "/" + id + "_", secret);
    UrlSafeConcat(BaseStaticFlickr + "/" + server + "/" + id + "_" + secret, ".jpg");
  }

  /** `getPhotoURL`: the absolute string of the image URL of one search hit. */
  function PhotoUrl(server: string, id: string, secret: string): (r: Result<string, Trap>)
    ensures r.Ok? <==> UrlSafe(server) && UrlSafe(id) && UrlSafe(secret)
    ensures r.Ok? ==> r.value == "https://live.staticflickr.com/" + server + "/" + id + "_" + secret + ".jpg"
    ensures r.Ok? ==> IsPrefix("https://live.staticflickr.com/", r.value) && IsSuffix(".jpg", r.value)
  {
    PhotoStringSafe(server, id, secret);
    match EndpointUrl(GetPhotoUrl(server, id, secret), "", _ => "")
    case Some(u) => Ok(u.absoluteString)
    case None => Err(UnparseableUrl(PhotoString(server, id, secret)))
  }

  /** Reads server, id and secret back out of a static image URL. */
  function ParsePhotoUrl(u: string): Option<PhotoDetails> {
    var prefix := BaseStaticFlickr + "/";
    if |u| < |prefix| + 4 || u[..|prefix|] != prefix || u[|u| - 4..] != ".jpg" then None
    else
      var body := u[|prefix|..|u| - 4];
      match IndexOf(body, '/')
      case None => None
      case Some(i) =>
        var rest := body[i + 1..];
        match IndexOf(rest, '_')
        case None => None
        case Some(j) => Some(PhotoDetails(rest[..j], body[..i], rest[j + 1..]))
  }

  /** A text framed by a prefix and a suffix gives both back, and the body between them. */
  lemma FrameParts(prefix: string, body: string, suffix: string)
    ensures var u := prefix + body + suffix;
      && u[..|prefix|] == prefix && u[|u| - |suffix|..] == suffix && u[|prefix|..|u| - |suffix|] == body
  {
  }

  lemma BodyParts(server: string, id: string, secret: string)
    requires '/' !in server && '_' !in id
    ensures var body := server + "/" + id + "_" + secret;
      && IndexOf(body, '/') == Some(|server|)
      && body[..|server|] == server
      && body[|server| + 1..] == id + "_" + secret
  {
    IndexOfAfter(server, '/', id + "_" + secret);
    assert server + "/" + id + "_" + secret == server + "/" + (id + "_" + secret);
  }

  lemma TailParts(id: string, secret: string)
    requires '_' !in id
    ensures var rest := id + "_" + secret;
      && IndexOf(rest, '_') == Some(|id|) && rest[..|id|] == id && rest[|id| + 1..] == secret
  {
    IndexOfAfter(id, '_', secret);
  }

  /**
   * Server, id and secret appear in the image URL in that order and can be
   * recovered from it, as long as the server has no slash and the id no
   * underscore (Flickr's are numeric).
   */
  lemma PhotoUrlRoundTrip(d: PhotoDetails)
    requires UrlSafe(d.server) && UrlSafe(d.id) && UrlSafe(d.secret)
    requires '/' !in d.server && '_' !in d.id
    ensures PhotoUrl(d.server, d.id, d.secret).Ok?
    ensures ParsePhotoUrl(PhotoUrl(d.server, d.id, d.secret).value) == Some(d)
  {
    var prefix := BaseStaticFlickr + "/";
    var body := d.server + "/" + d.id + "_" + d.secret;
    var u := PhotoUrl(d.server, d.id, d.secret).value;
    assert u == prefix + body + ".jpg";
    FrameParts(prefix, body, ".jpg");
    BodyParts(d.server, d.id, d.secret);
    TailParts(d.id, d.secret);
  }

  /** Distinct search hits have distinct image URLs. */
  lemma PhotoUrlInjective(d: PhotoDetails, e: PhotoDetails)
    requires UrlSafe(d.server) && UrlSafe(d.id) && UrlSafe(d.secret) && '/' !in d.server && '_' !in d.id
    requires UrlSafe(e.server) && UrlSafe(e.id) && UrlSafe(e.secret) && '/' !in e.server && '_' !in e.id
    requires d != e
    ensures PhotoUrl(d.server, d.id, d.secret).value != PhotoUrl(e.server, e.id, e.secret).value
  {
    PhotoUrlRoundTrip(d);
    PhotoUrlRoundTrip(e);
  }

  // The search request as an ordered list of query parameters.

  /** The query parameters of a photo search, in the order the client writes them. */
  function SearchParams(key: string, latText: string, lonText: string, perPage: int, page: int)
    : seq<(string, string)>
  {
    [ ("method", "flickr.photos.search"), ("api_key", key), ("lat", latText), ("lon", lonText),
      ("per_page", IntToDecimal(perPage)), ("page", IntToDecimal(page)),
      ("format", "json"), ("nojsoncallback", "1") ]
  }

  function QueryPiece(p: (string, string)): string {
    p.0 + "=" + p.1
  }

  function QueryPieces(ps: seq<(string, string)>): seq<string> {
    seq(|ps|, i requires 0 <= i < |ps| => QueryPiece(ps[i]))
  }

  /** `k1=v1&k2=v2&...` */
  function JoinQuery(ps: seq<(string, string)>): string
    requires |ps| >= 1
  {
    JoinWith(QueryPieces(ps), '&')
  }

  /** One `key=value` piece, cut at its first `=`. */
  function ReadPiece(s: string): (string, string) {
    match IndexOf(s, '=')
    case None => (s, "")
    case Some(k) => (s[..k], s[k + 1..])
  }

  function ReadQuery(q: string): seq<(string, string)> {
    var parts := SplitOn(q, '&');
    seq(|parts|, i requires 0 <= i < |parts| => ReadPiece(parts[i]))
  }

  /** The query parameters of a search request text, if it addresses the REST endpoint. */
  function QueryOf(url: string): Option<seq<(string, string)>> {
    var base := BaseFlickr + "/?";
    if IsPrefix(base, url) then Some(ReadQuery(url[|base|..])) else None
  }

  predicate QuerySafe(ps: seq<(string, string)>) {
    forall i | 0 <= i < |ps| :: '&' !in ps[i].0 && '=' !in ps[i].0 && '&' !in ps[i].1
  }

  /** A query whose keys hold no `&` or `=` and whose values hold no `&` reads back as written. */
  lemma QueryRoundTrip(ps: seq<(string, string)>)
    requires |ps| >= 1 && QuerySafe(ps)
    ensures ReadQuery(JoinQuery(ps)) == ps
  {
    var pieces := QueryPieces(ps);
    forall i | 0 <= i < |pieces|
      ensures '&' !in pieces[i]
    {
      assert pieces[i] == ps[i].0 + "=" + ps[i].1;
    }
    SplitJoin(pieces, '&');
    forall i | 0 <= i < |ps|
      ensures ReadPiece(pieces[i]) == ps[i]
    {
      IndexOfAfter(ps[i].0, '=', ps[i].1);
      var t := ps[i].0 + "=" + ps[i].1;
      assert t[..|ps[i].0|] == ps[i].0;
      assert t[|ps[i].0| + 1..] == ps[i].1;
    }
  }

  lemma JoinQueryStep(ps: seq<(string, string)>)
    requires |ps| >= 2
    ensures JoinQuery(ps) == QueryPiece(ps[0]) + "&" + JoinQuery(ps[1..])
  {
    assert QueryPieces(ps)[1..] == QueryPieces(ps[1..]);
  }

  lemma MethodPiece()
    ensures QueryPiece(("method", "flickr.photos.search")) == "method=flickr.photos.search"
  {
    assert QueryPiece(("method", "flickr.photos.search")) == "method" + "=" + "flickr.photos.search";
  }

  lemma FormatPiece()
    ensures QueryPiece(("format", "json")) == "format=json"
  {
    assert QueryPiece(("format", "json")) == "format" + "=" + "json";
  }

  lemma CallbackPiece()
    ensures QueryPiece(("nojsoncallback", "1")) == "nojsoncallback=1"
  {
    assert QueryPiece(("nojsoncallback", "1")) == "nojsoncallback" + "=" + "1";
  }

  lemma HeadLiteral()
    ensures "/?method=flickr.photos.search&api_key=" == "/?" + "method=flickr.photos.search" + "&" + "api_key="
  {
  }

  lemma TailLiteral()
    ensures "&format=json&nojsoncallback=1" == "&" + "format=json" + "&" + "nojsoncallback=1"
  {
  }

  lemma KeyedPiece(k: string, kEq: string, v: string)
    requires kEq == k + "="
    ensures QueryPiece((k, v)) == kEq + v
  {
  }

  lemma Regroup(base: string, s: string, m: string, k: string, key: string, la: string, a: string,
                lo: string, b: string, pp: string, p: string, pg: string, q: string, f: string, n: string)
    ensures base + (s + m + "&" + k) + key + ("&" + la) + a + ("&" + lo) + b + ("&" + pp) + p
              + ("&" + pg) + q + ("&" + f + "&" + n)
         == base + s + (m + "&" + (k + key + "&" + (la + a + "&" + (lo + b + "&" + (pp + p + "&"
              + (pg + q + "&" + (f + "&" + n)))))))
  {
  }

  /** An eight-parameter query, piece by piece. */
  lemma JoinEight(ps: seq<(string, string)>)
    requires |ps| == 8
    ensures JoinQuery(ps) == QueryPiece(ps[0]) + "&" + (QueryPiece(ps[1]) + "&" + (QueryPiece(ps[2]) + "&"
      + (QueryPiece(ps[3]) + "&" + (QueryPiece(ps[4]) + "&" + (QueryPiece(ps[5]) + "&"
      + (QueryPiece(ps[6]) + "&" + QueryPiece(ps[7])))))))
  {
    JoinQueryStep(ps);
    JoinQueryStep(ps[1..]);
    JoinQueryStep(ps[2..]);
    JoinQueryStep(ps[3..]);
    JoinQueryStep(ps[4..]);
    JoinQueryStep(ps[5..]);
    JoinQueryStep(ps[6..]);
    assert ps[7..] == [ps[7]];
  }

  lemma KeyedPieces(key: string, a: string, b: string, p: string, q: string)
    ensures QueryPiece(("api_key", key)) == "api_key=" + key
    ensures QueryPiece(("lat", a)) == "lat=" + a && QueryPiece(("lon", b)) == "lon=" + b
    ensures QueryPiece(("per_page", p)) == "per_page=" + p && QueryPiece(("page", q)) == "page=" + q
  {
    KeyedPiece("api_key", "api_key=", key);
    KeyedPiece("lat", "lat=", a);
    KeyedPiece("lon", "lon=", b);
    KeyedPiece("per_page", "per_page=", p);
    KeyedPiece("page", "page=", q);
  }

  lemma SeparatedKeys()
    ensures "&lat=" == "&" + "lat=" && "&lon=" == "&" + "lon="
    ensures "&per_page=" == "&" + "per_page=" && "&page=" == "&" + "page="
  {
  }

  /** The search text is the REST base, `/?`, then exactly the parameter list joined by `&`. */
  lemma LocationUrlIsQuery(key: string, describe: Describe, latitude: Coord, longitude: Coord,
                           perPage: int, page: int)
    ensures LocationString(key, describe, latitude, longitude, perPage, page)
         == BaseFlickr + "/?" + JoinQuery(SearchParams(key, describe(latitude), describe(longitude), perPage, page))
  {
    var a, b := describe(latitude), describe(longitude);
    var p, q := IntToDecimal(perPage), IntToDecimal(page);
    var ps := SearchParams(key, a, b, perPage, page);
    JoinEight(ps);
    MethodPiece();
    FormatPiece();
    CallbackPiece();
    HeadLiteral();
    TailLiteral();
    KeyedPieces(key, a, b, p, q);
    SeparatedKeys();
    Regroup(BaseFlickr, "/?", "method=flickr.photos.search", "api_key=", key, "lat=", a, "lon=", b,
            "per_page=", p, "page=", q, "format=json", "nojsoncallback=1");
  }

  lemma DecimalHasNoSeparators(n: int)
    ensures '&' !in IntToDecimal(n) && '=' !in IntToDecimal(n)
  {
    var r := IntToDecimal(n);
    if n < 0 {
      assert r == "-" + NatToDecimal(-n);
      assert forall i | 1 <= i < |r| :: IsDigit(r[i]) by {
        forall i | 1 <= i < |r| ensures IsDigit(r[i]) {
          assert r[i] == NatToDecimal(-n)[i - 1];
        }
      }
    }
  }

  lemma SearchParamsSafe(key: string, latText: string, lonText: string, perPage: int, page: int)
    requires '&' !in key && '&' !in latText && '&' !in lonText
    ensures QuerySafe(SearchParams(key, latText, lonText, perPage, page))
  {
    DecimalHasNoSeparators(perPage);
    DecimalHasNoSeparators(page);
    FixedPairsHaveNoSeparators();
  }

  lemma FixedPairsHaveNoSeparators()
    ensures '&' !in "method" && '=' !in "method" && '&' !in "flickr.photos.search"
    ensures '&' !in "api_key" && '=' !in "api_key" && '&' !in "lat" && '=' !in "lat"
    ensures '&' !in "lon" && '=' !in "lon" && '&' !in "per_page" && '=' !in "per_page"
    ensures '&' !in "page" && '=' !in "page" && '&' !in "format" && '=' !in "format" && '&' !in "json"
    ensures '&' !in "nojsoncallback" && '=' !in "nojsoncallback" && '&' !in "1"
  {
    NoSeparatorsA();
    NoSeparatorsB();
    NoSeparatorsC();
  }

  lemma NoSeparatorsA()
    ensures '&' !in "method" && '=' !in "method" && '&' !in "flickr.photos.search"
  {
  }

  lemma NoSeparatorsB()
    ensures '&' !in "api_key" && '=' !in "api_key" && '&' !in "lat" && '=' !in "lat"
    ensures '&' !in "lon" && '=' !in "lon" && '&' !in "per_page" && '=' !in "per_page"
  {
  }

  lemma NoSeparatorsC()
    ensures '&' !in "page" && '=' !in "page" && '&' !in "format" && '=' !in "format" && '&' !in "json"
    ensures '&' !in "nojsoncallback" && '=' !in "nojsoncallback" && '&' !in "1"
  {
  }

  lemma ReadAfterBase(rest: string)
    ensures QueryOf(BaseFlickr + "/?" + rest) == Some(ReadQuery(rest))
  {
    var base := BaseFlickr + "/?";
    var url := base + rest;
    assert url[..|base|] == base;
    assert url[|base|..] == rest;
  }

  /**
   * Reading the search request back gives method, api_key, lat, lon,
   * per_page, page, format and nojsoncallback in that order, with the page
   * size and page number in decimal.
   */
  lemma SearchUrlReadsBack(key: string, describe: Describe, latitude: Coord, longitude: Coord,
                           perPage: int, page: int)
    requires '&' !in key && '&' !in describe(latitude) && '&' !in describe(longitude)
    ensures var ps := SearchParams(key, describe(latitude), describe(longitude), perPage, page);
      && QueryOf(StringValue(GetLocationUrl(latitude, longitude, perPage, page), key, describe)) == Some(ps)
      && ParseDecimal(ps[4].1) == Some(perPage)
      && ParseDecimal(ps[5].1) == Some(page)
  {
    var ps := SearchParams(key, describe(latitude), describe(longitude), perPage, page);
    LocationUrlIsQuery(key, describe, latitude, longitude, perPage, page);
    SearchParamsSafe(key, describe(latitude), describe(longitude), perPage, page);
    QueryRoundTrip(ps);
    ReadAfterBase(JoinQuery(ps));
    IntToDecimalRoundTrip(perPage);
    IntToDecimalRoundTrip(page);
  }

  lemma JoinSafe(parts: seq<string>, sep: char)
    requires |parts| >= 1 && UrlChar(sep)
    requires forall i | 0 <= i < |parts| :: UrlSafe(parts[i])
    ensures UrlSafe(JoinWith(parts, sep))
    decreases |parts|
  {
    if |parts| > 1 {
      JoinSafe(parts[1..], sep);
      UrlSafeConcat(parts[0], [sep]);
      UrlSafeConcat(parts[0] + [sep], JoinWith(parts[1..], sep));
    }
  }

  lemma PieceSafe(k: string, v: string)
    requires UrlSafe(k) && UrlSafe(v)
    ensures UrlSafe(QueryPiece((k, v)))
  {
    UrlSafeConcat(k, "=");
    UrlSafeConcat(k + "=", v);
  }

  lemma BaseSafe()
    ensures UrlSafe(BaseFlickr + "/?")
  {
  }

  lemma FixedKeysSafe()
    ensures UrlSafe("method") && UrlSafe("api_key") && UrlSafe("lat") && UrlSafe("lon")
    ensures UrlSafe("per_page") && UrlSafe("page") && UrlSafe("format") && UrlSafe("nojsoncallback")
  {
  }

  lemma FixedValuesSafe()
    ensures UrlSafe("flickr.photos.search") && UrlSafe("json") && UrlSafe("1")
  {
  }

  lemma SearchParamsUrlSafe(key: string, latText: string, lonText: string, perPage: int, page: int)
    requires UrlSafe(key) && UrlSafe(latText) && UrlSafe(lonText)
    ensures var ps := SearchParams(key, latText, lonText, perPage, page);
      forall i | 0 <= i < |ps| :: UrlSafe(ps[i].0) && UrlSafe(ps[i].1)
  {
    var ps := SearchParams(key, latText, lonText, perPage, page);
    DecimalIsUrlSafe(perPage);
    DecimalIsUrlSafe(page);
    FixedKeysSafe();
    FixedValuesSafe();
    assert UrlSafe(ps[0].0) && UrlSafe(ps[1].0) && UrlSafe(ps[2].0) && UrlSafe(ps[3].0);
    assert UrlSafe(ps[4].0) && UrlSafe(ps[5].0) && UrlSafe(ps[6].0) && UrlSafe(ps[7].0);
    assert UrlSafe(ps[0].1) && UrlSafe(ps[1].1) && UrlSafe(ps[2].1) && UrlSafe(ps[3].1);
    assert UrlSafe(ps[4].1) && UrlSafe(ps[5].1) && UrlSafe(ps[6].1) && UrlSafe(ps[7].1);
  }

  /** The search request always parses when the key and both coordinate renderings are URL-safe. */
  lemma SearchUrlParses(key: string, describe: Describe, latitude: Coord, longitude: Coord,
                        perPage: int, page: int)
    requires UrlSafe(key) && UrlSafe(describe(latitude)) && UrlSafe(describe(longitude))
    ensures EndpointUrl(GetLocationUrl(latitude, longitude, perPage, page), key, describe)
         == Some(Url(LocationString(key, describe, latitude, longitude, perPage, page)))
  {
    var ps := SearchParams(key, describe(latitude), describe(longitude), perPage, page);
    LocationUrlIsQuery(key, describe, latitude, longitude, perPage, page);
    SearchParamsUrlSafe(key, describe(latitude), describe(longitude), perPage, page);
    var pieces := QueryPieces(ps);
    forall i | 0 <= i < |ps|
      ensures UrlSafe(pieces[i])
    {
      PieceSafe(ps[i].0, ps[i].1);
    }
    JoinSafe(pieces, '&');
    BaseSafe();
    UrlSafeConcat(BaseFlickr + "/?", JoinQuery(ps));
  }

  /**
   * `Endpoints.stringValue` followed by `url`: the image case is the static
   * base and `/server/id_secret.jpg`, and its force-unwrap succeeds exactly
   * when the three parts are URL-safe; the search case is the REST base and
   * the eight query pairs, and with a URL-safe key and coordinate renderings
   * its force-unwrap succeeds. A URL that parses keeps the endpoint's text.
   */
  lemma EndpointUrlCases(e: Endpoint, key: string, describe: Describe)
    ensures EndpointUrl(e, key, describe).Some? ==>
      EndpointUrl(e, key, describe).value.absoluteString == StringValue(e, key, describe)
    ensures e.GetPhotoUrl? ==>
      && StringValue(e, key, describe) == BaseStaticFlickr + "/" + e.server + "/" + e.id + "_" + e.secret + ".jpg"
      && (EndpointUrl(e, key, describe).Some? <==> UrlSafe(e.server) && UrlSafe(e.id) && UrlSafe(e.secret))
    ensures e.GetLocationUrl? ==>
      StringValue(e, key, describe)
        == BaseFlickr + "/?" + JoinQuery(SearchParams(key, describe(e.latitude), describe(e.longitude), e.perPage, e.page))
    ensures e.GetLocationUrl? && UrlSafe(key) && UrlSafe(describe(e.latitude)) && UrlSafe(describe(e.longitude))
            ==> EndpointUrl(e, key, describe).Some?
  {
    match e
    case GetPhotoUrl(server, id, secret) =>
      PhotoStringSafe(server, id, secret);
    case GetLocationUrl(latitude, longitude, perPage, page) =>
      LocationUrlIsQuery(key, describe, latitude, longitude, perPage, page);
      if UrlSafe(key) && UrlSafe(describe(latitude)) && UrlSafe(describe(longitude)) {
        SearchUrlParses(key, describe, latitude, longitude, perPage, page);
      }
  }
}
