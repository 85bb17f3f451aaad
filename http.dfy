/**
 * The HTTP side of the service as its handlers see it: an incoming request
 * reduced to what they inspect, and the response they build. HTML templates
 * are not modelled as text: a page is the template it fills in and the
 * values it fills in with.
 */
module Http {
  import opened Wrappers

  datatype Verb = Post | OtherVerb(name: string)

  /** The admin form's requests, told apart by their `type` field. */
  datatype AdminRequest =
    | Login(secret: string)
    | Upsert(key: string, url: string)
    | Delete(key: string)

  /**
   * What deserialising a request body gave: a parse failure, no request
   * (no body of a content type the deserialiser knows), or a request.
   */
  datatype Payload = Malformed(reason: string) | NoPayload | Parsed(request: AdminRequest)

  /**
   * The parts of a request the handlers read. `cookieHeader` holds the
   * parts of the Cookie header as the cookie parser split them, a part that
   * failed to parse being None; it is None altogether when the header is
   * missing or is not visible ASCII.
   */
  datatype Request = Request(
    verb: Verb,
    pathParameters: seq<(string, string)>,
    queryParameters: seq<(string, string)>,
    cookieHeader: Option<seq<Option<(string, string)>>>,
    payload: Payload)

  datatype Config = Config(
    tableName: string,
    keyParam: string,
    defaultRedirect: string,
    adminKey: string,
    adminSecret: string)

  datatype SameSite = Strict | Lax | NoRestriction

  datatype Cookie = Cookie(
    name: string,
    value: string,
    path: Option<string>,
    secure: bool,
    httpOnly: bool,
    sameSite: Option<SameSite>)

  datatype Header = ContentType(mime: string) | Location(url: string) | SetCookie(cookie: Cookie)

  /** One row of the admin listing. */
  datatype Row = Row(key: string, url: string)

  /** The rows block of the admin page: the rows, or the empty-table template when there are none. */
  datatype RowsBlock = EmptyTable | Rows(rows: seq<Row>)

  /** The paging block of the admin page, with its link back to the first page and to the next page. */
  datatype NavBlock = NoNav | Nav(adminKey: string, first: bool, next: Option<string>)

  /** The page content a handler renders into the layout. */
  datatype Content =
    | Message(text: string)
    | ErrorBanner(message: string)
    | LoginPage(error: Option<string>)
    | AdminPage(error: Option<string>, rows: RowsBlock, nav: NavBlock)

  datatype Body = NoBody | Layout(title: string, content: Content)

  datatype Response = Response(status: nat, headers: seq<Header>, body: Body)

  datatype Error = StoreFailure(message: string) | InvalidHeaderValue(value: string)

  type Output = Result<Response, Error>

  const Title := "Url Shortener"
  const Html := "text/html"

  /** The first value given for `name`, as a multi-valued parameter map answers it. */
  function First(params: seq<(string, string)>, name: string): (v: Option<string>)
    ensures v.None? <==> forall i :: 0 <= i < |params| ==> params[i].0 != name
    ensures v.Some? ==> exists i :: 0 <= i < |params| && params[i] == (name, v.value) &&
                                    forall j :: 0 <= j < i ==> params[j].0 != name
  {
    if params == [] then None
    else if params[0].0 == name then Some(params[0].1)
    else
      var v := First(params[1..], name);
      if v.Some? then
        var i :| 0 <= i < |params[1..]| && params[1..][i] == (name, v.value) &&
                 forall j :: 0 <= j < i ==> params[1..][j].0 != name;
        assert params[i + 1] == (name, v.value);
        v
      else v
  }

  /**
   * Whether a header may carry `s`: tabs and every character from space
   * upwards except DEL. Characters beyond ASCII are encoded as bytes of 128
   * and over, which are allowed.
   */
  predicate ValidHeaderValue(s: string)
  {
    forall i :: 0 <= i < |s| ==> s[i] == '\t' || (32 <= s[i] as int && s[i] as int != 127)
  }

  /** A permanent redirect to `url`; building it fails when `url` cannot be a header value. */
  function RedirectTo(url: string): (out: Output)
    ensures out.Ok? <==> ValidHeaderValue(url)
    ensures out.Ok? ==> out.value.status == 301 && out.value.headers == [Location(url)] && out.value.body == NoBody
    ensures out.Err? ==> out.error == InvalidHeaderValue(url)
  {
    if ValidHeaderValue(url) then Ok(Response(301, [Location(url)], NoBody))
    else Err(InvalidHeaderValue(url))
  }

  /** One Set-Cookie header per cookie, in order. */
  function SetCookieHeaders(cookies: seq<Cookie>): (hs: seq<Header>)
    ensures |hs| == |cookies|
    ensures forall i :: 0 <= i < |cookies| ==> hs[i] == SetCookie(cookies[i])
  {
    if cookies == [] then []
    else SetCookieHeaders(cookies[..|cookies| - 1]) + [SetCookie(cookies[|cookies| - 1])]
  }

  /** The page a handler renders: `content` in the layout, an HTML content type, and the handler's cookies. */
  function Rendered(status: nat, content: Content, cookies: seq<Cookie>): (r: Response)
    ensures r.status == status && r.body == Layout(Title, content)
    ensures r.headers == [ContentType(Html)] + SetCookieHeaders(cookies)
  {
    Response(status, [ContentType(Html)] + SetCookieHeaders(cookies), Layout(Title, content))
  }
}
