/**
 * The request handler: routes a request to the default redirect, the admin
 * page or a redirect lookup, and builds the response. The admin page's
 * methods live in the same class, as they do in the service.
 */
module Handler {
  import opened Wrappers
  import opened Store
  import opened Http
  import opened Admin

  const NoRedirect := "No redirect was found"
  const UrlMissing := "The URL for this redirect does not exist"
  const UrlInvalid := "The URL for this redirect is invalid"

  datatype Route = DefaultRedirect | AdminPanel | Lookup(key: string)

  /**
   * Where a request goes, by its key parameter: no key or an empty one to
   * the default redirect, the admin key to the admin page, any other key to
   * a lookup.
   */
  function RouteFor(keyParam: Option<string>, adminKey: string): (r: Route)
    ensures r == DefaultRedirect <==> keyParam.None? || keyParam.value == ""
    ensures r == AdminPanel <==> keyParam.Some? && keyParam.value != "" && keyParam.value == adminKey
    ensures r.Lookup? ==> keyParam == Some(r.key) && r.key != "" && r.key != adminKey
  {
    match keyParam
    case None => DefaultRedirect
    case Some(key) =>
      if key == "" then DefaultRedirect
      else if key == adminKey then AdminPanel
      else Lookup(key)
  }

  datatype Resolution = Redirect(url: string) | Refuse(status: nat, message: string)

  /**
   * What a redirect lookup found means: no item is a 404, an item without a
   * string url a 500, and a string url a redirect to exactly that url.
   */
  function Resolve(item: Option<Item>): (r: Resolution)
    ensures item.None? <==> r == Refuse(404, NoRedirect)
    ensures r.Redirect? <==> item.Some? && StringAttr(item.value, URL).Some?
    ensures r.Redirect? ==> item.value[URL] == S(r.url)
    ensures item.Some? && URL !in item.value ==> r == Refuse(500, UrlMissing)
    ensures item.Some? && URL in item.value && !item.value[URL].S? ==> r == Refuse(500, UrlInvalid)
  {
    match item
    case None => Refuse(404, NoRedirect)
    case Some(item) =>
      if URL !in item then Refuse(500, UrlMissing)
      else if !item[URL].S? then Refuse(500, UrlInvalid)
      else Redirect(item[URL].s)
  }

  /** After an upsert of `url` under `key`, a lookup of `key` redirects to `url`. */
  lemma UpsertThenResolve(items: map<string, Item>, key: string, url: string, now: Stamp)
    ensures Resolve(GetItem(AfterUpsert(items, key, url, now), key, {URL})) == Redirect(url)
  {
    var item := GetItem(AfterUpsert(items, key, url, now), key, {URL}).value;
    assert URL in item;
  }

  /** After a delete of `key`, a lookup of `key` finds nothing. */
  lemma DeleteThenResolve(items: map<string, Item>, key: string)
    ensures Resolve(GetItem(AfterDelete(items, key), key, {URL})) == Refuse(404, NoRedirect)
  {
  }

  /** One page of a table scan: the items read and the key of the last one evaluated, if there is more. */
  datatype ScanPage = ScanPage(items: Option<seq<Item>>, lastEvaluatedKey: Option<Item>)

  /**
   * What the handler asks of the world and cannot see: whether the table's
   * get and write calls fail, what a scan from a start key returns, the
   * two clock readings an upsert takes and the percent-encoding of a key.
   */
  datatype Io = Io(
    getFault: Option<string>,
    writeFault: Option<string>,
    scan: Option<string> -> Result<ScanPage, string>,
    now: Stamp,
    encode: string -> string)

  class Handler {
    const config: Config
    const event: Request
    const table: Table
    const io: Io
    /** The Set-Cookie values every page rendered from now on carries. */
    var cookies: seq<Cookie>

    constructor (config: Config, event: Request, table: Table, io: Io)
      ensures this.config == config && this.event == event && this.table == table
      ensures this.io.getFault == io.getFault && this.io.writeFault == io.writeFault && this.io.now == io.now
      ensures cookies == []
    {
      this.config := config;
      this.event := event;
      this.table := table;
      this.io := io;
      cookies := [];
    }

    /** The response to a redirect lookup of `key` against `items`, for a handler holding `cookies`. */
    function LookupResponse(key: string, items: map<string, Item>, cookies: seq<Cookie>): (out: Output)
      ensures io.getFault.Some? ==> out == Err(StoreFailure(io.getFault.value))
      ensures io.getFault.None? && key !in items ==> out == Ok(Rendered(404, Message(NoRedirect), cookies))
      ensures io.getFault.None? && key in items && StringAttr(items[key], URL).Some? ==>
                out == RedirectTo(items[key][URL].s)
      ensures io.getFault.None? && key in items && StringAttr(items[key], URL).None? ==>
                out == Ok(Rendered(500, Message(if URL !in items[key] then UrlMissing else UrlInvalid), cookies))
    {
      match io.getFault
      case Some(e) => Err(StoreFailure(e))
      case None =>
        match Resolve(GetItem(items, key, {URL}))
        case Redirect(url) => RedirectTo(url)
        case Refuse(status, message) => Ok(Rendered(status, Message(message), cookies))
    }

    /** The listing page, showing `err` when there is one, for a handler holding `cookies`. */
    function Listing(err: Option<string>, cookies: seq<Cookie>): (out: Output)
      ensures out.Ok? && out.value.headers == [ContentType(Html)] + SetCookieHeaders(cookies)
      ensures out.value.status == 200 || out.value.status == 500
      ensures var cursor := First(event.queryParameters, CursorParam).GetOr("");
              var scanned := io.scan(if cursor == "" then None else Some(cursor));
              && (out.value.status == 200 <==> scanned.Ok?)
              && (scanned.Err? ==> out == Ok(Rendered(500, ErrorBanner(scanned.error), cookies)))
              && (scanned.Ok? ==>
                    out == Ok(Rendered(200, AdminPage(err, RowsBlockOf(scanned.value.items),
                                                      NavFor(config.adminKey, cursor, NextCursor(scanned.value.lastEvaluatedKey))), cookies)))
    {
      var cursor := First(event.queryParameters, CursorParam).GetOr("");
      match io.scan(if cursor == "" then None else Some(cursor))
      case Err(e) => Ok(Rendered(500, ErrorBanner(e), cookies))
      case Ok(page) =>
        var nav := NavFor(config.adminKey, cursor, NextCursor(page.lastEvaluatedKey));
        Ok(Rendered(200, AdminPage(err, RowsBlockOf(page.items), nav), cookies))
    }

    /**
     * What the admin page does, from the table's items and the handler's
     * cookies: the response, the items afterwards and the cookies afterwards.
     */
    function AdminOutcome(items: map<string, Item>, cookies: seq<Cookie>): (r: (Output, map<string, Item>, seq<Cookie>))
      ensures r.0.Ok?
      ensures !Decide(config, event).Proceed? ==> r.1 == items && r.2 == cookies && r.0.value.status in {400, 401}
      ensures r.1 != items ==> io.writeFault.None? && Decide(config, event).Proceed? && !Decide(config, event).action.ShowListing?
      ensures r.2 == if IsLogin(event) && event.payload.request.secret == config.adminSecret
                     then cookies + [LoginCookie(config.adminSecret)] else cookies
    {
      match Decide(config, event)
      case BadRequest(reason) => (Ok(Rendered(400, ErrorBanner(reason), cookies)), items, cookies)
      case LoginRefused => (Ok(Rendered(401, LoginPage(Some(SecretIncorrect)), cookies)), items, cookies)
      case Unauthenticated(presented) =>
        (Ok(Rendered(401, LoginPage(if presented then Some(SecretIncorrect) else None), cookies)), items, cookies)
      case Proceed(loggedIn, action) =>
        var cs := if loggedIn then cookies + [LoginCookie(config.adminSecret)] else cookies;
        match action
        case ShowListing => (Listing(None, cs), items, cs)
        case RunUpsert(key, url) =>
          (Listing(io.writeFault, cs), if io.writeFault.None? then AfterUpsert(items, io.encode(key), url, io.now) else items, cs)
        case RunDelete(key) =>
          (Listing(io.writeFault, cs), if io.writeFault.None? then AfterDelete(items, key) else items, cs)
    }

    /** Serves the request. */
    method Run() returns (out: Output)
      modifies this, table
      ensures match RouteFor(First(event.pathParameters, config.keyParam), config.adminKey)
              case DefaultRedirect =>
                out == RedirectTo(config.defaultRedirect) && table.items == old(table.items) && cookies == old(cookies)
              case Lookup(key) =>
                out == LookupResponse(key, old(table.items), old(cookies)) && table.items == old(table.items) && cookies == old(cookies)
              case AdminPanel =>
                (out, table.items, cookies) == AdminOutcome(old(table.items), old(cookies))
    {
      var keyParam := First(event.pathParameters, config.keyParam);
      match keyParam
      case None =>
        out := RedirectTo(config.defaultRedirect);
      case Some(key) =>
        if key == "" {
          out := RedirectTo(config.defaultRedirect);
        } else if key == config.adminKey {
          out := Admin();
        } else {
          out := ProcessRedirect(key);
        }
    }

    /** Looks `key` up in the table and answers with its redirect or an error page. */
    method ProcessRedirect(key: string) returns (out: Output)
      ensures out == LookupResponse(key, table.items, cookies)
    {
      if io.getFault.Some? {
        return Err(StoreFailure(io.getFault.value));
      }
      var item := GetItem(table.items, key, {URL});
      match Resolve(item)
      case Redirect(url) =>
        out := RedirectTo(url);
      case Refuse(status, message) =>
        out := Render(status, Message(message));
    }

    /** Builds a page: the status, an HTML content type, then one Set-Cookie header per cookie added, in order. */
    method Render(status: nat, content: Content) returns (out: Output)
      ensures out == Ok(Rendered(status, content, cookies))
    {
      var headers := [ContentType(Html)];
      for i := 0 to |cookies|
        invariant headers == [ContentType(Html)] + SetCookieHeaders(cookies[..i])
      {
        assert cookies[..i + 1][..i] == cookies[..i];
        headers := headers + [SetCookie(cookies[i])];
      }
      assert cookies[..|cookies|] == cookies;
      out := Ok(Response(status, headers, Layout(Title, content)));
    }

    method AddCookie(cookie: Cookie)
      modifies this
      ensures cookies == old(cookies) + [cookie]
    {
      cookies := cookies + [cookie];
    }

    /** The admin page: parse the request, check the caller, then act. */
    method Admin() returns (out: Output)
      modifies this, table
      ensures (out, table.items, cookies) == old(AdminOutcome(table.items, cookies))
    {
      var request := ReadAdminRequest();
      if request.Err? {
        return request.error;
      }
      var err: Option<Output>;
      if request.value.Some? && request.value.value.Login? {
        err := HandleLogin(request.value.value.secret);
      } else {
        err := Authenticate();
      }
      if err.Some? {
        return err.value;
      }
      match request.value
      case Some(Upsert(key, url)) =>
        out := Upsert(key, url);
      case Some(Delete(key)) =>
        out := Delete(key);
      case _ =>
        out := PageAdmin(None);
    }

    /** Stores `url` under the encoded `key`, then shows the listing with the store's error, if any. */
    method Upsert(key: string, url: string) returns (out: Output)
      modifies table
      ensures table.items == if io.writeFault.None? then AfterUpsert(old(table.items), io.encode(key), url, io.now)
                             else old(table.items)
      ensures out == Listing(io.writeFault, cookies)
    {
      var err: Option<string> := None;
      if io.writeFault.None? {
        table.items := AfterUpsert(table.items, io.encode(key), url, io.now);
      } else {
        err := Some(io.writeFault.value);
      }
      out := PageAdmin(err);
    }

    /** Removes the item under the key exactly as given, then shows the listing with the store's error, if any. */
    method Delete(key: string) returns (out: Output)
      modifies table
      ensures table.items == if io.writeFault.None? then AfterDelete(old(table.items), key) else old(table.items)
      ensures out == Listing(io.writeFault, cookies)
    {
      var err: Option<string> := None;
      if io.writeFault.None? {
        table.items := AfterDelete(table.items, key);
      } else {
        err := Some(io.writeFault.value);
      }
      out := PageAdmin(err);
    }

    /** Scans one page of the table from the cursor and shows it, with paging links where they apply. */
    method PageAdmin(err: Option<string>) returns (out: Output)
      ensures out == Listing(err, cookies)
    {
      var cursor := First(event.queryParameters, CursorParam).GetOr("");
      var startKey: Option<string> := None;
      if cursor != "" {
        startKey := Some(cursor);
      }
      var res := io.scan(startKey);
      if res.Err? {
        out := Render(500, ErrorBanner(res.error));
        return;
      }
      var firstNav := cursor != "";
      var next := NextCursor(res.value.lastEvaluatedKey);
      var nav := if firstNav || next.Some? then Nav(config.adminKey, firstNav, next) else NoNav;
      out := Render(200, AdminPage(err, RowsBlockOf(res.value.items), nav));
    }

    /** The admin request of the call; a body that does not parse is answered with a 400 page at once. */
    method ReadAdminRequest() returns (r: Result<Option<AdminRequest>, Output>)
      ensures RequestOf(event).Ok? ==> r == Ok(RequestOf(event).value)
      ensures RequestOf(event).Err? ==> r == Err(Ok(Rendered(400, ErrorBanner(RequestOf(event).error), cookies)))
    {
      if event.verb != Post {
        return Ok(None);
      }
      match event.payload
      case Malformed(reason) =>
        var page := Render(400, ErrorBanner(reason));
        r := Err(page);
      case NoPayload =>
        r := Ok(None);
      case Parsed(request) =>
        r := Ok(Some(request));
    }

    /** A login: the right secret sets the admin cookie and lets the call through, a wrong one gets the login page. */
    method HandleLogin(secret: string) returns (err: Option<Output>)
      modifies this
      ensures secret == config.adminSecret ==> err.None? && cookies == old(cookies) + [LoginCookie(secret)]
      ensures secret != config.adminSecret ==>
                err == Some(Ok(Rendered(401, LoginPage(Some(SecretIncorrect)), cookies))) && cookies == old(cookies)
    {
      if secret == config.adminSecret {
        AddCookie(LoginCookie(secret));
        err := None;
      } else {
        var page := PageLogin(true);
        err := Some(page);
      }
    }

    /**
     * Lets the call through exactly when its admin cookie holds the secret;
     * otherwise the login page, with the incorrect-secret error when a
     * cookie was presented.
     */
    method Authenticate() returns (err: Option<Output>)
      ensures err.None? <==> PresentedSecret(event.cookieHeader) == Some(config.adminSecret)
      ensures err.Some? ==>
                err.value == Ok(Rendered(401, LoginPage(if PresentedSecret(event.cookieHeader).Some? then Some(SecretIncorrect) else None), cookies))
    {
      var secret := PresentedSecret(event.cookieHeader);
      if secret == Some(config.adminSecret) {
        err := None;
      } else {
        var page := PageLogin(secret.Some?);
        err := Some(page);
      }
    }

    method PageLogin(invalidSecret: bool) returns (out: Output)
      ensures out == Ok(Rendered(401, LoginPage(if invalidSecret then Some(SecretIncorrect) else None), cookies))
    {
      out := Render(401, LoginPage(if invalidSecret then Some(SecretIncorrect) else None));
    }
  }

  /** The caller's request is an admin POST of `request`, with the admin cookie. */
  predicate AuthorisedPost(h: Handler, request: AdminRequest)
  {
    h.event.verb == Post && h.event.payload == Parsed(request) &&
    PresentedSecret(h.event.cookieHeader) == Some(h.config.adminSecret)
  }

  /** An authorised upsert the store accepts stores the url under the encoded key, at the upsert's clock readings. */
  lemma AdminUpsertStores(h: Handler, items: map<string, Item>, cookies: seq<Cookie>, key: string, url: string)
    requires AuthorisedPost(h, Upsert(key, url)) && h.io.writeFault.None?
    ensures h.AdminOutcome(items, cookies).1 == AfterUpsert(items, h.io.encode(key), url, h.io.now)
  {
    assert Decide(h.config, h.event) == Proceed(false, RunUpsert(key, url));
  }

  /** An authorised delete the store accepts removes the item under the key as given. */
  lemma AdminDeleteRemoves(h: Handler, items: map<string, Item>, cookies: seq<Cookie>, key: string)
    requires AuthorisedPost(h, Delete(key)) && h.io.writeFault.None?
    ensures h.AdminOutcome(items, cookies).1 == AfterDelete(items, key)
  {
    assert Decide(h.config, h.event) == Proceed(false, RunDelete(key));
  }

  /** After an authorised upsert the store accepts, a lookup of the encoded key redirects to the url. */
  lemma AdminUpsertThenLookup(h: Handler, items: map<string, Item>, cookies: seq<Cookie>, later: seq<Cookie>, key: string, url: string)
    requires AuthorisedPost(h, Upsert(key, url)) && h.io.writeFault.None? && h.io.getFault.None?
    ensures h.LookupResponse(h.io.encode(key), h.AdminOutcome(items, cookies).1, later) == RedirectTo(url)
  {
    AdminUpsertStores(h, items, cookies, key, url);
    UpsertThenResolve(items, h.io.encode(key), url, h.io.now);
  }

  /** After an authorised delete the store accepts, a lookup of the key answers 404. */
  lemma AdminDeleteThenLookup(h: Handler, items: map<string, Item>, cookies: seq<Cookie>, later: seq<Cookie>, key: string)
    requires AuthorisedPost(h, Delete(key)) && h.io.writeFault.None? && h.io.getFault.None?
    ensures h.LookupResponse(key, h.AdminOutcome(items, cookies).1, later) == Ok(Rendered(404, Message(NoRedirect), later))
  {
    AdminDeleteRemoves(h, items, cookies, key);
  }

  /**
   * Upsert stores the encoded key but delete removes the key as given: when
   * encoding changes a key, deleting it by the name it was upserted under
   * leaves the redirect in place.
   */
  lemma DeleteMissesEncodedKey(h1: Handler, h2: Handler, items: map<string, Item>, c1: seq<Cookie>, c2: seq<Cookie>, later: seq<Cookie>, key: string, url: string)
    requires AuthorisedPost(h1, Upsert(key, url)) && h1.io.writeFault.None?
    requires AuthorisedPost(h2, Delete(key)) && h2.io.writeFault.None? && h2.io.getFault.None?
    requires h1.io.encode(key) != key
    ensures h2.LookupResponse(h1.io.encode(key), h2.AdminOutcome(h1.AdminOutcome(items, c1).1, c2).1, later) == RedirectTo(url)
  {
    var stored := h1.io.encode(key);
    var after := AfterUpsert(items, stored, url, h1.io.now);
    AdminUpsertStores(h1, items, c1, key, url);
    AdminDeleteRemoves(h2, after, c2, key);
    assert GetItem(AfterDelete(after, key), stored, {URL}) == GetItem(after, stored, {URL});
    UpsertThenResolve(items, stored, url, h1.io.now);
  }

  /** A call that is neither a correct login nor carries the admin cookie changes neither the table nor the cookies. */
  lemma UnauthorisedChangesNothing(h: Handler, items: map<string, Item>, cookies: seq<Cookie>)
    requires !(IsLogin(h.event) && h.event.payload.request.secret == h.config.adminSecret)
    requires PresentedSecret(h.event.cookieHeader) != Some(h.config.adminSecret)
    ensures h.AdminOutcome(items, cookies).1 == items && h.AdminOutcome(items, cookies).2 == cookies
    ensures h.AdminOutcome(items, cookies).0.value.status in {400, 401}
  {
  }
}
