/**
 * The rules of the admin page: which request a call carries, who may act,
 * what is acted on, and which rows and paging links the listing shows.
 */
module Admin {
  import opened Wrappers
  import opened Store
  import opened Http

  const CookieName := "admin_secret"
  const CursorParam := "cursor"
  const SecretIncorrect := "Secret is incorrect."

  /** The admin request a call carries: none unless it is a POST, else what its body deserialised to. */
  function RequestOf(req: Request): (r: Result<Option<AdminRequest>, string>)
    ensures req.verb != Post ==> r == Ok(None)
    ensures r.Err? <==> req.verb == Post && req.payload.Malformed?
    ensures r.Err? ==> r.error == req.payload.reason
    ensures r.Ok? && r.value.Some? <==> req.verb == Post && req.payload.Parsed?
    ensures r.Ok? && r.value.Some? ==> r.value.value == req.payload.request
  {
    if req.verb != Post then Ok(None)
    else
      match req.payload
      case Malformed(reason) => Err(reason)
      case NoPayload => Ok(None)
      case Parsed(request) => Ok(Some(request))
  }

  /** Whether the call is a login attempt. */
  predicate IsLogin(req: Request)
  {
    req.verb == Post && req.payload.Parsed? && req.payload.request.Login?
  }

  /** The value of the first part of a Cookie header that parsed and is named `name`. */
  function FindCookie(parts: seq<Option<(string, string)>>, name: string): (v: Option<string>)
    ensures v.None? <==> forall i :: 0 <= i < |parts| ==> parts[i].None? || parts[i].value.0 != name
    ensures v.Some? ==> exists i :: 0 <= i < |parts| && parts[i] == Some((name, v.value)) &&
                                    forall j :: 0 <= j < i ==> parts[j].None? || parts[j].value.0 != name
  {
    if parts == [] then None
    else if parts[0].Some? && parts[0].value.0 == name then Some(parts[0].value.1)
    else
      var v := FindCookie(parts[1..], name);
      if v.Some? then
        var i :| 0 <= i < |parts[1..]| && parts[1..][i] == Some((name, v.value)) &&
                 forall j :: 0 <= j < i ==> parts[1..][j].None? || parts[1..][j].value.0 != name;
        assert parts[i + 1] == Some((name, v.value));
        v
      else v
  }

  /** The admin secret the caller's cookies present, if any. */
  function PresentedSecret(header: Option<seq<Option<(string, string)>>>): Option<string>
  {
    if header.None? then None else FindCookie(header.value, CookieName)
  }

  /** The cookie a successful login sets: the secret, for the whole site, over HTTPS only, hidden from scripts, same-site only. */
  function LoginCookie(secret: string): (c: Cookie)
    ensures c.name == CookieName && c.value == secret
  {
    Cookie(CookieName, secret, Some("/"), true, true, Some(Strict))
  }

  datatype Action = ShowListing | RunUpsert(key: string, url: string) | RunDelete(key: string)

  /** The outcome of the checks that precede any admin action, in the order they are made. */
  datatype Decision =
    | BadRequest(reason: string)
    | LoginRefused
    | Unauthenticated(secretPresented: bool)
    | Proceed(loggedIn: bool, action: Action)

  /** What an authorised request does: upsert, delete, or, for no request or a login, show the listing. */
  function ActionOf(request: Option<AdminRequest>): (a: Action)
    ensures a.RunUpsert? <==> request.Some? && request.value.Upsert?
    ensures a.RunDelete? <==> request.Some? && request.value.Delete?
    ensures a.RunUpsert? ==> request.value == Upsert(a.key, a.url)
    ensures a.RunDelete? ==> request.value == Delete(a.key)
  {
    match request
    case Some(Upsert(key, url)) => RunUpsert(key, url)
    case Some(Delete(key)) => RunDelete(key)
    case _ => ShowListing
  }

  /**
   * The admin checks: a body that does not parse is refused before anything
   * else; a login is judged by its secret; any other call by the secret its
   * cookie presents.
   */
  function Decide(config: Config, req: Request): (d: Decision)
    ensures d.BadRequest? <==> req.verb == Post && req.payload.Malformed?
    ensures IsLogin(req) ==>
              d == if req.payload.request.secret == config.adminSecret then Proceed(true, ShowListing) else LoginRefused
    ensures !IsLogin(req) && !d.BadRequest? ==>
              (d.Proceed? <==> PresentedSecret(req.cookieHeader) == Some(config.adminSecret))
    ensures d.Unauthenticated? ==> !IsLogin(req) && d.secretPresented == PresentedSecret(req.cookieHeader).Some?
    ensures d.Proceed? && !IsLogin(req) ==> !d.loggedIn
    ensures d.Proceed? && d.action.RunUpsert? ==> req.verb == Post && req.payload == Parsed(Upsert(d.action.key, d.action.url))
    ensures d.Proceed? && d.action.RunDelete? ==> req.verb == Post && req.payload == Parsed(Delete(d.action.key))
    ensures d.Proceed? && req.verb != Post ==> d.action == ShowListing
    ensures d.Proceed? && !IsLogin(req) ==> RequestOf(req).Ok? && d.action == ActionOf(RequestOf(req).value)
  {
    match RequestOf(req)
    case Err(reason) => BadRequest(reason)
    case Ok(request) =>
      if request.Some? && request.value.Login? then
        if request.value.secret == config.adminSecret then Proceed(true, ShowListing) else LoginRefused
      else
        var presented := PresentedSecret(req.cookieHeader);
        if presented == Some(config.adminSecret) then Proceed(false, ActionOf(request))
        else Unauthenticated(presented.Some?)
  }

  /** The listing row for an item: none unless its key and url are both non-empty strings. */
  function RowOf(item: Item): (r: Option<Row>)
    ensures r.Some? <==> StringAttr(item, KEY).GetOr("") != "" && StringAttr(item, URL).GetOr("") != ""
    ensures r.Some? ==> item[KEY] == S(r.value.key) && item[URL] == S(r.value.url)
  {
    var key := StringAttr(item, KEY).GetOr("");
    var url := StringAttr(item, URL).GetOr("");
    if key == "" || url == "" then None else Some(Row(key, url))
  }

  /** The rows of a listing, in scan order, one per item that yields a row. */
  function ListingRows(items: seq<Item>): (rows: seq<Row>)
    ensures |rows| <= |items|
  {
    if items == [] then []
    else
      var rows := ListingRows(items[..|items| - 1]);
      match RowOf(items[|items| - 1])
      case None => rows
      case Some(row) => rows + [row]
  }

  /**
   * The rows are exactly those the items yield: none iff no item yields one,
   * every yielded row is listed, and every listed row has a non-empty key
   * and url and comes from an item.
   */
  lemma {:induction false} ListingRowsMembers(items: seq<Item>)
    ensures ListingRows(items) == [] <==> forall i :: 0 <= i < |items| ==> RowOf(items[i]).None?
    ensures forall i :: 0 <= i < |items| && RowOf(items[i]).Some? ==> RowOf(items[i]).value in ListingRows(items)
    ensures forall r :: r in ListingRows(items) ==>
              r.key != "" && r.url != "" && exists i :: 0 <= i < |items| && RowOf(items[i]) == Some(r)
  {
    if items != [] {
      var front := items[..|items| - 1];
      ListingRowsMembers(front);
      assert forall i :: 0 <= i < |front| ==> front[i] == items[i];
    }
  }

  /** A single item gives its own row, if it yields one, and no other. */
  lemma ListingRowsOne(item: Item)
    ensures ListingRows([item]) == if RowOf(item).Some? then [RowOf(item).value] else []
  {
    assert [item][..0] == [];
  }

  /**
   * The rows of two consecutive runs of items are the rows of the first run
   * followed by those of the second: rows keep the scan order, one per
   * yielding item.
   */
  lemma {:induction false} ListingRowsConcat(a: seq<Item>, b: seq<Item>)
    ensures ListingRows(a + b) == ListingRows(a) + ListingRows(b)
  {
    if b == [] {
      assert a + b == a;
    } else {
      var front, last := b[..|b| - 1], b[|b| - 1];
      ListingRowsLast(a + b, a + front, last);
      ListingRowsLast(b, front, last);
      ListingRowsConcat(a, front);
    }
  }

  /** The rows of a sequence ending in `last` are those of the rest, then the row of `last`, if any. */
  lemma ListingRowsLast(s: seq<Item>, front: seq<Item>, last: Item)
    requires s == front + [last]
    ensures ListingRows(s) == ListingRows(front) + (if RowOf(last).Some? then [RowOf(last).value] else [])
  {
    assert s[..|s| - 1] == front;
  }

  /** The rows block: the rows, or the empty-table template when no item yields a row. */
  function RowsBlockOf(items: Option<seq<Item>>): (b: RowsBlock)
    ensures b == EmptyTable <==> forall i :: 0 <= i < |items.GetOr([])| ==> RowOf(items.GetOr([])[i]).None?
    ensures b.Rows? ==> b.rows == ListingRows(items.GetOr([]))
  {
    ListingRowsMembers(items.GetOr([]));
    var rows := ListingRows(items.GetOr([]));
    if rows == [] then EmptyTable else Rows(rows)
  }

  /** The cursor of the next page: the string key of the last item the scan evaluated. */
  function NextCursor(lastKey: Option<Item>): (c: Option<string>)
    ensures c.Some? <==> lastKey.Some? && KEY in lastKey.value && lastKey.value[KEY].S?
    ensures c.Some? ==> lastKey.value[KEY] == S(c.value)
  {
    if lastKey.Some? then StringAttr(lastKey.value, KEY) else None
  }

  /**
   * The paging block: shown when this is not the first page or there is a
   * next one; the link to the first page only on a later page, the link to
   * the next page only when there is one.
   */
  function NavFor(adminKey: string, cursor: string, next: Option<string>): (n: NavBlock)
    ensures n.Nav? <==> cursor != "" || next.Some?
    ensures n.Nav? ==> n.adminKey == adminKey && (n.first <==> cursor != "") && n.next == next
  {
    if cursor != "" || next.Some? then Nav(adminKey, cursor != "", next) else NoNav
  }

  /** An upserted item is listed, under the key it was stored at, unless its key or url is empty. */
  lemma UpsertedRow(prior: Option<Item>, key: string, url: string, now: Stamp)
    ensures RowOf(Upserted(prior, key, url, now)) == if key != "" && url != "" then Some(Row(key, url)) else None
  {
  }
}
