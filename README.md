# url_short, modelled in Dafny

A model of the url_short service: an AWS Lambda function that answers short links with permanent redirects,
looked up in a DynamoDB table, together with a password-protected admin page for listing, adding and removing
redirects, and a hit tracker that counts visits per key in batches.

The project has six modules:

- `Wrappers` (`wrappers.dfy`): `Option` and `Result`.
- `Hit` (`hit.dfy`): the hit tracker.
  - The sending half is a class whose `Track` never fails its caller.
  - The receiving half is a class holding the table's `hits` attribute per key (a `map<string, int>`) and a log of every update it has issued.
  - `Run` drains a stream of windows. For each window it folds the keys into a key → count map (`Coalesce`, a loop proved equal to `Tally`). It then issues one `hits += count` update per distinct key, one at a time (`Flush`).
  - Whether the store accepts the n-th update is given by the oracle `succeeds`. The store refuses in any case an update to a key that has no `hits` yet.
  - A failed update is recorded and skipped.
- `Store` (`store.dfy`): the table's items as maps of attribute values, a projected `get_item`, and the effects of the admin page's upsert and delete.
- `Http` (`http.dfy`): the request and response as the handler sees them, and the parts of response building that do not depend on the handler's state:
  - the first value of a parameter;
  - the 301 redirect;
  - the Set-Cookie headers;
  - a rendered page.
  Pages are a `Content` datatype that names the template and the values filled into it.
- `Admin` (`admin.rs` rules as functions, in `admin.dfy`):
  - which admin request a call carries;
  - the admin cookie presented;
  - the order of the checks before an admin action (`Decide`);
  - the listing rows;
  - the paging links.
- `Handler` (`handler.dfy`): the `Handler` class of `main.rs` and `admin.rs`. Its fields are the configuration, the request, the table, the answers of the outside world (`Io`) and the cookies added so far.
  - Every method of the source is a method here, with a postcondition tying its result and the new state to the specification functions `LookupResponse`, `Listing` and `AdminOutcome`.
  - Lemmas join the admin page and the redirect lookup end to end.

## Model

| member | source | states |
|---|---|---|
| Hit.Tally | src/hit.rs:59-62 | the coalesced map holds exactly the keys of the window, each with its number of occurrences, which is at least 1 |
| Hit.TallyTotal | src/hit.rs:59-62 | the counts of a window add up to the window's length |
| Hit.TallyOrderFree | src/hit.rs:44-62 | the counts depend only on the visits in the window, not on their order |
| Hit.TallySnoc | src/hit.rs:59-61 | folding one more key raises that key's count by one and leaves the other counts unchanged |
| Hit.TotalRemove | src/hit.rs:59-62 | the sum of a count map does not depend on the order in which its keys are taken |
| Hit.TotalBump | src/hit.rs:60 | raising one count by d raises the sum by d |
| Hit.Coalesce | src/hit.rs:45-62 | the fold of a window (the initial key followed by the collected ones), one entry update per key, yields exactly `Tally` of the window |
| Hit.ApplyCredits | src/hit.rs:63-79 | after a sequence of updates, each key holds what it held plus the counts of the successful updates for it |
| Hit.ApplyConcat | src/hit.rs:63-79 | applying two sequences of updates one after the other is applying their concatenation |
| Hit.CreditedConcat | src/hit.rs:63-79 | what the successful updates credit a key adds up over concatenation |
| Hit.KeysOfHas | src/hit.rs:63-69 | every update's key is among the keys its sequence updates |
| Hit.KeysOfSize | src/hit.rs:63-69 | a sequence of updates touches at most as many keys as it has updates |
| Hit.FlushSnoc | src/hit.rs:63-74 | one more update, for a new key, extends a flush by that key and its count |
| Hit.FlushStep | src/hit.rs:63-79 | one more update for a key still to be flushed keeps the flush loop's invariant |
| Hit.FlushFront | src/hit.rs:63-74 | dropping the last update of a flush leaves a flush of the other keys |
| Hit.FlushDistinct | src/hit.rs:63-74 | a flush never updates the same key twice |
| Hit.FlushCredits | src/hit.rs:63-79 | when every update of a flush succeeds, each key is credited exactly its count and keys outside the window get nothing |
| Hit.RunSnoc | src/hit.rs:44-79 | flushing the next window extends a run of the windows before it by that window |
| Hit.RunAt | src/hit.rs:44-79 | the i-th flush of a run is the flush of the i-th window |
| Hit.RunStep | src/hit.rs:44-79 | the updates and the store after one more window's flush are those before it followed by that flush |
| Hit.AllSucceedSplit | src/hit.rs:76-78 | when no update of two consecutive sequences fails, no update of either fails |
| Hit.RunTotals | src/hit.rs:44-79 | if no update fails, each key's stored hits grow by its total number of occurrences across all windows |
| Hit.RunCredits | src/hit.rs:44-79 | if no update fails, the updates of a run credit each key its number of occurrences across all windows |
| Hit.HitTrackerSender.Track | src/hit.rs:26-28 | an open handle passes the key on, and a closed one silently drops it; the call never fails |
| Hit.HitTrackerSender.Close | src/hit.rs:30-32 | the handle is disconnected, and what was sent stays sent |
| Hit.HitTrackerReceiver.Increment | src/hit.rs:65-78 | one `hits += count` update for one key, awaited. The attempt is logged. On success only that key's hits rise by the count. A failure, including a key with no hits to add to, changes nothing |
| Hit.HitTrackerReceiver.Flush | src/hit.rs:63-79 | issues exactly one update per key of the counts, carrying that key's count, one after another; failures are skipped, and the store ends as those updates, applied in order, leave it |
| Hit.HitTrackerReceiver.Run | src/hit.rs:42-81 | each window is coalesced then flushed, in order, whatever fails. The store ends as all those updates leave it, and no key gains a hits attribute. With no windows, nothing is written. The receiver's invariant is kept: the store is what the logged updates made of the store the receiver started with |
| Store.StringAttr | src/admin.rs:103-116 | the value of a string attribute, None exactly when it is missing or not a string |
| Store.GetItem | src/main.rs:45-53 | a projected get: present exactly when the key is, holding exactly the projected attributes that the item has |
| Store.Upserted | src/admin.rs:41-48 | the upserted item sets key, url and updated (to the second clock reading); keeps created and hits when present, else sets them to the first clock reading and 0; keeps every other attribute |
| Store.AfterUpsert | src/admin.rs:36-55 | an upsert changes only the item under its key, which then exists |
| Store.AfterDelete | src/admin.rs:57-63 | a delete removes the item under its key, if any, and nothing else |
| Store.UpsertKeepsCreated | src/admin.rs:42 | a second upsert of a key keeps the first one's creation time and hits and takes its own url |
| Http.First | src/main.rs:29-30 | the first value given for a parameter, None exactly when none is given |
| Http.RedirectTo | src/main.rs:94-101 | a 301 with exactly one Location header equal to the url and an empty body, or the builder's error when the url cannot be a header value |
| Http.SetCookieHeaders | src/main.rs:72-74 | one Set-Cookie header per cookie, in order |
| Admin.RequestOf | src/admin.rs:167-175 | a non-POST call carries no admin request; a POST carries what its body parses to, or the parse error |
| Admin.FindCookie | src/admin.rs:199-208 | the value of the first cookie that parsed and has the name; None exactly when there is none |
| Admin.LoginCookie | src/admin.rs:179-185 | the login cookie is named `admin_secret` and holds the secret |
| Admin.ActionOf | src/admin.rs:28-32 | Upsert runs the upsert, Delete runs the delete, anything else shows the listing |
| Admin.Decide | src/admin.rs:14-34 | a body that does not parse is refused before anything else. A login proceeds iff its secret is the admin secret. Any other call proceeds iff its cookie presents that secret, else gets the login page, which shows the error iff a cookie was presented. A call that proceeds without logging in performs exactly the action its request carries, and upsert and delete run only for the request carrying them |
| Admin.RowOf | src/admin.rs:102-125 | an item yields a row iff its key and url are both non-empty strings, and the row holds exactly those |
| Admin.ListingRows | src/admin.rs:98-128 | at most one row per item |
| Admin.ListingRowsMembers | src/admin.rs:98-128 | the rows are exactly those the items yield, each with a non-empty key and url; empty iff no item yields one |
| Admin.ListingRowsOne | src/admin.rs:102-126 | a single item gives its own row if it yields one, else nothing |
| Admin.ListingRowsConcat | src/admin.rs:98-128 | the rows of consecutive runs of items are the rows of the first followed by those of the second, so rows keep the scan order |
| Admin.ListingRowsLast | src/admin.rs:98-128 | the rows of a sequence are those of its front followed by the last item's row, if any |
| Admin.RowsBlockOf | src/admin.rs:98-139 | the empty-table template iff no item yields a row (a missing item list counts as empty), else the rows |
| Admin.NextCursor | src/admin.rs:89-96 | the next cursor is present iff the scan's last evaluated key has a string key, and is that key |
| Admin.NavFor | src/admin.rs:140-162 | the paging block appears iff the incoming cursor is non-empty or there is a next cursor; the first-page link iff the cursor is non-empty; the next link iff a next cursor exists |
| Admin.UpsertedRow | src/admin.rs:117-125 | an upserted item is listed under its stored key and url unless either is empty |
| Handler.RouteFor | src/main.rs:28-42 | no key or an empty one goes to the default redirect; a non-empty key equal to the admin key goes to the admin page; any other key is looked up |
| Handler.Resolve | src/main.rs:53-63 | no item means 404 "No redirect was found"; an item without url means 500 "The URL for this redirect does not exist"; a non-string url means 500 "The URL for this redirect is invalid"; a string url means a redirect to exactly it |
| Handler.UpsertThenResolve | src/main.rs:44-65 | after an upsert of a url under a key, looking the key up redirects to that url |
| Handler.DeleteThenResolve | src/main.rs:53-54 | after a delete of a key, looking it up finds nothing |
| Handler.Handler.constructor | src/main.rs:18-26 | a new handler has no cookies |
| Handler.Handler.LookupResponse | src/main.rs:44-65 | a failing get is an `Err`, not a page; otherwise the 404 page, the redirect to the string url, or the 500 page whose message says the url is missing or is not a string |
| Handler.Handler.Listing | src/admin.rs:71-165 | the listing page is 200 iff the scan from the cursor succeeds. It then shows the given error, the rows block of the scanned items and the paging block for the cursor and the next one. A failed scan is a 500 page with the scan's error. Either way it carries the handler's cookies |
| Handler.Handler.AdminOutcome | src/admin.rs:14-34 | only a proceeding call changes the table, and only by an upsert or a delete the store accepts. Cookies gain the login cookie exactly on a correct login. Refused calls are 400 or 401 pages |
| Handler.Handler.Run | src/main.rs:28-42 | no key or an empty one answers the 301 to the default redirect without touching the store; the admin key runs the admin page; any other key is looked up |
| Handler.Handler.ProcessRedirect | src/main.rs:44-65 | answers `LookupResponse` for the key against the table as it is |
| Handler.Handler.Render | src/main.rs:67-87 | the page has the given status, the HTML content type followed by one Set-Cookie header per added cookie in order, and the layout around the content |
| Handler.Handler.AddCookie | src/main.rs:89-91 | the cookie is appended to those the handler will send |
| Handler.Handler.Admin | src/admin.rs:14-34 | the response, table and cookies are exactly those `AdminOutcome` gives for the table and cookies as they were |
| Handler.Handler.Upsert | src/admin.rs:36-55 | if the store accepts, the item is upserted under the url-encoded key at the current time, else the table is unchanged; the listing shows the store's error |
| Handler.Handler.Delete | src/admin.rs:57-69 | if the store accepts, the item under the key as given is removed, else the table is unchanged; the listing shows the store's error |
| Handler.Handler.PageAdmin | src/admin.rs:71-165 | scans from the cursor (from the start when it is empty) and answers `Listing` |
| Handler.Handler.ReadAdminRequest | src/admin.rs:167-175 | the call's admin request, or a 400 page with the parse error |
| Handler.Handler.HandleLogin | src/admin.rs:177-191 | the right secret adds the login cookie and lets the call through; a wrong one gives the 401 login page with "Secret is incorrect." and adds no cookie |
| Handler.Handler.Authenticate | src/admin.rs:193-217 | lets the call through iff its admin cookie holds the secret; else the 401 login page, showing the error iff such a cookie was presented |
| Handler.Handler.PageLogin | src/admin.rs:219-231 | a 401 login page, with "Secret is incorrect." iff asked for |
| Handler.AdminUpsertStores | src/admin.rs:26-48 | an authorised upsert that the store accepts stores the url under the encoded key |
| Handler.AdminDeleteRemoves | src/admin.rs:26-63 | an authorised delete that the store accepts removes the item under the key as given |
| Handler.AdminUpsertThenLookup | src/admin.rs:26-48 | an authorised upsert that the store accepts makes the encoded key redirect to the url |
| Handler.AdminDeleteThenLookup | src/admin.rs:26-63 | an authorised delete that the store accepts makes a lookup of the key answer 404 |
| Handler.DeleteMissesEncodedKey | src/admin.rs:41-62 | when encoding changes a key, deleting the key as typed at upsert leaves its redirect in place, because upsert stores the encoded key and delete removes the raw one |
| Handler.UnauthorisedChangesNothing | src/admin.rs:193-216 | a call that is neither a correct login nor carries the admin cookie changes neither the table nor the cookies, and gets a 400 or 401 page |

## Left out

- The channel between senders and the receiver is not modelled: its capacity of 128, backpressure, and waking on the first key (src/hit.rs:13, 44). The 5-second window timer (src/hit.rs:53-57) is not modelled either. The stream is given as the sequence of windows the timer cut it into.
- A sender handle's clones are not modelled. `Track` and `Close` work on one handle, and the keys it sends are its own record.
- The order in which a flush visits the keys of the count map is hash order in the source. Here it is any order (the loop picks an arbitrary remaining key).
- Logging is not modelled. A failed update appears only as a failed attempt in the receiver's log (src/hit.rs:76-78).
- The table's query language is not modelled: update expressions, projections as strings, and condition functions such as `if_not_exists`. Upserts and deletes are modelled by their intended effect on the item map.
  - The upsert's update expression writes its default for `hits` as a bare `0` (src/admin.rs:42) rather than as a value placeholder. Whether the table accepts that form is outside this model. A rejected upsert is one whose write fault is set.
- Every store call is a given answer in `Io`:
  - whether the get fails (its message);
  - whether the update or delete fails (its message);
  - what a scan from a start key returns.
  A real scan's paging is not modelled beyond the page it returns.
- The `Debug` formatting of store errors (`{:#?}`) is not modelled. An error is its message string.
- Templates (`include_str!` files) are not part of this model. A page is a `Content` value naming the template and the values filled into it. The layout title is the literal the source passes.
- Cookie parsing is given, not modelled: the Cookie header becomes a list of parts that parsed (with name and value) or did not. The `Set-Cookie` encoding of a cookie is not modelled either; `AddCookie` keeps the cookie itself.
- URL encoding of upserted keys is given by `Io.encode`. The two clock readings an upsert takes, one for `created` and one for `updated`, are given by `Io.now`.
- A Cookie header that is not valid text is treated as absent.
- Handler.Handler.Render: the response builder's own error on a bad header value is not modelled. Its content type is a constant, and cookie values reach it only in encoded form.
- Handler.Handler.constructor: states the configuration, request, table, cookies and the store answers that are plain values. It does not state the given scan and encoding functions, which are function values with no equality.
- Environment loading (`Config::new`), `main`, tracing and the Lambda runtime are not modelled. The configuration is a given value.
- The attribute names `key`, `url`, `created`, `updated` and `hits` are imported by `hit.rs` and `admin.rs` from the crate root. `main.rs` does not define them, so their spelling here is an assumption; only their being distinct matters.
- `main.rs` does not declare the hit tracker's module. The tracker is modelled on its own, with its own view of the `hits` attribute, and is not connected to the handler.
- `render_error` is used by `admin.rs` but defined in neither modelled file. An error banner is the `ErrorBanner` content.
