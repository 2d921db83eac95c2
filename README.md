# Order-management backend: the state behind the handlers

This project models the Express backend of a small payment/ordering site
(`app.js`). The server keeps four JSON documents: users, products, orders
(`data.json`) and the activity log. It also keeps one client's session
(`isLoggedIn`, `username`, `role`). Each route handler loads the documents it
needs, changes them and writes them back. Admin actions also append one entry
to an activity log that keeps at most 100 entries.

The model is a class `App.Server`. Its fields hold the four documents as
sequences and the session as a value. Each handler is one method, and the
method's `ensures` give the complete new state in terms of the old one. Field
frames (`modifies this`logs`, …) state which documents a handler may change.
The lookups and rewrites the handlers use are pure functions, and the lemmas
are proved about those functions:

- `findIndex`, `find` and `filter` are in `Lookup`.
- Keeping the newest 100 log entries is in `ActivityLog`.
- The `max+1` product id is in `Catalog`.
- The seeded accounts and the `requireSuper` guard (`Accounts.IsSuper`) are in `Accounts`.
- Invoice references (`"INV-" + n`) are in `Workflow` and `Render`.

Modelling choices:

- The products document is an `Option`. `None` means `products.json` does not
  exist; only `GET /api/products` tests for that and seeds the catalog. Every
  other handler reads a missing document as the empty list (`GetOr([])`).
- Every other document that is missing or cannot be parsed is simply the empty
  sequence.
- Non-deterministic inputs are parameters. `now` stands for `Date.now()` and
  `new Date()`. `draw` (`0 <= draw < 90000`) stands for
  `Math.floor(Math.random()*90000)`. `tanggal` stands for the formatted date
  string. `upload` stands for `req.file.filename`; it is absent when no file
  was sent.
- Ids are integers, because the model does not use JavaScript's loose
  equality. `price`, `stock` and `harga` are opaque `Value`s.
- A session field that is undefined is `None`. The log entry of a request
  without a session user has `username == None`.

Behaviour of the code worth noting:

- `/api/delete` and `/api/export-excel` have no session check in the code
  (app.js:167, app.js:178). Anyone may delete an order, and the log entry then
  has no user.
- Deleting a user or a product always answers `success:true` and always logs,
  even when nothing matched (app.js:100-105, 130-134). Only `updateTrx`, product
  update and order delete report "not found".
- `POST /api/products/add` does not seed the catalog. The one sample product is
  written only by `GET /api/products` when the file is absent (app.js:112). An
  add on a missing catalog gives id 1.
- `/logout` tests `req.session.username` for truthiness, not `isLoggedIn`. An
  empty username counts as no user (app.js:74).
- A failed `/auth` leaves the session as it was. It does not log the client
  out.
- `/bayar` with no uploaded file throws while it builds the record
  (`req.file.filename`), so nothing is saved. The model returns `None`.

## Model

| member | source | states |
|---|---|---|
| `ActivityLog.Appended` | app.js:27-38 | after one `logActivity` the log has `min(old+1, 100)` entries, the last one is the new entry, and the others are the newest old entries in their original order |
| `ActivityLog.RecordedKeepsNewest` | app.js:35-37 | after any series of `logActivity` calls that starts within the cap, the log is exactly the newest 100 of all entries, in chronological order |
| `ActivityLog.Newest` | app.js:36 | `slice(-100)` on a log over the cap: the result is the last `min(length, 100)` entries of the list, in their order |
| `App.Server.LogActivity` | app.js:27-38 | the logs document becomes `Appended(old logs, {now, username, action, detail})` and has at most 100 entries; no other document changes |
| `Lookup.FirstIndex` | app.js:61 | `findIndex`: -1 exactly when no element matches; otherwise a matching position with no match before it |
| `Lookup.Find` | app.js:169 | `find`: absent exactly when no element matches; otherwise the element at the first matching position |
| `Lookup.Filter` | app.js:172 | `filter`: every kept element was in the list and satisfies the predicate; every element that satisfies it is kept; the result is no longer |
| `Lookup.FilterAppend` | app.js:101 | filtering a concatenation is the concatenation of the filtered parts, so kept elements keep their relative order |
| `Lookup.FilterKeepsAll` | app.js:131 | a filter that removes nothing returns the list unchanged |
| `Lookup.DistinctFilter` | app.js:101 | filtering keeps a key (username, product id) unique |
| `Accounts.Seeded` | app.js:57-60 | an empty user list is replaced by exactly two offline accounts, a `superuser` and an `admin`; a non-empty list is kept as it is |
| `Accounts.DefaultUsersUnique` | app.js:58 | the two seeded accounts have distinct usernames |
| `Accounts.AddKeepsUnique` | app.js:94-95 | appending a user whose name is not taken keeps usernames unique |
| `Accounts.SetOnlineKeepsUnique` | app.js:64 | setting `isOnline` on one user keeps usernames unique |
| `Accounts.DeleteKeepsUnique` | app.js:101 | deleting by name keeps usernames unique and leaves no user with that name |
| `Accounts.IsSuper` | app.js:45-48 | `requireSuper`: a request is refused when the session is not logged in or its role is not `superuser`, and let through otherwise |
| `App.Server.Auth` | app.js:54-71 | the user list is seeded when empty, even if the login then fails; succeeds exactly when some user matches both username and password; then only the first match goes online, the session takes its name and role, and one "Login" entry is logged; a failure logs nothing and changes no `isOnline`; unique usernames stay unique |
| `App.Server.Logout` | app.js:73-83 | when the session has a non-empty username, the first user of that name goes offline (if there is one) and one "Logout" entry is logged; otherwise nothing changes; the session is always reset |
| `App.Server.AddUser` | app.js:93-99 | without a superuser session: 403 `{success:false}` and no change; a taken name: `success:false`, users and log unchanged; otherwise exactly one record with `isOnline:false` is appended and one "Add User" entry is logged; unique usernames stay unique |
| `App.Server.DeleteUser` | app.js:100-105 | behind the superuser guard: the user list becomes its filter by name, so no user of that name remains and every other user stays; one "Delete User" entry is logged and the reply is always `success:true` |
| `App.Server.ListProducts` | app.js:111-114 | a missing catalog is created with the single seed product; otherwise the stored catalog is returned; unique positive ids stay so |
| `Catalog.MaxId` | app.js:116 | `Math.max` over the ids: no id is larger, and some product has it |
| `Catalog.NextId` | app.js:116 | a new id is 1 in an empty catalog; otherwise it is larger than every existing id and one more than one of them |
| `Catalog.AddKeepsIdsValid` | app.js:116-117 | when the ids are unique and positive, they stay so after an add that assigns `NextId` |
| `App.Server.AddProduct` | app.js:115-121 | behind the superuser guard: appends one product with id `NextId`, the given name, price and stock, and the icon text of app.js:117; logs one "Add Product" entry; unique positive ids stay so |
| `Catalog.UpdateKeepsIdsValid` | app.js:125 | changing name, price and stock keeps ids unique and positive |
| `App.Server.UpdateProduct` | app.js:122-129 | behind the superuser guard: an unknown id gives `success:false` and changes neither the catalog nor the log; otherwise only name, price and stock of the first product with that id change, and one "Update Product" entry is logged |
| `Catalog.DeleteKeepsIdsValid` | app.js:131 | deleting by id keeps ids unique and positive and leaves no product with that id |
| `App.Server.DeleteProduct` | app.js:130-134 | behind the superuser guard: the catalog becomes its filter by id; no product with that id remains; one "Delete Product" entry naming the id is logged |
| `Render.Decimal` | app.js:139 | a number's decimal text is non-empty, all digits, and has no leading zero |
| `Render.DecimalRoundTrip` | app.js:139 | a number's decimal text reads back as that number |
| `Render.IntText` | app.js:132 | an integer's text starts with '-' exactly when the integer is negative, and every other character is a digit |
| `Render.IntTextRoundTrip` | app.js:132 | an integer's text reads back as that integer |
| `Workflow.InvoiceId` | app.js:139 | an invoice reference is `INV-` followed by one or more digits |
| `Workflow.InvoiceIdRoundTrip` | app.js:139 | every invoice reference has the shape `INV-<digits>` and reads back as its draw |
| `Workflow.InvoiceIdsDiffer` | app.js:139 | two invoice references are equal only when their draws are equal |
| `App.Server.Bayar` | app.js:137-145 | with an upload: the order document gains exactly one order with status `Pending` and reference `"INV-" + draw`, which is returned; nothing is logged; without an upload nothing changes |
| `App.Server.Track` | app.js:146 | returns nothing exactly when no order has that reference; otherwise returns the first order that has it |
| `Workflow.TrackFindsCreated` | app.js:137-146 | after `/bayar`, tracking its reference always finds an order with that reference; it finds the new `Pending` order itself when no older order shares the reference |
| `App.Server.UpdateTrx` | app.js:150-162 | 403 `{}` exactly when not logged in; with a login, succeeds exactly when some order has the id and answers `success:false` otherwise; on success only the `status` of the first such order changes and one entry `"<action> pesanan <invoiceId>"` is logged; otherwise orders and log are unchanged |
| `App.Server.Accept` | app.js:164 | `updateTrx` with status `Lunas` and action "Terima": 403 `{}` without a login, `success:false` for an unknown id, otherwise only the first match's status becomes `Lunas` and one "Terima" entry is logged |
| `App.Server.Reject` | app.js:165 | `updateTrx` with status `Ditolak` and action "Tolak": 403 `{}` without a login, `success:false` for an unknown id, otherwise only the first match's status becomes `Ditolak` and one "Tolak" entry is logged |
| `App.Server.DeleteOrder` | app.js:167-176 | succeeds exactly when some order has the id; then one "Hapus Data" entry naming the first such order's reference is logged and the orders become their filter by id, so none with that id remains; otherwise nothing changes |
| `Workflow.DeleteKeepsOthers` | app.js:172 | deleting by id filters each part of the list separately, so the remaining orders keep their relative order, and none has that id |
| `Workflow.ExportRows` | app.js:181 | the rows of the export: one (reference, status) pair per order, in document order |
| `App.Server.ExportExcel` | app.js:178-183 | logs one "Export" entry whatever the session, and lists every order's reference and status in document order |

## Left out

- Express routing, static serving, the `requireLogin` redirect for `/admin.html`, and the session cookie's secret and lifetime (app.js:17-20, 41-44, 49). Only the session fields are modelled, for one client.
- Multer upload storage and its file-name scheme (app.js:10-15). The stored file name is an input string.
- File I/O, JSON encoding and parse failures (app.js:23-24). Documents are fields; an unreadable one is the empty sequence.
- The ExcelJS workbook, its columns and its streaming write (app.js:180-182). Only the rows the handler adds and its log entry are modelled.
- Date formatting (`toLocaleDateString('id-ID')`) and the JSON form of `new Date()`. The model takes the formatted date and the timestamp as inputs.
- JavaScript loose equality and coercion of `req.body.id` (app.js:123, 131, 153, 169). Ids are integers, and the product-delete detail shows the id in its decimal form.
- Read-only handlers that return a document or the session as it is: `/api/me`, `GET /api/users`, `GET /api/logs` and `GET /api/data` (app.js:85, 92, 108, 147). They change nothing and have no logic beyond the guard.
- Concurrent requests and lost updates between them. The model runs one handler at a time.
