/** The state behind the HTTP handlers: the four JSON documents and one client's
    session, with one method per route. Every method loads its documents from the
    fields, changes them as the handler does, and writes them back. */
module App {
  import opened Records
  import opened Lookup
  import ActivityLog
  import Render
  import opened Accounts
  import opened Catalog
  import opened Workflow

  class Server {
    var users: seq<User>
    /** `None` while `products.json` does not exist. */
    var products: Option<seq<Product>>
    /** The orders document, `data.json`. */
    var orders: seq<Order>
    var logs: seq<LogEntry>
    var session: Session

    /** A server started over the documents already on disk, with a fresh session. */
    constructor (users: seq<User>, products: Option<seq<Product>>, orders: seq<Order>, logs: seq<LogEntry>)
      ensures this.users == users && this.products == products
      ensures this.orders == orders && this.logs == logs
      ensures session == Anonymous
    {
      this.users := users;
      this.products := products;
      this.orders := orders;
      this.logs := logs;
      session := Anonymous;
    }

    /** `logActivity`: push one entry stamped `now`, then keep only the newest 100. */
    method LogActivity(username: Option<string>, action: string, detail: string, now: int)
      modifies this`logs
      ensures logs == ActivityLog.Appended(old(logs), LogEntry(now, username, action, detail))
      ensures |logs| <= ActivityLog.Cap
    {
      var pushed := logs + [LogEntry(now, username, action, detail)];
      if |pushed| > ActivityLog.Cap {
        pushed := pushed[|pushed| - ActivityLog.Cap..];
      }
      logs := pushed;
    }

    /** `POST /auth`. */
    method Auth(username: string, password: string, now: int) returns (success: bool)
      modifies this`users, this`session, this`logs
      ensures success <==> exists i :: 0 <= i < |Seeded(old(users))| &&
                            Seeded(old(users))[i].username == username &&
                            Seeded(old(users))[i].password == password
      ensures success ==>
                var before := Seeded(old(users));
                var i := FirstIndex(before, HasLogin(username, password));
                && users == before[i := before[i].(isOnline := true)]
                && session == Session(true, Some(before[i].username), Some(before[i].role))
                && logs == ActivityLog.Appended(old(logs),
                             LogEntry(now, Some(before[i].username), "Login", "Masuk ke sistem"))
      ensures !success ==> users == Seeded(old(users)) && session == old(session) && logs == old(logs)
      ensures UniqueNames(old(users)) ==> UniqueNames(users)
    {
      if |users| == 0 {
        users := DefaultUsers;
        DefaultUsersUnique();
      }
      ghost var before := users;
      assert before == Seeded(old(users));
      var idx := FirstIndex(users, HasLogin(username, password));
      if idx != -1 {
        var u := users[idx];
        assert HasLogin(username, password)(u);
        if UniqueNames(users) {
          SetOnlineKeepsUnique(users, idx, true);
        }
        session := Session(true, Some(u.username), Some(u.role));
        users := users[idx := u.(isOnline := true)];
        LogActivity(Some(u.username), "Login", "Masuk ke sistem", now);
        success := true;
      } else {
        forall i | 0 <= i < |users| ensures !(users[i].username == username && users[i].password == password) {
          assert !HasLogin(username, password)(users[i]);
        }
        success := false;
      }
    }

    /** `GET /logout`: when the session names a user (a non-empty name), mark the
        first user of that name offline and log it; then end the session. */
    method Logout(now: int)
      modifies this`users, this`session, this`logs
      ensures session == Anonymous
      ensures var who := old(session).username;
              who.Some? && who.value != "" ==>
                var i := FirstIndex(old(users), HasName(who.value));
                && users == (if i == -1 then old(users) else old(users)[i := old(users)[i].(isOnline := false)])
                && logs == ActivityLog.Appended(old(logs), LogEntry(now, who, "Logout", "Keluar dari sistem"))
      ensures var who := old(session).username;
              !(who.Some? && who.value != "") ==> users == old(users) && logs == old(logs)
      ensures UniqueNames(old(users)) ==> UniqueNames(users)
    {
      if session.username.Some? && session.username.value != "" {
        var idx := FirstIndex(users, HasName(session.username.value));
        if idx != -1 {
          if UniqueNames(users) {
            SetOnlineKeepsUnique(users, idx, false);
          }
          users := users[idx := users[idx].(isOnline := false)];
        }
        LogActivity(session.username, "Logout", "Keluar dari sistem", now);
      }
      session := Anonymous;
    }

    /** `POST /api/users/add`, behind `requireSuper`. */
    method AddUser(newUser: string, newPass: string, newRole: string, now: int) returns (r: Reply)
      modifies this`users, this`logs
      ensures !IsSuper(session) ==> r == Forbidden(Some(false)) && users == old(users) && logs == old(logs)
      ensures IsSuper(session) && (exists i :: 0 <= i < |old(users)| && old(users)[i].username == newUser) ==>
                r == Json(false) && users == old(users) && logs == old(logs)
      ensures IsSuper(session) && (forall i :: 0 <= i < |old(users)| ==> old(users)[i].username != newUser) ==>
                && r == Json(true)
                && users == old(users) + [User(newUser, newPass, newRole, false)]
                && logs == ActivityLog.Appended(old(logs),
                             LogEntry(now, session.username, "Add User", "Menambah user baru: " + newUser))
      ensures UniqueNames(old(users)) ==> UniqueNames(users)
    {
      if !IsSuper(session) {
        return Forbidden(Some(false));
      }
      if Find(users, HasName(newUser)).Some? {
        ghost var i :| 0 <= i < |users| && HasName(newUser)(users[i]);
        return Json(false);
      }
      assert forall i :: 0 <= i < |users| ==> !HasName(newUser)(users[i]);
      if UniqueNames(users) {
        AddKeepsUnique(users, User(newUser, newPass, newRole, false));
      }
      users := users + [User(newUser, newPass, newRole, false)];
      LogActivity(session.username, "Add User", "Menambah user baru: " + newUser, now);
      r := Json(true);
    }

    /** `POST /api/users/delete`, behind `requireSuper`: drop every user named
        `targetUser` and log it, whether or not one existed. */
    method DeleteUser(targetUser: string, now: int) returns (r: Reply)
      modifies this`users, this`logs
      ensures !IsSuper(session) ==> r == Forbidden(Some(false)) && users == old(users) && logs == old(logs)
      ensures IsSuper(session) ==>
                && r == Json(true)
                && users == Filter(old(users), OtherName(targetUser))
                && logs == ActivityLog.Appended(old(logs),
                             LogEntry(now, session.username, "Delete User", "Menghapus user: " + targetUser))
      ensures IsSuper(session) ==> forall i :: 0 <= i < |users| ==> users[i].username != targetUser
      ensures IsSuper(session) ==> forall i :: 0 <= i < |old(users)| && old(users)[i].username != targetUser ==>
                                     old(users)[i] in users
      ensures UniqueNames(old(users)) ==> UniqueNames(users)
    {
      if !IsSuper(session) {
        return Forbidden(Some(false));
      }
      if UniqueNames(users) {
        DeleteKeepsUnique(users, targetUser);
      }
      users := Filter(users, OtherName(targetUser));
      LogActivity(session.username, "Delete User", "Menghapus user: " + targetUser, now);
      r := Json(true);
    }

    /** `GET /api/products`: seed the catalog when its document does not exist. */
    method ListProducts() returns (ps: seq<Product>)
      modifies this`products
      ensures old(products).None? ==> ps == [SeedProduct]
      ensures old(products).Some? ==> ps == old(products).value
      ensures products == Some(ps)
      ensures IdsValid(old(products).GetOr([])) ==> IdsValid(products.GetOr([]))
    {
      if products.None? {
        products := Some([SeedProduct]);
      }
      ps := products.value;
    }

    /** `POST /api/products/add`, behind `requireSuper`. */
    method AddProduct(name: string, price: Value, stock: Value, now: int) returns (r: Reply)
      modifies this`products, this`logs
      ensures !IsSuper(session) ==> r == Forbidden(Some(false)) && products == old(products) && logs == old(logs)
      ensures IsSuper(session) ==>
                var before := old(products).GetOr([]);
                && r == Json(true)
                && products == Some(before + [Product(NextId(before), name, price, stock, Icon)])
                && logs == ActivityLog.Appended(old(logs),
                             LogEntry(now, session.username, "Add Product", "Menambah produk: " + name))
      ensures IdsValid(old(products).GetOr([])) ==> IdsValid(products.GetOr([]))
    {
      if !IsSuper(session) {
        return Forbidden(Some(false));
      }
      var p := products.GetOr([]);
      var id := NextId(p);
      if IdsValid(p) {
        AddKeepsIdsValid(p, Product(id, name, price, stock, Icon));
      }
      p := p + [Product(id, name, price, stock, Icon)];
      products := Some(p);
      LogActivity(session.username, "Add Product", "Menambah produk: " + name, now);
      r := Json(true);
    }

    /** `POST /api/products/update`, behind `requireSuper`: rename and reprice the
        first product with that id; an unknown id changes nothing. */
    method UpdateProduct(id: int, name: string, price: Value, stock: Value, now: int) returns (r: Reply)
      modifies this`products, this`logs
      ensures !IsSuper(session) ==> r == Forbidden(Some(false)) && products == old(products) && logs == old(logs)
      ensures IsSuper(session) && (forall i :: 0 <= i < |old(products).GetOr([])| ==> old(products).GetOr([])[i].id != id) ==>
                r == Json(false) && products == old(products) && logs == old(logs)
      ensures IsSuper(session) && (exists i :: 0 <= i < |old(products).GetOr([])| && old(products).GetOr([])[i].id == id) ==>
                var before := old(products).GetOr([]);
                var i := FirstIndex(before, HasId(id));
                && r == Json(true)
                && 0 <= i && before[i].id == id
                && (forall j :: 0 <= j < i ==> before[j].id != id)
                && products == Some(before[i := before[i].(name := name, price := price, stock := stock)])
                && logs == ActivityLog.Appended(old(logs),
                             LogEntry(now, session.username, "Update Product", "Update produk: " + name))
      ensures IdsValid(old(products).GetOr([])) ==> IdsValid(products.GetOr([]))
    {
      if !IsSuper(session) {
        return Forbidden(Some(false));
      }
      var p := products.GetOr([]);
      var i := FirstIndex(p, HasId(id));
      if i != -1 {
        assert HasId(id)(p[i]);
        if IdsValid(p) {
          UpdateKeepsIdsValid(p, i, name, price, stock);
        }
        p := p[i := p[i].(name := name, price := price, stock := stock)];
        products := Some(p);
        LogActivity(session.username, "Update Product", "Update produk: " + name, now);
        r := Json(true);
      } else {
        assert forall j :: 0 <= j < |p| ==> !HasId(id)(p[j]);
        r := Json(false);
      }
    }

    /** `POST /api/products/delete`, behind `requireSuper`: drop every product with
        that id and log it, whether or not one existed. */
    method DeleteProduct(id: int, now: int) returns (r: Reply)
      modifies this`products, this`logs
      ensures !IsSuper(session) ==> r == Forbidden(Some(false)) && products == old(products) && logs == old(logs)
      ensures IsSuper(session) ==>
                && r == Json(true)
                && products == Some(Filter(old(products).GetOr([]), OtherId(id)))
                && logs == ActivityLog.Appended(old(logs),
                             LogEntry(now, session.username, "Delete Product", "Menghapus produk ID: " + Render.IntText(id)))
      ensures IsSuper(session) ==> forall i :: 0 <= i < |products.value| ==> products.value[i].id != id
      ensures IdsValid(old(products).GetOr([])) ==> IdsValid(products.GetOr([]))
    {
      if !IsSuper(session) {
        return Forbidden(Some(false));
      }
      var p := products.GetOr([]);
      if IdsValid(p) {
        DeleteKeepsIdsValid(p, id);
      }
      products := Some(Filter(p, OtherId(id)));
      LogActivity(session.username, "Delete Product", "Menghapus produk ID: " + Render.IntText(id), now);
      r := Json(true);
    }

    /** `POST /bayar`: append a `Pending` order for the uploaded proof and answer with
        its invoice reference. Without an upload the handler fails before saving. */
    method Bayar(nama: string, produk: string, harga: Value, upload: Option<string>,
                 draw: nat, now: int, tanggal: string) returns (invoiceId: Option<string>)
      requires draw < InvoiceRange
      modifies this`orders
      ensures upload.None? ==> invoiceId == None && orders == old(orders)
      ensures upload.Some? ==>
                && invoiceId == Some(InvoiceId(draw))
                && orders == old(orders) + [Order(now, InvoiceId(draw), tanggal, nama, produk, harga, upload.value, Pending)]
      ensures upload.Some? ==> ParseInvoiceId(invoiceId.value) == Some(draw)
    {
      var inv := InvoiceId(draw);
      if upload.None? {
        return None;
      }
      orders := orders + [Order(now, inv, tanggal, nama, produk, harga, upload.value, Pending)];
      InvoiceIdRoundTrip(draw);
      invoiceId := Some(inv);
    }

    /** `POST /api/track`: the first order with that invoice reference, if any. */
    method Track(invoiceId: string) returns (found: Option<Order>)
      ensures found.None? <==> forall i :: 0 <= i < |orders| ==> orders[i].invoiceId != invoiceId
      ensures found.Some? ==> exists i :: 0 <= i < |orders| && orders[i] == found.value &&
                                orders[i].invoiceId == invoiceId &&
                                forall j :: 0 <= j < i ==> orders[j].invoiceId != invoiceId
    {
      found := Find(orders, HasInvoice(invoiceId));
      if found.None? {
        assert forall i :: 0 <= i < |orders| ==> !HasInvoice(invoiceId)(orders[i]);
      } else {
        ghost var i :| 0 <= i < |orders| && orders[i] == found.value && HasInvoice(invoiceId)(orders[i]) &&
                       forall j :: 0 <= j < i ==> !HasInvoice(invoiceId)(orders[j]);
        assert forall j :: 0 <= j < i ==> orders[j].invoiceId != invoiceId;
      }
    }

    /** `updateTrx`: needs a logged-in session of any role; sets the status of the
        first order with that id and logs "<action> pesanan <invoice>". */
    method UpdateTrx(id: int, status: Status, actionName: string, now: int) returns (r: Reply)
      modifies this`orders, this`logs
      ensures r == Forbidden(None) <==> !session.isLoggedIn
      ensures r == Json(true) ==>
                var i := FirstIndex(old(orders), HasOrderId(id));
                && 0 <= i && old(orders)[i].id == id
                && orders == old(orders)[i := old(orders)[i].(status := status)]
                && logs == ActivityLog.Appended(old(logs),
                             LogEntry(now, session.username, actionName, actionName + " pesanan " + old(orders)[i].invoiceId))
      ensures r != Json(true) ==> orders == old(orders) && logs == old(logs)
      ensures session.isLoggedIn ==>
                (r == Json(true) <==> exists i :: 0 <= i < |old(orders)| && old(orders)[i].id == id)
      ensures session.isLoggedIn && (forall i :: 0 <= i < |old(orders)| ==> old(orders)[i].id != id) ==>
                r == Json(false)
    {
      if !session.isLoggedIn {
        return Forbidden(None);
      }
      var idx := FirstIndex(orders, HasOrderId(id));
      if idx != -1 {
        assert HasOrderId(id)(orders[idx]);
        orders := orders[idx := orders[idx].(status := status)];
        LogActivity(session.username, actionName, actionName + " pesanan " + orders[idx].invoiceId, now);
        r := Json(true);
      } else {
        assert forall j :: 0 <= j < |orders| ==> !HasOrderId(id)(orders[j]);
        r := Json(false);
      }
    }

    /** `POST /api/update`: accept an order (status `Lunas`, action "Terima"). */
    method Accept(id: int, now: int) returns (r: Reply)
      modifies this`orders, this`logs
      ensures r == Forbidden(None) <==> !session.isLoggedIn
      ensures r == Json(true) ==>
                var i := FirstIndex(old(orders), HasOrderId(id));
                && 0 <= i
                && orders == old(orders)[i := old(orders)[i].(status := Lunas)]
                && logs == ActivityLog.Appended(old(logs),
                             LogEntry(now, session.username, "Terima", "Terima" + " pesanan " + old(orders)[i].invoiceId))
      ensures r != Json(true) ==> orders == old(orders) && logs == old(logs)
      ensures session.isLoggedIn ==>
                (r == Json(true) <==> exists i :: 0 <= i < |old(orders)| && old(orders)[i].id == id)
      ensures session.isLoggedIn && (forall i :: 0 <= i < |old(orders)| ==> old(orders)[i].id != id) ==>
                r == Json(false)
    {
      r := UpdateTrx(id, Lunas, "Terima", now);
    }

    /** `POST /api/reject`: reject an order (status `Ditolak`, action "Tolak"). */
    method Reject(id: int, now: int) returns (r: Reply)
      modifies this`orders, this`logs
      ensures r == Forbidden(None) <==> !session.isLoggedIn
      ensures r == Json(true) ==>
                var i := FirstIndex(old(orders), HasOrderId(id));
                && 0 <= i
                && orders == old(orders)[i := old(orders)[i].(status := Ditolak)]
                && logs == ActivityLog.Appended(old(logs),
                             LogEntry(now, session.username, "Tolak", "Tolak" + " pesanan " + old(orders)[i].invoiceId))
      ensures r != Json(true) ==> orders == old(orders) && logs == old(logs)
      ensures session.isLoggedIn ==>
                (r == Json(true) <==> exists i :: 0 <= i < |old(orders)| && old(orders)[i].id == id)
      ensures session.isLoggedIn && (forall i :: 0 <= i < |old(orders)| ==> old(orders)[i].id != id) ==>
                r == Json(false)
    {
      r := UpdateTrx(id, Ditolak, "Tolak", now);
    }

    /** `POST /api/delete` (no session check): log the deletion of the first order
        with that id, then drop every order with that id. */
    method DeleteOrder(id: int, now: int) returns (success: bool)
      modifies this`orders, this`logs
      ensures success <==> exists i :: 0 <= i < |old(orders)| && old(orders)[i].id == id
      ensures success ==>
                var i := FirstIndex(old(orders), HasOrderId(id));
                && 0 <= i
                && orders == Filter(old(orders), OtherOrderId(id))
                && logs == ActivityLog.Appended(old(logs),
                             LogEntry(now, session.username, "Hapus Data", "Menghapus data " + old(orders)[i].invoiceId))
      ensures success ==> forall i :: 0 <= i < |orders| ==> orders[i].id != id
      ensures !success ==> orders == old(orders) && logs == old(logs)
    {
      var target := Find(orders, HasOrderId(id));
      if target.Some? {
        ghost var i :| 0 <= i < |orders| && orders[i] == target.value && HasOrderId(id)(orders[i]) &&
                       forall j :: 0 <= j < i ==> !HasOrderId(id)(orders[j]);
        assert i == FirstIndex(orders, HasOrderId(id));
        LogActivity(session.username, "Hapus Data", "Menghapus data " + target.value.invoiceId, now);
        orders := Filter(orders, OtherOrderId(id));
        success := true;
      } else {
        assert forall j :: 0 <= j < |orders| ==> !HasOrderId(id)(orders[j]);
        success := false;
      }
    }

    /** `GET /api/export-excel` (no session check): log the export, then list each
        order's invoice reference and status, in document order. */
    method ExportExcel(now: int) returns (rows: seq<(string, Status)>)
      modifies this`logs
      ensures logs == ActivityLog.Appended(old(logs),
                        LogEntry(now, session.username, "Export", "Download Laporan Excel"))
      ensures |rows| == |orders|
      ensures forall i :: 0 <= i < |rows| ==> rows[i] == (orders[i].invoiceId, orders[i].status)
    {
      LogActivity(session.username, "Export", "Download Laporan Excel", now);
      rows := Workflow.ExportRows(orders);
    }
  }
}
