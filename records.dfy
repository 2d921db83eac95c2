/** The records held in the four JSON documents (users, products, orders, logs)
    and in the session, as typed values. */
module Records {

  datatype Option<+T> = None | Some(value: T) {
    /** The value, or `default` when absent: how a missing document reads as a list. */
    function GetOr(default: T): T {
      match this
      case Some(v) => v
      case None => default
    }
  }

  /** A request-body value passed through untouched (`price`, `stock`, `harga`):
      whatever the body carries, a number or a string. */
  datatype Value = Num(n: int) | Str(s: string)

  datatype User = User(username: string, password: string, role: string, isOnline: bool)

  datatype Product = Product(id: int, name: string, price: Value, stock: Value, icon: string)

  datatype Status = Pending | Lunas | Ditolak

  /** An order; `id` is the creation timestamp, `invoiceId` the customer-facing reference. */
  datatype Order = Order(
    id: int,
    invoiceId: string,
    tanggal: string,
    nama: string,
    produk: string,
    harga: Value,
    fileBukti: string,
    status: Status)

  /** `username` is absent when the acting request has no session user. */
  datatype LogEntry = LogEntry(time: int, username: Option<string>, action: string, detail: string)

  /** The session fields a handler reads; each is undefined in a fresh session. */
  datatype Session = Session(isLoggedIn: bool, username: Option<string>, role: Option<string>)

  const Anonymous := Session(false, None, None)

  /** A JSON `{success}` answer, or a 403 whose body is `{success:false}` or `{}`. */
  datatype Reply = Json(success: bool) | Forbidden(body: Option<bool>)
}
