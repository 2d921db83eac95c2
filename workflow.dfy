/** The order document: invoice references, lookups by id and by invoice. */
module Workflow {
  import opened Records
  import opened Lookup
  import Render

  /** `Math.random()*90000` is floored into `0 <= n < InvoiceRange`. */
  const InvoiceRange: nat := 90000

  const InvoicePrefix := "INV-"

  /** The invoice reference made from a random draw. */
  function InvoiceId(n: nat): (s: string)
    ensures |s| > |InvoicePrefix| && s[..|InvoicePrefix|] == InvoicePrefix
    ensures forall i :: |InvoicePrefix| <= i < |s| ==> Render.IsDigit(s[i])
  {
    InvoicePrefix + Render.Decimal(n)
  }

  /** Reads `INV-<digits>` back as its number. */
  function ParseInvoiceId(s: string): Option<nat> {
    if |s| > |InvoicePrefix| && s[..|InvoicePrefix|] == InvoicePrefix &&
       forall i :: |InvoicePrefix| <= i < |s| ==> Render.IsDigit(s[i])
    then Some(Render.ParseDecimal(s[|InvoicePrefix|..]))
    else None
  }

  /** Every invoice reference has the shape `INV-<number>` and gives back its draw. */
  lemma InvoiceIdRoundTrip(n: nat)
    ensures ParseInvoiceId(InvoiceId(n)) == Some(n)
  {
    assert InvoiceId(n)[|InvoicePrefix|..] == Render.Decimal(n);
    Render.DecimalRoundTrip(n);
  }

  /** Two orders get the same reference only when their draws are equal. */
  lemma InvoiceIdsDiffer(m: nat, n: nat)
    requires m != n
    ensures InvoiceId(m) != InvoiceId(n)
  {
    InvoiceIdRoundTrip(m);
    InvoiceIdRoundTrip(n);
  }

  function HasOrderId(id: int): Order -> bool {
    (o: Order) => o.id == id
  }

  function OtherOrderId(id: int): Order -> bool {
    (o: Order) => o.id != id
  }

  function HasInvoice(invoiceId: string): Order -> bool {
    (o: Order) => o.invoiceId == invoiceId
  }

  /** The order `/api/track` answers with after `o` was appended by `/bayar`:
      always one with that reference, and `o` itself when no older order shares it. */
  lemma {:induction false} TrackFindsCreated(orders: seq<Order>, o: Order)
    ensures Find(orders + [o], HasInvoice(o.invoiceId)).Some?
    ensures Find(orders + [o], HasInvoice(o.invoiceId)).value.invoiceId == o.invoiceId
    ensures (forall i :: 0 <= i < |orders| ==> orders[i].invoiceId != o.invoiceId) ==>
              Find(orders + [o], HasInvoice(o.invoiceId)) == Some(o)
  {
    var all := orders + [o];
    assert all[|orders|] == o;
    if forall i :: 0 <= i < |orders| ==> orders[i].invoiceId != o.invoiceId {
      var i :| 0 <= i < |all| && all[i] == Find(all, HasInvoice(o.invoiceId)).value &&
               HasInvoice(o.invoiceId)(all[i]) &&
               forall j :: 0 <= j < i ==> !HasInvoice(o.invoiceId)(all[j]);
      if i < |orders| {
        assert all[i] == orders[i];
      }
    }
  }

  /** Deleting by id keeps every other order, in the same relative order, and no
      order with that id remains. */
  lemma DeleteKeepsOthers(orders: seq<Order>, id: int, k: nat)
    requires k <= |orders|
    ensures Filter(orders, OtherOrderId(id)) ==
            Filter(orders[..k], OtherOrderId(id)) + Filter(orders[k..], OtherOrderId(id))
    ensures forall i :: 0 <= i < |Filter(orders, OtherOrderId(id))| ==>
              Filter(orders, OtherOrderId(id))[i].id != id
  {
    assert orders == orders[..k] + orders[k..];
    FilterAppend(orders[..k], orders[k..], OtherOrderId(id));
  }

  /** The `forEach` of the spreadsheet export: one (invoice reference, status) row
      per order, in document order. */
  method ExportRows(orders: seq<Order>) returns (rows: seq<(string, Status)>)
    ensures |rows| == |orders|
    ensures forall i :: 0 <= i < |rows| ==> rows[i] == (orders[i].invoiceId, orders[i].status)
  {
    rows := [];
    for k := 0 to |orders|
      invariant |rows| == k
      invariant forall i :: 0 <= i < k ==> rows[i] == (orders[i].invoiceId, orders[i].status)
    {
      rows := rows + [(orders[k].invoiceId, orders[k].status)];
    }
  }
}
