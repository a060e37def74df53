/**
 * The four tables the payment processor writes: `cc_order_logs`, `hdfc_payment`,
 * `cc_payment_logs` and `cc_error_logs`. Every write is an insert; the id an insert returns
 * is the number of rows of its table afterwards (an auto-increment key over a table that
 * only grows).
 */
module Storage {
  import opened Wrappers
  import opened OrderedMap

  /** A row of `cc_order_logs`, written by `logOrder`. */
  datatype OrderLog = OrderLog(
    orderId: string,
    amount: real,
    currency: string,
    originalAmount: real,
    originalCurrency: string)

  /** The `status` column of `hdfc_payment`. */
  datatype PaymentStatus = Completed | Failed | Cancelled | Error | Pending | Unknown

  /** The text stored for a status. */
  function StatusText(s: PaymentStatus): string {
    match s
    case Completed => "completed"
    case Failed => "failed"
    case Cancelled => "cancelled"
    case Error => "error"
    case Pending => "pending"
    case Unknown => "unknown"
  }

  /** No two statuses are stored as the same text. */
  lemma StatusTextInjective(s: PaymentStatus, t: PaymentStatus)
    ensures StatusText(s) == StatusText(t) <==> s == t
  {
  }

  /** A row of `hdfc_payment`; `None` is SQL `NULL`. */
  datatype Transaction = Transaction(
    paymentId: Option<string>,
    orderId: Option<string>,
    name: Option<string>,
    email: Option<string>,
    tel: Option<string>,
    address: Option<string>,
    city: Option<string>,
    state: Option<string>,
    zipCode: Option<string>,
    country: Option<string>,
    amount: string,
    currencyType: string,
    originalAmount: real,
    originalCurrency: string,
    bankRefNo: Option<string>,
    status: PaymentStatus,
    paymentMethod: Option<string>,
    cardNetwork: Option<string>,
    transactionFee: Option<string>,
    serviceTax: Option<string>,
    errorMessage: Option<string>,
    transactionTime: string)

  /** A row of `cc_payment_logs`: the event type and the logged fields (stored as JSON). */
  datatype PaymentLog = PaymentLog(logType: string, data: Entries<string>)

  /** A row of `cc_error_logs`. */
  datatype ErrorLog = ErrorLog(errorType: string, errorMessage: string)

  /** The first order row with the given order id; a `NULL` id matches no row. */
  function FindOrder(orders: seq<OrderLog>, orderId: Option<string>): (r: Option<OrderLog>)
    ensures r.Some? <==> orderId.Some? && exists i :: 0 <= i < |orders| && orders[i].orderId == orderId.value
    ensures r.Some? ==> r.value in orders && r.value.orderId == orderId.value
  {
    if orderId.None? || |orders| == 0 then None
    else if orders[0].orderId == orderId.value then Some(orders[0])
    else
      var rest := FindOrder(orders[1..], orderId);
      assert forall i :: 1 <= i < |orders| ==> orders[i] == orders[1..][i - 1];
      rest
  }

  /** A lookup only sees rows with that id, and the earliest of them wins. */
  lemma {:induction false} FindOrderFirst(orders: seq<OrderLog>, orderId: string, i: nat)
    requires i < |orders| && orders[i].orderId == orderId
    requires forall j :: 0 <= j < i ==> orders[j].orderId != orderId
    ensures FindOrder(orders, Some(orderId)) == Some(orders[i])
  {
    if i > 0 {
      FindOrderFirst(orders[1..], orderId, i - 1);
    }
  }

  /** Appending rows does not change what an earlier row answers. */
  lemma {:induction false} FindOrderAppend(orders: seq<OrderLog>, more: seq<OrderLog>, orderId: Option<string>)
    requires FindOrder(orders, orderId).Some?
    ensures FindOrder(orders + more, orderId) == FindOrder(orders, orderId)
  {
    if orders[0].orderId != orderId.value {
      assert (orders + more)[1..] == orders[1..] + more;
      FindOrderAppend(orders[1..], more, orderId);
    }
  }

  /** The database, as the rows of its four tables. */
  class Database {
    var orderLogs: seq<OrderLog>
    var transactions: seq<Transaction>
    var paymentLogs: seq<PaymentLog>
    var errorLogs: seq<ErrorLog>

    constructor()
      ensures orderLogs == [] && transactions == [] && paymentLogs == [] && errorLogs == []
    {
      orderLogs, transactions, paymentLogs, errorLogs := [], [], [], [];
    }

    /** `INSERT INTO cc_order_logs`. */
    method InsertOrderLog(row: OrderLog)
      modifies this
      ensures orderLogs == old(orderLogs) + [row]
      ensures transactions == old(transactions) && paymentLogs == old(paymentLogs) && errorLogs == old(errorLogs)
    {
      orderLogs := orderLogs + [row];
    }

    /** `INSERT INTO hdfc_payment`, returning the new row's id. */
    method InsertTransaction(row: Transaction) returns (id: nat)
      modifies this
      ensures transactions == old(transactions) + [row] && id == |transactions|
      ensures orderLogs == old(orderLogs) && paymentLogs == old(paymentLogs) && errorLogs == old(errorLogs)
    {
      transactions := transactions + [row];
      id := |transactions|;
    }

    /** `INSERT INTO cc_payment_logs`, returning the new row's id. */
    method InsertPaymentLog(row: PaymentLog) returns (id: nat)
      modifies this
      ensures paymentLogs == old(paymentLogs) + [row] && id == |paymentLogs|
      ensures orderLogs == old(orderLogs) && transactions == old(transactions) && errorLogs == old(errorLogs)
    {
      paymentLogs := paymentLogs + [row];
      id := |paymentLogs|;
    }

    /** `INSERT INTO cc_error_logs`. */
    method InsertErrorLog(row: ErrorLog)
      modifies this
      ensures errorLogs == old(errorLogs) + [row]
      ensures orderLogs == old(orderLogs) && transactions == old(transactions) && paymentLogs == old(paymentLogs)
    {
      errorLogs := errorLogs + [row];
    }
  }
}
