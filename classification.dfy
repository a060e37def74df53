/**
 * How `PaymentProcessor` classifies a parsed gateway response: `mapPaymentStatus`,
 * `getErrorMessage` and the field mapping of `sanitizeTransactionData`.
 */
module Classification {
  import opened Wrappers
  import opened PhpString
  import opened OrderedMap
  import opened Storage

  // ---------------------------------------------------------------------------
  // mapPaymentStatus

  /** The gateway's code for each stored status; `Unknown` has none. */
  function GatewayCode(s: PaymentStatus): Option<string> {
    match s
    case Completed => Some("SUCCESS")
    case Failed => Some("FAILURE")
    case Cancelled => Some("ABORTED")
    case Error => Some("INVALID")
    case Pending => Some("")
    case Unknown => None
  }

  /** `mapPaymentStatus`: a lookup of the upper-cased code in a fixed table, `unknown` otherwise. */
  function MapPaymentStatus(ccavStatus: string): PaymentStatus {
    var code := ToUpper(ccavStatus);
    if code == "SUCCESS" then Completed
    else if code == "FAILURE" then Failed
    else if code == "ABORTED" then Cancelled
    else if code == "INVALID" then Error
    else if code == "" then Pending
    else Unknown
  }

  /**
   * The table both ways: a status other than `unknown` is produced by exactly the codes that
   * upper-case to its gateway code, and `unknown` by every code that upper-cases to none of them.
   */
  lemma MapPaymentStatusTable(ccavStatus: string, s: PaymentStatus)
    ensures s != Unknown ==> (MapPaymentStatus(ccavStatus) == s <==> ToUpper(ccavStatus) == GatewayCode(s).value)
    ensures MapPaymentStatus(ccavStatus) == Unknown
        <==> forall t :: t != Unknown ==> ToUpper(ccavStatus) != GatewayCode(t).value
  {
    var code := ToUpper(ccavStatus);
    if MapPaymentStatus(ccavStatus) != Unknown {
      var t := MapPaymentStatus(ccavStatus);
      assert t != Unknown && code == GatewayCode(t).value;
    }
  }

  /** Case does not matter: a code and its upper-cased form map alike. */
  lemma MapPaymentStatusIgnoresCase(ccavStatus: string)
    ensures MapPaymentStatus(ToUpper(ccavStatus)) == MapPaymentStatus(ccavStatus)
  {
    ToUpperIdempotent(ccavStatus);
  }

  // ---------------------------------------------------------------------------
  // getErrorMessage

  /** `array_filter` without a callback: keeps the present, PHP-truthy values, in order. */
  function KeepTruthy(values: seq<Option<string>>): (kept: seq<string>)
    ensures |kept| <= |values|
    ensures forall i :: 0 <= i < |kept| ==> Truthy(kept[i])
  {
    if |values| == 0 then []
    else
      var rest := KeepTruthy(values[1..]);
      if values[0].Some? && Truthy(values[0].value) then [values[0].value] + rest else rest
  }

  /** What the filter keeps of one value: the value itself when it is present and truthy. */
  function TruthyValue(v: Option<string>): seq<string> {
    if v.Some? && Truthy(v.value) then [v.value] else []
  }

  /** A single value is kept exactly when it is present and truthy. */
  lemma KeepTruthyOne(v: Option<string>)
    ensures KeepTruthy([v]) == TruthyValue(v)
  {
    assert [v][1..] == [];
  }

  /** The filter works value by value and keeps the order: filtering a concatenation concatenates. */
  lemma {:induction false} KeepTruthyAppend(a: seq<Option<string>>, b: seq<Option<string>>)
    ensures KeepTruthy(a + b) == KeepTruthy(a) + KeepTruthy(b)
  {
    if |a| > 0 {
      assert (a + b)[0] == a[0];
      assert (a + b)[1..] == a[1..] + b;
      KeepTruthyAppend(a[1..], b);
    } else {
      assert a + b == b;
    }
  }

  /** None of the values is present and truthy. */
  predicate NoneTruthy(values: seq<Option<string>>) {
    forall i :: 0 <= i < |values| ==> values[i].None? || !Truthy(values[i].value)
  }

  lemma {:induction false} KeepTruthyEmpty(values: seq<Option<string>>)
    ensures KeepTruthy(values) == [] <==> NoneTruthy(values)
  {
    if |values| > 0 {
      KeepTruthyEmpty(values[1..]);
      assert forall i :: 1 <= i < |values| ==> values[i] == values[1..][i - 1];
    }
  }

  /** The three fields `getErrorMessage` reads, in its order. */
  function ErrorFields(data: Entries<string>): seq<Option<string>> {
    [Get(data, "failure_message"), Get(data, "status_message"), Get(data, "status_code")]
  }

  /** `getErrorMessage`: the truthy fields joined by ` | `, or `null` if none is truthy. */
  function GetErrorMessage(data: Entries<string>): (r: Option<string>)
    ensures r.None? <==> NoneTruthy(ErrorFields(data))
  {
    KeepTruthyEmpty(ErrorFields(data));
    var messages := KeepTruthy(ErrorFields(data));
    if messages == [] then None else Some(Implode(" | ", messages))
  }

  /**
   * The message in every case: the present, truthy fields among `failure_message`,
   * `status_message` and `status_code`, in that order, joined by ` | `; `null` when there is none.
   */
  lemma ErrorMessageJoin(data: Entries<string>)
    ensures var kept := TruthyValue(Get(data, "failure_message")) + TruthyValue(Get(data, "status_message"))
                        + TruthyValue(Get(data, "status_code"));
            GetErrorMessage(data) == if kept == [] then None else Some(Implode(" | ", kept))
  {
    var f, m, c := Get(data, "failure_message"), Get(data, "status_message"), Get(data, "status_code");
    assert ErrorFields(data) == [f] + [m] + [c];
    KeepTruthyAppend([f] + [m], [c]);
    KeepTruthyAppend([f], [m]);
    KeepTruthyOne(f);
    KeepTruthyOne(m);
    KeepTruthyOne(c);
  }

  lemma JoinThree(a: string, b: string, c: string)
    ensures Implode(" | ", [a, b, c]) == a + " | " + b + " | " + c
  {
    assert [a, b, c][1..] == [b, c] && [b, c][1..] == [c];
    assert Implode(" | ", [b, c]) == b + " | " + c;
    assert Implode(" | ", [a, b, c]) == a + " | " + (b + " | " + c);
    assert a + " | " + (b + " | " + c) == a + " | " + b + " | " + c;
  }

  /** With all three fields truthy, the message lists them in order. */
  lemma ErrorMessageAll(data: Entries<string>, f: string, m: string, c: string)
    requires Get(data, "failure_message") == Some(f) && Truthy(f)
    requires Get(data, "status_message") == Some(m) && Truthy(m)
    requires Get(data, "status_code") == Some(c) && Truthy(c)
    ensures GetErrorMessage(data) == Some(f + " | " + m + " | " + c)
  {
    ErrorMessageJoin(data);
    JoinThree(f, m, c);
  }

  /** A falsy field (`""`, `"0"` or absent) leaves no trace: the others are joined as if it were not there. */
  lemma ErrorMessageSkipsFalsy(data: Entries<string>, m: string, c: string)
    requires Get(data, "failure_message").None? || !Truthy(Get(data, "failure_message").value)
    requires Get(data, "status_message") == Some(m) && Truthy(m)
    requires Get(data, "status_code") == Some(c) && Truthy(c)
    ensures GetErrorMessage(data) == Some(m + " | " + c)
  {
    ErrorMessageJoin(data);
    assert [m, c][1..] == [c];
  }

  /** A single truthy field is the whole message. */
  lemma ErrorMessageSingle(data: Entries<string>, c: string)
    requires Get(data, "failure_message").None? || !Truthy(Get(data, "failure_message").value)
    requires Get(data, "status_message").None? || !Truthy(Get(data, "status_message").value)
    requires Get(data, "status_code") == Some(c) && Truthy(c)
    ensures GetErrorMessage(data) == Some(c)
  {
    ErrorMessageJoin(data);
  }

  // ---------------------------------------------------------------------------
  // sanitizeTransactionData

  /**
   * `sanitizeTransactionData`: the response fields renamed to the columns of `hdfc_payment`,
   * given the looked-up order row and `reformatDate`, the `m/d/Y H:i:s` to `Y-m-d H:i:s`
   * date conversion (`None` when the text does not parse). A missing or unparseable
   * `trans_date` makes `DateTime::createFromFormat` return `false`, and calling `format` on
   * it is a fatal error: the `date()` fallback after `??` is never reached.
   */
  function SanitizeTransactionData(data: Entries<string>, order: Option<OrderLog>,
                                   reformatDate: string -> Option<string>): (r: Outcome<Transaction>)
    ensures r.Done? <==> Get(data, "trans_date").Some? && reformatDate(Get(data, "trans_date").value).Some?
    ensures r.Done? ==> r.value.transactionTime == reformatDate(Get(data, "trans_date").value).value
    ensures r.Done? ==> r.value.status == MapPaymentStatus(Get(data, "order_status").GetOr(""))
    ensures r.Done? ==> r.value.errorMessage == GetErrorMessage(data)
    ensures r.Done? ==> (r.value.amount == Get(data, "amount").GetOr("0")
                         && r.value.currencyType == Get(data, "currency").GetOr("INR"))
    ensures r.Done? && order.None? ==> r.value.originalAmount == 0.0 && r.value.originalCurrency == "INR"
    ensures r.Done? && order.Some? ==> (r.value.originalAmount == order.value.originalAmount
                                        && r.value.originalCurrency == order.value.originalCurrency)
    ensures r.Done? ==> r.value.orderId == Get(data, "order_id") && r.value.paymentId == Get(data, "tracking_id")
  {
    var transDate := Get(data, "trans_date");
    if transDate.None? || reformatDate(transDate.value).None? then Fatal
    else
      Done(Transaction(
        paymentId := Get(data, "tracking_id"),
        orderId := Get(data, "order_id"),
        name := Get(data, "billing_name"),
        email := Get(data, "billing_email"),
        tel := Get(data, "billing_tel"),
        address := Get(data, "billing_address"),
        city := Get(data, "billing_city"),
        state := Get(data, "billing_state"),
        zipCode := Get(data, "billing_zip"),
        country := Get(data, "billing_country"),
        amount := Get(data, "amount").GetOr("0"),
        currencyType := Get(data, "currency").GetOr("INR"),
        originalAmount := if order.Some? then order.value.originalAmount else 0.0,
        originalCurrency := if order.Some? then order.value.originalCurrency else "INR",
        bankRefNo := Get(data, "bank_ref_no"),
        status := MapPaymentStatus(Get(data, "order_status").GetOr("")),
        paymentMethod := Get(data, "payment_mode"),
        cardNetwork := Get(data, "card_name"),
        transactionFee := Get(data, "trans_fee"),
        serviceTax := Get(data, "service_tax"),
        errorMessage := GetErrorMessage(data),
        transactionTime := reformatDate(transDate.value).value))
  }

  /** A response without `order_status` is stored as pending, never as unknown. */
  lemma MissingStatusIsPending(data: Entries<string>, order: Option<OrderLog>, reformatDate: string -> Option<string>)
    requires "order_status" !in Keys(data)
    requires SanitizeTransactionData(data, order, reformatDate).Done?
    ensures SanitizeTransactionData(data, order, reformatDate).value.status == Pending
  {
  }
}
