/**
 * `PaymentController`: the gateway's response handler (decrypt, save, then dispatch on the
 * order status to a logged event and a redirect), and the browser's event logger.
 */
module Payments {
  import opened Wrappers
  import opened PhpString
  import opened OrderedMap
  import opened Storage
  import opened Classification
  import opened Processor

  // ---------------------------------------------------------------------------
  // handleResponse

  /** The outcome of the `switch`: a logged event and the page to redirect to, or an exception message. */
  datatype Decision = Accept(eventType: string, page: string) | Reject(reason: string)

  /** The `isset` test and the `switch` on the upper-cased `order_status`. */
  function Dispatch(orderStatus: Option<string>): Decision {
    match orderStatus
    case None => Reject("Payment status not found in response")
    case Some(status) =>
      var code := ToUpper(status);
      if code == "SUCCESS" then Accept("payment_success", "/success")
      else if code == "FAILURE" then Accept("payment_failure", "/error")
      else if code == "ABORTED" then Accept("payment_aborted", "/error")
      else Reject("Invalid payment status received. Security Error. Illegal access detected")
  }

  /**
   * The dispatch agrees with the stored status: a response is accepted exactly when it is
   * stored as completed, failed or cancelled, and success is the only route to `/success`.
   * `INVALID` and an empty status are stored (as error and pending) but rejected here.
   */
  lemma DispatchAgreesWithStatus(status: string)
    ensures Dispatch(Some(status)).Accept?
        <==> MapPaymentStatus(status) in {Completed, Failed, Cancelled}
    ensures Dispatch(Some(status)).Accept? && Dispatch(Some(status)).page == "/success"
        <==> MapPaymentStatus(status) == Completed
    ensures MapPaymentStatus(status) == Completed ==> Dispatch(Some(status)).eventType == "payment_success"
    ensures MapPaymentStatus(status) == Failed ==> Dispatch(Some(status)).eventType == "payment_failure"
    ensures MapPaymentStatus(status) == Cancelled ==> Dispatch(Some(status)).eventType == "payment_aborted"
  {
    var code := ToUpper(status);
    if code == "SUCCESS" {
      assert MapPaymentStatus(status) == Completed;
    } else if code == "FAILURE" {
      assert MapPaymentStatus(status) == Failed;
    } else if code == "ABORTED" {
      assert MapPaymentStatus(status) == Cancelled;
    } else {
      assert MapPaymentStatus(status) in {Error, Pending, Unknown};
    }
  }

  /** The status code is read without regard to case. */
  lemma DispatchIgnoresCase(status: string)
    ensures Dispatch(Some(ToUpper(status))) == Dispatch(Some(status))
  {
    ToUpperIdempotent(status);
  }

  /** The redirect after any exception. */
  const ErrorRedirect: string := "/error?message=" + UrlEncode("Error processing payment response")

  /** The type of every error row the response handler writes. */
  const ResponseErrorType: string := "Payment Response Error"

  /** The redirect of an accepted response: the page, with the url-encoded order id (`null` is empty). */
  function Location(page: string, orderId: Option<string>): string {
    page + "?order_id=" + UrlEncode(orderId.GetOr(""))
  }

  /** The browser lands on the same order id the gateway sent. */
  lemma LocationCarriesOrderId(page: string, orderId: string)
    requires ByteString(orderId)
    ensures Location(page, Some(orderId)) == page + "?order_id=" + UrlEncode(orderId)
    ensures UrlDecode(Location(page, Some(orderId))[|page| + 10..]) == orderId
  {
    var l := Location(page, Some(orderId));
    assert l[|page| + 10..] == UrlEncode(orderId);
    UrlDecodeEncode(orderId);
  }

  // ---------------------------------------------------------------------------
  // logPaymentEvent

  /** The event types the browser may log. */
  const AllowedEvents: seq<string> :=
    ["payment_success", "payment_error", "payment_aborted", "payment_failed", "modal_closed"]

  /** The event-type rule handed to the validator. */
  function EventRule(): string {
    "in:" + Implode(",", AllowedEvents)
  }

  /**
   * The rule lists exactly the allowed events. The server logs a failed payment as
   * `payment_failure`, a type the browser may not log; `payment_success` and
   * `payment_aborted` are shared.
   */
  lemma AllowedEventsRule()
    ensures Explode(',', Implode(",", AllowedEvents)) == AllowedEvents
    ensures "payment_failure" !in AllowedEvents
    ensures "payment_success" in AllowedEvents && "payment_aborted" in AllowedEvents
  {
    ExplodeImplode(',', AllowedEvents);
  }

  /** `array_filter` with `$value !== null`: the present values, keys and order kept. */
  function FilterNonNull(input: Entries<Option<string>>): (r: Entries<string>)
    ensures |r| <= |input|
  {
    if |input| == 0 then []
    else
      var rest := FilterNonNull(input[1..]);
      if input[0].1.Some? then [(input[0].0, input[0].1.value)] + rest else rest
  }

  /** The filter works entry by entry and keeps the order: filtering a concatenation concatenates. */
  lemma {:induction false} FilterNonNullAppend(a: Entries<Option<string>>, b: Entries<Option<string>>)
    ensures FilterNonNull(a + b) == FilterNonNull(a) + FilterNonNull(b)
  {
    if |a| == 0 {
      assert a + b == b;
    } else {
      assert (a + b)[0] == a[0];
      assert (a + b)[1..] == a[1..] + b;
      FilterNonNullAppend(a[1..], b);
    }
  }

  /** Whatever the keys, an entry is in the result exactly when the input holds it with a non-`null` value. */
  lemma {:induction false} FilterNonNullMember(input: Entries<Option<string>>, k: string, v: string)
    ensures (k, v) in FilterNonNull(input) <==> (k, Some(v)) in input
  {
    if |input| > 0 {
      FilterNonNullMember(input[1..], k, v);
      assert input == [input[0]] + input[1..];
    }
  }

  /** A key survives the filter exactly when its value is not `null`, and keeps that value. */
  lemma {:induction false} FilterNonNullGet(input: Entries<Option<string>>, k: string)
    requires DistinctKeys(input)
    ensures Get(FilterNonNull(input), k)
         == if Get(input, k).Some? && Get(input, k).value.Some? then Some(Get(input, k).value.value) else None
  {
    if |input| > 0 {
      DistinctTail(input);
      FilterNonNullGet(input[1..], k);
      if input[0].0 == k {
        GetAt(input, 0);
      } else {
        assert Keys(input) == [input[0].0] + Keys(input[1..]);
      }
    }
  }

  /** The validator's verdict on an event: the sanitized fields (`null` where not sent), or the first error. */
  datatype EventValidation = EventValid(input: Entries<Option<string>>) | EventInvalid(firstError: string)

  /** The JSON `logPaymentEvent` answers with. */
  datatype EventResponse = EventLogged(logId: nat) | EventFailed(status: nat, error: string)

  /** `$input['event_type']`; an absent or `null` one reads as empty. */
  function EventType(input: Entries<Option<string>>): string {
    var v := Get(input, "event_type");
    if v.Some? && v.value.Some? then v.value.value else ""
  }

  class PaymentController {
    const processor: PaymentProcessor

    constructor(processor: PaymentProcessor)
      ensures this.processor == processor
    {
      this.processor := processor;
    }

    /**
     * `handleResponse`. A missing or falsy `encResp` is logged and redirected to the error
     * page. Otherwise the response is saved first; then an accepted status logs its event and
     * redirects with the order id, and a rejected one is logged as an error and redirected to
     * the error page, its transaction row already written. A fatal error in saving ends the
     * request with no redirect.
     */
    method HandleResponse(encResp: Option<string>) returns (location: Outcome<string>)
      modifies processor.db
      ensures encResp.None? || !Truthy(encResp.value) ==>
                && location == Done(ErrorRedirect)
                && processor.db.errorLogs == old(processor.db.errorLogs) + [ErrorLog(ResponseErrorType, "Invalid response data")]
                && processor.db.transactions == old(processor.db.transactions)
                && processor.db.paymentLogs == old(processor.db.paymentLogs)
      ensures encResp.Some? && Truthy(encResp.value) ==>
                var data := processor.ResponseData(encResp.value);
                var order := FindOrder(old(processor.db.orderLogs), Get(data, "order_id"));
                var sanitized := SanitizeTransactionData(data, order, processor.reformatDate);
                var notFound := if order.None? then [OrderNotFound(Get(data, "order_id"))] else [];
                && (sanitized.Fatal? ==>
                      && location.Fatal?
                      && processor.db.errorLogs == old(processor.db.errorLogs) + notFound
                      && processor.db.transactions == old(processor.db.transactions)
                      && processor.db.paymentLogs == old(processor.db.paymentLogs))
                && (sanitized.Done? ==>
                      && processor.db.transactions == old(processor.db.transactions) + [sanitized.value]
                      && match Dispatch(Get(data, "order_status"))
                         case Accept(eventType, page) =>
                           && location == Done(Location(page, Get(data, "order_id")))
                           && processor.db.paymentLogs == old(processor.db.paymentLogs) + [PaymentLog(eventType, data)]
                           && processor.db.errorLogs == old(processor.db.errorLogs) + notFound
                         case Reject(reason) =>
                           && location == Done(ErrorRedirect)
                           && processor.db.paymentLogs == old(processor.db.paymentLogs)
                           && processor.db.errorLogs == old(processor.db.errorLogs) + notFound + [ErrorLog(ResponseErrorType, reason)])
      ensures processor.db.orderLogs == old(processor.db.orderLogs)
    {
      if encResp.None? || !Truthy(encResp.value) {
        processor.LogError(ResponseErrorType, "Invalid response data");
        return Done(ErrorRedirect);
      }
      var response := processor.HandlePaymentResponse(encResp.value);
      if response.Fatal? {
        return Fatal;
      }
      var data := response.value;
      match Dispatch(Get(data, "order_status")) {
        case Accept(eventType, page) =>
          var _ := processor.LogPaymentDetails(eventType, data);
          location := Done(Location(page, Get(data, "order_id")));
        case Reject(reason) =>
          processor.LogError(ResponseErrorType, reason);
          location := Done(ErrorRedirect);
      }
    }

    /**
     * `logPaymentEvent`: a validation failure answers 400 with the first error; otherwise the
     * non-`null` fields are logged under the event type and the new row's id is returned.
     */
    method LogPaymentEvent(validate: string -> EventValidation) returns (response: EventResponse)
      modifies processor.db
      ensures validate(EventRule()).EventInvalid? ==>
                && response == EventFailed(400, "An error occurred: " + validate(EventRule()).firstError)
                && processor.db.paymentLogs == old(processor.db.paymentLogs)
      ensures validate(EventRule()).EventValid? ==>
                var input := validate(EventRule()).input;
                && processor.db.paymentLogs == old(processor.db.paymentLogs)
                     + [PaymentLog(EventType(input), FilterNonNull(input))]
                && response == EventLogged(|processor.db.paymentLogs|)
      ensures processor.db.orderLogs == old(processor.db.orderLogs)
      ensures processor.db.transactions == old(processor.db.transactions)
      ensures processor.db.errorLogs == old(processor.db.errorLogs)
    {
      var validation := validate(EventRule());
      if validation.EventInvalid? {
        return EventFailed(400, "An error occurred: " + validation.firstError);
      }
      var input := validation.input;
      var filteredData := FilterNonNull(input);
      var logId := processor.LogPaymentDetails(EventType(input), filteredData);
      response := EventLogged(logId);
    }
  }
}
