/**
 * `OrderController`: the order id, the customer fields, the transaction URL and the `create`
 * flow (CSRF check, validation, currency conversion, order creation, or one generic error).
 * The session, the validator, `microtime`, `mt_rand` and `time()` are given to it.
 */
module Orders {
  import opened Wrappers
  import opened PhpString
  import opened OrderedMap
  import opened Codec
  import opened Payload
  import opened Storage
  import opened Currency
  import opened Processor

  // ---------------------------------------------------------------------------
  // generateOrderId

  /**
   * `generateOrderId`: the decimal text of `microtime(true)` with every `.` removed, the
   * 3-digit random number appended, cut to the gateway's 30-character limit.
   */
  function GenerateOrderId(timestamp: string, random: nat): (orderId: string)
    requires 100 <= random <= 999
    ensures |orderId| <= 30
    ensures orderId <= RemoveChar(timestamp, '.') + NatToString(random)
  {
    Prefix(RemoveChar(timestamp, '.') + NatToString(random), 30)
  }

  /**
   * A timestamp of at most 27 digits keeps the whole random suffix; a timestamp of digits and
   * dots gives an id of digits only.
   */
  lemma OrderIdShape(timestamp: string, random: nat)
    requires 100 <= random <= 999
    requires |RemoveChar(timestamp, '.')| <= 27
    ensures GenerateOrderId(timestamp, random) == RemoveChar(timestamp, '.') + NatToString(random)
    ensures |GenerateOrderId(timestamp, random)| == |RemoveChar(timestamp, '.')| + 3
    ensures (forall i :: 0 <= i < |timestamp| ==> IsDigit(timestamp[i]) || timestamp[i] == '.')
        ==> AllDigits(GenerateOrderId(timestamp, random))
  {
    NatToStringThreeDigits(random);
    var digits := RemoveChar(timestamp, '.');
    if forall i :: 0 <= i < |timestamp| ==> IsDigit(timestamp[i]) || timestamp[i] == '.' {
      forall i | 0 <= i < |digits| ensures IsDigit(digits[i]) {
        RemoveCharFrom(timestamp, '.', i);
      }
    }
  }

  /** Every character of `RemoveChar(s, c)` is a character of `s`. */
  lemma {:induction false} RemoveCharFrom(s: string, c: char, i: nat)
    requires i < |RemoveChar(s, c)|
    ensures RemoveChar(s, c)[i] in s
  {
    if s[0] == c {
      RemoveCharFrom(s[1..], c, i);
    } else if i > 0 {
      RemoveCharFrom(s[1..], c, i - 1);
    }
  }

  /**
   * For timestamps whose digits have the same length (at most 27), equal ids mean equal
   * digits and equal random numbers: the suffix cannot be confused with the timestamp.
   */
  lemma OrderIdInjective(t1: string, r1: nat, t2: string, r2: nat)
    requires 100 <= r1 <= 999 && 100 <= r2 <= 999
    requires |RemoveChar(t1, '.')| <= 27 && |RemoveChar(t2, '.')| <= 27
    requires GenerateOrderId(t1, r1) == GenerateOrderId(t2, r2)
    ensures RemoveChar(t1, '.') == RemoveChar(t2, '.') && r1 == r2
  {
    OrderIdShape(t1, r1);
    OrderIdShape(t2, r2);
    var d1, d2 := RemoveChar(t1, '.'), RemoveChar(t2, '.');
    var id := GenerateOrderId(t1, r1);
    assert d1 == id[..|d1|] && d2 == id[..|d2|];
    assert NatToString(r1) == id[|d1|..] && NatToString(r2) == id[|d2|..];
    assert ParseNat(NatToString(r1)) == r1 && ParseNat(NatToString(r2)) == r2;
  }

  /** Once the digits reach 30, the random number is cut off entirely. */
  lemma OrderIdDropsRandom(timestamp: string, random: nat)
    requires 100 <= random <= 999
    requires |RemoveChar(timestamp, '.')| >= 30
    ensures GenerateOrderId(timestamp, random) == RemoveChar(timestamp, '.')[..30]
  {
    var s := RemoveChar(timestamp, '.') + NatToString(random);
    assert s[..30] == RemoveChar(timestamp, '.')[..30];
  }

  // ---------------------------------------------------------------------------
  // transformInput

  /** The validated form fields `create` uses; an optional field that was not sent is `""`. */
  datatype OrderInput = OrderInput(
    amount: real,
    currency: string,
    name: string,
    email: string,
    tel: string,
    address1: string,
    address2: string,
    country: string,
    zip: string,
    state: string,
    city: string)

  /**
   * The billing address: both lines separated by one space when both are non-empty, the one
   * non-empty line otherwise, `""` when neither is (PHP `empty` counts `"0"` as empty).
   */
  function JoinedAddress(address1: string, address2: string): string {
    if Truthy(address1) && Truthy(address2) then address1 + " " + address2
    else if Truthy(address1) then address1
    else if Truthy(address2) then address2
    else ""
  }

  /** The keys of the customer data, in order. */
  const BillingKeys: seq<string> :=
    ["billing_name", "billing_email", "billing_tel", "billing_address",
     "billing_state", "billing_country", "billing_zip", "billing_city"]

  /** The customer data `transformInput` returns. */
  function CustomerData(input: OrderInput): (customerData: Entries<string>)
    ensures Keys(customerData) == BillingKeys
  {
    var data := [("billing_name", input.name), ("billing_email", input.email), ("billing_tel", input.tel),
                 ("billing_address", JoinedAddress(input.address1, input.address2)),
                 ("billing_state", input.state), ("billing_country", input.country),
                 ("billing_zip", input.zip), ("billing_city", input.city)];
    assert forall i :: 0 <= i < |data| ==> Keys(data)[i] == BillingKeys[i];
    data
  }

  /** `transformInput`: the address built by conditional appends, then the eight billing fields. */
  method TransformInput(input: OrderInput) returns (customerData: Entries<string>)
    ensures customerData == CustomerData(input)
    ensures Keys(customerData) == BillingKeys
  {
    var address := "";
    if Truthy(input.address1) {
      address := address + input.address1;
      assert address == input.address1;
    }
    if Truthy(input.address2) {
      if Truthy(address) {
        address := address + " ";
      }
      address := address + input.address2;
    }
    assert address == JoinedAddress(input.address1, input.address2);
    customerData := [("billing_name", input.name), ("billing_email", input.email), ("billing_tel", input.tel),
                     ("billing_address", address), ("billing_state", input.state),
                     ("billing_country", input.country), ("billing_zip", input.zip),
                     ("billing_city", input.city)];
  }

  /** The billing keys are distinct. */
  lemma BillingKeysDistinct()
    ensures NoDuplicates(BillingKeys)
  {
    forall i, j | 0 <= i < j < |BillingKeys| ensures BillingKeys[i] != BillingKeys[j] {
      assert BillingKeys[i][8] != BillingKeys[j][8] || BillingKeys[i][9] != BillingKeys[j][9];
    }
  }

  /** No billing key is a base key, nor `amount`: they all start with `b`, and no base key does. */
  lemma BillingKeysFresh()
    ensures forall i :: 0 <= i < |BillingKeys| ==> BillingKeys[i] !in BaseKeys
    ensures "amount" !in BillingKeys
  {
    assert forall i :: 0 <= i < |BillingKeys| ==> BillingKeys[i][0] == 'b';
    assert forall j :: 0 <= j < |BaseKeys| ==> BaseKeys[j][0] != 'b';
  }

  lemma CustomerKeysFresh(base: Entries<string>, customer: Entries<string>)
    requires Keys(base) == BaseKeys && Keys(customer) == BillingKeys
    ensures forall i :: 0 <= i < |customer| ==> customer[i].0 !in Keys(base)
  {
    BillingKeysFresh();
    forall i | 0 <= i < |customer| ensures customer[i].0 !in Keys(base) {
      assert customer[i].0 == BillingKeys[i];
    }
  }

  /** Merging fields keyed by the billing keys into fields keyed by the base keys appends them. */
  lemma MergeBilling(base: Entries<string>, customer: Entries<string>)
    requires Keys(base) == BaseKeys && Keys(customer) == BillingKeys
    ensures Keys(MerchantData(base, customer)) == BaseKeys + BillingKeys
    ensures DistinctKeys(MerchantData(base, customer))
    ensures Get(MerchantData(base, customer), "amount") == Get(base, "amount")
  {
    BillingKeysDistinct();
    BillingKeysFresh();
    BaseKeysDistinct();
    CustomerKeysFresh(base, customer);
    MerchantDataLayout(base, customer, "amount");
    NewKeysOfFresh(Keys(base), customer);
    MergeDistinct(base, customer);
  }

  /**
   * The request `create` sends: the eight base fields, then the eight billing fields (no key
   * is shared, so nothing is overwritten), with the amount formatted to two decimals.
   */
  lemma OrderRequestLayout(tid: int, merchantId: string, orderId: string, amount: real, currency: string,
                           url: string, input: OrderInput)
    ensures var fields := MerchantData(BaseFields(tid, merchantId, orderId, amount, currency, url), CustomerData(input));
            && Keys(fields) == BaseKeys + BillingKeys
            && DistinctKeys(fields)
            && Get(fields, "amount") == Some(NumberFormat.FormatAmount(amount))
  {
    BaseFieldsAmount(tid, merchantId, orderId, amount, currency, url);
    MergeBilling(BaseFields(tid, merchantId, orderId, amount, currency, url), CustomerData(input));
  }

  // ---------------------------------------------------------------------------
  // create

  /** The validator's verdict: the sanitized input, or the first error message. */
  datatype Validation = Valid(input: OrderInput) | Invalid(firstError: string)

  /** The JSON `create` answers with. */
  datatype CreateResponse =
    | Created(encryptedData: string, accessCode: string, transactionUrl: string)
    | Rejected(status: nat, error: string)

  /** The one error every failure of `create` reports. */
  const GenericError: string := "Unable to process payment request"

  /** The error-log type of `create`. */
  const ProcessingErrorType: string := "Payment Processing Error"

  /** How far `create` gets: an exception message, or the input and the amount in the base currency. */
  datatype Plan = Abort(message: string) | Proceed(input: OrderInput, amountInInr: real)

  /** The decisions of `create`, in its order: CSRF token, validation, conversion. */
  function CreatePlan(csrfValid: bool, validation: Validation, table: Entries<real>): Plan {
    if !csrfValid then Abort("Invalid CSRF token")
    else match validation
      case Invalid(firstError) => Abort(firstError)
      case Valid(input) =>
        match Convert(table, input.amount, input.currency)
        case None => Abort("Currency conversion failed")
        case Some(amountInInr) => Proceed(input, amountInInr)
  }

  /** `create` goes ahead exactly when the token is valid, the input validates and its currency is a table key. */
  lemma CreatePlanProceeds(csrfValid: bool, validation: Validation, table: Entries<real>)
    ensures CreatePlan(csrfValid, validation, table).Proceed?
        <==> csrfValid && validation.Valid? && validation.input.currency in Keys(table)
    ensures CreatePlan(csrfValid, validation, table).Proceed? ==>
      CreatePlan(csrfValid, validation, table).input == validation.input
  {
  }

  /**
   * With a rate table built by the currency service, a validator that only admits listed
   * codes lets every valid request through to `createOrder`, with the amount converted.
   */
  lemma ListedCurrencyProceeds(rates: Entries<real>, input: OrderInput)
    requires forall i :: 0 <= i < |rates| ==> ',' !in rates[i].0
    requires input.currency in Explode(',', ValidationRulesArray(RateTable(rates)))
    ensures CreatePlan(true, Valid(input), RateTable(rates)).Proceed?
    ensures CreatePlan(true, Valid(input), RateTable(rates)).amountInInr
         == Convert(RateTable(rates), input.amount, input.currency).value
  {
    ListedCurrencyConverts(rates, input.currency, input.amount);
  }

  class OrderController {
    const processor: PaymentProcessor
    /** The currency service's rate table. */
    const rates: Entries<real>

    constructor(processor: PaymentProcessor, jsonRates: Entries<real>)
      ensures this.processor == processor && rates == RateTable(jsonRates)
    {
      this.processor := processor;
      rates := RateTable(jsonRates);
    }

    /** `getTransactionUrl`. */
    function GetTransactionUrl(): (url: string)
      ensures url == (if processor.environment == "production" then processor.productionUrl else processor.testUrl)
                     + "/transaction/transaction.do?command=initiateTransaction"
      ensures processor.GetUrl() <= url
    {
      processor.GetUrl() + "/transaction/transaction.do?command=initiateTransaction"
    }

    /** The currency rule handed to the validator: `in:` and the codes joined by `,`. */
    function CurrencyRule(): string {
      "in:" + ValidationRulesArray(rates)
    }

    /**
     * `create`: on an invalid token, a validation failure or a failed conversion, one error row
     * and the generic 400 answer; otherwise `createOrder` with the converted amount in `INR` and
     * the user's amount and currency as the original pair, and the encrypted request.
     */
    method Create(csrfValid: bool, validate: string -> Validation, timestamp: string, random: nat, now: int)
      returns (response: CreateResponse)
      requires 100 <= random <= 999
      modifies processor.db
      ensures var plan := CreatePlan(csrfValid, validate(CurrencyRule()), rates);
              && (plan.Abort? ==>
                   && response == Rejected(400, GenericError)
                   && processor.db.errorLogs == old(processor.db.errorLogs) + [ErrorLog(ProcessingErrorType, plan.message)]
                   && processor.db.orderLogs == old(processor.db.orderLogs))
              && (plan.Proceed? ==>
                   var orderId := GenerateOrderId(timestamp, random);
                   var fields := processor.OrderFields(now, plan.amountInInr, BaseCurrency, orderId, CustomerData(plan.input));
                   && response == Created(Encryption(processor.crypto, processor.workingKey, MerchantString(fields)),
                                          processor.accessCode, GetTransactionUrl())
                   && processor.db.orderLogs == old(processor.db.orderLogs)
                        + [OrderLog(orderId, plan.amountInInr, BaseCurrency, plan.input.amount, plan.input.currency)]
                   && processor.db.errorLogs == old(processor.db.errorLogs))
      ensures processor.db.transactions == old(processor.db.transactions)
      ensures processor.db.paymentLogs == old(processor.db.paymentLogs)
    {
      var plan := CreatePlan(csrfValid, validate(CurrencyRule()), rates);
      if !csrfValid {
        processor.LogError(ProcessingErrorType, "Invalid CSRF token");
        return Rejected(400, GenericError);
      }
      var validation := validate(CurrencyRule());
      if validation.Invalid? {
        processor.LogError(ProcessingErrorType, validation.firstError);
        return Rejected(400, GenericError);
      }
      var input := validation.input;
      var orderId := GenerateOrderId(timestamp, random);
      var customerData := TransformInput(input);
      var amountInInr := Convert(rates, input.amount, input.currency);
      if amountInInr.None? {
        processor.LogError(ProcessingErrorType, "Currency conversion failed");
        return Rejected(400, GenericError);
      }
      var orderData := processor.CreateOrder(amountInInr.value, input.amount, BaseCurrency, input.currency,
                                             orderId, customerData, now);
      response := Created(orderData.encryptedData, orderData.accessCode, GetTransactionUrl());
    }
  }
}
