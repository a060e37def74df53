/**
 * `PaymentProcessor`: builds and encrypts the order request, and decrypts, parses and stores
 * the gateway's response. The clock (`time()`), the `url()` helper, the cipher, the digest
 * and the date conversion are given to it; the database is a `Database` object.
 */
module Processor {
  import opened Wrappers
  import opened PhpString
  import opened OrderedMap
  import opened Codec
  import opened Payload
  import opened NumberFormat
  import opened Storage
  import opened Classification

  /** What `createOrder` returns. */
  datatype OrderData = OrderData(encryptedData: string, accessCode: string, orderId: string)

  /** The keys of the fields `createOrder` always sends, in order. */
  const BaseKeys: seq<string> :=
    ["tid", "merchant_id", "order_id", "amount", "currency", "redirect_url", "cancel_url", "language"]

  /**
   * The fields `createOrder` always sends: `tid` is the clock in seconds, `amount` the amount
   * formatted to two decimals; both URLs are the response handler's.
   */
  function BaseFields(tid: int, merchantId: string, orderId: string, amount: real, currency: string,
                      responseHandlerUrl: string): (fields: Entries<string>)
    ensures Keys(fields) == BaseKeys
  {
    var fields := [("tid", IntToString(tid)), ("merchant_id", merchantId), ("order_id", orderId),
                   ("amount", FormatAmount(amount)), ("currency", currency),
                   ("redirect_url", responseHandlerUrl), ("cancel_url", responseHandlerUrl),
                   ("language", "EN")];
    assert Keys(fields) == BaseKeys by {
      assert forall i :: 0 <= i < |fields| ==> Keys(fields)[i] == BaseKeys[i];
    }
    fields
  }

  /** The base keys are distinct. */
  lemma BaseKeysDistinct()
    ensures NoDuplicates(BaseKeys)
  {
    forall i, j | 0 <= i < j < |BaseKeys| ensures BaseKeys[i] != BaseKeys[j] {
      assert BaseKeys[i][0] != BaseKeys[j][0] || BaseKeys[i][1] != BaseKeys[j][1];
    }
  }

  /** The base keys are distinct, and `amount` carries the amount formatted to two decimals. */
  lemma BaseFieldsAmount(tid: int, merchantId: string, orderId: string, amount: real, currency: string,
                         responseHandlerUrl: string)
    ensures DistinctKeys(BaseFields(tid, merchantId, orderId, amount, currency, responseHandlerUrl))
    ensures Get(BaseFields(tid, merchantId, orderId, amount, currency, responseHandlerUrl), "amount")
         == Some(FormatAmount(amount))
  {
    var fields := BaseFields(tid, merchantId, orderId, amount, currency, responseHandlerUrl);
    BaseKeysDistinct();
    GetAt(fields, 3);
  }

  /** `$merchantData` after the optional `array_merge` with the customer data. */
  function MerchantData(base: Entries<string>, customerData: Entries<string>): Entries<string> {
    if |customerData| == 0 then base else Merge(base, customerData)
  }

  /**
   * Merging customer data: the base keys keep their places, customer keys the base does not
   * have follow `language` in the customer's order, and a customer value wins over a base
   * value with the same key. The `!empty` guard changes nothing: merging nothing is the identity.
   */
  lemma MerchantDataLayout(base: Entries<string>, customerData: Entries<string>, k: string)
    requires DistinctKeys(customerData)
    ensures MerchantData(base, customerData) == Merge(base, customerData)
    ensures Keys(MerchantData(base, customerData)) == Keys(base) + NewKeys(Keys(base), customerData)
    ensures Get(MerchantData(base, customerData), k)
         == if k in Keys(customerData) then Get(customerData, k) else Get(base, k)
  {
    MergeKeys(base, customerData);
    MergeGet(base, customerData, k);
  }

  /** The error row `getOrderDetails` writes when no order has the id (`null` reads as empty). */
  function OrderNotFound(orderId: Option<string>): ErrorLog {
    ErrorLog("Order Details Error", "Order with order_id " + orderId.GetOr("") + " not found.")
  }

  class PaymentProcessor {
    const db: Database
    const workingKey: string
    const accessCode: string
    const merchantId: string
    /** `config('app')['environment']` and the two gateway URLs of the payment configuration. */
    const environment: string
    const productionUrl: string
    const testUrl: string
    /** `url('/ccav-response-handler')`. */
    const responseHandlerUrl: string
    const crypto: Crypto
    /** `DateTime::createFromFormat('m/d/Y H:i:s', ...)->format('Y-m-d H:i:s')`, `None` where it returns `false`. */
    const reformatDate: string -> Option<string>

    constructor(db: Database, workingKey: string, accessCode: string, merchantId: string,
                environment: string, productionUrl: string, testUrl: string,
                responseHandlerUrl: string, crypto: Crypto, reformatDate: string -> Option<string>)
      ensures this.db == db && this.workingKey == workingKey && this.accessCode == accessCode
      ensures this.merchantId == merchantId && this.environment == environment
      ensures this.productionUrl == productionUrl && this.testUrl == testUrl
      ensures this.responseHandlerUrl == responseHandlerUrl
      ensures this.crypto == crypto && this.reformatDate == reformatDate
    {
      this.db := db;
      this.workingKey := workingKey;
      this.accessCode := accessCode;
      this.merchantId := merchantId;
      this.environment := environment;
      this.productionUrl := productionUrl;
      this.testUrl := testUrl;
      this.responseHandlerUrl := responseHandlerUrl;
      this.crypto := crypto;
      this.reformatDate := reformatDate;
    }

    /** `getUrl`: the production URL exactly when the environment is `production`. */
    function GetUrl(): (url: string)
      ensures environment == "production" ==> url == productionUrl
      ensures environment != "production" ==> url == testUrl
    {
      if environment == "production" then productionUrl else testUrl
    }

    /** The fields `createOrder` sends for these arguments at clock `now`. */
    function OrderFields(now: int, amount: real, currency: string, orderId: string,
                         customerData: Entries<string>): Entries<string> {
      MerchantData(BaseFields(now, merchantId, orderId, amount, currency, responseHandlerUrl), customerData)
    }

    /**
     * `createOrder`: the merchant string of the fields, encrypted; then one `cc_order_logs`
     * row with the amount sent and the original amount and currency.
     */
    method CreateOrder(amount: real, originalAmount: real, currency: string, originalCurrency: string,
                       orderId: string, customerData: Entries<string>, now: int) returns (r: OrderData)
      modifies db
      ensures r.encryptedData == Encryption(crypto, workingKey,
                                            MerchantString(OrderFields(now, amount, currency, orderId, customerData)))
      ensures r.accessCode == accessCode && r.orderId == orderId
      ensures db.orderLogs == old(db.orderLogs) + [OrderLog(orderId, amount, currency, originalAmount, originalCurrency)]
      ensures db.transactions == old(db.transactions) && db.paymentLogs == old(db.paymentLogs)
      ensures db.errorLogs == old(db.errorLogs)
    {
      var merchantData := BaseFields(now, merchantId, orderId, amount, currency, responseHandlerUrl);
      if |customerData| > 0 {
        merchantData := Merge(merchantData, customerData);
      }
      var merchantDataString := MerchantDataString(merchantData);
      var encryptedData := Encrypt(crypto, workingKey, merchantDataString);
      LogOrder(orderId, amount, currency, originalAmount, originalCurrency);
      r := OrderData(encryptedData, accessCode, orderId);
    }

    /** The parsed response for an encrypted reply; a failed decryption (`false`) parses as empty. */
    function ResponseData(encResponse: string): Entries<string> {
      ParseResponse(Decryption(crypto, workingKey, encResponse).GetOr(""))
    }

    /**
     * `handlePaymentResponse`: decrypt, parse, save, and return the parsed fields; a fatal
     * error in `sanitizeTransactionData` ends the request before anything is saved.
     */
    method HandlePaymentResponse(encResponse: string) returns (r: Outcome<Entries<string>>)
      modifies db
      ensures var data := ResponseData(encResponse);
              var order := FindOrder(old(db.orderLogs), Get(data, "order_id"));
              var sanitized := SanitizeTransactionData(data, order, reformatDate);
              && db.errorLogs == old(db.errorLogs) + (if order.None? then [OrderNotFound(Get(data, "order_id"))] else [])
              && (sanitized.Fatal? ==> r.Fatal? && db.transactions == old(db.transactions))
              && (sanitized.Done? ==> r == Done(data) && db.transactions == old(db.transactions) + [sanitized.value])
      ensures db.orderLogs == old(db.orderLogs) && db.paymentLogs == old(db.paymentLogs)
    {
      var decryptedResponse := Decrypt(crypto, workingKey, encResponse);
      var responseData := ParseResponseString(decryptedResponse.GetOr(""));
      var saved := SaveTransaction(responseData);
      if saved.Fatal? {
        return Fatal;
      }
      r := Done(responseData);
    }

    /** `saveTransaction`: one `hdfc_payment` row built from the response, returning its id. */
    method SaveTransaction(data: Entries<string>) returns (id: Outcome<nat>)
      modifies db
      ensures var order := FindOrder(old(db.orderLogs), Get(data, "order_id"));
              var sanitized := SanitizeTransactionData(data, order, reformatDate);
              && db.errorLogs == old(db.errorLogs) + (if order.None? then [OrderNotFound(Get(data, "order_id"))] else [])
              && (sanitized.Fatal? ==> id.Fatal? && db.transactions == old(db.transactions))
              && (sanitized.Done? ==> (id == Done(|db.transactions|)
                                       && db.transactions == old(db.transactions) + [sanitized.value]))
      ensures db.orderLogs == old(db.orderLogs) && db.paymentLogs == old(db.paymentLogs)
    {
      var order := GetOrderDetails(Get(data, "order_id"));
      var sanitized := SanitizeTransactionData(data, order, reformatDate);
      if sanitized.Fatal? {
        return Fatal;
      }
      var rowId := db.InsertTransaction(sanitized.value);
      id := Done(rowId);
    }

    /** `getOrderDetails`: the first order row with that id, or an error row when there is none. */
    method GetOrderDetails(orderId: Option<string>) returns (order: Option<OrderLog>)
      modifies db
      ensures order == FindOrder(old(db.orderLogs), orderId)
      ensures db.errorLogs == old(db.errorLogs) + (if order.None? then [OrderNotFound(orderId)] else [])
      ensures db.orderLogs == old(db.orderLogs) && db.transactions == old(db.transactions)
      ensures db.paymentLogs == old(db.paymentLogs)
    {
      order := FindOrder(db.orderLogs, orderId);
      if order.None? {
        LogError("Order Details Error", "Order with order_id " + orderId.GetOr("") + " not found.");
      }
    }

    /** `logPaymentDetails`: one `cc_payment_logs` row, returning its id. */
    method LogPaymentDetails(eventType: string, data: Entries<string>) returns (id: nat)
      modifies db
      ensures db.paymentLogs == old(db.paymentLogs) + [PaymentLog(eventType, data)] && id == |db.paymentLogs|
      ensures db.orderLogs == old(db.orderLogs) && db.transactions == old(db.transactions)
      ensures db.errorLogs == old(db.errorLogs)
    {
      id := db.InsertPaymentLog(PaymentLog(eventType, data));
    }

    /** `logOrder`. */
    method LogOrder(orderId: string, amount: real, currency: string, originalAmount: real, originalCurrency: string)
      modifies db
      ensures db.orderLogs == old(db.orderLogs) + [OrderLog(orderId, amount, currency, originalAmount, originalCurrency)]
      ensures db.transactions == old(db.transactions) && db.paymentLogs == old(db.paymentLogs)
      ensures db.errorLogs == old(db.errorLogs)
    {
      db.InsertOrderLog(OrderLog(orderId, amount, currency, originalAmount, originalCurrency));
    }

    /** `logError`. */
    method LogError(errorType: string, message: string)
      modifies db
      ensures db.errorLogs == old(db.errorLogs) + [ErrorLog(errorType, message)]
      ensures db.orderLogs == old(db.orderLogs) && db.transactions == old(db.transactions)
      ensures db.paymentLogs == old(db.paymentLogs)
    {
      db.InsertErrorLog(ErrorLog(errorType, message));
    }
  }

  /**
   * The whole wire in one statement: if the cipher inverts, the gateway decrypting the order
   * request and parsing it as `parseResponseString` does gets back exactly the fields sent,
   * in order, provided they are transmittable.
   */
  lemma OrderRequestRoundTrip(crypto: Crypto, workingKey: string, fields: Entries<string>)
    requires CipherInverts(crypto)
    requires Transmittable(fields)
    ensures var reply := Decryption(crypto, workingKey, Encryption(crypto, workingKey, MerchantString(fields)));
            reply.Some? && ParseResponse(reply.value) == fields
  {
    DecryptEncrypt(crypto, workingKey, MerchantString(fields));
    ParseMerchantString(fields);
  }
}
