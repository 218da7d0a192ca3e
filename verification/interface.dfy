/** The records the hosting payment framework passes in and expects back. */
module Interface {

  import opened Wrappers

  /** The transaction kinds this gateway reports. */
  datatype TransactionKind = Auth | Capture | Void | Refund

  /** The uniform reply of every gateway operation. */
  datatype GatewayResponse = GatewayResponse(
    isSuccess: bool,
    actionRequired: bool,
    kind: TransactionKind,
    amount: real,
    currency: string,
    transactionId: Option<string>,
    error: Option<string>)

  /** Per-call payment details: the decimal amount, its currency, the opaque
      token, the payment id and the billing address's phone (absent or text). */
  datatype PaymentData = PaymentData(
    amount: real,
    currency: string,
    token: Option<string>,
    paymentId: int,
    billingPhone: Option<string>)

  /** The keyword arguments handed to the gateway resolver; a credential is
      `None` when the operator never set it. */
  datatype ConnectionParams = ConnectionParams(
    sandboxMode: bool,
    shortCode: Option<string>,
    consumerKey: Option<string>,
    consumerSecret: Option<string>,
    passkey: Option<string>)

  datatype GatewayConfig = GatewayConfig(
    gatewayName: string,
    autoCapture: bool,
    supportedCurrencies: string,
    connectionParams: ConnectionParams,
    storeCustomer: bool)

  /** A response that only echoes the payment's amount, currency and token. */
  function Respond(p: PaymentData, success: bool, kind: TransactionKind, error: Option<string>): (r: GatewayResponse)
    ensures r.isSuccess == success && !r.actionRequired && r.kind == kind && r.error == error
    ensures r.amount == p.amount && r.currency == p.currency && r.transactionId == p.token
  {
    GatewayResponse(success, false, kind, p.amount, p.currency, p.token, error)
  }
}
