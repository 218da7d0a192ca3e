/** The gateway's public operations. Authorize, void, capture and refund are
    stubs that consult a success policy which always declines; process_payment
    hands over to the push client. */
module MpesaGateway {

  import opened Wrappers
  import opened Interface
  import MpesaUtils

  const AuthorizeDeclined: string := "Unable to authorize transaction"
  const VoidDeclined: string := "Unable to void the transaction."
  const CaptureDeclined: string := "Unable to process capture"
  const RefundDeclined: string := "Unable to process refund"

  /** The success policy of the four stubs. */
  function MpesaSuccess(): (ok: bool)
    ensures !ok
  {
    false
  }

  /** The common shape of the four stubs, for any policy outcome: an error
      message is present exactly when the operation did not succeed. */
  function Decide(success: bool, kind: TransactionKind, declined: string, p: PaymentData): (r: GatewayResponse)
    ensures r.isSuccess == success
    ensures r.error.None? <==> r.isSuccess
    ensures r.error.Some? ==> r.error.value == declined
    ensures r.kind == kind && !r.actionRequired
    ensures r.amount == p.amount && r.currency == p.currency && r.transactionId == p.token
  {
    var error := if !success then Some(declined) else None;
    Respond(p, success, kind, error)
  }

  function Authorize(p: PaymentData, config: GatewayConfig): (r: GatewayResponse)
    ensures !r.isSuccess && r.kind == TransactionKind.Auth && r.error == Some("Unable to authorize transaction")
    ensures !r.actionRequired
    ensures r.amount == p.amount && r.currency == p.currency && r.transactionId == p.token
  {
    Decide(MpesaSuccess(), TransactionKind.Auth, AuthorizeDeclined, p)
  }

  function Void(p: PaymentData, config: GatewayConfig): (r: GatewayResponse)
    ensures !r.isSuccess && r.kind == TransactionKind.Void && r.error == Some("Unable to void the transaction.")
    ensures !r.actionRequired
    ensures r.amount == p.amount && r.currency == p.currency && r.transactionId == p.token
  {
    Decide(MpesaSuccess(), TransactionKind.Void, VoidDeclined, p)
  }

  function Capture(p: PaymentData, config: GatewayConfig): (r: GatewayResponse)
    ensures !r.isSuccess && r.kind == TransactionKind.Capture && r.error == Some("Unable to process capture")
    ensures !r.actionRequired
    ensures r.amount == p.amount && r.currency == p.currency && r.transactionId == p.token
  {
    Decide(MpesaSuccess(), TransactionKind.Capture, CaptureDeclined, p)
  }

  function Refund(p: PaymentData, config: GatewayConfig): (r: GatewayResponse)
    ensures !r.isSuccess && r.kind == TransactionKind.Refund && r.error == Some("Unable to process refund")
    ensures !r.actionRequired
    ensures r.amount == p.amount && r.currency == p.currency && r.transactionId == p.token
  {
    Decide(MpesaSuccess(), TransactionKind.Refund, RefundDeclined, p)
  }

  /** The four decline messages differ, so a caller can tell the operations apart. */
  lemma DeclineMessagesDistinct(p: PaymentData, config: GatewayConfig)
    ensures |{Authorize(p, config).error, Void(p, config).error,
              Capture(p, config).error, Refund(p, config).error}| == 4
  {
  }

  /** Payment processing is the push request on the configured connection,
      passed back untouched. */
  function ProcessPayment(p: PaymentData, config: GatewayConfig, env: MpesaUtils.Environment): (r: MpesaUtils.Invocation)
    requires MpesaUtils.CompletesWithoutCrash(p, config.connectionParams, env)
    ensures r == MpesaUtils.ExpressRequest(p, config.connectionParams, env)
  {
    MpesaUtils.ExpressRequest(p, config.connectionParams, env)
  }
}
