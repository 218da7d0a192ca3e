/** The M-Pesa Express (STK push) client: gateway resolution, phone
    normalisation, request construction and the classification of the
    provider's reply. The clock and both HTTP round trips are inputs
    (`Environment`); the model returns, next to the outcome, the HTTP requests
    the client issues, so "no request is sent" is a statement about that list. */
module MpesaUtils {

  import opened Wrappers
  import opened Text
  import opened Interface
  import Timestamps
  import Utf8
  import Base64
  import Rounding

  const CallbackUrl: string := "https://some-non-existent-site.co.ke/mpesa-callback"

  const SandboxHost: string := "sandbox.safaricom.co.ke"
  const ProductionHost: string := "api.safaricom.co.ke"
  const TokenPath: string := "/oauth/v1/generate" + "?grant_type=client_credentials"
  const ExpressPath: string := "/mpesa/stkpush/v1/processrequest"

  function Url(host: string, path: string): string {
    "https://" + host + path
  }

  const MisconfiguredMessage: string := "Incorrectly configured Mpesa gateway. All setup fields required."
  const MissingPhoneMessage: string := "Express payment failed! Make sure your phone number is in your billing address"
  const NoTokenMessage: string := "Express payment cannot be processed. Select a different payment method"
  const RetryLaterMessage: string := "Express payment failed, try again later"

  const TransactionType: string := "CustomerPayBillOnline"
  const TransactionDesc: string := "Online Checkout"

  /** `url` is an https URL on `host`. */
  predicate OnHost(url: string, host: string) {
    "https://" + host + "/" <= url
  }

  lemma UrlOnHost(host: string, path: string)
    requires |path| > 0 && path[0] == '/'
    ensures OnHost(Url(host, path), host)
  {
    var prefix := "https://" + host + "/";
    assert Url(host, path) == prefix + path[1..];
  }

  /** A setting Python treats as false: `None` or the empty string. */
  predicate Missing(v: Option<string>) {
    v.None? || v.value == ""
  }

  /** The resolved gateway: both endpoints and the four credentials. */
  datatype Gateway = Gateway(
    accessUrl: string,
    expressUrl: string,
    shortCode: string,
    key: string,
    secret: string,
    passkey: string)

  datatype ConfigError = ImproperlyConfigured(message: string)

  /** Rejects the settings when any credential is unset or empty; otherwise picks
      the sandbox or the production host and passes the credentials through. */
  function GetMpesaGateway(params: ConnectionParams): (r: Result<Gateway, ConfigError>)
    ensures r.Failure? <==>
      Missing(params.shortCode) || Missing(params.consumerKey)
      || Missing(params.consumerSecret) || Missing(params.passkey)
    ensures r.Failure? ==> r.error == ImproperlyConfigured(MisconfiguredMessage)
    ensures r.Success? ==>
      && params.shortCode == Some(r.value.shortCode) && r.value.shortCode != ""
      && params.consumerKey == Some(r.value.key) && r.value.key != ""
      && params.consumerSecret == Some(r.value.secret) && r.value.secret != ""
      && params.passkey == Some(r.value.passkey) && r.value.passkey != ""
    ensures r.Success? ==>
      var host := if params.sandboxMode then "sandbox.safaricom.co.ke" else "api.safaricom.co.ke";
      OnHost(r.value.accessUrl, host) && OnHost(r.value.expressUrl, host)
    ensures r.Success? ==>
      var host := if params.sandboxMode then SandboxHost else ProductionHost;
      r.value.accessUrl == Url(host, TokenPath) && r.value.expressUrl == Url(host, ExpressPath)
  {
    if Missing(params.shortCode) || Missing(params.consumerKey)
       || Missing(params.consumerSecret) || Missing(params.passkey) then
      Failure(ImproperlyConfigured(MisconfiguredMessage))
    else
      var host := if !params.sandboxMode then ProductionHost else SandboxHost;
      var accessUrl, expressUrl := Url(host, TokenPath), Url(host, ExpressPath);
      assert TokenPath[0] == '/' && ExpressPath[0] == '/';
      UrlOnHost(host, TokenPath);
      UrlOnHost(host, ExpressPath);
      Success(Gateway(accessUrl, expressUrl, params.shortCode.value, params.consumerKey.value,
                      params.consumerSecret.value, params.passkey.value))
  }

  /** What the token endpoint gave back: a connection failure or a JSON object. */
  datatype TokenReply = TokenConnectionError | TokenJson(data: map<string, string>)

  /** The bearer token, or `None` when the connection failed or the reply lacks
      `access_token`; never an error. */
  function GenerateAccessToken(reply: TokenReply): (token: Option<string>)
    ensures token.Some? <==> reply.TokenJson? && "access_token" in reply.data
    ensures token.Some? ==> token.value == reply.data["access_token"]
  {
    match reply
    case TokenConnectionError => None
    case TokenJson(data) => if "access_token" in data then Some(data["access_token"]) else None
  }

  /** `s.replace(" ", "")`: only the space character is removed. */
  function RemoveSpaces(s: string): (r: string)
    ensures |r| <= |s|
    ensures forall i :: 0 <= i < |r| ==> r[i] != ' '
  {
    if s == [] then []
    else (if s[0] == ' ' then [] else [s[0]]) + RemoveSpaces(s[1..])
  }

  /** Every other character survives, as often as it occurred. */
  lemma {:induction false} RemoveSpacesKeeps(s: string, c: char)
    requires c != ' '
    ensures multiset(RemoveSpaces(s))[c] == multiset(s)[c]
  {
    if s != [] {
      assert s == [s[0]] + s[1..];
      RemoveSpacesKeeps(s[1..], c);
    }
  }

  /** Removing spaces commutes with concatenation, so the characters that stay
      keep their order. */
  lemma {:induction false} RemoveSpacesAppend(a: string, b: string)
    ensures RemoveSpaces(a + b) == RemoveSpaces(a) + RemoveSpaces(b)
  {
    if a == [] {
      assert a + b == b;
    } else {
      assert (a + b)[1..] == a[1..] + b;
      RemoveSpacesAppend(a[1..], b);
    }
  }

  /** A string without spaces is left unchanged. */
  lemma {:induction false} RemoveSpacesNone(s: string)
    requires forall i :: 0 <= i < |s| ==> s[i] != ' '
    ensures RemoveSpaces(s) == s
  {
    if s != [] {
      RemoveSpacesNone(s[1..]);
    }
  }

  /** `format_mobile` can index its first character. */
  predicate Formattable(m: string) {
    RemoveSpaces(m) != []
  }

  /** Phone normalisation: drop spaces, then rewrite a leading `0` to the
      country code `254`, and otherwise drop a leading `+`. The two checks run
      in sequence, as in the client; the contract states the combined effect. */
  function FormatMobile(m: string): (r: string)
    requires Formattable(m)
    ensures forall i :: 0 <= i < |r| ==> r[i] != ' '
    ensures var t := RemoveSpaces(m);
      && (t[0] == '0' ==> r == "254" + t[1..])
      && (t[0] == '+' ==> r == t[1..])
      && (t[0] != '0' && t[0] != '+' ==> r == t)
  {
    var t := RemoveSpaces(m);
    var u := if t[0] == '0' then "254" + t[1..] else t;
    if u[0] == '+' then u[1..] else u
  }

  /** Only the first position is rewritten: everything after it survives as is. */
  lemma FormatMobileKeepsTail(m: string)
    requires Formattable(m)
    ensures var t := RemoveSpaces(m); var r := FormatMobile(m);
      |r| >= |t| - 1 && r[|r| - (|t| - 1)..] == t[1..]
  {
  }

  /** A domestic number (`0` and nine digits, spaces anywhere) becomes the twelve-digit
      international form `254` followed by the same nine digits. */
  lemma FormatMobileDomestic(m: string)
    requires var t := RemoveSpaces(m); |t| == 10 && t[0] == '0' && AllDigits(t)
    ensures var r := FormatMobile(m);
      |r| == 12 && AllDigits(r) && r[..3] == "254" && r[3..] == RemoveSpaces(m)[1..]
  {
    var t := RemoveSpaces(m);
    var r := FormatMobile(m);
    assert r == "254" + t[1..];
    forall i | 0 <= i < |r|
      ensures IsDigit(r[i])
    {
      if i >= 3 {
        assert r[i] == t[i - 2];
      }
    }
  }

  /** A formatted number that starts with neither `0` nor `+` is a fixed point. */
  lemma FormatMobileStable(m: string)
    requires Formattable(m)
    requires var r := FormatMobile(m); r != [] && r[0] != '0' && r[0] != '+'
    ensures Formattable(FormatMobile(m))
    ensures FormatMobile(FormatMobile(m)) == FormatMobile(m)
  {
    RemoveSpacesNone(FormatMobile(m));
  }

  /** The `0` check runs before the `+` check, so `+0…` keeps its trunk zero,
      and formatting is therefore not idempotent. */
  lemma FormatMobilePlusZero(m: string)
    requires m == "+0712345678"
    ensures Formattable(m) && FormatMobile(m) == "0712345678"
    ensures Formattable(FormatMobile(m)) && FormatMobile(FormatMobile(m)) == "254712345678"
  {
    RemoveSpacesNone(m);
    var r := FormatMobile(m);
    assert r == m[1..];
    RemoveSpacesNone(r);
    assert r[0] == '0' && r[1..] == "712345678";
  }

  lemma FormatMobileDomesticExample()
    ensures Formattable("0712345678") && FormatMobile("0712345678") == "254712345678"
  {
    RemoveSpacesNone("0712345678");
  }

  lemma FormatMobilePlusExample()
    ensures Formattable("+254712345678") && FormatMobile("+254712345678") == "254712345678"
  {
    RemoveSpacesNone("+254712345678");
  }

  lemma FormatMobileInternationalExample()
    ensures Formattable("254712345678") && FormatMobile("254712345678") == "254712345678"
  {
    RemoveSpacesNone("254712345678");
  }

  /** The inner `0` of 0712305678 is not touched. */
  lemma FormatMobileInnerZeroExample()
    ensures Formattable("0712305678") && FormatMobile("0712305678") == "254712305678"
  {
    RemoveSpacesNone("0712305678");
  }

  /** Removing the one space between two space-free parts joins them. */
  lemma {:induction false} RemoveOneSpace(a: string, b: string)
    requires forall i :: 0 <= i < |a| ==> a[i] != ' '
    requires forall i :: 0 <= i < |b| ==> b[i] != ' '
    ensures RemoveSpaces(a + [' '] + b) == a + b
  {
    var s := a + [' '] + b;
    if a == [] {
      assert s[1..] == b;
      RemoveSpacesNone(b);
    } else {
      assert s[1..] == a[1..] + [' '] + b;
      RemoveOneSpace(a[1..], b);
      assert a + b == [a[0]] + (a[1..] + b);
    }
  }

  lemma FormatMobileSpaceExample(m: string)
    requires m == "0712 345678"
    ensures Formattable(m) && FormatMobile(m) == "254712345678"
  {
    var a, b := "0712", "345678";
    assert m == a + [' '] + b;
    RemoveOneSpace(a, b);
    var t := RemoveSpaces(m);
    assert t == a + b;
    assert t[0] == '0' && t[1..] == "712345678";
  }

  /** The request password: Base64 of the UTF-8 bytes of short code, passkey and
      timestamp run together. The contract reads it back. */
  function Password(shortCode: string, passkey: string, timestamp: string): (r: string)
    ensures Base64.Decode(r).Some?
    ensures Utf8.Decode(Base64.Decode(r).value) == Some(shortCode + passkey + timestamp)
  {
    var plain := shortCode + passkey + timestamp;
    Base64.DecodeEncode(Utf8.Encode(plain));
    Utf8.DecodeEncode(plain);
    Base64.Encode(Utf8.Encode(plain))
  }

  /** The contract of `Password` fixes the text: any string that decodes the
      same way is the password itself. */
  lemma PasswordDetermined(shortCode: string, passkey: string, timestamp: string, r: string)
    requires Base64.Decode(r).Some?
    requires Utf8.Decode(Base64.Decode(r).value) == Some(shortCode + passkey + timestamp)
    ensures r == Password(shortCode, passkey, timestamp)
  {
    Base64.EncodeDecode(r);
    Utf8.EncodeDecode(Base64.Decode(r).value);
  }

  /** The password's bytes are the UTF-8 of the short code, then of the
      passkey, then of the timestamp, whose digits take one byte each. */
  lemma PasswordBytes(shortCode: string, passkey: string, timestamp: string)
    ensures Base64.Decode(Password(shortCode, passkey, timestamp)).Some?
    ensures Base64.Decode(Password(shortCode, passkey, timestamp)).value
      == Utf8.Encode(shortCode) + Utf8.Encode(passkey) + Utf8.Encode(timestamp)
    ensures AllDigits(timestamp) ==>
      |Utf8.Encode(timestamp)| == |timestamp|
      && forall i :: 0 <= i < |timestamp| ==> Utf8.Encode(timestamp)[i] == timestamp[i] as int
  {
    var plain := shortCode + passkey + timestamp;
    Base64.DecodeEncode(Utf8.Encode(plain));
    Utf8.EncodeAppend(shortCode + passkey, timestamp);
    Utf8.EncodeAppend(shortCode, passkey);
    if AllDigits(timestamp) {
      assert Utf8.IsAscii(timestamp);
      Utf8.EncodeAscii(timestamp);
    }
  }

  /** `str(round(amount))`. */
  function AmountString(amount: real): (s: string)
    ensures Canonical(s)
    ensures ParseInt(s).Some?
    ensures -0.5 <= amount - ParseInt(s).value as real <= 0.5
    ensures var n := ParseInt(s).value;
      (amount - n as real == 0.5 || amount - n as real == -0.5) ==> n % 2 == 0
  {
    var n := Rounding.RoundHalfEven(amount);
    IntToStringRoundTrip(n);
    IntToString(n)
  }

  lemma AmountExample()
    ensures AmountString(100.6) == "101"
  {
    Rounding.RoundExamples();
    assert Digits(101) == "101";
  }

  /** The JSON body of the push request, field for field. */
  datatype ExpressBody = ExpressBody(
    businessShortCode: string,
    password: string,
    timestamp: string,
    transactionType: string,
    amount: string,
    partyA: string,
    partyB: string,
    phoneNumber: string,
    callBackUrl: string,
    accountReference: int,
    transactionDesc: string)

  /** The HTTP requests the client can issue. */
  datatype Request =
    | TokenRequest(url: string, username: string, password: string)
    | PushRequest(url: string, authorization: string, body: ExpressBody)

  /** What the push endpoint gave back: a connection failure or a JSON object. */
  datatype PostReply = PostConnectionError | PostJson(data: map<string, string>)

  /** The world outside the client: the local clock and the two HTTP replies. */
  datatype Environment = Environment(now: Timestamps.DateTime, tokenReply: TokenReply, postReply: PostReply)

  /** A Python call either raises the configuration error or returns a value,
      which may be `None`. */
  datatype Outcome = Raised(error: ConfigError) | Returned(response: Option<GatewayResponse>)

  /** The outcome of a call together with the HTTP requests it sent, in order. */
  datatype Invocation = Invocation(outcome: Outcome, requests: seq<Request>)

  predicate HasPhone(p: PaymentData) {
    p.billingPhone.Some? && p.billingPhone.value != ""
  }

  predicate PushAccepted(data: map<string, string>) {
    "CustomerMessage" in data && "CheckoutRequestID" in data
  }

  /** The inputs the model covers on each path that reaches them: a phone that
      is not all spaces (else indexing fails) and an accepted reply that carries
      `ResponseCode` (else the lookup fails), which are the client's two crash
      paths; and a clock reading with a four-digit year, which is a restriction
      of the model, since another year only changes the width of `%Y`. */
  predicate CompletesWithoutCrash(p: PaymentData, params: ConnectionParams, env: Environment) {
    GetMpesaGateway(params).Success? && HasPhone(p) ==>
      && Formattable(p.billingPhone.value)
      && Timestamps.Valid(env.now)
      && ((GenerateAccessToken(env.tokenReply).Some? && env.postReply.PostJson?
           && PushAccepted(env.postReply.data)) ==> "ResponseCode" in env.postReply.data)
  }

  function BuildBody(g: Gateway, timestamp: string, amount: real, phone: string, paymentId: int): ExpressBody
  {
    ExpressBody(
      businessShortCode := g.shortCode,
      password := Password(g.shortCode, g.passkey, timestamp),
      timestamp := timestamp,
      transactionType := TransactionType,
      amount := AmountString(amount),
      partyA := phone,
      partyB := g.shortCode,
      phoneNumber := phone,
      callBackUrl := CallbackUrl,
      accountReference := paymentId,
      transactionDesc := TransactionDesc)
  }

  /** Maps the push endpoint's reply to a response: accepted (both
      `CustomerMessage` and `CheckoutRequestID`) wins over `errorMessage`; a
      reply of neither shape yields nothing. */
  function ClassifyReply(p: PaymentData, reply: PostReply): (r: Option<GatewayResponse>)
    requires reply.PostJson? && PushAccepted(reply.data) ==> "ResponseCode" in reply.data
  {
    match reply
    case PostConnectionError => Some(Respond(p, false, Capture, Some(RetryLaterMessage)))
    case PostJson(data) =>
      if "CustomerMessage" in data && "CheckoutRequestID" in data then
        Some(Respond(p, true, Auth, Some(data["ResponseCode"])))
      else if "errorMessage" in data then
        Some(Respond(p, false, Capture, Some(data["errorMessage"])))
      else None
  }

  /** One push payment attempt, end to end. */
  function ExpressRequest(p: PaymentData, params: ConnectionParams, env: Environment): (r: Invocation)
    requires CompletesWithoutCrash(p, params, env)
    // configuration errors escape before anything is sent
    ensures r.outcome.Raised? <==> GetMpesaGateway(params).Failure?
    ensures r.outcome.Raised? ==>
      r.outcome.error == ImproperlyConfigured(MisconfiguredMessage) && r.requests == []
    // no phone: fixed message, no request at all
    ensures r.outcome.Returned? && !HasPhone(p) ==>
      r.requests == [] && r.outcome.response == Some(Respond(p, false, Capture, Some(MissingPhoneMessage)))
    // the token is fetched exactly when a phone is present
    ensures r.outcome.Returned? && HasPhone(p) ==> |r.requests| >= 1 && r.requests[0].TokenRequest?
    ensures r.outcome.Returned? && HasPhone(p) ==>
      r.requests[0] == TokenRequest(GetMpesaGateway(params).value.accessUrl,
                                    params.consumerKey.value, params.consumerSecret.value)
    // no token: fixed message, the push is never sent
    ensures r.outcome.Returned? && HasPhone(p) && GenerateAccessToken(env.tokenReply).None? ==>
      |r.requests| == 1 && r.outcome.response == Some(Respond(p, false, Capture, Some(NoTokenMessage)))
    // the push is sent exactly when configuration, phone and token are all there
    ensures |r.requests| == 2 <==>
      GetMpesaGateway(params).Success? && HasPhone(p) && GenerateAccessToken(env.tokenReply).Some?
    ensures |r.requests| <= 2
    ensures |r.requests| == 2 ==>
      r.requests[1].PushRequest? && r.requests[1].authorization == "Bearer " + GenerateAccessToken(env.tokenReply).value
    // success only on an accepted push; it carries the provider's ResponseCode in `error`
    ensures (r.outcome.Returned? && r.outcome.response.Some? && r.outcome.response.value.isSuccess) <==>
      |r.requests| == 2 && env.postReply.PostJson? && PushAccepted(env.postReply.data)
    ensures r.outcome.Returned? && r.outcome.response.Some? && r.outcome.response.value.isSuccess ==>
      r.outcome.response.value.kind == Auth
      && r.outcome.response.value.error == Some(env.postReply.data["ResponseCode"])
    ensures |r.requests| == 2 && env.postReply.PostConnectionError? ==>
      r.outcome.response == Some(Respond(p, false, Capture, Some(RetryLaterMessage)))
    ensures (|r.requests| == 2 && env.postReply.PostJson? && !PushAccepted(env.postReply.data)
             && "errorMessage" in env.postReply.data) ==>
      r.outcome.response == Some(Respond(p, false, Capture, Some(env.postReply.data["errorMessage"])))
    // the only way to return no response at all
    ensures r.outcome == Returned(None) <==>
      |r.requests| == 2 && env.postReply.PostJson? && !PushAccepted(env.postReply.data)
      && "errorMessage" !in env.postReply.data
  {
    match GetMpesaGateway(params)
    case Failure(e) => Invocation(Raised(e), [])
    case Success(g) =>
      if !HasPhone(p) then
        Invocation(Returned(Some(Respond(p, false, Capture, Some(MissingPhoneMessage)))), [])
      else
        var phone := FormatMobile(p.billingPhone.value);
        var timestamp := Timestamps.Format(env.now);
        var tokenRequest := TokenRequest(g.accessUrl, g.key, g.secret);
        match GenerateAccessToken(env.tokenReply)
        case None =>
          Invocation(Returned(Some(Respond(p, false, Capture, Some(NoTokenMessage)))), [tokenRequest])
        case Some(token) =>
          var body := BuildBody(g, timestamp, p.amount, phone, p.paymentId);
          var push := PushRequest(g.expressUrl, "Bearer " + token, body);
          Invocation(Returned(ClassifyReply(p, env.postReply)), [tokenRequest, push])
  }

  /** What the two requests carry when the push is sent: the token request
      authenticates with the configured key and secret, and the push body is
      built from the configuration, the normalised phone, the clock and the
      rounded amount. */
  lemma ExpressRequestBody(p: PaymentData, params: ConnectionParams, env: Environment)
    requires CompletesWithoutCrash(p, params, env)
    requires |ExpressRequest(p, params, env).requests| == 2
    ensures var rs := ExpressRequest(p, params, env).requests;
      var g := GetMpesaGateway(params).value;
      && rs[0] == TokenRequest(g.accessUrl, params.consumerKey.value, params.consumerSecret.value)
      && rs[1].url == g.expressUrl
    ensures var b := ExpressRequest(p, params, env).requests[1].body;
      && b.businessShortCode == params.shortCode.value && b.partyB == params.shortCode.value
      && b.partyA == FormatMobile(p.billingPhone.value) && b.phoneNumber == b.partyA
      && b.accountReference == p.paymentId
      && b.transactionType == "CustomerPayBillOnline"
      && b.transactionDesc == "Online Checkout"
      && b.callBackUrl == CallbackUrl
    ensures var b := ExpressRequest(p, params, env).requests[1].body;
      && |b.timestamp| == 14 && AllDigits(b.timestamp)
      && Timestamps.Parse(b.timestamp) == Some(env.now)
      && Base64.Decode(b.password).Some?
      && Utf8.Decode(Base64.Decode(b.password).value)
         == Some(params.shortCode.value + params.passkey.value + b.timestamp)
      && Canonical(b.amount) && ParseInt(b.amount) == Some(Rounding.RoundHalfEven(p.amount))
  {
    var b := ExpressRequest(p, params, env).requests[1].body;
    Timestamps.ParseFormat(env.now);
    IntToStringRoundTrip(Rounding.RoundHalfEven(p.amount));
  }

  /** Every response the push path produces echoes the payment, asks for no
      further action and carries a message in `error`; every failure is
      reported as a capture. */
  lemma ExpressResponseShape(p: PaymentData, params: ConnectionParams, env: Environment)
    requires CompletesWithoutCrash(p, params, env)
    ensures var o := ExpressRequest(p, params, env).outcome;
      o.Returned? && o.response.Some? ==>
        var resp := o.response.value;
        && resp.amount == p.amount && resp.currency == p.currency && resp.transactionId == p.token
        && !resp.actionRequired
        && resp.error.Some?
        && (!resp.isSuccess ==> resp.kind == Capture)
  {
  }
}
