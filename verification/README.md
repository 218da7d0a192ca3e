# M-Pesa Express gateway client — a Dafny model

This project models the M-Pesa Express (STK push) payment gateway for the Saleor
e-commerce platform. The gateway is a thin client with these parts:

- It resolves the provider's endpoints from four credentials and a sandbox flag.
- It normalises the customer's phone number.
- It builds the push request: a `YYYYMMDDHHMMSS` timestamp, a Base64 password, a rounded amount and a fixed-shape JSON body.
- It maps the provider's reply, or a transport failure, to Saleor's `GatewayResponse`.
- Around the push sit four stub operations (authorize, void, capture, refund) that always decline.
- The plugin class turns the settings list into a gateway configuration and passes hooks through only while the plugin is active.

The clock and both HTTP round trips are inputs (`MpesaUtils.Environment`):

- the local date-time;
- the token endpoint's reply: a connection error or a JSON object;
- the push endpoint's reply: a connection error or a JSON object.

A call returns an `Invocation`, which holds the outcome and the list of HTTP
requests the client sends, in order. The outcome is either the raised
configuration error or the returned response, which may be `None`. Statements
such as "no push request is sent when the token is missing" are therefore claims
about that list.

Modules:

- `Wrappers`: `Option` and `Result`.
- `Octets`: bytes.
- `Text`: `str(int)` and zero-padded digit fields, with a reader for each.
- `Timestamps`: `%Y%m%d%H%M%S`.
- `Rounding`: Python's round-half-to-even `round`.
- `Utf8`: `str.encode('utf-8')`, with a strict decoder.
- `Base64`: section 4 of RFC 4648, with a strict decoder.
- `Interface`: the Saleor records.
- `MpesaUtils`: `mpesa/utils.py`.
- `MpesaGateway`: `__init__.py`.
- `MpesaPlugin`: `mpesa/plugin.py`.

Each encoder has a decoder, and the project proves the round trip
`decode(encode(x)) == x` for each pair.

Behaviours of the code worth knowing:

- Missing credentials are raised as `ImproperlyConfigured` before the `try` block. No failure response is produced, and the exception escapes (`Raised`).
- A push reply with neither the accepted shape nor `errorMessage` yields no response at all (`Returned(None)`). The model does not close this with a failure response.
- Only the space character is removed from phone numbers, not all whitespace.
- A `+0…` number keeps its trunk zero, because the `0` check runs before the `+` check.

## Model

| member | source | states |
|---|---|---|
| `MpesaUtils.GetMpesaGateway` | mpesa/utils.py:22-40 | fails with the fixed "Incorrectly configured" error exactly when one of short code, key, secret or passkey is `None` or empty, each field checked on its own; otherwise returns the four credentials unchanged, with both URLs on `sandbox.safaricom.co.ke` when the sandbox flag is set and on `api.safaricom.co.ke` otherwise |
| `MpesaUtils.GenerateAccessToken` | mpesa/utils.py:43-57 | yields a token exactly when the token reply is JSON with an `access_token` field, and then that field's value; a connection error or a missing field gives `None`, never an error |
| `MpesaUtils.RemoveSpaces` | mpesa/utils.py:172 | the result contains no space and is no longer than the input |
| `MpesaUtils.RemoveSpacesKeeps` | mpesa/utils.py:172 | every non-space character occurs in the result exactly as often as in the input |
| `MpesaUtils.RemoveSpacesAppend` | mpesa/utils.py:172 | removing spaces distributes over concatenation, so the kept characters stay in order |
| `MpesaUtils.RemoveSpacesNone` | mpesa/utils.py:172 | a string without spaces is returned unchanged |
| `MpesaUtils.FormatMobile` | mpesa/utils.py:171-178 | after space removal, a leading `0` becomes `254`, otherwise a leading `+` is dropped, otherwise the string is unchanged; the result has no spaces; the input must be non-empty after space removal, as the `[0]` index demands |
| `MpesaUtils.FormatMobileKeepsTail` | mpesa/utils.py:173-176 | only position 0 is rewritten: the rest of the space-free number ends the result unchanged |
| `MpesaUtils.FormatMobileDomestic` | mpesa/utils.py:171-178 | a ten-digit number beginning with `0` (spaces anywhere) becomes a twelve-digit number `254` followed by the same nine digits |
| `MpesaUtils.FormatMobileStable` | mpesa/utils.py:171-178 | a formatted number that starts with neither `0` nor `+` is a fixed point of formatting |
| `MpesaUtils.FormatMobilePlusZero` | mpesa/utils.py:173-176 | because the `0` check precedes the `+` check, `+0712345678` gives `0712345678`, and formatting that again gives `254712345678`, so formatting is not idempotent |
| `MpesaUtils.FormatMobileDomesticExample` | mpesa/utils.py:171-178 | `0712345678` gives `254712345678` |
| `MpesaUtils.FormatMobilePlusExample` | mpesa/utils.py:171-178 | `+254712345678` gives `254712345678` |
| `MpesaUtils.FormatMobileInternationalExample` | mpesa/utils.py:171-178 | `254712345678` is unchanged |
| `MpesaUtils.FormatMobileInnerZeroExample` | mpesa/utils.py:174 | `0712305678` gives `254712305678`; its inner zero is kept |
| `MpesaUtils.FormatMobileSpaceExample` | mpesa/utils.py:171-178 | `0712 345678` gives `254712345678` |
| `MpesaUtils.RemoveOneSpace` | mpesa/utils.py:172 | dropping a single space between two space-free parts joins them |
| `Timestamps.Format` | mpesa/utils.py:67-68 | the timestamp is exactly fourteen decimal digits |
| `Timestamps.ParseFormat` | mpesa/utils.py:68 | reading the fourteen digits back as year, month, day, hour, minute and second recovers the date-time |
| `Timestamps.FormatInjective` | mpesa/utils.py:68 | distinct date-times give distinct timestamps |
| `Text.Pad` | mpesa/utils.py:68 | each `strftime` field is the given number written with exactly the field's width in digits |
| `Text.Digits` | mpesa/utils.py:105 | `str` of a natural number is digits denoting it, and starts with `0` only when it is exactly `"0"` |
| `Text.IntToString` | mpesa/utils.py:105 | `str` of an integer is in canonical form: a `-` followed by the digits of its magnitude for negatives, and just the digits otherwise, with no leading zero and no `-0` |
| `Text.CanonicalIsIntToString` | mpesa/utils.py:105 | every canonical string reads back as an integer whose `str` is that same string |
| `Text.CanonicalUnique` | mpesa/utils.py:105 | two canonical strings that read back as the same integer are equal, so a canonical string is fixed by its value |
| `Text.IntToStringRoundTrip` | mpesa/utils.py:105 | reading the string back gives the integer |
| `Text.IntToStringInjective` | mpesa/utils.py:105 | distinct integers give distinct strings |
| `Rounding.RoundHalfEven` | mpesa/utils.py:98 | `round` gives an integer within 1/2 of the amount, and an even one when the amount lies exactly halfway |
| `Rounding.RoundHalfEvenUnique` | mpesa/utils.py:98 | those two properties determine the rounded value |
| `Rounding.RoundInteger` | mpesa/utils.py:98 | an integral amount is unchanged by rounding |
| `Rounding.RoundExamples` | mpesa/utils.py:98 | 100.6 rounds to 101, 2.5 to 2, 3.5 to 4 and -2.5 to -2 |
| `MpesaUtils.AmountString` | mpesa/utils.py:98-105 | the `Amount` field is canonical and reads back as the integer nearest the amount, ties going to the even integer; with `Text.CanonicalUnique` this fixes the text as `str(round(amount))` |
| `MpesaUtils.AmountExample` | mpesa/utils.py:98-105 | an amount of 100.6 is sent as `"101"` |
| `Utf8.EncodeChar` | mpesa/utils.py:71-72 | each character takes one to four bytes, a single byte holding its code exactly when it is ASCII, and every byte after the first is a continuation byte |
| `Utf8.DecodeEncode` | mpesa/utils.py:71-72 | the UTF-8 bytes of the password's plaintext decode back to that text |
| `Utf8.EncodeDecode` | mpesa/utils.py:71-72 | the decoder accepts only what the encoder writes: any bytes it decodes are the encoding of the decoded text |
| `Utf8.EncodeAppend` | mpesa/utils.py:71 | encoding a concatenation is the concatenation of the encodings |
| `Utf8.EncodeAscii` | mpesa/utils.py:71 | ASCII text encodes to one byte per character carrying its code |
| `Base64.Encode` | mpesa/utils.py:70-72 | the encoding is four characters per started group of three bytes |
| `Base64.DecodeEncode` | mpesa/utils.py:70-72 | decoding the Base64 text gives back the encoded bytes |
| `Base64.EncodeAlphabet` | mpesa/utils.py:70-72 | the encoding is alphabet characters followed by exactly as many `=` as the byte count falls short of a multiple of three (none, one or two) |
| `Base64.EncodeDecode` | mpesa/utils.py:70-72 | the decoder accepts only what the encoder writes: any text it decodes is the encoding of the decoded bytes |
| `Base64.IndexOfAlphabet` | mpesa/utils.py:70-72 | each alphabet character decodes to the index it encodes |
| `MpesaUtils.Password` | mpesa/utils.py:70-72 | the password is valid Base64 whose bytes are the UTF-8 encoding of short code, then passkey, then timestamp |
| `MpesaUtils.PasswordBytes` | mpesa/utils.py:70-72 | the bytes under the password's Base64 are the UTF-8 of the short code, then of the passkey, then of the timestamp, and a digit timestamp contributes one byte per digit holding its code |
| `MpesaUtils.PasswordDetermined` | mpesa/utils.py:70-72 | any string that decodes through Base64 and UTF-8 to short code, passkey and timestamp is the password, so the contract of `Password` fixes it |
| `MpesaUtils.ExpressRequest` | mpesa/utils.py:60-168 | bad credentials raise the configuration error and send nothing; a missing or empty phone gives the fixed phone message (kind CAPTURE) and sends nothing; whenever a phone is present, the first request is the token GET to the access URL with the configured key and secret; a missing token gives the fixed "cannot be processed" message after that request only; the push is sent exactly when credentials, phone and token are present, with a `Bearer` authorization header; success happens exactly when the reply has both `CustomerMessage` and `CheckoutRequestID`, and then the kind is AUTH and `error` is the reply's `ResponseCode`; a connection failure gives the fixed retry-later message; an `errorMessage` reply is passed through verbatim; no response happens exactly when the reply has neither shape; the reply classification is the helper `ClassifyReply` |
| `MpesaUtils.ExpressRequestBody` | mpesa/utils.py:75-114 | the token request uses the configured key and secret on the access URL; the push goes to the express URL; `BusinessShortCode` and `PartyB` are the short code; `PartyA` and `PhoneNumber` are the formatted phone; `AccountReference` is the payment id; the type, description and callback URL are the fixed constants; the timestamp is fourteen digits encoding the clock reading; the password decodes to short code, passkey and timestamp; the amount is the canonical string of the rounded amount |
| `MpesaUtils.ExpressResponseShape` | mpesa/utils.py:84-168 | every response copies amount, currency and token from the payment, requires no further action and always carries an `error` value; every failure is reported with kind CAPTURE |
| `MpesaGateway.MpesaSuccess` | __init__.py:11-12 | the stubs' success policy always declines |
| `MpesaGateway.Decide` | __init__.py:24-35 | for either policy outcome, `error` is absent exactly when the operation succeeds, and otherwise holds the operation's message; no further action is requested, and amount, currency and token are copied from the payment |
| `MpesaGateway.Authorize` | __init__.py:21-36 | declines with kind AUTH and "Unable to authorize transaction" |
| `MpesaGateway.Void` | __init__.py:39-52 | declines with kind VOID and "Unable to void the transaction." |
| `MpesaGateway.Capture` | __init__.py:55-70 | declines with kind CAPTURE and "Unable to process capture" |
| `MpesaGateway.Refund` | __init__.py:73-86 | declines with kind REFUND and "Unable to process refund" |
| `MpesaGateway.DeclineMessagesDistinct` | __init__.py:21-86 | the four stubs report four different messages |
| `MpesaGateway.ProcessPayment` | __init__.py:89-93 | returns exactly the push request's result on the configuration's connection parameters |
| `MpesaPlugin.ToDict` | mpesa/plugin.py:92 | the settings dictionary maps each setting's name to the value of its last occurrence in the list |
| `MpesaPlugin.ToDictKeys` | mpesa/plugin.py:92 | every key of the dictionary is the name of some setting |
| `MpesaPlugin.ToDictAt` | mpesa/plugin.py:92 | the last occurrence of a name is what the dictionary holds for it |
| `MpesaPlugin.LoadConfig` | mpesa/plugin.py:90-105 | loading fails exactly when a setting the constructor reads is absent (its `KeyError`) or not of its declared type (see `## Left out`); otherwise the gateway is named "Mpesa"; "Use sandbox" becomes the sandbox flag; "Mpesa Business Short Code", "Mpesa Consumer Key", "Mpesa Consumer Secret" and "Mpesa Passkey" become the four credentials; the capture, store-card and currency settings fill the matching fields |
| `MpesaPlugin.RequireActive` | mpesa/plugin.py:20-27 | an inactive plugin returns the previous value (`None` when absent) and sends no request; an active one returns the wrapped operation's result unchanged |
| `MpesaPlugin.GetPaymentConfig` | mpesa/plugin.py:149-154 | when active, returns the single entry `store_customer_card` holding the store-customer flag; when inactive, returns the previous value |
| `MpesaPlugin.InactivePluginPassesThrough` | mpesa/plugin.py:20-24 | with the plugin inactive, every payment hook (`AuthorizePayment`, `CapturePayment`, `RefundPayment`, `VoidPayment`, `ProcessPayment`) returns the previous value without a request, and so does the payment-config hook |
| `MpesaPlugin.ActivePluginDelegates` | mpesa/plugin.py:110-138 | with the plugin active, each payment hook (`AuthorizePayment`, `CapturePayment`, `RefundPayment`, `VoidPayment`, `ProcessPayment`) returns the same-named operation on the stored configuration; the four stub hooks send nothing and decline |
| `MpesaPlugin.DefaultNamesDistinct` | mpesa/plugin.py:34-43 | the default settings name each setting once |
| `MpesaPlugin.DefaultLookup` | mpesa/plugin.py:34-43 | looking up a default setting yields its listed value |
| `MpesaPlugin.DefaultSettings` | mpesa/plugin.py:34-43 | the defaults are short code "174379"; unset key, secret and passkey; sandbox on; card storing and auto-capture off; currency "KES" |
| `MpesaPlugin.DefaultConfigurationRejected` | mpesa/plugin.py:33-43 | the default configuration is refused by the gateway resolver, so the default active plugin raises the configuration error on every payment without sending a request |

## Left out

- HTTP itself is not modelled. This covers `requests.get`/`requests.post`, JSON encoding and decoding, and the exact HTTP Basic and Bearer header bytes. The replies are inputs, and the requests are recorded as values.
- JSON values in the replies are modelled as strings. A JSON `null` `access_token` is therefore not modelled.
- A reply body that is not JSON is not modelled. The source raises an uncaught decoding error there.
- `datetime.now()` is an input. The local time zone and years outside 1000–9999 are not modelled, because `%Y` is then not four digits.
- Two crash paths become the precondition `CompletesWithoutCrash`, on the path that reaches each. The first is a phone made only of spaces, where the `[0]` index fails. The second is an accepted reply without `ResponseCode`, where the lookup fails.
- A payment without a billing address is not modelled. Its phone lookup fails, and the model takes the phone as an optional string.
- `print` logging is not modelled.
- `get_client_token` is not modelled, because it returns a random UUID.
- `get_supported_currencies` is not modelled. It calls a framework helper that is not part of this model.
- The framework base class, `CONFIG_STRUCTURE`'s labels and help texts, and `GatewayResponse` fields this gateway never sets are not modelled. The settings' declared types appear only in `WellTyped`, the condition under which loading succeeds.
- `MpesaPlugin.LoadConfig`: a present setting whose value lacks its declared type makes loading fail, while the constructor copies it unchecked; for example `"Use sandbox": "no"` would be truthy and select the sandbox, and a non-flag "Store customers card" would be echoed by `get_payment_config`. The model assumes the host framework stores each value with the type `CONFIG_STRUCTURE` declares, and does not follow a mistyped value further. Only the four credentials may be unset (`Null`); an unset "Supported currencies" makes loading fail, although it is declared as a string just like the short code.
- Only `requests.ConnectionError` is caught around the HTTP calls. Other request exceptions, such as a read timeout or too many redirects, escape uncaught; the reply inputs have no case for them.
- `MpesaUtils.GenerateAccessToken`: the caught connection error is one input case. The underlying exception text is not kept.
- The amount is an exact `real`. The precision context of Python's `Decimal` is not modelled.
- `MpesaPlugin.RequireActive`: a `previous_value` passed positionally rather than by keyword is read as absent (`None`). The model takes it as already looked up.
