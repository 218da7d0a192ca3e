/** The plugin that exposes the gateway to the host: its default settings, how
    the settings list becomes the gateway configuration, and the hooks, each of
    which runs only while the plugin is active. */
module MpesaPlugin {

  import opened Wrappers
  import opened Interface
  import MpesaUtils
  import MpesaGateway

  const GatewayName: string := "Mpesa"
  const DefaultActive: bool := true

  const ShortCodeSetting: string := "Mpesa Business Short Code"
  const KeySetting: string := "Mpesa Consumer Key"
  const SecretSetting: string := "Mpesa Consumer Secret"
  const PasskeySetting: string := "Mpesa Passkey"
  const SandboxSetting: string := "Use sandbox"
  const StoreCardSetting: string := "Store customers card"
  const AutoCaptureSetting: string := "Automatic payment capture"
  const CurrenciesSetting: string := "Supported currencies"

  /** A setting's value: text, a flag, or unset. */
  datatype ConfigValue = Str(text: string) | Flag(flag: bool) | Null

  datatype ConfigItem = ConfigItem(name: string, value: ConfigValue)

  const DefaultConfiguration: seq<ConfigItem> := [
    ConfigItem(ShortCodeSetting, Str("174379")),
    ConfigItem(KeySetting, Null),
    ConfigItem(SecretSetting, Null),
    ConfigItem(PasskeySetting, Null),
    ConfigItem(SandboxSetting, Flag(true)),
    ConfigItem(StoreCardSetting, Flag(false)),
    ConfigItem(AutoCaptureSetting, Flag(false)),
    ConfigItem(CurrenciesSetting, Str("KES"))
  ]

  /** No later item has the same name as item `i`. */
  predicate LastWithName(items: seq<ConfigItem>, i: int)
    requires 0 <= i < |items|
  {
    forall j :: i < j < |items| ==> items[j].name != items[i].name
  }

  /** The settings list read as a dictionary: a later item overrides an earlier one. */
  function ToDict(items: seq<ConfigItem>): (d: map<string, ConfigValue>)
    ensures forall i :: 0 <= i < |items| && LastWithName(items, i) ==>
      items[i].name in d && d[items[i].name] == items[i].value
  {
    if items == [] then map[]
    else
      var init, last := items[..|items| - 1], items[|items| - 1];
      assert forall i :: 0 <= i < |items| && LastWithName(items, i) && i < |init| ==> LastWithName(init, i);
      ToDict(init)[last.name := last.value]
  }

  /** The settings list gives `name` the value `v`: its last occurrence holds `v`. */
  predicate Setting(items: seq<ConfigItem>, name: string, v: ConfigValue) {
    forall i :: 0 <= i < |items| && items[i].name == name && LastWithName(items, i) ==> items[i].value == v
  }

  predicate IsFlag(d: map<string, ConfigValue>, name: string) {
    name in d && d[name].Flag?
  }

  predicate IsOptionalText(d: map<string, ConfigValue>, name: string) {
    name in d && (d[name].Str? || d[name].Null?)
  }

  /** Every setting the constructor reads is present, with the type its field
      declares: the three flags are flags, the four credentials are text or
      unset, and "Supported currencies" is text. Only the credentials may be
      unset, although the currencies setting is declared as text just like them. */
  predicate WellTyped(d: map<string, ConfigValue>) {
    && IsFlag(d, SandboxSetting) && IsFlag(d, StoreCardSetting) && IsFlag(d, AutoCaptureSetting)
    && IsOptionalText(d, ShortCodeSetting) && IsOptionalText(d, KeySetting)
    && IsOptionalText(d, SecretSetting) && IsOptionalText(d, PasskeySetting)
    && CurrenciesSetting in d && d[CurrenciesSetting].Str?
  }

  function OptionalText(v: ConfigValue): Option<string>
    requires v.Str? || v.Null?
  {
    if v.Str? then Some(v.text) else None
  }

  function AsValue(o: Option<string>): ConfigValue {
    if o.Some? then Str(o.value) else Null
  }

  /** The plugin constructor's mapping from settings to the gateway
      configuration. `None` stands for a setting it reads being absent (the
      constructor's `KeyError`) and also for a setting whose value lacks the
      type the settings declare; the constructor itself would copy such a
      value unchecked, which the model does not follow. */
  function LoadConfig(items: seq<ConfigItem>): (c: Option<GatewayConfig>)
    ensures c.Some? <==> WellTyped(ToDict(items))
    ensures c.Some? ==> c.value.gatewayName == "Mpesa"
    ensures c.Some? ==> Setting(items, "Use sandbox", Flag(c.value.connectionParams.sandboxMode))
    ensures c.Some? ==> Setting(items, "Mpesa Business Short Code", AsValue(c.value.connectionParams.shortCode))
    ensures c.Some? ==> Setting(items, "Mpesa Consumer Key", AsValue(c.value.connectionParams.consumerKey))
    ensures c.Some? ==> Setting(items, "Mpesa Consumer Secret", AsValue(c.value.connectionParams.consumerSecret))
    ensures c.Some? ==> Setting(items, "Mpesa Passkey", AsValue(c.value.connectionParams.passkey))
    ensures c.Some? ==> Setting(items, "Automatic payment capture", Flag(c.value.autoCapture))
    ensures c.Some? ==> Setting(items, "Store customers card", Flag(c.value.storeCustomer))
    ensures c.Some? ==> Setting(items, "Supported currencies", Str(c.value.supportedCurrencies))
  {
    var d := ToDict(items);
    if !WellTyped(d) then None
    else
      Some(GatewayConfig(
        gatewayName := GatewayName,
        autoCapture := d[AutoCaptureSetting].flag,
        supportedCurrencies := d[CurrenciesSetting].text,
        connectionParams := ConnectionParams(
          sandboxMode := d[SandboxSetting].flag,
          shortCode := OptionalText(d[ShortCodeSetting]),
          consumerKey := OptionalText(d[KeySetting]),
          consumerSecret := OptionalText(d[SecretSetting]),
          passkey := OptionalText(d[PasskeySetting])),
        storeCustomer := d[StoreCardSetting].flag))
  }

  datatype Plugin = Plugin(active: bool, config: GatewayConfig)

  function NewPlugin(active: bool, items: seq<ConfigItem>): Option<Plugin>
  {
    match LoadConfig(items)
    case None => None
    case Some(config) => Some(Plugin(active, config))
  }

  /** The decorator on every hook: an inactive plugin hands back the
      `previous_value` it was given (None when absent) without running the
      hook, hence without any request. */
  function RequireActive(active: bool, previousValue: Option<GatewayResponse>,
                         run: () --> MpesaUtils.Invocation): (r: MpesaUtils.Invocation)
    requires active ==> run.requires()
    ensures !active ==> r.outcome == MpesaUtils.Returned(previousValue) && r.requests == []
    ensures active ==> r == run()
  {
    if !active then MpesaUtils.Invocation(MpesaUtils.Returned(previousValue), [])
    else run()
  }

  /** A stub's reply: returned as is, with no request sent. */
  function Offline(resp: GatewayResponse): MpesaUtils.Invocation {
    MpesaUtils.Invocation(MpesaUtils.Returned(Some(resp)), [])
  }

  function AuthorizePayment(plugin: Plugin, p: PaymentData, previousValue: Option<GatewayResponse>): MpesaUtils.Invocation {
    RequireActive(plugin.active, previousValue, () => Offline(MpesaGateway.Authorize(p, plugin.config)))
  }

  function CapturePayment(plugin: Plugin, p: PaymentData, previousValue: Option<GatewayResponse>): MpesaUtils.Invocation {
    RequireActive(plugin.active, previousValue, () => Offline(MpesaGateway.Capture(p, plugin.config)))
  }

  function RefundPayment(plugin: Plugin, p: PaymentData, previousValue: Option<GatewayResponse>): MpesaUtils.Invocation {
    RequireActive(plugin.active, previousValue, () => Offline(MpesaGateway.Refund(p, plugin.config)))
  }

  function VoidPayment(plugin: Plugin, p: PaymentData, previousValue: Option<GatewayResponse>): MpesaUtils.Invocation {
    RequireActive(plugin.active, previousValue, () => Offline(MpesaGateway.Void(p, plugin.config)))
  }

  function ProcessPayment(plugin: Plugin, p: PaymentData, previousValue: Option<GatewayResponse>,
                          env: MpesaUtils.Environment): MpesaUtils.Invocation
    requires plugin.active ==> MpesaUtils.CompletesWithoutCrash(p, plugin.config.connectionParams, env)
  {
    RequireActive(plugin.active, previousValue,
      () requires MpesaUtils.CompletesWithoutCrash(p, plugin.config.connectionParams, env) =>
        MpesaGateway.ProcessPayment(p, plugin.config, env))
  }

  datatype PaymentConfigField = PaymentConfigField(field: string, value: bool)

  /** The client-facing payment settings: only whether cards are stored. */
  function GetPaymentConfig(plugin: Plugin, previousValue: Option<seq<PaymentConfigField>>): (r: Option<seq<PaymentConfigField>>)
    ensures plugin.active ==>
      r.Some? && |r.value| == 1 && r.value[0].field == "store_customer_card"
      && r.value[0].value == plugin.config.storeCustomer
    ensures !plugin.active ==> r == previousValue
  {
    if !plugin.active then previousValue
    else Some([PaymentConfigField("store_customer_card", plugin.config.storeCustomer)])
  }

  /** An inactive plugin answers every hook with the previous value and sends nothing. */
  lemma InactivePluginPassesThrough(plugin: Plugin, p: PaymentData, previousValue: Option<GatewayResponse>,
                                    env: MpesaUtils.Environment, previousConfig: Option<seq<PaymentConfigField>>)
    requires !plugin.active
    ensures AuthorizePayment(plugin, p, previousValue) == MpesaUtils.Invocation(MpesaUtils.Returned(previousValue), [])
    ensures CapturePayment(plugin, p, previousValue) == MpesaUtils.Invocation(MpesaUtils.Returned(previousValue), [])
    ensures RefundPayment(plugin, p, previousValue) == MpesaUtils.Invocation(MpesaUtils.Returned(previousValue), [])
    ensures VoidPayment(plugin, p, previousValue) == MpesaUtils.Invocation(MpesaUtils.Returned(previousValue), [])
    ensures ProcessPayment(plugin, p, previousValue, env) == MpesaUtils.Invocation(MpesaUtils.Returned(previousValue), [])
    ensures GetPaymentConfig(plugin, previousConfig) == previousConfig
  {
  }

  /** An active plugin passes each payment hook to the operation of the same
      name with its stored configuration and returns that result unchanged;
      the four stubs send no request and always decline. */
  lemma ActivePluginDelegates(plugin: Plugin, p: PaymentData, previousValue: Option<GatewayResponse>,
                              env: MpesaUtils.Environment)
    requires plugin.active
    requires MpesaUtils.CompletesWithoutCrash(p, plugin.config.connectionParams, env)
    ensures AuthorizePayment(plugin, p, previousValue) == Offline(MpesaGateway.Authorize(p, plugin.config))
    ensures CapturePayment(plugin, p, previousValue) == Offline(MpesaGateway.Capture(p, plugin.config))
    ensures RefundPayment(plugin, p, previousValue) == Offline(MpesaGateway.Refund(p, plugin.config))
    ensures VoidPayment(plugin, p, previousValue) == Offline(MpesaGateway.Void(p, plugin.config))
    ensures ProcessPayment(plugin, p, previousValue, env)
         == MpesaUtils.ExpressRequest(p, plugin.config.connectionParams, env)
    ensures forall inv :: inv in [AuthorizePayment(plugin, p, previousValue), CapturePayment(plugin, p, previousValue),
                                  RefundPayment(plugin, p, previousValue), VoidPayment(plugin, p, previousValue)] ==>
      inv.requests == [] && inv.outcome.Returned? && inv.outcome.response.Some?
      && !inv.outcome.response.value.isSuccess
  {
  }

  /** Every key of the dictionary is the name of some setting. */
  lemma {:induction false} ToDictKeys(items: seq<ConfigItem>, k: string)
    requires k in ToDict(items)
    ensures exists i :: 0 <= i < |items| && items[i].name == k
  {
    var init, last := items[..|items| - 1], items[|items| - 1];
    if k != last.name {
      ToDictKeys(init, k);
      var i :| 0 <= i < |init| && init[i].name == k;
      assert items[i].name == k;
    } else {
      assert items[|items| - 1].name == k;
    }
  }

  lemma ToDictAt(items: seq<ConfigItem>, i: int)
    requires 0 <= i < |items| && LastWithName(items, i)
    ensures items[i].name in ToDict(items) && ToDict(items)[items[i].name] == items[i].value
  {
  }

  /** The default settings name each setting once. */
  lemma DefaultNamesDistinct()
    ensures forall i :: 0 <= i < |DefaultConfiguration| ==> LastWithName(DefaultConfiguration, i)
  {
    var items := DefaultConfiguration;
    forall i | 0 <= i < |items|
      ensures LastWithName(items, i)
    {
      forall j | i < j < |items|
        ensures items[j].name != items[i].name
      {
        assert items[j].name[..3] != items[i].name[..3] || |items[j].name| != |items[i].name|
            || items[j].name[1] != items[i].name[1];
      }
    }
  }

  /** Looking a setting up in the dictionary of the defaults yields its default value. */
  lemma DefaultLookup(items: seq<ConfigItem>, k: int)
    requires items == DefaultConfiguration && 0 <= k < |items|
    ensures items[k].name in ToDict(items) && ToDict(items)[items[k].name] == items[k].value
  {
    DefaultNamesDistinct();
    ToDictAt(items, k);
  }

  /** What the defaults give each field of the connection parameters. */
  lemma DefaultSettings(items: seq<ConfigItem>)
    requires items == DefaultConfiguration
    ensures var d := ToDict(items);
      && ShortCodeSetting in d && d[ShortCodeSetting] == Str("174379")
      && KeySetting in d && d[KeySetting] == Null
      && SecretSetting in d && d[SecretSetting] == Null
      && PasskeySetting in d && d[PasskeySetting] == Null
      && SandboxSetting in d && d[SandboxSetting] == Flag(true)
      && StoreCardSetting in d && d[StoreCardSetting] == Flag(false)
      && AutoCaptureSetting in d && d[AutoCaptureSetting] == Flag(false)
      && CurrenciesSetting in d && d[CurrenciesSetting] == Str("KES")
  {
    DefaultLookup(items, 0);
    assert items[0] == ConfigItem(ShortCodeSetting, Str("174379"));
    DefaultLookup(items, 1);
    assert items[1] == ConfigItem(KeySetting, Null);
    DefaultLookup(items, 2);
    assert items[2] == ConfigItem(SecretSetting, Null);
    DefaultLookup(items, 3);
    assert items[3] == ConfigItem(PasskeySetting, Null);
    DefaultLookup(items, 4);
    assert items[4] == ConfigItem(SandboxSetting, Flag(true));
    DefaultLookup(items, 5);
    assert items[5] == ConfigItem(StoreCardSetting, Flag(false));
    DefaultLookup(items, 6);
    assert items[6] == ConfigItem(AutoCaptureSetting, Flag(false));
    DefaultLookup(items, 7);
    assert items[7] == ConfigItem(CurrenciesSetting, Str("KES"));
  }

  /** The shipped defaults leave key, secret and passkey unset, so the
      gateway refuses them and the default (active) plugin raises the
      configuration error on every payment, before any request. */
  lemma DefaultConfigurationRejected(p: PaymentData, previousValue: Option<GatewayResponse>, env: MpesaUtils.Environment)
    ensures LoadConfig(DefaultConfiguration).Some?
    ensures LoadConfig(DefaultConfiguration).value.connectionParams
         == ConnectionParams(true, Some("174379"), None, None, None)
    ensures MpesaUtils.GetMpesaGateway(LoadConfig(DefaultConfiguration).value.connectionParams).Failure?
    ensures NewPlugin(DefaultActive, DefaultConfiguration).Some?
    ensures var plugin := NewPlugin(DefaultActive, DefaultConfiguration).value;
      MpesaUtils.CompletesWithoutCrash(p, plugin.config.connectionParams, env)
      && ProcessPayment(plugin, p, previousValue, env)
         == MpesaUtils.Invocation(MpesaUtils.Raised(MpesaUtils.ImproperlyConfigured(MpesaUtils.MisconfiguredMessage)), [])
  {
    DefaultSettings(DefaultConfiguration);
  }
}
