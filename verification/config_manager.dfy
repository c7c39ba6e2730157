/**
  ConfigManager: the in-memory application configuration, a JSON object
  with one sub-object per section ("llm", "ad", "password_policy",
  "name_processing", "ui"). Every getter reads one key of one section and
  falls back to a fixed default when the section is missing or not an
  object, or the key is missing or has another type; every setter writes
  one key of one section, turning a missing or non-object section into an
  object first.
 */
module ConfigManager {
  import opened JsonValue
  import opened Options
  import PasswordGenerator

  datatype Section = Llm | Ad | PasswordPolicySection | NameProcessing | Ui

  function SectionName(sec: Section): string {
    match sec
    case Llm => "llm"
    case Ad => "ad"
    case PasswordPolicySection => "password_policy"
    case NameProcessing => "name_processing"
    case Ui => "ui"
  }

  /** The scalar settings that have a getter and a setter. */
  datatype Setting =
    | LlmProvider | LlmApiKey | LlmEndpoint | LlmModel
    | AdDomain | AdUsersContainer | AdComputersContainer | AdServerContainer
    | AdDefaultUserGroup | AdAdminGroup | AdMetadataAttribute
    | TransliterationMode | CapitalizeFirstLetter | LoginPrefix | LoginSuffix
    | MaxLoginLength | AllowCompoundNames | CompoundNameDelimiter
    | UiTheme | UiLanguage | ExpandServerTree | AutoRefreshInterval

  /** What a getter converts the stored value with: toString, toBool or toInt. */
  datatype Kind = TextKind | FlagKind | NumberKind

  predicate HasKind(v: Json, k: Kind) {
    match k
    case TextKind => v.JStr?
    case FlagKind => v.JBool?
    case NumberKind => v.JInt?
  }

  function SectionOf(s: Setting): Section {
    match s
    case LlmProvider | LlmApiKey | LlmEndpoint | LlmModel => Llm
    case AdDomain | AdUsersContainer | AdComputersContainer | AdServerContainer
      | AdDefaultUserGroup | AdAdminGroup | AdMetadataAttribute => Ad
    case TransliterationMode | CapitalizeFirstLetter | LoginPrefix | LoginSuffix
      | MaxLoginLength | AllowCompoundNames | CompoundNameDelimiter => NameProcessing
    case UiTheme | UiLanguage | ExpandServerTree | AutoRefreshInterval => Ui
  }

  function KeyOf(s: Setting): string {
    match s
    case LlmProvider => "provider"
    case LlmApiKey => "api_key"
    case LlmEndpoint => "endpoint"
    case LlmModel => "model"
    case AdDomain => "domain"
    case AdUsersContainer => "users_container"
    case AdComputersContainer => "computers_container"
    case AdServerContainer => "server_container"
    case AdDefaultUserGroup => "default_user_group"
    case AdAdminGroup => "admin_group"
    case AdMetadataAttribute => "metadata_attribute"
    case TransliterationMode => "transliteration_mode"
    case CapitalizeFirstLetter => "capitalize_first_letter"
    case LoginPrefix => "login_prefix"
    case LoginSuffix => "login_suffix"
    case MaxLoginLength => "max_login_length"
    case AllowCompoundNames => "allow_compound_names"
    case CompoundNameDelimiter => "compound_name_delimiter"
    case UiTheme => "theme"
    case UiLanguage => "language"
    case ExpandServerTree => "expand_server_tree"
    case AutoRefreshInterval => "auto_refresh_interval"
  }

  function KindOf(s: Setting): Kind {
    match s
    case CapitalizeFirstLetter | AllowCompoundNames | ExpandServerTree => FlagKind
    case MaxLoginLength | AutoRefreshInterval => NumberKind
    case _ => TextKind
  }

  /** The value a getter returns when the configuration has none. */
  function Fallback(s: Setting): (v: Json)
    ensures HasKind(v, KindOf(s))
  {
    match s
    case LlmProvider => JStr("openai")
    case LlmApiKey => JStr("")
    case LlmEndpoint => JStr("https://api.openai.com/v1/chat/completions")
    case LlmModel => JStr("gpt-4")
    case AdDomain => JStr("")
    case AdUsersContainer => JStr("CN=Users")
    case AdComputersContainer => JStr("CN=Computers")
    case AdServerContainer => JStr("OU=Servers")
    case AdDefaultUserGroup => JStr("CN=Users,CN=Builtin")
    case AdAdminGroup => JStr("CN=Administrators,CN=Builtin")
    case AdMetadataAttribute => JStr("extensionAttribute1")
    case TransliterationMode => JStr("standard_ukrainian")
    case CapitalizeFirstLetter => JBool(true)
    case LoginPrefix => JStr("")
    case LoginSuffix => JStr("")
    case MaxLoginLength => JInt(20)
    case AllowCompoundNames => JBool(true)
    case CompoundNameDelimiter => JStr("-")
    case UiTheme => JStr("light")
    case UiLanguage => JStr("ua")
    case ExpandServerTree => JBool(true)
    case AutoRefreshInterval => JInt(300)
  }

  /** The setting stored at a section and key, if any: the inverse of the
      (section, key) placement. */
  function SettingAt(sec: Section, key: string): Option<Setting> {
    match sec
    case Llm =>
      if key == "provider" then Some(LlmProvider)
      else if key == "api_key" then Some(LlmApiKey)
      else if key == "endpoint" then Some(LlmEndpoint)
      else if key == "model" then Some(LlmModel)
      else None
    case Ad =>
      if key == "domain" then Some(AdDomain)
      else if key == "users_container" then Some(AdUsersContainer)
      else if key == "computers_container" then Some(AdComputersContainer)
      else if key == "server_container" then Some(AdServerContainer)
      else if key == "default_user_group" then Some(AdDefaultUserGroup)
      else if key == "admin_group" then Some(AdAdminGroup)
      else if key == "metadata_attribute" then Some(AdMetadataAttribute)
      else None
    case PasswordPolicySection => None
    case NameProcessing =>
      if key == "transliteration_mode" then Some(TransliterationMode)
      else if key == "capitalize_first_letter" then Some(CapitalizeFirstLetter)
      else if key == "login_prefix" then Some(LoginPrefix)
      else if key == "login_suffix" then Some(LoginSuffix)
      else if key == "max_login_length" then Some(MaxLoginLength)
      else if key == "allow_compound_names" then Some(AllowCompoundNames)
      else if key == "compound_name_delimiter" then Some(CompoundNameDelimiter)
      else None
    case Ui =>
      if key == "theme" then Some(UiTheme)
      else if key == "language" then Some(UiLanguage)
      else if key == "expand_server_tree" then Some(ExpandServerTree)
      else if key == "auto_refresh_interval" then Some(AutoRefreshInterval)
      else None
  }

  lemma PlaceInverse(s: Setting)
    ensures SettingAt(SectionOf(s), KeyOf(s)) == Some(s)
  {
    match s
    case LlmProvider =>
    case LlmApiKey =>
    case LlmEndpoint =>
    case LlmModel =>
    case AdDomain =>
    case AdUsersContainer =>
    case AdComputersContainer =>
    case AdServerContainer =>
    case AdDefaultUserGroup =>
    case AdAdminGroup =>
    case AdMetadataAttribute =>
    case TransliterationMode =>
    case CapitalizeFirstLetter =>
    case LoginPrefix =>
    case LoginSuffix =>
    case MaxLoginLength =>
    case AllowCompoundNames =>
    case CompoundNameDelimiter =>
    case UiTheme =>
    case UiLanguage =>
    case ExpandServerTree =>
    case AutoRefreshInterval =>
  }

  /** Every setting has its own place: no two settings share a section and
      key, and none lives in the password policy section. */
  lemma PlacesAreDistinct(s: Setting, t: Setting)
    ensures s != t ==> SectionOf(s) != SectionOf(t) || KeyOf(s) != KeyOf(t)
    ensures SectionOf(s) != PasswordPolicySection
  {
    PlaceInverse(s);
    PlaceInverse(t);
  }

  function SectionObject(cfg: Object, sec: Section): Option<Object> {
    var name := SectionName(sec);
    if name in cfg && cfg[name].JObj? then Some(cfg[name].fields) else None
  }

  /** The getter of a setting: the stored value when its section is an
      object holding the key with the right type, the fallback otherwise. */
  function Get(cfg: Object, s: Setting): (v: Json)
    ensures HasKind(v, KindOf(s))
    ensures SectionObject(cfg, SectionOf(s)).None? ==> v == Fallback(s)
    ensures SectionObject(cfg, SectionOf(s)).Some? ==>
      var fields := SectionObject(cfg, SectionOf(s)).value;
      if KeyOf(s) in fields && HasKind(fields[KeyOf(s)], KindOf(s)) then v == fields[KeyOf(s)]
      else v == Fallback(s)
  {
    match SectionObject(cfg, SectionOf(s))
    case None => Fallback(s)
    case Some(fields) =>
      var stored := Lookup(fields, KeyOf(s));
      if HasKind(stored, KindOf(s)) then stored else Fallback(s)
  }

  /** The setters of the "llm" section and of the domain, users and
      computers containers read the section with value().toObject(); the
      others first replace a missing or non-object section with an empty
      object. */
  predicate ResetsSectionFirst(s: Setting) {
    SectionOf(s) != Llm && s !in {AdDomain, AdUsersContainer, AdComputersContainer}
  }

  function SetDirect(cfg: Object, s: Setting, v: Json): Object {
    var name := SectionName(SectionOf(s));
    var section := ToObject(Lookup(cfg, name));
    cfg[name := JObj(section[KeyOf(s) := v])]
  }

  function SetAfterReset(cfg: Object, s: Setting, v: Json): Object {
    var name := SectionName(SectionOf(s));
    var prepared := if SectionObject(cfg, SectionOf(s)).None? then cfg[name := JObj(map[])] else cfg;
    var section := ToObject(prepared[name]);
    prepared[name := JObj(section[KeyOf(s) := v])]
  }

  /** The setter of a setting, in the style its source uses. */
  function Set(cfg: Object, s: Setting, v: Json): (r: Object)
    requires HasKind(v, KindOf(s))
    ensures r.Keys == cfg.Keys + {SectionName(SectionOf(s))}
    ensures forall k :: k in cfg && k != SectionName(SectionOf(s)) ==> r[k] == cfg[k]
  {
    if ResetsSectionFirst(s) then SetAfterReset(cfg, s, v) else SetDirect(cfg, s, v)
  }

  /** Both setter styles produce the same configuration. */
  lemma SetterStylesAgree(cfg: Object, s: Setting, v: Json)
    ensures SetDirect(cfg, s, v) == SetAfterReset(cfg, s, v)
  {
  }

  /** Set-then-get returns the value set. */
  lemma SetThenGet(cfg: Object, s: Setting, v: Json)
    requires HasKind(v, KindOf(s))
    ensures Get(Set(cfg, s, v), s) == v
  {
  }

  /** A setter changes only its own key: every other setting reads as
      before, whether it lives in the same section or in another one, and
      the password policy is untouched. */
  lemma SetFrame(cfg: Object, s: Setting, v: Json, t: Setting)
    requires HasKind(v, KindOf(s))
    requires t != s
    ensures Get(Set(cfg, s, v), t) == Get(cfg, t)
    ensures GetPasswordPolicy(Set(cfg, s, v)) == GetPasswordPolicy(cfg)
  {
    SetterStylesAgree(cfg, s, v);
    assert Set(cfg, s, v) == SetDirect(cfg, s, v);
    SetDirectFrame(cfg, s, v, t);
  }

  lemma SetDirectFrame(cfg: Object, s: Setting, v: Json, t: Setting)
    requires t != s
    ensures Get(SetDirect(cfg, s, v), t) == Get(cfg, t)
    ensures GetPasswordPolicy(SetDirect(cfg, s, v)) == GetPasswordPolicy(cfg)
  {
    PlacesAreDistinct(s, t);
    var r := SetDirect(cfg, s, v);
    assert r == Store(cfg, SectionOf(s), KeyOf(s), v);
    StoreFrame(cfg, SectionOf(s), KeyOf(s), v, SectionOf(t), KeyOf(t));
    GetByStored(r, t);
    GetByStored(cfg, t);
    StoreKeepsOtherSection(cfg, SectionOf(s), KeyOf(s), v, PasswordPolicySection);
  }

  /** The value stored under a key of a section, JNull when there is none. */
  function StoredAt(cfg: Object, sec: Section, key: string): Json {
    match SectionObject(cfg, sec)
    case None => JNull
    case Some(fields) => Lookup(fields, key)
  }

  /** One key of one section written, the section made an object first. */
  function Store(cfg: Object, sec: Section, key: string, v: Json): Object {
    var name := SectionName(sec);
    cfg[name := JObj(ToObject(Lookup(cfg, name))[key := v])]
  }

  lemma GetByStored(cfg: Object, t: Setting)
    ensures Get(cfg, t) == (if HasKind(StoredAt(cfg, SectionOf(t), KeyOf(t)), KindOf(t))
                            then StoredAt(cfg, SectionOf(t), KeyOf(t)) else Fallback(t))
  {
  }

  lemma SectionNameInjective(a: Section, b: Section)
    ensures SectionName(a) == SectionName(b) ==> a == b
  {
  }

  lemma StoreKeepsOtherSection(cfg: Object, sec: Section, key: string, v: Json, other: Section)
    requires sec != other
    ensures SectionObject(Store(cfg, sec, key, v), other) == SectionObject(cfg, other)
  {
    SectionNameInjective(sec, other);
  }

  /** Writing one place leaves every other place as it was. */
  lemma StoreFrame(cfg: Object, sec: Section, key: string, v: Json, sec2: Section, key2: string)
    requires sec != sec2 || key != key2
    ensures StoredAt(Store(cfg, sec, key, v), sec2, key2) == StoredAt(cfg, sec2, key2)
  {
    if sec != sec2 {
      StoreKeepsOtherSection(cfg, sec, key, v, sec2);
    } else {
      var fields := ToObject(Lookup(cfg, SectionName(sec)));
      assert SectionObject(Store(cfg, sec, key, v), sec) == Some(fields[key := v]);
      assert Lookup(fields[key := v], key2) == Lookup(fields, key2);
    }
  }

  /** getPasswordPolicy: the section itself, or an empty object. */
  function GetPasswordPolicy(cfg: Object): (p: Object)
    ensures SectionObject(cfg, PasswordPolicySection).None? ==> p == map[]
  {
    match SectionObject(cfg, PasswordPolicySection)
    case None => map[]
    case Some(fields) => fields
  }

  /** setPasswordPolicy: replaces the whole section. */
  function SetPasswordPolicy(cfg: Object, policy: Object): (r: Object)
    ensures forall s: Setting :: Get(r, s) == Get(cfg, s)
  {
    var r := cfg["password_policy" := JObj(policy)];
    assert forall s: Setting :: SectionOf(s) != PasswordPolicySection;
    r
  }

  lemma SetThenGetPasswordPolicy(cfg: Object, policy: Object)
    ensures GetPasswordPolicy(SetPasswordPolicy(cfg, policy)) == policy
  {
  }

  function DefaultLlm(): Object {
    map[
      "provider" := JStr("openai"),
      "api_key" := JStr(""),
      "endpoint" := JStr("https://api.openai.com/v1/chat/completions"),
      "model" := JStr("gpt-4")]
  }

  function DefaultAd(): Object {
    map[
      "domain" := JStr("example.local"),
      "users_container" := JStr("CN=Users"),
      "computers_container" := JStr("CN=Computers"),
      "server_container" := JStr("OU=Servers"),
      "default_user_group" := JStr("CN=Users,CN=Builtin"),
      "admin_group" := JStr("CN=Administrators,CN=Builtin"),
      "metadata_attribute" := JStr("extensionAttribute1")]
  }

  function DefaultPasswordPolicySection(): Object {
    map[
      "minLength" := JInt(12),
      "maxLength" := JInt(16),
      "includeUppercase" := JBool(true),
      "includeLowercase" := JBool(true),
      "includeNumbers" := JBool(true),
      "includeSymbols" := JBool(true),
      "excludeChars" := JStr("0O1lI"),
      "requireEachType" := JBool(true)]
  }

  function DefaultNameProcessing(): Object {
    map[
      "transliteration_mode" := JStr("standard_ukrainian"),
      "capitalize_first_letter" := JBool(true),
      "login_prefix" := JStr(""),
      "login_suffix" := JStr(""),
      "max_login_length" := JInt(20),
      "allow_compound_names" := JBool(true),
      "compound_name_delimiter" := JStr("-")]
  }

  function DefaultUi(): Object {
    map[
      "theme" := JStr("light"),
      "language" := JStr("ua"),
      "expand_server_tree" := JBool(true),
      "auto_refresh_interval" := JInt(300)]
  }

  /** initializeDefaultConfig */
  function DefaultConfig(): Object {
    map[
      "llm" := JObj(DefaultLlm()),
      "ad" := JObj(DefaultAd()),
      "password_policy" := JObj(DefaultPasswordPolicySection()),
      "name_processing" := JObj(DefaultNameProcessing()),
      "ui" := JObj(DefaultUi())]
  }

  function DefaultSection(sec: Section): Object {
    match sec
    case Llm => DefaultLlm()
    case Ad => DefaultAd()
    case PasswordPolicySection => DefaultPasswordPolicySection()
    case NameProcessing => DefaultNameProcessing()
    case Ui => DefaultUi()
  }

  lemma DefaultSections(sec: Section)
    ensures SectionObject(DefaultConfig(), sec) == Some(DefaultSection(sec))
  {
  }

  predicate StoresDefault(s: Setting) {
    var fields := DefaultSection(SectionOf(s));
    KeyOf(s) in fields && fields[KeyOf(s)] == if s == AdDomain then JStr("example.local") else Fallback(s)
  }

  /** Every default section stores each of its settings, with its fallback
      value except for the domain. */
  lemma DefaultSectionValues(s: Setting)
    ensures StoresDefault(s)
  {
    match SectionOf(s)
    case Llm => DefaultLlmValues(s);
    case Ad => DefaultAdValues(s);
    case NameProcessing => DefaultNameProcessingValues(s);
    case Ui => DefaultUiValues(s);
  }

  lemma DefaultLlmValues(s: Setting)
    requires SectionOf(s) == Llm
    ensures StoresDefault(s)
  {
    match s
    case LlmProvider => assert StoresDefault(LlmProvider);
    case LlmApiKey => assert StoresDefault(LlmApiKey);
    case LlmEndpoint => assert StoresDefault(LlmEndpoint);
    case LlmModel => assert StoresDefault(LlmModel);
  }

  lemma DefaultAdValues(s: Setting)
    requires SectionOf(s) == Ad
    ensures StoresDefault(s)
  {
    match s
    case AdDomain => assert StoresDefault(AdDomain);
    case AdUsersContainer => assert StoresDefault(AdUsersContainer);
    case AdComputersContainer => assert StoresDefault(AdComputersContainer);
    case AdServerContainer => assert StoresDefault(AdServerContainer);
    case AdDefaultUserGroup => assert StoresDefault(AdDefaultUserGroup);
    case AdAdminGroup => assert StoresDefault(AdAdminGroup);
    case AdMetadataAttribute => assert StoresDefault(AdMetadataAttribute);
  }

  lemma DefaultNameProcessingValues(s: Setting)
    requires SectionOf(s) == NameProcessing
    ensures StoresDefault(s)
  {
    match s
    case TransliterationMode => assert StoresDefault(TransliterationMode);
    case CapitalizeFirstLetter => assert StoresDefault(CapitalizeFirstLetter);
    case LoginPrefix => assert StoresDefault(LoginPrefix);
    case LoginSuffix => assert StoresDefault(LoginSuffix);
    case MaxLoginLength => assert StoresDefault(MaxLoginLength);
    case AllowCompoundNames => assert StoresDefault(AllowCompoundNames);
    case CompoundNameDelimiter => assert StoresDefault(CompoundNameDelimiter);
  }

  lemma DefaultUiValues(s: Setting)
    requires SectionOf(s) == Ui
    ensures StoresDefault(s)
  {
    match s
    case UiTheme => assert StoresDefault(UiTheme);
    case UiLanguage => assert StoresDefault(UiLanguage);
    case ExpandServerTree => assert StoresDefault(ExpandServerTree);
    case AutoRefreshInterval => assert StoresDefault(AutoRefreshInterval);
  }

  /** After construction every getter returns its fallback value, except the
      domain: the configuration holds "example.local" while a configuration
      without an "ad" section reads as the empty domain. */
  lemma DefaultsRead(s: Setting)
    ensures s != AdDomain ==> Get(DefaultConfig(), s) == Fallback(s)
    ensures Get(DefaultConfig(), AdDomain) == JStr("example.local")
    ensures Get(map[], AdDomain) == JStr("")
  {
    DefaultSections(SectionOf(s));
    DefaultSectionValues(s);
    DefaultSections(Ad);
    DefaultSectionValues(AdDomain);
  }

  /** Examples: the model is "gpt-4" and the login length limit 20. */
  lemma DefaultExamples()
    ensures Get(DefaultConfig(), LlmModel) == JStr("gpt-4")
    ensures Get(DefaultConfig(), MaxLoginLength) == JInt(20)
  {
    DefaultsRead(LlmModel);
    DefaultsRead(MaxLoginLength);
  }

  /** The default password policy section agrees with the generator's own
      defaults: 12 to 16 characters, all four categories, "0O1lI" excluded,
      every category required. */
  lemma DefaultPasswordPolicy()
    ensures GetPasswordPolicy(DefaultConfig()) == DefaultPasswordPolicySection()
    ensures var p := DefaultPasswordPolicySection();
      var d := PasswordGenerator.DefaultPolicy;
      && p["minLength"] == JInt(d.minLength) && p["maxLength"] == JInt(d.maxLength)
      && d.minLength <= d.maxLength
      && p["includeUppercase"] == JBool(d.includeUppercase)
      && p["includeLowercase"] == JBool(d.includeLowercase)
      && p["includeNumbers"] == JBool(d.includeNumbers)
      && p["includeSymbols"] == JBool(d.includeSymbols)
      && p["excludeChars"] == JStr(d.excludeChars)
      && p["requireEachType"] == JBool(d.requireEachType)
  {
    DefaultSections(PasswordPolicySection);
  }
}
