/** What the calls on aggregate APIs mean for the fields of a record, its secret and the probe's request. */
module AggregateApiEffects {
  import opened Text
  import opened QueryParams
  import opened AggregateApi
  import opened AggregateApiRuns

  // ---------------------------------------------------- words and conditions

  const KEY_WORDS := {"apikey", "api_key", "key"}
  const USERPASS_WORDS := {"userpass", "username_password", "account_password", "basic", "http_basic"}
  const CODEX_WORDS := {"codex", "openai", "openai_compat", "gpt", "gemini", "gemini_native"}
  const CLAUDE_WORDS := {"claude", "anthropic", "anthropic_native", "claude_code"}
  const ACTIVE_WORDS := {"active", "enabled", "enable"}
  const DISABLED_WORDS := {"disabled", "disable", "inactive"}

  /** If given, it is one of these words, whatever its case and the blanks around it, `-` counting as `_`. */
  predicate SaysIfAny(raw: Option<string>, words: set<string>) {
    raw.Some? ==> Canonical(raw.value) in words
  }

  function TypeMeant(raw: string): string {
    if Canonical(raw) in USERPASS_WORDS then USERPASS else APIKEY
  }

  function ProviderMeant(raw: string): string {
    if Canonical(raw) in CLAUDE_WORDS then "claude" else "codex"
  }

  function StatusMeant(raw: string): string {
    if Canonical(raw) in DISABLED_WORDS then "disabled" else "active"
  }

  /** A request's text without the blanks around it; nothing given is the empty text. */
  function Plain(value: Option<string>): string {
    if value.Some? then Trim(Rust, value.value) else ""
  }

  function Word(s: string): string {
    ToLower(Trim(Rust, s))
  }

  function Either<T>(given: Option<T>, otherwise: T): T {
    if given.Some? then given.value else otherwise
  }

  predicate KeyParamsGood(json: Json) {
    && ReadApiKeyParams(json).Some?
    && var p := ReadApiKeyParams(json).value;
       && Word(p.location) in {"header", "query"}
       && Trim(Rust, p.name) != ""
       && (Word(p.location) == "header" && p.headerValueFormat.Some? ==>
         Word(p.headerValueFormat.value) in {"bearer", "raw"})
  }

  predicate PairParamsGood(json: Json) {
    && ReadUserPassParams(json).Some?
    && var p := ReadUserPassParams(json).value;
       && Word(p.mode) in {"basic", "headerpair", "querypair"}
       && (Word(p.mode) != "basic" ==> Plain(p.usernameName) != "" && Plain(p.passwordName) != "")
  }

  predicate ParamsGood(authType: string, enabled: Option<bool>, authParams: Option<Json>) {
    enabled == Some(true) ==>
      && authParams.Some? && authParams.value.Object? && authParams.value.fields != map[]
      && (if authType == USERPASS then PairParamsGood(authParams.value) else KeyParamsGood(authParams.value))
  }

  /** The parameters stored for a request, by what it says about them. */
  function ParamsMeant(env: Env, enabled: Option<bool>, authParams: Option<Json>, old_: Option<string>): Option<string>
    requires enabled == Some(true) ==> authParams.Some?
  {
    match enabled
    case None => old_
    case Some(false) => None
    case Some(true) => Some(env.encode(authParams.value))
  }

  predicate ActionGood(enabled: Option<bool>, action: Option<string>) {
    enabled == Some(true) ==> !Contains(Plain(action), "://")
  }

  function ActionMeant(enabled: Option<bool>, action: Option<string>, old_: Option<string>): Option<string> {
    match enabled
    case None => old_
    case Some(false) => None
    case Some(true) =>
      var path := Plain(action);
      Some(if path == "" || path[0] == '/' then path else "/" + path)
  }

  /** Credentials given or not: both or neither, and given if the type changes. */
  predicate CredentialsGood(authType: string, changed: bool, key: Option<string>, username: Option<string>,
                            password: Option<string>)
  {
    if authType == APIKEY then changed ==> Plain(key) != ""
    else (Plain(username) != "" <==> Plain(password) != "") && (changed ==> Plain(username) != "")
  }

  /** The secret holds exactly these credentials. */
  predicate SecretIsFor(env: Env, authType: string, secret: string, key: Option<string>, username: Option<string>,
                        password: Option<string>)
  {
    if authType == APIKEY then secret == Plain(key)
    else DecodeUserPass(env, secret) == Some(UserPass(Plain(username), Plain(password)))
  }

  lemma {:induction false} CharReplaced(s: string, c: char, d: char)
    ensures |ReplaceAll(s, [c], [d])| == |s|
    ensures forall k :: 0 <= k < |s| ==> ReplaceAll(s, [c], [d])[k] == if s[k] == c then d else s[k]
    decreases |s|
  {
    hide FindFrom;
    FindChar(s, c);
    match Find(s, [c])
    case None =>
    case Some(i) =>
      AtChar(s, c, i);
      CharReplaced(s[i + 1..], c, d);
      forall k | 0 <= k < i ensures s[k] != c { AtChar(s, c, k); }
  }

  /** A word is compared without the blanks around it, in lower case, and with `_` for every `-`. */
  lemma WordsAreCleaned(before: string, text: string, behind: string)
    requires Blank(Rust, before) && Blank(Rust, behind) && Trimmed(Rust, text)
    ensures var word := Canonical(before + text + behind);
            && |word| == |text|
            && forall k :: 0 <= k < |text| ==>
                 word[k] == if text[k] == '-' then '_'
                            else if 'A' <= text[k] <= 'Z' then text[k] - 'A' + 'a' else text[k]
  {
    hide Trim, ReplaceAll;
    TrimPadded(Rust, before, text, behind);
    CharReplaced(ToLower(text), '-', '_');
  }

  // ------------------------------------------------------- the normalizers

  lemma NonEmptyIs(value: Option<string>)
    ensures NonEmpty(value) == if Plain(value) == "" then None else Some(Plain(value))
  {
  }

  lemma TypeWords(raw: string)
    ensures NormalizeAuthType(Some(raw)).Ok? <==> Canonical(raw) in KEY_WORDS + USERPASS_WORDS
    ensures NormalizeAuthType(Some(raw)).Ok? ==> NormalizeAuthType(Some(raw)).value == TypeMeant(raw)
  {
    hide Canonical;
  }

  lemma ProviderWords(raw: string)
    ensures NormalizeProviderType(Some(raw)).Ok? <==> Canonical(raw) in CODEX_WORDS + CLAUDE_WORDS
    ensures NormalizeProviderType(Some(raw)).Ok? ==> NormalizeProviderType(Some(raw)).value == ProviderMeant(raw)
  {
    hide Canonical;
  }

  lemma StatusWords(raw: string)
    ensures NormalizeStatus(raw).Ok? <==> Canonical(raw) in ACTIVE_WORDS + DISABLED_WORDS
    ensures NormalizeStatus(raw).Ok? ==> NormalizeStatus(raw).value == StatusMeant(raw)
  {
    hide Canonical;
  }

  /** A full URL is only a special case of a text with `://`. */
  lemma FullUrlHasColon(path: string)
    ensures StartsWith(ToLower(path), "http://") || StartsWith(ToLower(path), "https://") ==> Contains(path, "://")
  {
    hide FindFrom;
    var lower := ToLower(path);
    if StartsWith(lower, "http://") {
      assert lower[4] == lower[..7][4] && lower[5] == lower[..7][5] && lower[6] == lower[..7][6];
      assert At(path, "://", 4);
    } else if StartsWith(lower, "https://") {
      assert lower[5] == lower[..8][5] && lower[6] == lower[..8][6] && lower[7] == lower[..8][7];
      assert At(path, "://", 5);
    }
  }

  lemma ActionWords(enabled: Option<bool>, action: Option<string>)
    ensures var r := NormalizeActionOverride(enabled, action);
            && (r.Ok? <==> ActionGood(enabled, action))
            && (r.Ok? && r.value.None? <==> enabled.None?)
            && (r.Ok? && r.value.Some? ==> r.value.value == ActionMeant(enabled, action, None))
  {
    hide Trim, ToLower, Contains;
    NonEmptyIs(action);
    FullUrlHasColon(Plain(action));
    NothingContained();
  }

  lemma NothingContained()
    ensures !Contains("", "://")
  {
  }

  lemma KeyParamsWords(json: Json)
    ensures CheckAuthParams(APIKEY, json).Ok? <==> KeyParamsGood(json)
  {
    hide ReadApiKeyParams, ReadUserPassParams, Trim, ToLower;
    StoredTypesDiffer();
    BearerIsBearer();
  }

  lemma BearerIsBearer()
    ensures Word("bearer") == "bearer"
  {
    PlainWord("bearer");
  }

  lemma PairParamsWords(json: Json)
    ensures CheckAuthParams(USERPASS, json).Ok? <==> PairParamsGood(json)
  {
    hide ReadApiKeyParams, ReadUserPassParams, Trim, ToLower;
    StoredTypesDiffer();
    NothingTrimmed();
  }

  lemma NothingTrimmed()
    ensures Trim(Rust, "") == ""
  {
  }

  lemma ParamsWords(env: Env, authType: string, enabled: Option<bool>, authParams: Option<Json>)
    requires authType == APIKEY || authType == USERPASS
    ensures var r := NormalizeAuthParamsJson(env, authType, enabled, authParams);
            && (r.Ok? <==> ParamsGood(authType, enabled, authParams))
            && (r.Ok? ==> r.value == match enabled
                                     case None => None
                                     case Some(false) => Some("")
                                     case Some(true) => Some(env.encode(authParams.value)))
  {
    hide CheckAuthParams, KeyParamsGood, PairParamsGood;
    StoredTypesDiffer();
    if authParams.Some? {
      KeyParamsWords(authParams.value);
      PairParamsWords(authParams.value);
    }
  }

  // --------------------------------------------------------- the nine steps

  lemma TypeStep(e: Entry, q: UpdateRequest)
    ensures AuthTypeStage(q).Ok? <==> SaysIfAny(q.authType, KEY_WORDS + USERPASS_WORDS)
    ensures AuthTypeStage(q).Ok? ==>
              After(e, AuthTypeStage(q)) ==
                if q.authType.None? then e else e.(record := e.record.(authType := TypeMeant(q.authType.value)))
  {
    hide NormalizeAuthType, TypeMeant, Canonical;
    if q.authType.Some? { TypeWords(q.authType.value); }
  }

  lemma ProviderStep(e: Entry, q: UpdateRequest)
    ensures ProviderTypeStage(q).Ok? <==> SaysIfAny(q.providerType, CODEX_WORDS + CLAUDE_WORDS)
    ensures ProviderTypeStage(q).Ok? ==>
              After(e, ProviderTypeStage(q)) ==
                if q.providerType.None? then e
                else e.(record := e.record.(providerType := ProviderMeant(q.providerType.value)))
  {
    hide NormalizeProviderType, ProviderMeant, Canonical;
    if q.providerType.Some? { ProviderWords(q.providerType.value); }
  }

  lemma SupplierStep(e: Entry, q: UpdateRequest)
    ensures SupplierNameStage(q).Ok? <==> Plain(q.supplierName) != ""
    ensures SupplierNameStage(q).Ok? ==>
              After(e, SupplierNameStage(q)) == e.(record := e.record.(supplierName := Some(Plain(q.supplierName))))
  {
    hide NonEmpty, Plain;
    NonEmptyIs(q.supplierName);
  }

  lemma SortStep(e: Entry, q: UpdateRequest)
    ensures SortStage(q).Ok?
    ensures After(e, SortStage(q)) == e.(record := e.record.(sort := Either(q.sort, e.record.sort)))
  {
  }

  lemma StatusStep(e: Entry, q: UpdateRequest)
    ensures StatusStage(q).Ok? <==> SaysIfAny(q.status, ACTIVE_WORDS + DISABLED_WORDS)
    ensures StatusStage(q).Ok? ==>
              After(e, StatusStage(q)) ==
                if q.status.None? then e else e.(record := e.record.(status := StatusMeant(q.status.value)))
  {
    hide NormalizeStatus, StatusMeant, Canonical;
    if q.status.Some? { StatusWords(q.status.value); }
  }

  /** The address, if given, normalises to one. */
  predicate UrlGood(env: Env, url: Option<string>) {
    url.Some? ==> env.normalizeUrl(url).Ok? && env.normalizeUrl(url).value.Some?
  }

  lemma UrlStep(env: Env, e: Entry, q: UpdateRequest)
    ensures UrlStage(env, q).Ok? <==> UrlGood(env, q.url)
    ensures UrlStage(env, q).Ok? ==>
              After(e, UrlStage(env, q)) ==
                if q.url.None? then e else e.(record := e.record.(url := env.normalizeUrl(q.url).value.value))
  {
  }

  lemma ParamsStep(env: Env, e: Entry, authType: string, q: UpdateRequest)
    requires env.Lawful() && (authType == APIKEY || authType == USERPASS)
    ensures AuthParamsStage(env, authType, q).Ok? <==> ParamsGood(authType, q.authCustomEnabled, q.authParams)
    ensures AuthParamsStage(env, authType, q).Ok? ==>
              After(e, AuthParamsStage(env, authType, q)) ==
                var meant := ParamsMeant(env, q.authCustomEnabled, q.authParams, e.record.authParamsJson);
                e.(record := e.record.(authParamsJson := meant))
  {
    hide NormalizeAuthParamsJson, Trim, KeyParamsGood, PairParamsGood;
    ParamsWords(env, authType, q.authCustomEnabled, q.authParams);
    TrimOfTrimmed(Rust, "");
    if q.authParams.Some? {
      assert Trimmed(Rust, env.encode(q.authParams.value)) && env.encode(q.authParams.value) != "";
      TrimOfTrimmed(Rust, env.encode(q.authParams.value));
    }
  }

  lemma MeantActionTrimmed(enabled: Option<bool>, action: Option<string>)
    ensures var meant := ActionMeant(enabled, action, None); meant.Some? ==> Trimmed(Rust, meant.value)
  {
    hide TrimStart, TrimEnd;
  }

  lemma ActionStep(e: Entry, q: UpdateRequest)
    ensures ActionStage(q).Ok? <==> ActionGood(q.actionCustomEnabled, q.action)
    ensures ActionStage(q).Ok? ==>
              After(e, ActionStage(q)) ==
                e.(record := e.record.(action := ActionMeant(q.actionCustomEnabled, q.action, e.record.action)))
  {
    hide NormalizeActionOverride, Trim, Contains, Plain;
    ActionWords(q.actionCustomEnabled, q.action);
    MeantActionTrimmed(q.actionCustomEnabled, q.action);
    var meant := ActionMeant(q.actionCustomEnabled, q.action, None);
    if meant.Some? { TrimOfTrimmed(Rust, meant.value); }
  }

  lemma ReadsUserPass(env: Env, username: string, password: string)
    requires env.Lawful()
    ensures DecodeUserPass(env, UserPassSecret(env, username, password)) == Some(UserPass(username, password))
  {
    var json := SecretJson(UserPass(username, password));
    assert env.decode(env.encode(json)) == Some(json);
    assert "username" != "password" by { assert "username"[0] != "password"[0]; }
  }

  lemma SecretStep(env: Env, e: Entry, authType: string, changed: bool, q: UpdateRequest)
    requires env.Lawful() && (authType == APIKEY || authType == USERPASS)
    ensures var stage := SecretStage(env, authType, changed, q);
            var given := Plain(if authType == APIKEY then q.key else q.username) != "";
            && (stage.Ok? <==> CredentialsGood(authType, changed, q.key, q.username, q.password))
            && After(e, stage).record == e.record
            && (stage.Ok? && !given ==> After(e, stage).secret == e.secret)
            && (stage.Ok? && given ==>
                  After(e, stage).secret.Some?
                  && SecretIsFor(env, authType, After(e, stage).secret.value, q.key, q.username, q.password))
  {
    hide NonEmpty, Plain, DecodeUserPass, UserPassSecret;
    StoredTypesDiffer();
    NonEmptyIs(q.key);
    NonEmptyIs(q.username);
    NonEmptyIs(q.password);
    ReadsUserPass(env, Plain(q.username), Plain(q.password));
  }

  // ------------------------------------------------------------- an update

  /** The type after an update, for a record whose own type is a stored one. */
  function TypeAfter(record: Record, q: UpdateRequest): string {
    if q.authType.Some? then TypeMeant(q.authType.value) else record.authType
  }

  predicate RequestGood(env: Env, record: Record, q: UpdateRequest) {
    var authType := TypeAfter(record, q);
    && SaysIfAny(q.authType, KEY_WORDS + USERPASS_WORDS)
    && SaysIfAny(q.providerType, CODEX_WORDS + CLAUDE_WORDS)
    && Plain(q.supplierName) != ""
    && SaysIfAny(q.status, ACTIVE_WORDS + DISABLED_WORDS)
    && UrlGood(env, q.url)
    && ParamsGood(authType, q.authCustomEnabled, q.authParams)
    && ActionGood(q.actionCustomEnabled, q.action)
    && CredentialsGood(authType, authType != record.authType, q.key, q.username, q.password)
  }

  lemma TypeAfterIs(e: Entry, q: UpdateRequest)
    requires ExistingAuthType(e.record) == e.record.authType && AuthTypeStage(q).Ok?
    ensures NextAuthType(e.record, q) == TypeAfter(e.record, q)
  {
    hide NormalizeAuthType, TypeMeant, ExistingAuthType;
    TypeStep(e, q);
  }

  lemma AcceptsNine(env: Env, record: Record, q: UpdateRequest)
    ensures var authType := NextAuthType(record, q);
            Accepts(env, record, q) <==>
              && AuthTypeStage(q).Ok? && ProviderTypeStage(q).Ok? && SupplierNameStage(q).Ok? && SortStage(q).Ok?
              && StatusStage(q).Ok? && UrlStage(env, q).Ok? && AuthParamsStage(env, authType, q).Ok?
                && ActionStage(q).Ok?
              && SecretStage(env, authType, authType != ExistingAuthType(record), q).Ok?
  {
    hide StageAt, AuthTypeStage, ProviderTypeStage, SupplierNameStage, SortStage, StatusStage, UrlStage,
         AuthParamsStage, ActionStage, SecretStage, ExistingAuthType, NextAuthType;
    StagesAre(env, record, q);
  }

  lemma DoneMeansAccepts(env: Env, e: Entry, q: UpdateRequest, fails: Faults)
    requires forall k :: !fails(k)
    ensures UpdateEntry(env, e, q, fails).outcome == Done <==> Accepts(env, e.record, q)
  {
    hide StageAt, RunFrom;
    RunThrough(env, e.record, q, 0, e, fails);
  }

  /** An update that no write fails is accepted exactly if the request is good. */
  lemma UpdateAccepted(env: Env, e: Entry, q: UpdateRequest, fails: Faults)
    requires env.Lawful() && Sound(env, e) && forall k :: !fails(k)
    ensures UpdateEntry(env, e, q, fails).outcome == Done <==> RequestGood(env, e.record, q)
  {
    hide UpdateEntry, Accepts, AuthTypeStage, ProviderTypeStage, SupplierNameStage, SortStage, StatusStage, UrlStage,
         AuthParamsStage, ActionStage, SecretStage, SaysIfAny, Plain, UrlGood, ParamsGood, ActionGood,
         CredentialsGood, ExistingAuthType, NextAuthType, TypeAfter, Written, After;
    ExistingOfSound(env, e);
    DoneMeansAccepts(env, e, q, fails);
    AcceptsNine(env, e.record, q);
    TypeStep(e, q);
    ProviderStep(e, q);
    SupplierStep(e, q);
    SortStep(e, q);
    StatusStep(e, q);
    UrlStep(env, e, q);
    ActionStep(e, q);
    if AuthTypeStage(q).Ok? {
      TypeAfterIs(e, q);
      NextIsAType(e.record, q);
      var next := NextAuthType(e.record, q);
      ParamsStep(env, e, next, q);
      SecretStep(env, e, next, next != ExistingAuthType(e.record), q);
    }
  }

  /** The entry that the first eight steps leave. */
  lemma UpdateNine(env: Env, e: Entry, q: UpdateRequest)
    ensures var authType := NextAuthType(e.record, q);
            var e3 := After(After(After(e, AuthTypeStage(q)), ProviderTypeStage(q)), SupplierNameStage(q));
            var e6 := After(After(After(e3, SortStage(q)), StatusStage(q)), UrlStage(env, q));
            AfterFrom(env, e.record, q, 0, e) ==
              After(After(After(e6, AuthParamsStage(env, authType, q)), ActionStage(q)),
                    SecretStage(env, authType, authType != ExistingAuthType(e.record), q))
  {
    hide StageAt, After, AuthTypeStage, ProviderTypeStage, SupplierNameStage, SortStage, StatusStage, UrlStage,
         AuthParamsStage, ActionStage, SecretStage, ExistingAuthType, NextAuthType;
    StagesAre(env, e.record, q);
    var e1 := After(e, AuthTypeStage(q));
    var e2 := After(e1, ProviderTypeStage(q));
    var e3 := After(e2, SupplierNameStage(q));
    var e4 := After(e3, SortStage(q));
    var e5 := After(e4, StatusStage(q));
    assert AfterFrom(env, e.record, q, 0, e) == AfterFrom(env, e.record, q, 3, e3);
    assert AfterFrom(env, e.record, q, 3, e3) == AfterFrom(env, e.record, q, 5, e5);
  }

  /**
   * What an update that returned Ok leaves, field by field: everything the request gave, in its normal
   * form, and everything else as before. New credentials are in the secret, each in its place.
   */
  lemma UpdateEffect(env: Env, e: Entry, q: UpdateRequest, fails: Faults)
    requires env.Lawful() && Sound(env, e) && UpdateEntry(env, e, q, fails).outcome == Done
    ensures var r := UpdateEntry(env, e, q, fails).entry;
            var given := Plain(if r.record.authType == APIKEY then q.key else q.username) != "";
            && r.record.authType == (if q.authType.Some? then TypeMeant(q.authType.value) else e.record.authType)
            && r.record.providerType ==
                 (if q.providerType.Some? then ProviderMeant(q.providerType.value) else e.record.providerType)
            && r.record.supplierName == Some(Plain(q.supplierName))
            && r.record.sort == Either(q.sort, e.record.sort)
            && r.record.status == (if q.status.Some? then StatusMeant(q.status.value) else e.record.status)
            && (q.url.Some? ==> env.normalizeUrl(q.url) == Ok(Some(r.record.url)))
            && (q.url.None? ==> r.record.url == e.record.url)
            && (q.authCustomEnabled == Some(true) ==> q.authParams.Some?)
            && r.record.authParamsJson ==
                 ParamsMeant(env, q.authCustomEnabled, q.authParams, e.record.authParamsJson)
            && r.record.action == ActionMeant(q.actionCustomEnabled, q.action, e.record.action)
            && (!given ==> r.secret == e.secret)
            && (given ==> r.secret.Some?
                          && SecretIsFor(env, r.record.authType, r.secret.value, q.key, q.username, q.password))
  {
    hide UpdateEntry, Accepts, AfterFrom, AuthTypeStage, ProviderTypeStage, SupplierNameStage, SortStage, StatusStage,
         UrlStage, AuthParamsStage, ActionStage, SecretStage, SaysIfAny, Plain, ActionGood, CredentialsGood,
         ExistingAuthType, NextAuthType, TypeMeant, ProviderMeant, StatusMeant, ActionMeant, Written, After, Either,
         SecretIsFor, KeyParamsGood, PairParamsGood;
    UpdateDone(env, e, q, fails);
    AcceptsNine(env, e.record, q);
    ExistingOfSound(env, e);
    UpdateNine(env, e, q);
    TypeAfterIs(e, q);
    NextIsAType(e.record, q);
    var next := NextAuthType(e.record, q);
    TypeStep(e, q);
    var e1 := After(e, AuthTypeStage(q));
    ProviderStep(e1, q);
    var e2 := After(e1, ProviderTypeStage(q));
    SupplierStep(e2, q);
    var e3 := After(e2, SupplierNameStage(q));
    SortStep(e3, q);
    var e4 := After(e3, SortStage(q));
    StatusStep(e4, q);
    var e5 := After(e4, StatusStage(q));
    UrlStep(env, e5, q);
    var e6 := After(e5, UrlStage(env, q));
    ParamsStep(env, e6, next, q);
    var e7 := After(e6, AuthParamsStage(env, next, q));
    ActionStep(e7, q);
    var e8 := After(e7, ActionStage(q));
    SecretStep(env, e8, next, next != ExistingAuthType(e.record), q);
  }

  // ------------------------------------------------------ creating and reading

  function TypeOf(authType: Option<string>): string {
    if authType.Some? then TypeMeant(authType.value) else APIKEY
  }

  function ProviderOf(providerType: Option<string>): string {
    if providerType.Some? then ProviderMeant(providerType.value) else "codex"
  }

  predicate CreationGood(env: Env, q: CreateRequest) {
    && SaysIfAny(q.providerType, CODEX_WORDS + CLAUDE_WORDS)
    && Plain(q.supplierName) != ""
    && env.normalizeUrl(q.url).Ok?
    && SaysIfAny(q.authType, KEY_WORDS + USERPASS_WORDS)
    && ParamsGood(TypeOf(q.authType), q.authCustomEnabled, q.authParams)
    && ActionGood(q.actionCustomEnabled, q.action)
    && (if TypeOf(q.authType) == APIKEY then Plain(q.key) != "" else Plain(q.username) != "" && Plain(q.password) != "")
  }

  lemma ProviderChoice(providerType: Option<string>)
    ensures var r := NormalizeProviderType(providerType);
            && (r.Ok? <==> SaysIfAny(providerType, CODEX_WORDS + CLAUDE_WORDS))
            && (r.Ok? ==> r.value == ProviderOf(providerType))
  {
    hide Canonical;
    if providerType.Some? { ProviderWords(providerType.value); }
  }

  lemma TypeChoice(authType: Option<string>)
    ensures var r := NormalizeAuthType(authType);
            && (r.Ok? <==> SaysIfAny(authType, KEY_WORDS + USERPASS_WORDS))
            && (r.Ok? ==> r.value == TypeOf(authType))
            && (TypeOf(authType) == APIKEY || TypeOf(authType) == USERPASS)
  {
    hide Canonical;
    if authType.Some? { TypeWords(authType.value); }
  }

  lemma SecretChoice(env: Env, authType: string, q: CreateRequest)
    requires env.Lawful() && (authType == APIKEY || authType == USERPASS)
    ensures var r := NewSecret(env, authType, q);
            && (r.Ok? <==> if authType == APIKEY then Plain(q.key) != ""
              else Plain(q.username) != "" && Plain(q.password) != "")
            && (r.Ok? ==> SecretIsFor(env, authType, r.value, q.key, q.username, q.password))
  {
    hide NonEmpty, Plain, DecodeUserPass, UserPassSecret;
    StoredTypesDiffer();
    NonEmptyIs(q.key);
    NonEmptyIs(q.username);
    NonEmptyIs(q.password);
    ReadsUserPass(env, Plain(q.username), Plain(q.password));
  }

  lemma ParamsChoice(env: Env, authType: string, enabled: Option<bool>, authParams: Option<Json>)
    requires env.Lawful() && (authType == APIKEY || authType == USERPASS)
    ensures var r := NormalizeAuthParamsJson(env, authType, enabled, authParams);
            && (r.Ok? <==> ParamsGood(authType, enabled, authParams))
            && (r.Ok? ==> (if r.value.Some? && r.value.value != "" then r.value else None)
                          == ParamsMeant(env, enabled, authParams, None))
  {
    hide NormalizeAuthParamsJson, KeyParamsGood, PairParamsGood;
    ParamsWords(env, authType, enabled, authParams);
    if authParams.Some? { assert env.encode(authParams.value) != ""; }
  }

  /** A creation is accepted exactly if the request is good, and then every field is the one it asks for. */
  lemma CreateEffect(env: Env, q: CreateRequest)
    requires env.Lawful()
    ensures var r := Prepare(env, q);
            && (r.Ok? <==> CreationGood(env, q))
            && (r.Ok? ==>
                  && (q.authCustomEnabled == Some(true) ==> q.authParams.Some?)
                  && r.value.record == Record(
                       ProviderOf(q.providerType), Some(Plain(q.supplierName)), Either(q.sort, 0),
                       Either(env.normalizeUrl(q.url).value,
                              if ProviderOf(q.providerType) == "claude" then "https://api.anthropic.com/v1"
                              else "https://api.openai.com/v1"),
                       TypeOf(q.authType), ParamsMeant(env, q.authCustomEnabled, q.authParams, None),
                       ActionMeant(q.actionCustomEnabled, q.action, None), "active")
                  && SecretIsFor(env, TypeOf(q.authType), r.value.secret, q.key, q.username, q.password))
  {
    hide NormalizeProviderType, NormalizeAuthType, NormalizeAuthParamsJson, NormalizeActionOverride, NonEmpty,
         NewSecret, Plain, SaysIfAny, ActionGood, ActionMeant, SecretIsFor, ProviderOf, TypeOf, KeyParamsGood,
         PairParamsGood, ParamsMeant, env.Lawful;
    NonEmptyIs(q.supplierName);
    ProviderChoice(q.providerType);
    TypeChoice(q.authType);
    ParamsChoice(env, TypeOf(q.authType), q.authCustomEnabled, q.authParams);
    ActionWords(q.actionCustomEnabled, q.action);
    MeantAction(q.actionCustomEnabled, q.action);
    SecretChoice(env, TypeOf(q.authType), q);
  }

  lemma MeantAction(enabled: Option<bool>, action: Option<string>)
    ensures enabled.None? ==> ActionMeant(enabled, action, None) == None
  {
  }

  /** Reading a sound entry gives back exactly the credentials its secret holds. */
  lemma ReadsCredentials(env: Env, id: string, e: Entry)
    requires Sound(env, e)
    ensures e.record.authType == APIKEY ==>
              ReadEntry(env, id, e) == Ok(SecretResult(id, e.secret.value, APIKEY, None, None))
    ensures e.record.authType == USERPASS ==>
              var pair := DecodeUserPass(env, e.secret.value).value;
              ReadEntry(env, id, e) == Ok(SecretResult(id, "", USERPASS, Some(pair.username), Some(pair.password)))
  {
    hide NormalizeAuthType, DecodeUserPass;
    StoredTypesDiffer();
    NormalizeStored(e.record.authType);
  }

  /** Created and read back: the credentials of the request, without the blanks around them. */
  lemma CreatedReadsBack(env: Env, id: string, q: CreateRequest)
    requires env.Lawful() && Prepare(env, q).Ok?
    ensures var p := Prepare(env, q).value;
            ReadEntry(env, id, Entry(p.record, Some(p.secret))) ==
              if TypeOf(q.authType) == APIKEY then Ok(SecretResult(id, Plain(q.key), APIKEY, None, None))
              else Ok(SecretResult(id, "", USERPASS, Some(Plain(q.username)), Some(Plain(q.password))))
  {
    hide Prepare, ReadEntry, Plain, TypeOf, DecodeUserPass;
    CreateEffect(env, q);
    PreparedIsSound(env, q);
    TypeChoice(q.authType);
    StoredTypesDiffer();
    var p := Prepare(env, q).value;
    ReadsCredentials(env, id, Entry(p.record, Some(p.secret)));
  }

  /** Updated and read back: new credentials if any were given, the old ones otherwise. */
  lemma UpdatedReadsBack(env: Env, id: string, e: Entry, q: UpdateRequest, fails: Faults)
    requires env.Lawful() && Sound(env, e) && UpdateEntry(env, e, q, fails).outcome == Done
    ensures var r := UpdateEntry(env, e, q, fails).entry;
            if r.record.authType == APIKEY then
              Plain(q.key) != "" ==> ReadEntry(env, id, r) == Ok(SecretResult(id, Plain(q.key), APIKEY, None, None))
            else if Plain(q.username) != "" then
              ReadEntry(env, id, r)
              == Ok(SecretResult(id, "", USERPASS, Some(Plain(q.username)), Some(Plain(q.password))))
            else r.record.authType == e.record.authType && ReadEntry(env, id, r) == ReadEntry(env, id, e)
  {
    hide UpdateEntry, ReadEntry, Plain, DecodeUserPass, NextAuthType, RequestGood, Sound;
    var r := UpdateEntry(env, e, q, fails).entry;
    UpdateEffect(env, e, q, fails);
    UpdateKeepsSound(env, e, q, fails);
    StoredTypesDiffer();
    ReadsCredentials(env, id, r);
    ReadsCredentials(env, id, e);
    SoundType(env, e);
    SoundType(env, r);
    UngivenKeepsType(env, e, q, fails);
  }

  lemma SoundType(env: Env, e: Entry)
    requires Sound(env, e)
    ensures e.record.authType == APIKEY || e.record.authType == USERPASS
  {
  }

  /** Without new credentials an accepted update keeps the type. */
  lemma UngivenKeepsType(env: Env, e: Entry, q: UpdateRequest, fails: Faults)
    requires env.Lawful() && Sound(env, e) && UpdateEntry(env, e, q, fails).outcome == Done
    ensures var authType := UpdateEntry(env, e, q, fails).entry.record.authType;
            Plain(if authType == APIKEY then q.key else q.username) == "" ==> authType == e.record.authType
  {
    hide UpdateEntry, Plain, NextAuthType, ExistingAuthType, SecretStage, StageAt, Sound, env.Lawful;
    UpdateDone(env, e, q, fails);
    UpdateKeepsSound(env, e, q, fails);
    ExistingOfSound(env, e);
    AcceptsNine(env, e.record, q);
    NextIsAType(e.record, q);
    var next := NextAuthType(e.record, q);
    SecretStep(env, e, next, next != ExistingAuthType(e.record), q);
  }
}
