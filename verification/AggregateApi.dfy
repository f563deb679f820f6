/** Aggregate API records and their secrets: create, update write by write, read, and probe. */
module AggregateApi {
  import opened Text
  import opened QueryParams

  datatype Result<+T> = Ok(value: T) | Err(message: string)

  /** The whole numbers the JSON library can hold. */
  type Integer = n: int | -0x8000_0000_0000_0000 <= n < 0x1_0000_0000_0000_0000

  datatype Json =
    | Null
    | Bool(b: bool)
    | Number(n: Integer)
    | Str(s: string)
    | Array(items: seq<Json>)
    | Object(fields: map<string, Json>)

  /**
   * The JSON and URL libraries, the URL normaliser and the HTTP client's header names, as far as
   * this code relies on them.
   */
  datatype Env = Env(
    encode: Json -> string,
    decode: string -> Option<Json>,
    normalizeUrl: Option<string> -> Result<Option<string>>,
    urls: UrlCodec,
    headerName: string -> bool)
  {
    ghost predicate Lawful() {
      forall json :: decode(encode(json)) == Some(json) && encode(json) != "" && Trimmed(Rust, encode(json))
    }

    /** The header names the code itself uses are header names. */
    predicate KnowsOwnHeaders() {
      headerName("authorization") && headerName("x-api-key") && headerName("api-key")
    }
  }

  const APIKEY := "apikey"
  const USERPASS := "userpass"

  // ------------------------------------------------------------ JSON shapes

  /**
   * The fields of a record type: by name in an object, by place in an array, of which optional ones at
   * the end may be missing. A field that is not given is null here.
   */
  function FieldsOf(json: Json, names: seq<string>, required: nat): (r: Option<seq<Json>>)
    ensures r.Some? ==> |r.value| == |names|
  {
    match json
    case Object(fields) =>
      Some(seq(|names|, k requires 0 <= k < |names| => if names[k] in fields then fields[names[k]] else Null))
    case Array(items) =>
      if !(required <= |items| <= |names|) then None
      else Some(seq(|names|, k => if 0 <= k < |items| then items[k] else Null))
    case _ => None
  }

  function StringOf(json: Json): Option<string> {
    if json.Str? then Some(json.s) else None
  }

  /** An optional string: null is fine, other types are not. */
  function OptionalOf(json: Json): Option<Option<string>> {
    match json
    case Null => Some(None)
    case Str(s) => Some(Some(s))
    case _ => None
  }

  datatype UserPass = UserPass(username: string, password: string)

  function SecretJson(secret: UserPass): Json {
    Object(map["username" := Str(secret.username), "password" := Str(secret.password)])
  }

  function ReadUserPass(json: Json): Option<UserPass> {
    match FieldsOf(json, ["username", "password"], 2)
    case None => None
    case Some(fields) =>
      match (StringOf(fields[0]), StringOf(fields[1]))
      case (Some(username), Some(password)) => Some(UserPass(username, password))
      case _ => None
  }

  function DecodeUserPass(env: Env, secret: string): Option<UserPass> {
    match env.decode(secret)
    case None => None
    case Some(json) => ReadUserPass(json)
  }

  datatype ApiKeyParams = ApiKeyParams(location: string, name: string, headerValueFormat: Option<string>)

  function ReadApiKeyParams(json: Json): Option<ApiKeyParams> {
    match FieldsOf(json, ["location", "name", "headerValueFormat"], 2)
    case None => None
    case Some(fields) =>
      match (StringOf(fields[0]), StringOf(fields[1]), OptionalOf(fields[2]))
      case (Some(location), Some(name), Some(format)) => Some(ApiKeyParams(location, name, format))
      case _ => None
  }

  datatype UserPassParams = UserPassParams(mode: string, usernameName: Option<string>, passwordName: Option<string>)

  function ReadUserPassParams(json: Json): Option<UserPassParams> {
    match FieldsOf(json, ["mode", "usernameName", "passwordName"], 1)
    case None => None
    case Some(fields) =>
      match (StringOf(fields[0]), OptionalOf(fields[1]), OptionalOf(fields[2]))
      case (Some(mode), Some(u), Some(p)) => Some(UserPassParams(mode, u, p))
      case _ => None
  }

  // ------------------------------------------------------------ normalizers

  function OrDefault(value: Option<string>, default: string): string {
    if value.Some? then value.value else default
  }

  function NonEmpty(value: Option<string>): (r: Option<string>)
    ensures r.Some? ==> r.value != "" && Trimmed(Rust, r.value)
  {
    if value.Some? && Trim(Rust, value.value) != "" then Some(Trim(Rust, value.value)) else None
  }

  function Canonical(raw: string): string {
    ReplaceAll(ToLower(Trim(Rust, raw)), "-", "_")
  }

  function NormalizeAuthType(value: Option<string>): (r: Result<string>)
    ensures r.Ok? ==> r.value == APIKEY || r.value == USERPASS
  {
    if value.None? then Ok(APIKEY)
    else
      var normalized := Canonical(value.value);
      if normalized in ["apikey", "api_key", "key"] then Ok(APIKEY)
      else if normalized in ["userpass", "username_password", "account_password", "basic", "http_basic"] then
        Ok(USERPASS)
      else Err("unsupported aggregate api auth type")
  }

  function NormalizeProviderType(value: Option<string>): Result<string> {
    if value.None? then Ok("codex")
    else
      var normalized := Canonical(value.value);
      if normalized in ["codex", "openai", "openai_compat", "gpt", "gemini", "gemini_native"] then Ok("codex")
      else if normalized in ["claude", "anthropic", "anthropic_native", "claude_code"] then Ok("claude")
      else Err("unsupported aggregate api provider type")
  }

  function ProviderDefaultUrl(providerType: string): string {
    if providerType == "claude" then "https://api.anthropic.com/v1" else "https://api.openai.com/v1"
  }

  function NormalizeStatus(raw: string): Result<string> {
    var normalized := Canonical(raw);
    if normalized in ["active", "enabled", "enable"] then Ok("active")
    else if normalized in ["disabled", "disable", "inactive"] then Ok("disabled")
    else Err("unsupported aggregate api status")
  }

  function NormalizeAction(value: Option<string>): Result<Option<string>> {
    match NonEmpty(value)
    case None => Ok(None)
    case Some(normalized) =>
      var lower := ToLower(normalized);
      if StartsWith(lower, "http://") || StartsWith(lower, "https://") then
        Err("aggregate api action must be a path, not a full url")
      else if Contains(normalized, "://") then Err("aggregate api action is invalid")
      else Ok(Some(if StartsWith(normalized, "/") then normalized else "/" + normalized))
  }

  function NormalizeActionOverride(enabled: Option<bool>, action: Option<string>): Result<Option<Option<string>>> {
    if enabled.None? then Ok(None)
    else if !enabled.value then Ok(Some(None))
    else match NormalizeAction(action)
      case Err(message) => Err(message)
      case Ok(value) => Ok(Some(Some(OrDefault(value, ""))))
  }

  /** What the parameters of each authentication type must say; `Ok` carries nothing. */
  function CheckAuthParams(authType: string, json: Json): Result<()> {
    if authType == APIKEY then
      match ReadApiKeyParams(json)
      case None => Err("authParams is invalid")
      case Some(parsed) =>
        var location := ToLower(Trim(Rust, parsed.location));
        var format := ToLower(Trim(Rust, OrDefault(parsed.headerValueFormat, "bearer")));
        if location != "header" && location != "query" then Err("authParams.location must be header or query")
        else if Trim(Rust, parsed.name) == "" then Err("authParams.name is required")
        else if location == "header" && format != "bearer" && format != "raw" then
          Err("authParams.headerValueFormat must be bearer or raw")
        else Ok(())
    else if authType == USERPASS then
      match ReadUserPassParams(json)
      case None => Err("authParams is invalid")
      case Some(parsed) =>
        var mode := ToLower(Trim(Rust, parsed.mode));
        if mode == "basic" then Ok(())
        else if mode == "headerpair" || mode == "querypair" then
          if Trim(Rust, OrDefault(parsed.usernameName, "")) == "" then Err("authParams.usernameName is required")
          else if Trim(Rust, OrDefault(parsed.passwordName, "")) == "" then Err("authParams.passwordName is required")
          else Ok(())
        else Err("authParams.mode must be basic, headerPair, or queryPair")
    else Ok(())
  }

  function NormalizeAuthParamsJson(env: Env, authType: string, enabled: Option<bool>,
                                   authParams: Option<Json>): Result<Option<string>> {
    if enabled.None? then Ok(None)
    else if !enabled.value then Ok(Some(""))
    else if authParams.None? then Err("authParams is required")
    else if !authParams.value.Object? then Err("authParams must be a JSON object")
    else if authParams.value.fields == map[] then Err("authParams must not be empty")
    else match CheckAuthParams(authType, authParams.value)
      case Err(message) => Err(message)
      case Ok(_) => Ok(Some(env.encode(authParams.value)))
  }

  // ------------------------------------------------------- records and writes

  datatype Record = Record(
    providerType: string, supplierName: Option<string>, sort: int, url: string, authType: string,
    authParamsJson: Option<string>, action: Option<string>, status: string)

  /** A record with its secret. */
  datatype Entry = Entry(record: Record, secret: Option<string>)

  datatype Write =
    | SetAuthType(authType: string)
    | SetProviderType(providerType: string)
    | SetSupplierName(supplierName: string)
    | SetSort(sort: int)
    | SetStatus(status: string)
    | SetUrl(url: string)
    | SetAuthParams(authParamsJson: Option<string>)
    | SetAction(action: Option<string>)
    | PutSecret(secret: string)

  function Written(e: Entry, write: Write): Entry {
    match write
    case SetAuthType(v) => e.(record := e.record.(authType := v))
    case SetProviderType(v) => e.(record := e.record.(providerType := v))
    case SetSupplierName(v) => e.(record := e.record.(supplierName := Some(v)))
    case SetSort(v) => e.(record := e.record.(sort := v))
    case SetStatus(v) => e.(record := e.record.(status := v))
    case SetUrl(v) => e.(record := e.record.(url := v))
    case SetAuthParams(v) => e.(record := e.record.(authParamsJson := v))
    case SetAction(v) => e.(record := e.record.(action := v))
    case PutSecret(v) => e.(secret := Some(v))
  }

  datatype UpdateRequest = UpdateRequest(
    url: Option<string>, key: Option<string>, providerType: Option<string>, supplierName: Option<string>,
    sort: Option<int>,
    status: Option<string>, authType: Option<string>, authCustomEnabled: Option<bool>, authParams: Option<Json>,
    actionCustomEnabled: Option<bool>, action: Option<string>, username: Option<string>, password: Option<string>)

  /** One step of an update: it may refuse the request, write nothing, or make one write. */
  type Stage = Result<Option<Write>>

  function ExistingAuthType(record: Record): string {
    match NormalizeAuthType(Some(record.authType))
    case Ok(authType) => authType
    case Err(_) => APIKEY
  }

  function AuthTypeStage(q: UpdateRequest): Stage {
    if q.authType.None? then Ok(None)
    else match NormalizeAuthType(q.authType)
      case Err(message) => Err(message)
      case Ok(authType) => Ok(Some(SetAuthType(authType)))
  }

  /** The type the record will have, once the request's own type has been accepted. */
  function NextAuthType(record: Record, q: UpdateRequest): string {
    match AuthTypeStage(q)
    case Ok(Some(SetAuthType(authType))) => authType
    case _ => ExistingAuthType(record)
  }

  function ProviderTypeStage(q: UpdateRequest): Stage {
    if q.providerType.None? then Ok(None)
    else match NormalizeProviderType(q.providerType)
      case Err(message) => Err(message)
      case Ok(providerType) => Ok(Some(SetProviderType(providerType)))
  }

  function SupplierNameStage(q: UpdateRequest): Stage {
    match NonEmpty(q.supplierName)
    case None => Err("supplier name is required")
    case Some(name) => Ok(Some(SetSupplierName(name)))
  }

  function SortStage(q: UpdateRequest): Stage {
    if q.sort.None? then Ok(None) else Ok(Some(SetSort(q.sort.value)))
  }

  function StatusStage(q: UpdateRequest): Stage {
    if q.status.None? then Ok(None)
    else match NormalizeStatus(q.status.value)
      case Err(message) => Err(message)
      case Ok(status) => Ok(Some(SetStatus(status)))
  }

  function UrlStage(env: Env, q: UpdateRequest): Stage {
    if q.url.None? then Ok(None)
    else match env.normalizeUrl(q.url)
      case Err(message) => Err(message)
      case Ok(None) => Err("url is required")
      case Ok(Some(url)) => Ok(Some(SetUrl(url)))
  }

  function AuthParamsStage(env: Env, authType: string, q: UpdateRequest): Stage {
    match NormalizeAuthParamsJson(env, authType, q.authCustomEnabled, q.authParams)
    case Err(message) => Err(message)
    case Ok(None) => Ok(None)
    case Ok(Some(json)) =>
      var normalized := Trim(Rust, json);
      Ok(Some(SetAuthParams(if normalized == "" then None else Some(normalized))))
  }

  function ActionStage(q: UpdateRequest): Stage {
    match NormalizeActionOverride(q.actionCustomEnabled, q.action)
    case Err(message) => Err(message)
    case Ok(None) => Ok(None)
    case Ok(Some(None)) => Ok(Some(SetAction(None)))
    case Ok(Some(Some(action))) => Ok(Some(SetAction(Some(Trim(Rust, action)))))
  }

  function UserPassSecret(env: Env, username: string, password: string): string {
    env.encode(SecretJson(UserPass(username, password)))
  }

  function SecretStage(env: Env, authType: string, changed: bool, q: UpdateRequest): Stage {
    if authType == APIKEY then
      match NonEmpty(q.key)
      case None => if changed then Err("key is required when switching authType to apikey") else Ok(None)
      case Some(secret) => Ok(Some(PutSecret(secret)))
    else
      match (NonEmpty(q.username), NonEmpty(q.password))
      case (Some(username), Some(password)) => Ok(Some(PutSecret(UserPassSecret(env, username, password))))
      case (None, None) =>
        if changed then Err("username and password are required when switching authType to userpass") else Ok(None)
      case _ => Err("username and password must be provided together")
  }

  const STEPS := 9

  /** The steps in the order in which they run, for the record as it was found. */
  function StageAt(env: Env, record: Record, q: UpdateRequest, k: nat): Stage
    requires k < STEPS
  {
    var authType := NextAuthType(record, q);
    if k == 0 then AuthTypeStage(q)
    else if k == 1 then ProviderTypeStage(q)
    else if k == 2 then SupplierNameStage(q)
    else if k == 3 then SortStage(q)
    else if k == 4 then StatusStage(q)
    else if k == 5 then UrlStage(env, q)
    else if k == 6 then AuthParamsStage(env, authType, q)
    else if k == 7 then ActionStage(q)
    else SecretStage(env, authType, authType != ExistingAuthType(record), q)
  }

  /** `fails(k)` says that the storage fails the write of step k. */
  type Faults = nat -> bool

  datatype Outcome = Done | Failed(message: string)

  datatype Run = Run(outcome: Outcome, entry: Entry)

  /** From step k on, with the entry as written so far. */
  function RunFrom(env: Env, found: Record, q: UpdateRequest, k: nat, e: Entry, fails: Faults): Run
    decreases STEPS - k
  {
    if k >= STEPS then Run(Done, e)
    else match StageAt(env, found, q, k)
      case Err(message) => Run(Failed(message), e)
      case Ok(None) => RunFrom(env, found, q, k + 1, e, fails)
      case Ok(Some(write)) =>
        if fails(k) then Run(Failed("storage"), e) else RunFrom(env, found, q, k + 1, Written(e, write), fails)
  }

  function UpdateEntry(env: Env, e: Entry, q: UpdateRequest, fails: Faults): Run {
    RunFrom(env, e.record, q, 0, e, fails)
  }

  lemma StagesAre(env: Env, record: Record, q: UpdateRequest)
    ensures StageAt(env, record, q, 0) == AuthTypeStage(q)
    ensures StageAt(env, record, q, 1) == ProviderTypeStage(q)
    ensures StageAt(env, record, q, 2) == SupplierNameStage(q)
    ensures StageAt(env, record, q, 3) == SortStage(q)
    ensures StageAt(env, record, q, 4) == StatusStage(q)
    ensures StageAt(env, record, q, 5) == UrlStage(env, q)
    ensures StageAt(env, record, q, 6) == AuthParamsStage(env, NextAuthType(record, q), q)
    ensures StageAt(env, record, q, 7) == ActionStage(q)
    ensures var authType := NextAuthType(record, q);
            StageAt(env, record, q, 8) == SecretStage(env, authType, authType != ExistingAuthType(record), q)
  {
    hide AuthTypeStage, ProviderTypeStage, SupplierNameStage, SortStage, StatusStage, UrlStage, AuthParamsStage,
         ActionStage, SecretStage, NextAuthType, ExistingAuthType;
  }

  // ------------------------------------------------------ creating and reading

  datatype CreateRequest = CreateRequest(
    url: Option<string>, key: Option<string>, providerType: Option<string>, supplierName: Option<string>,
    sort: Option<int>,
    authType: Option<string>, authCustomEnabled: Option<bool>, authParams: Option<Json>,
    actionCustomEnabled: Option<bool>, action: Option<string>, username: Option<string>, password: Option<string>)

  function NewSecret(env: Env, authType: string, q: CreateRequest): Result<string> {
    if authType == APIKEY then
      if NonEmpty(q.key).Some? then Ok(NonEmpty(q.key).value) else Err("key is required")
    else if NonEmpty(q.username).None? then Err("username is required")
    else if NonEmpty(q.password).None? then Err("password is required")
    else Ok(UserPassSecret(env, NonEmpty(q.username).value, NonEmpty(q.password).value))
  }

  datatype Prepared = Prepared(record: Record, secret: string)

  /** All checks of a creation come before its first write. */
  function Prepare(env: Env, q: CreateRequest): Result<Prepared> {
    match NormalizeProviderType(q.providerType)
    case Err(message) => Err(message)
    case Ok(providerType) =>
      if NonEmpty(q.supplierName).None? then Err("supplier name is required")
      else match env.normalizeUrl(q.url)
        case Err(message) => Err(message)
        case Ok(url) =>
          match NormalizeAuthType(q.authType)
          case Err(message) => Err(message)
          case Ok(authType) =>
            match NormalizeAuthParamsJson(env, authType, q.authCustomEnabled, q.authParams)
            case Err(message) => Err(message)
            case Ok(json) =>
              match NormalizeActionOverride(q.actionCustomEnabled, q.action)
              case Err(message) => Err(message)
              case Ok(action) =>
                match NewSecret(env, authType, q)
                case Err(message) => Err(message)
                case Ok(secret) =>
                  var record := Record(
                    providerType, NonEmpty(q.supplierName), if q.sort.Some? then q.sort.value else 0,
                    OrDefault(url, ProviderDefaultUrl(providerType)), authType,
                    if json.Some? && json.value != "" then json else None,
                    if action.Some? then action.value else None, "active");
                  Ok(Prepared(record, secret))
  }

  datatype SecretResult = SecretResult(
    id: string, key: string, authType: string, username: Option<string>, password: Option<string>)

  function ReadEntry(env: Env, id: string, e: Entry): Result<SecretResult> {
    match e.secret
    case None => Err("aggregate api secret not found")
    case Some(key) =>
      match NormalizeAuthType(Some(e.record.authType))
      case Err(message) => Err(message)
      case Ok(authType) =>
        if authType == USERPASS then
          match DecodeUserPass(env, key)
          case None => Err("invalid aggregate api secret")
          case Some(parsed) => Ok(SecretResult(id, "", authType, Some(parsed.username), Some(parsed.password)))
        else Ok(SecretResult(id, key, authType, None, None))
  }

  // ------------------------------------------------------------ the storage

  class Storage {
    var records: map<string, Record>
    var secrets: map<string, string>

    constructor ()
      ensures records == map[] && secrets == map[]
    {
      records, secrets := map[], map[];
    }

    function SecretOf(id: string): Option<string>
      reads this
    {
      if id in secrets then Some(secrets[id]) else None
    }

    function EntryOf(id: string): Entry
      reads this
      requires id in records
    {
      Entry(records[id], SecretOf(id))
    }

    /** Everything stored under other ids. */
    function Others(id: string): (map<string, Record>, map<string, string>)
      reads this
    {
      (records - {id}, secrets - {id})
    }

    /** One statement against one row: the named field gets the value, and every other field stays. */
    method Perform(id: string, write: Write)
      requires id in records
      modifies this
      ensures id in records && EntryOf(id) == Written(old(EntryOf(id)), write)
      ensures Others(id) == old(Others(id))
      ensures var row := old(records[id]);
              match write
              case SetAuthType(v) => records[id] == row.(authType := v) && secrets == old(secrets)
              case SetProviderType(v) => records[id] == row.(providerType := v) && secrets == old(secrets)
              case SetSupplierName(v) => records[id] == row.(supplierName := Some(v)) && secrets == old(secrets)
              case SetSort(v) => records[id] == row.(sort := v) && secrets == old(secrets)
              case SetStatus(v) => records[id] == row.(status := v) && secrets == old(secrets)
              case SetUrl(v) => records[id] == row.(url := v) && secrets == old(secrets)
              case SetAuthParams(v) => records[id] == row.(authParamsJson := v) && secrets == old(secrets)
              case SetAction(v) => records[id] == row.(action := v) && secrets == old(secrets)
              case PutSecret(v) => records[id] == row && secrets == old(secrets)[id := v]
    {
      var row := records[id];
      match write {
        case SetAuthType(v) => row := row.(authType := v);
        case SetProviderType(v) => row := row.(providerType := v);
        case SetSupplierName(v) => row := row.(supplierName := Some(v));
        case SetSort(v) => row := row.(sort := v);
        case SetStatus(v) => row := row.(status := v);
        case SetUrl(v) => row := row.(url := v);
        case SetAuthParams(v) => row := row.(authParamsJson := v);
        case SetAction(v) => row := row.(action := v);
        case PutSecret(v) => secrets := secrets[id := v];
      }
      records := records[id := row];
      assert records - {id} == old(records) - {id};
      assert secrets - {id} == old(secrets) - {id};
    }

    /** Step k of an update: refused, skipped, failed in the storage, or written. */
    method Take(env: Env, id: string, ghost found: Record, q: UpdateRequest, ghost k: nat, stage: Stage, fail: bool,
                ghost fails: Faults) returns (error: Option<string>)
      requires id in records && k < STEPS && stage == StageAt(env, found, q, k) && fail == fails(k)
      modifies this
      ensures id in records && Others(id) == old(Others(id))
      ensures RunFrom(env, found, q, k, old(EntryOf(id)), fails) ==
                if error.Some? then Run(Failed(error.value), EntryOf(id))
                else RunFrom(env, found, q, k + 1, EntryOf(id), fails)
    {
      hide Written, StageAt;
      match stage
      case Err(message) => return Some(message);
      case Ok(None) => return None;
      case Ok(Some(write)) =>
        if fail {
          return Some("storage");
        }
        Perform(id, write);
        return None;
    }

    /** Authentication type, provider type and supplier name. */
    method UpdateKind(env: Env, id: string, found: Record, q: UpdateRequest, fails: Faults)
      returns (error: Option<string>)
      requires id in records
      modifies this
      ensures id in records && Others(id) == old(Others(id))
      ensures RunFrom(env, found, q, 0, old(EntryOf(id)), fails) ==
                if error.Some? then Run(Failed(error.value), EntryOf(id))
                else RunFrom(env, found, q, 3, EntryOf(id), fails)
    {
      hide AuthTypeStage, ProviderTypeStage, SupplierNameStage, SortStage, StatusStage, UrlStage, AuthParamsStage,
           ActionStage, SecretStage, StageAt, RunFrom, NextAuthType, ExistingAuthType, Others, EntryOf;
      StagesAre(env, found, q);
      error := Take(env, id, found, q, 0, AuthTypeStage(q), fails(0), fails);
      if error.Some? { return; }
      error := Take(env, id, found, q, 1, ProviderTypeStage(q), fails(1), fails);
      if error.Some? { return; }
      error := Take(env, id, found, q, 2, SupplierNameStage(q), fails(2), fails);
    }

    /** Sort key, status and address. */
    method UpdatePlace(env: Env, id: string, found: Record, q: UpdateRequest, fails: Faults)
      returns (error: Option<string>)
      requires id in records
      modifies this
      ensures id in records && Others(id) == old(Others(id))
      ensures RunFrom(env, found, q, 3, old(EntryOf(id)), fails) ==
                if error.Some? then Run(Failed(error.value), EntryOf(id))
                else RunFrom(env, found, q, 6, EntryOf(id), fails)
    {
      hide AuthTypeStage, ProviderTypeStage, SupplierNameStage, SortStage, StatusStage, UrlStage, AuthParamsStage,
           ActionStage, SecretStage, StageAt, RunFrom, NextAuthType, ExistingAuthType, Others, EntryOf;
      StagesAre(env, found, q);
      error := Take(env, id, found, q, 3, SortStage(q), fails(3), fails);
      if error.Some? { return; }
      error := Take(env, id, found, q, 4, StatusStage(q), fails(4), fails);
      if error.Some? { return; }
      error := Take(env, id, found, q, 5, UrlStage(env, q), fails(5), fails);
    }

    /** Authentication parameters, action and secret, all for the type the record now has. */
    method UpdateAccess(env: Env, id: string, found: Record, q: UpdateRequest, fails: Faults)
      returns (error: Option<string>)
      requires id in records
      modifies this
      ensures id in records && Others(id) == old(Others(id))
      ensures RunFrom(env, found, q, 6, old(EntryOf(id)), fails) ==
                if error.Some? then Run(Failed(error.value), EntryOf(id))
                else RunFrom(env, found, q, 9, EntryOf(id), fails)
    {
      hide AuthTypeStage, ProviderTypeStage, SupplierNameStage, SortStage, StatusStage, UrlStage, AuthParamsStage,
           ActionStage, SecretStage, StageAt, RunFrom, NextAuthType, ExistingAuthType, Others, EntryOf;
      StagesAre(env, found, q);
      var authType := NextAuthType(found, q);
      var changed := authType != ExistingAuthType(found);
      error := Take(env, id, found, q, 6, AuthParamsStage(env, authType, q), fails(6), fails);
      if error.Some? { return; }
      error := Take(env, id, found, q, 7, ActionStage(q), fails(7), fails);
      if error.Some? { return; }
      error := Take(env, id, found, q, 8, SecretStage(env, authType, changed, q), fails(8), fails);
    }

    method UpdateAggregateApi(env: Env, apiId: string, q: UpdateRequest, fails: Faults) returns (r: Outcome)
      modifies this
      ensures apiId == "" || apiId !in old(records) ==>
                r.Failed? && records == old(records) && secrets == old(secrets)
      ensures apiId != "" && apiId in old(records) ==>
                apiId in records && Run(r, EntryOf(apiId)) == UpdateEntry(env, old(EntryOf(apiId)), q, fails)
      ensures Others(apiId) == old(Others(apiId))
    {
      if apiId == "" {
        return Failed("aggregate api id required");
      }
      if apiId !in records {
        return Failed("aggregate api not found");
      }
      hide RunFrom, Others, EntryOf;
      var found := records[apiId];
      EntryRecord(apiId);
      var error := UpdateKind(env, apiId, found, q, fails);
      if error.Some? {
        return Failed(error.value);
      }
      error := UpdatePlace(env, apiId, found, q, fails);
      if error.Some? {
        return Failed(error.value);
      }
      error := UpdateAccess(env, apiId, found, q, fails);
      if error.Some? {
        return Failed(error.value);
      }
      RunEnd(env, found, q, EntryOf(apiId), fails);
      return Done;
    }

    /** The secret goes first; a row whose secret could not be deleted stays. */
    method Delete(id: string, secretFails: bool, recordFails: bool) returns (ok: bool)
      modifies this
      ensures ok == (!secretFails && !recordFails)
      ensures secrets == if secretFails then old(secrets) else old(secrets) - {id}
      ensures records == if ok then old(records) - {id} else old(records)
    {
      if secretFails {
        return false;
      }
      secrets := secrets - {id};
      if recordFails {
        return false;
      }
      records := records - {id};
      return true;
    }

    method DeleteAggregateApi(apiId: string, fails: Faults) returns (r: Outcome)
      modifies this
      ensures r == Done <==> apiId != "" && !fails(0) && !fails(1)
      ensures secrets == if apiId == "" || fails(0) then old(secrets) else old(secrets) - {apiId}
      ensures records == if r == Done then old(records) - {apiId} else old(records)
    {
      if apiId == "" {
        return Failed("aggregate api id required");
      }
      var ok := Delete(apiId, fails(0), fails(1));
      return if ok then Done else Failed("storage");
    }

    /** `fails` covers the insert (0), the secret (1) and the two statements of the compensating delete (2, 3). */
    method CreateAggregateApi(env: Env, newId: string, q: CreateRequest, fails: Faults)
      returns (r: Outcome, key: string)
      modifies this
      ensures var p := Prepare(env, q);
              if p.Err? || fails(0) then r.Failed? && records == old(records) && secrets == old(secrets)
              else if !fails(1) then
                && r == Done && key == (if p.value.record.authType == APIKEY then p.value.secret else "")
                && records == old(records)[newId := p.value.record] && secrets == old(secrets)[newId := p.value.secret]
              else
                && r.Failed?
                && secrets == (if fails(2) then old(secrets) else old(secrets) - {newId})
                && records == (if fails(2) || fails(3) then old(records)[newId := p.value.record]
                               else old(records) - {newId})
    {
      hide Prepare;
      var prepared := Prepare(env, q);
      match prepared
      case Err(message) => return Failed(message), "";
      case Ok(p) =>
        if fails(0) {
          return Failed("storage"), "";
        }
        records := records[newId := p.record];
        if fails(1) {
          var removed := Delete(newId, fails(2), fails(3));
          assert removed ==> records == old(records) - {newId};
          return Failed("persist aggregate api secret failed"), "";
        }
        secrets := secrets[newId := p.secret];
        return Done, if p.record.authType == APIKEY then p.secret else "";
    }

    method ReadAggregateApiSecret(env: Env, apiId: string) returns (r: Result<SecretResult>)
      ensures r == if apiId == "" then Err("aggregate api id required")
                   else if apiId !in records then Err("aggregate api not found")
                   else ReadEntry(env, apiId, EntryOf(apiId))
    {
      hide DecodeUserPass, NormalizeAuthType;
      if apiId == "" {
        return Err("aggregate api id required");
      }
      if apiId !in records {
        return Err("aggregate api not found");
      }
      if apiId !in secrets {
        return Err("aggregate api secret not found");
      }
      var key := secrets[apiId];
      var authType := NormalizeAuthType(Some(records[apiId].authType));
      if authType.Err? {
        return Err(authType.message);
      }
      if authType.value == USERPASS {
        var parsed := DecodeUserPass(env, key);
        if parsed.None? {
          return Err("invalid aggregate api secret");
        }
        return Ok(SecretResult(apiId, "", authType.value, Some(parsed.value.username), Some(parsed.value.password)));
      }
      return Ok(SecretResult(apiId, key, authType.value, None, None));
    }

    lemma EntryRecord(id: string)
      requires id in records
      ensures EntryOf(id).record == records[id]
    {
    }
  }

  lemma RunEnd(env: Env, found: Record, q: UpdateRequest, e: Entry, fails: Faults)
    ensures RunFrom(env, found, q, STEPS, e, fails) == Run(Done, e)
  {
  }

  // ---------------------------------------------------------------- probing

  datatype Header = Header(name: string, value: string) | BasicAuth(username: string, password: string)

  datatype Probe = Probe(headers: seq<Header>, url: string)

  /** Control characters other than the tab cannot stand in a header value. */
  predicate ValidHeaderValue(value: string) {
    forall k :: 0 <= k < |value| ==> value[k] == '\t' || (' ' <= value[k] && value[k] != '\U{007F}')
  }

  function UserPassProbe(env: Env, probe: Probe, secret: UserPass, authParams: Option<string>): Result<Probe> {
    var basic := Ok(probe.(headers := probe.headers + [BasicAuth(secret.username, secret.password)]));
    match authParams
    case None => basic
    case Some(raw) =>
      match env.decode(raw)
      case None => Err("invalid authParams")
      case Some(json) =>
        match ReadUserPassParams(json)
        case None => Err("invalid authParams")
        case Some(params) =>
          var mode := ToLower(Trim(Rust, params.mode));
          var usernameName := Trim(Rust, OrDefault(params.usernameName, "username"));
          var passwordName := Trim(Rust, OrDefault(params.passwordName, "password"));
          if mode == "headerpair" then
            Ok(probe.(headers := probe.headers
              + [Header(usernameName, secret.username), Header(passwordName, secret.password)]))
          else if mode == "querypair" then
            var url := SetQueryParam(env.urls, probe.url, usernameName, secret.username);
            Ok(probe.(url := SetQueryParam(env.urls, url, passwordName, secret.password)))
          else basic
  }

  function ApiKeyProbe(env: Env, probe: Probe, key: string, authParams: Option<string>): Result<Probe> {
    match authParams
    case None =>
      if ValidHeaderValue("Bearer " + key) then
        Ok(probe.(headers := probe.headers
          + [Header("authorization", "Bearer " + key), Header("x-api-key", key), Header("api-key", key)]))
      else Err("invalid aggregate api key")
    case Some(raw) =>
      match env.decode(raw)
      case None => Err("invalid authParams")
      case Some(json) =>
        match ReadApiKeyParams(json)
        case None => Err("invalid authParams")
        case Some(params) =>
          var name := Trim(Rust, params.name);
          var format := ToLower(Trim(Rust, OrDefault(params.headerValueFormat, "bearer")));
          if ToLower(Trim(Rust, params.location)) == "query" then
            Ok(probe.(url := SetQueryParam(env.urls, probe.url, name, key)))
          else
            Ok(probe.(headers := probe.headers + [Header(name, if format == "raw" then key else "Bearer " + key)]))
  }

  function ApplyProbeAuth(env: Env, probe: Probe, record: Record, secret: string): Result<Probe> {
    match NormalizeAuthType(Some(record.authType))
    case Err(message) => Err(message)
    case Ok(authType) =>
      var authParams := NonEmpty(record.authParamsJson);
      if authType == USERPASS then
        match DecodeUserPass(env, Trim(Rust, secret))
        case None => Err("invalid aggregate api secret")
        case Some(parsed) => UserPassProbe(env, probe, parsed, authParams)
      else ApiKeyProbe(env, probe, Trim(Rust, secret), authParams)
  }
}
