/** The configuration record of the Vault storage module, its defaults and
    its defaulting accessors, together with a field-by-field view of the
    record that the Caddyfile parser writes through. */
module VaultStorage {
  import opened Wrappers

  /** A Go `time.Duration`: a signed 64-bit count of nanoseconds. */
  type Duration = d: int | -0x8000_0000_0000_0000 <= d < 0x8000_0000_0000_0000

  const Second: Duration := 1_000_000_000
  const Minute: Duration := 60_000_000_000

  const DefaultApproleLoginPath: string := "auth/approle/login"
  const DefaultApproleLogoutPath: string := "auth/token/revoke-self"
  const DefaultLockTimeout: Duration := 5 * Minute
  const DefaultLockPollingInterval: Duration := 5 * Second

  /** A parsed Vault address. The URL type belongs to the storage library;
      the model keeps only the text it renders as. */
  datatype Url = Url(text: string)

  /** The module's configuration, the Go `Storage` struct. Its `URL`,
      `LockTimeout` and `LockPollingInterval` fields are Go pointers, so
      `url`, `lockTimeout` and `lockPollingInterval` may be unset (`None`);
      every other field has its Go zero value when unset. */
  datatype Storage = Storage(
    url: Option<Url>,
    token: string,
    approleLoginPath: string,
    approleLogoutPath: string,
    approleRoleId: string,
    approleSecretId: string,
    secretsPath: string,
    pathPrefix: string,
    insecureSkipVerify: bool,
    lockTimeout: Option<Duration>,
    lockPollingInterval: Option<Duration>)

  /** The zero value, which is what the host hands to the Caddyfile parser. */
  const Zero: Storage := Storage(None, "", "", "", "", "", "", "", false, None, None)

  /* ---------------- Defaulting accessors ---------------- */

  /** The AppRole login path actually used: never empty, the configured one
      when there is one. */
  function GetApproleLoginPath(s: Storage): (r: string)
    ensures r != ""
    ensures s.approleLoginPath != "" ==> r == s.approleLoginPath
    ensures s.approleLoginPath == "" ==> r == DefaultApproleLoginPath
  {
    if s.approleLoginPath != "" then s.approleLoginPath else DefaultApproleLoginPath
  }

  /** The AppRole logout (token revocation) path actually used. */
  function GetApproleLogoutPath(s: Storage): (r: string)
    ensures r != ""
    ensures s.approleLogoutPath != "" ==> r == s.approleLogoutPath
    ensures s.approleLogoutPath == "" ==> r == DefaultApproleLogoutPath
  {
    if s.approleLogoutPath != "" then s.approleLogoutPath else DefaultApproleLogoutPath
  }

  /** The lock timeout actually used. */
  function GetLockTimeout(s: Storage): (r: Duration)
    ensures s.lockTimeout.Some? ==> r == s.lockTimeout.value
    ensures s.lockTimeout.None? ==> r == DefaultLockTimeout
  {
    s.lockTimeout.GetOr(DefaultLockTimeout)
  }

  /** The lock polling interval actually used. */
  function GetLockPollingInterval(s: Storage): (r: Duration)
    ensures s.lockPollingInterval.Some? ==> r == s.lockPollingInterval.value
    ensures s.lockPollingInterval.None? ==> r == DefaultLockPollingInterval
  {
    s.lockPollingInterval.GetOr(DefaultLockPollingInterval)
  }

  /** Writing a default out explicitly is indistinguishable, through the
      accessors, from leaving the field unset; and defaulting twice is the
      same as defaulting once. */
  lemma DefaultsAreFixedPoints(s: Storage)
    ensures GetApproleLoginPath(s.(approleLoginPath := DefaultApproleLoginPath))
         == GetApproleLoginPath(s.(approleLoginPath := ""))
    ensures GetApproleLogoutPath(s.(approleLogoutPath := DefaultApproleLogoutPath))
         == GetApproleLogoutPath(s.(approleLogoutPath := ""))
    ensures GetLockTimeout(s.(lockTimeout := Some(DefaultLockTimeout)))
         == GetLockTimeout(s.(lockTimeout := None))
    ensures GetLockPollingInterval(s.(lockPollingInterval := Some(DefaultLockPollingInterval)))
         == GetLockPollingInterval(s.(lockPollingInterval := None))
    ensures GetApproleLoginPath(s.(approleLoginPath := GetApproleLoginPath(s))) == GetApproleLoginPath(s)
    ensures GetApproleLogoutPath(s.(approleLogoutPath := GetApproleLogoutPath(s))) == GetApproleLogoutPath(s)
    ensures GetLockTimeout(s.(lockTimeout := Some(GetLockTimeout(s)))) == GetLockTimeout(s)
    ensures GetLockPollingInterval(s.(lockPollingInterval := Some(GetLockPollingInterval(s))))
         == GetLockPollingInterval(s)
  {
  }

  /* ---------------- Vault API base URL ---------------- */

  const ApiVersionSuffix: string := "/v1/"

  /** Recovers the address text from a base URL, the inverse of
      `GetVaultBaseUrl`: `None` when `base` does not end in the API suffix. */
  function AddressOfBaseUrl(base: string): (r: Option<string>)
    ensures r.Some? <==> |base| >= |ApiVersionSuffix| && base[|base| - |ApiVersionSuffix|..] == ApiVersionSuffix
    ensures r.Some? ==> r.value + ApiVersionSuffix == base
  {
    var n := |ApiVersionSuffix|;
    if |base| >= n && base[|base| - n..] == ApiVersionSuffix then
      assert base == base[..|base| - n] + base[|base| - n..];
      Some(base[..|base| - n])
    else None
  }

  /** The base of every Vault API call: the address followed by the API
      version path. The address is recoverable from it. */
  function GetVaultBaseUrl(s: Storage): (r: string)
    requires s.url.Some?
    ensures |r| == |s.url.value.text| + |ApiVersionSuffix|
    ensures AddressOfBaseUrl(r) == Some(s.url.value.text)
  {
    var r := s.url.value.text + ApiVersionSuffix;
    assert r[|r| - |ApiVersionSuffix|..] == ApiVersionSuffix;
    assert r[..|r| - |ApiVersionSuffix|] == s.url.value.text;
    r
  }

  /** Two configurations share a base URL exactly when their addresses
      render the same. */
  lemma BaseUrlInjective(a: Storage, b: Storage)
    requires a.url.Some? && b.url.Some?
    ensures GetVaultBaseUrl(a) == GetVaultBaseUrl(b) <==> a.url.value.text == b.url.value.text
  {
  }

  /* ---------------- Field-by-field view ---------------- */

  /** The fields the Caddyfile can set: the address plus one per directive. */
  datatype Field =
    | Address | Token | ApproleLoginPath | ApproleLogoutPath | ApproleRoleId
    | ApproleSecretId | SecretsPath | PathPrefix | InsecureSkipVerify
    | LockTimeout | LockPollingInterval

  /** The contents of one field, tagged by the field's type. */
  datatype Value =
    | Endpoint(u: Option<Url>)
    | Text(t: string)
    | Flag(b: bool)
    | Span(d: Option<Duration>)

  /** Reads one field of the record. */
  function Get(s: Storage, f: Field): Value {
    match f
    case Address => Endpoint(s.url)
    case Token => Text(s.token)
    case ApproleLoginPath => Text(s.approleLoginPath)
    case ApproleLogoutPath => Text(s.approleLogoutPath)
    case ApproleRoleId => Text(s.approleRoleId)
    case ApproleSecretId => Text(s.approleSecretId)
    case SecretsPath => Text(s.secretsPath)
    case PathPrefix => Text(s.pathPrefix)
    case InsecureSkipVerify => Flag(s.insecureSkipVerify)
    case LockTimeout => Span(s.lockTimeout)
    case LockPollingInterval => Span(s.lockPollingInterval)
  }

  /** Two records that agree on every field are the same record. */
  lemma GetExtensional(a: Storage, b: Storage)
    requires forall f :: Get(a, f) == Get(b, f)
    ensures a == b
  {
    assert Get(a, Address) == Get(b, Address);
    assert Get(a, Token) == Get(b, Token);
    assert Get(a, ApproleLoginPath) == Get(b, ApproleLoginPath);
    assert Get(a, ApproleLogoutPath) == Get(b, ApproleLogoutPath);
    assert Get(a, ApproleRoleId) == Get(b, ApproleRoleId);
    assert Get(a, ApproleSecretId) == Get(b, ApproleSecretId);
    assert Get(a, SecretsPath) == Get(b, SecretsPath);
    assert Get(a, PathPrefix) == Get(b, PathPrefix);
    assert Get(a, InsecureSkipVerify) == Get(b, InsecureSkipVerify);
    assert Get(a, LockTimeout) == Get(b, LockTimeout);
    assert Get(a, LockPollingInterval) == Get(b, LockPollingInterval);
  }

  /** One assignment performed while reading the Caddyfile. */
  datatype Setting =
    | SetUrl(u: Url)
    | SetToken(t: string)
    | SetApproleLoginPath(t: string)
    | SetApproleLogoutPath(t: string)
    | SetApproleRoleId(t: string)
    | SetApproleSecretId(t: string)
    | SetSecretsPath(t: string)
    | SetPathPrefix(t: string)
    | SetInsecureSkipVerify(b: bool)
    | SetLockTimeout(d: Duration)
    | SetLockPollingInterval(d: Duration)

  /** The field an assignment writes. */
  function FieldOf(st: Setting): Field {
    match st
    case SetUrl(_) => Address
    case SetToken(_) => Token
    case SetApproleLoginPath(_) => ApproleLoginPath
    case SetApproleLogoutPath(_) => ApproleLogoutPath
    case SetApproleRoleId(_) => ApproleRoleId
    case SetApproleSecretId(_) => ApproleSecretId
    case SetSecretsPath(_) => SecretsPath
    case SetPathPrefix(_) => PathPrefix
    case SetInsecureSkipVerify(_) => InsecureSkipVerify
    case SetLockTimeout(_) => LockTimeout
    case SetLockPollingInterval(_) => LockPollingInterval
  }

  /** The value an assignment leaves in its field. Pointer fields are set to
      a present value, so `Some` replaces whatever was there. */
  function ValueOf(st: Setting): Value {
    match st
    case SetUrl(u) => Endpoint(Some(u))
    case SetToken(t) => Text(t)
    case SetApproleLoginPath(t) => Text(t)
    case SetApproleLogoutPath(t) => Text(t)
    case SetApproleRoleId(t) => Text(t)
    case SetApproleSecretId(t) => Text(t)
    case SetSecretsPath(t) => Text(t)
    case SetPathPrefix(t) => Text(t)
    case SetInsecureSkipVerify(b) => Flag(b)
    case SetLockTimeout(d) => Span(Some(d))
    case SetLockPollingInterval(d) => Span(Some(d))
  }

  /** Performs one assignment: its own field takes the new value and every
      other field is left as it was. */
  function Set(s: Storage, st: Setting): (r: Storage)
    ensures Get(r, FieldOf(st)) == ValueOf(st)
    ensures forall f :: f != FieldOf(st) ==> Get(r, f) == Get(s, f)
  {
    match st
    case SetUrl(u) => s.(url := Some(u))
    case SetToken(t) => s.(token := t)
    case SetApproleLoginPath(t) => s.(approleLoginPath := t)
    case SetApproleLogoutPath(t) => s.(approleLogoutPath := t)
    case SetApproleRoleId(t) => s.(approleRoleId := t)
    case SetApproleSecretId(t) => s.(approleSecretId := t)
    case SetSecretsPath(t) => s.(secretsPath := t)
    case SetPathPrefix(t) => s.(pathPrefix := t)
    case SetInsecureSkipVerify(b) => s.(insecureSkipVerify := b)
    case SetLockTimeout(d) => s.(lockTimeout := Some(d))
    case SetLockPollingInterval(d) => s.(lockPollingInterval := Some(d))
  }

  /** A later assignment to the same field overwrites an earlier one
      completely. */
  lemma SetOverwrites(s: Storage, first: Setting, second: Setting)
    requires FieldOf(first) == FieldOf(second)
    ensures Set(Set(s, first), second) == Set(s, second)
  {
  }
}
