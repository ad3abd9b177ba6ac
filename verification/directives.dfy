/** The directives of a `storage vault` Caddyfile block and how one line of
    the block is turned into an assignment to the configuration. */
module Directives {
  import opened Wrappers
  import opened VaultStorage

  /** One line of the block: a directive name and the argument that follows
      it on the same line, if any. */
  datatype Entry = Entry(name: string, arg: Option<string>)

  /** Why reading the Caddyfile failed. */
  datatype Error =
      /** A required argument is missing after the token `after`. */
    | ArgErr(after: string)
      /** The address could not be parsed as a URL. */
    | UrlError(reason: string)
      /** A lock duration could not be parsed. */
    | DurationError(reason: string)
      /** The directive name is not one the module knows. */
    | Unrecognized(name: string)
      /** The argument of `insecure_skip_verify` is not a boolean scalar;
          the Go `UnmarshalCaddyfile` panics on its failed `.(bool)` type
          assertion here. */
    | NotBoolean(arg: string)
      /** The block never set `secrets_path` to a non-empty value. */
    | SecretsPathRequired
      /** Neither a token nor both AppRole ids were given. */
    | AuthRequired

  const SecretsPathRequiredText: string := "secret_path is required"
  const AuthRequiredText: string :=
    "you must define 'token' or 'approle_role_id' + 'approle_secret_id' in order to authenticate with Vault"

  /** The text the module writes for a directive name it does not know. */
  function UnrecognizedText(name: string): string
  {
    "unrecognized parameter '" + name + "'"
  }

  /** The text of an error whose wording the module writes itself: the two
      validation errors, and the unrecognized-parameter error (to which the
      dispenser adds the file and line). The argument errors and the parse
      errors are worded by the dispenser and the parsers that raise them. */
  function Message(e: Error): (m: Option<string>)
    ensures m.Some? <==> e.SecretsPathRequired? || e.AuthRequired? || e.Unrecognized?
    ensures m.Some? ==> m.value != ""
    ensures e == SecretsPathRequired ==> m == Some(SecretsPathRequiredText)
    ensures e == AuthRequired ==> m == Some(AuthRequiredText)
    ensures e.Unrecognized? ==> m == Some(UnrecognizedText(e.name))
  {
    match e
    case SecretsPathRequired => Some(SecretsPathRequiredText)
    case AuthRequired => Some(AuthRequiredText)
    case Unrecognized(name) => Some(UnrecognizedText(name))
    case _ => None
  }

  /** The unknown name can be read back from the unrecognized-parameter
      text: it sits between the fixed prefix and the closing quote. */
  lemma {:induction false} UnrecognizedTextNamesDirective(a: string, b: string)
    ensures UnrecognizedText(a)[24..|UnrecognizedText(a)| - 1] == a
    ensures Message(Unrecognized(a)) == Message(Unrecognized(b)) <==> a == b
  {
    var prefix := "unrecognized parameter '";
    assert |prefix| == 24;
    var ta, tb := UnrecognizedText(a), UnrecognizedText(b);
    assert ta == prefix + a + "'";
    assert ta[24..|ta| - 1] == a;
    assert tb[24..|tb| - 1] == b;
  }

  /** The two validation errors can be told apart by their text. */
  lemma ValidationMessagesDistinct()
    ensures Message(SecretsPathRequired) != Message(AuthRequired)
  {
    assert |SecretsPathRequiredText| != |AuthRequiredText|;
  }

  /** The library parsers the module calls and whose internals are not part
      of this model: URL parsing, Go's duration parser, and the dispenser's
      scalar reading of a token (`Some(b)` exactly when it yields a bool). */
  datatype Parsers = Parsers(
    parseUrl: string -> Result<Url, string>,
    parseDuration: string -> Result<Duration, string>,
    scalarBool: string -> Option<bool>)

  /** The recognised directive names and the field each one sets; `None`
      for any other name. */
  function DirectiveField(name: string): Option<Field> {
    match name
    case "token" => Some(Token)
    case "approle_login_path" => Some(ApproleLoginPath)
    case "approle_logout_path" => Some(ApproleLogoutPath)
    case "approle_role_id" => Some(ApproleRoleId)
    case "approle_secret_id" => Some(ApproleSecretId)
    case "secrets_path" => Some(SecretsPath)
    case "path_prefix" => Some(PathPrefix)
    case "insecure_skip_verify" => Some(InsecureSkipVerify)
    case "lock_timeout" => Some(LockTimeout)
    case "lock_polling_interval" => Some(LockPollingInterval)
    case _ => None
  }

  /** How the argument that sets a field is interpreted. */
  datatype Kind = AddressKind | TextKind | FlagKind | SpanKind

  function KindOf(f: Field): Kind {
    match f
    case Address => AddressKind
    case InsecureSkipVerify => FlagKind
    case LockTimeout => SpanKind
    case LockPollingInterval => SpanKind
    case _ => TextKind
  }

  /** `r` is the outcome of interpreting argument `a` as a value of kind `k`:
      text is taken verbatim, the others go through their parser, whose
      failure becomes the error. */
  ghost predicate Interprets(r: Result<Setting, Error>, k: Kind, a: string, p: Parsers) {
    match k
    case TextKind => r.Ok? && ValueOf(r.value) == Text(a)
    case AddressKind =>
      (match p.parseUrl(a)
       case Ok(u) => r.Ok? && ValueOf(r.value) == Endpoint(Some(u))
       case Err(m) => r == Err(UrlError(m)))
    case FlagKind =>
      (match p.scalarBool(a)
       case Some(b) => r.Ok? && ValueOf(r.value) == Flag(b)
       case None => r == Err(NotBoolean(a)))
    case SpanKind =>
      (match p.parseDuration(a)
       case Ok(d) => r.Ok? && ValueOf(r.value) == Span(Some(d))
       case Err(m) => r == Err(DurationError(m)))
  }

  /** The argument of a recognised directive, or the argument error. */
  function RequireArg(e: Entry): (r: Result<string, Error>)
    ensures r.Ok? <==> e.arg.Some?
    ensures r.Ok? ==> r.value == e.arg.value
    ensures r.Err? ==> r.error == ArgErr(e.name)
  {
    match e.arg
    case Some(a) => Ok(a)
    case None => Err(ArgErr(e.name))
  }

  /** One arm of the directive switch: an unknown name is an error before
      anything else, a known one needs its argument, and a present argument
      is interpreted according to the field the directive sets. */
  function Decode(e: Entry, p: Parsers): (r: Result<Setting, Error>)
    ensures DirectiveField(e.name).None? <==> r == Err(Unrecognized(e.name))
    ensures DirectiveField(e.name).Some? && e.arg.None? ==> r == Err(ArgErr(e.name))
    ensures r.Ok? ==> DirectiveField(e.name).Some? && FieldOf(r.value) == DirectiveField(e.name).value
    ensures DirectiveField(e.name).Some? && e.arg.Some? ==>
              Interprets(r, KindOf(DirectiveField(e.name).value), e.arg.value, p)
  {
    match e.name
    case "token" =>
      var a :- RequireArg(e);
      Ok(SetToken(a))
    case "approle_login_path" =>
      var a :- RequireArg(e);
      Ok(SetApproleLoginPath(a))
    case "approle_logout_path" =>
      var a :- RequireArg(e);
      Ok(SetApproleLogoutPath(a))
    case "approle_role_id" =>
      var a :- RequireArg(e);
      Ok(SetApproleRoleId(a))
    case "approle_secret_id" =>
      var a :- RequireArg(e);
      Ok(SetApproleSecretId(a))
    case "secrets_path" =>
      var a :- RequireArg(e);
      Ok(SetSecretsPath(a))
    case "path_prefix" =>
      var a :- RequireArg(e);
      Ok(SetPathPrefix(a))
    case "insecure_skip_verify" =>
      var a :- RequireArg(e);
      (match p.scalarBool(a)
       case Some(b) => Ok(SetInsecureSkipVerify(b))
       case None => Err(NotBoolean(a)))
    case "lock_timeout" =>
      var a :- RequireArg(e);
      (match p.parseDuration(a)
       case Ok(d) => Ok(SetLockTimeout(d))
       case Err(m) => Err(DurationError(m)))
    case "lock_polling_interval" =>
      var a :- RequireArg(e);
      (match p.parseDuration(a)
       case Ok(d) => Ok(SetLockPollingInterval(d))
       case Err(m) => Err(DurationError(m)))
    case _ => Err(Unrecognized(e.name))
  }

  /** A line with an unknown directive name fails with the module's
      unrecognized-parameter text, naming that line's directive. */
  lemma UnknownDirectiveText(e: Entry, p: Parsers)
    requires DirectiveField(e.name).None?
    ensures Decode(e, p).Err?
    ensures Message(Decode(e, p).error) == Some(UnrecognizedText(e.name))
    ensures UnrecognizedText(e.name)[24..|UnrecognizedText(e.name)| - 1] == e.name
  {
    UnrecognizedTextNamesDirective(e.name, e.name);
  }

  /** No directive can change the address: only a segment header sets it. */
  lemma DirectivesNeverSetAddress(e: Entry, p: Parsers)
    ensures Decode(e, p).Ok? ==> FieldOf(Decode(e, p).value) != Address
  {
  }
}
