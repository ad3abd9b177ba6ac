# caddy-vault-storage: the Caddyfile configuration layer

The repository is a Caddy storage module (`caddy.storage.vault`) that keeps
certificates in HashiCorp Vault. The storage engine itself (paths, AppRole
token caching, locking) is an external library that the module only
constructs. What the module owns is its configuration: reading a
`storage vault <address> { ... }` Caddyfile block into a `Storage` record,
validating it, and answering the library's questions through defaulting
accessors. This project models that layer in Dafny and proves its
properties.

Layout:

- `wrappers.dfy` (`Wrappers`): `Option` and `Result`.
- `storage.dfy` (`VaultStorage`): the `Storage` record, the default
  constants, the defaulting accessors, `GetVaultBaseUrl`, and a
  field-by-field view (`Field`, `Get`, `Setting`, `Set`) that every
  assignment the parser makes goes through.
- `directives.dfy` (`Directives`): directive lines, the error kinds, the
  recognised directive names and the directive `switch` (`Decode`).
- `dispense.dfy` (`Dispense`): the Caddyfile token stream as a sequence of
  segments, flattened into steps, and `Run`, the fold that performs the
  steps and stops at the first failing one. It also holds the
  reference `Latest`, which says which line's value a field ends up with.
- `caddyfile.dfy` (`Caddyfile`): post-read validation, the whole operation
  `Unmarshal`, the method `UnmarshalCaddyfile` (the two nested loops of the
  source, with early returns) proved equal to `Unmarshal`, and properties of
  the whole operation.

Modelling decisions:

- The Caddyfile dispenser is input data. A `Segment` is one occurrence of
  the module's block. It has the module-name token, the optional address
  argument on that line, and the block's lines. Each line is an `Entry`:
  a directive name and an optional argument.
- URL parsing, Go's `time.ParseDuration` and the dispenser's scalar reading
  of a token are opaque. They are the function-valued fields of `Parsers`.
- `Duration` is Go's `time.Duration`: a signed 64-bit count of nanoseconds.
  The defaults are 5 minutes (`300_000_000_000`) for the lock timeout and
  5 seconds (`5_000_000_000`) for the polling interval.
- Validation accepts a configuration with a static token, with both
  AppRole ids, or with both kinds of credential. The code checks for "at
  least one" authentication mode (main.go:181), not "exactly one", and the
  model follows the code.
- Validation happens only when the configuration is read from a Caddyfile.
  The accessors have no precondition and answer for any record, including
  a record built directly as a literal, as in the JSON configuration path
  and the test suite.

## Model

| member | source | states |
|---|---|---|
| VaultStorage.GetApproleLoginPath | main.go:205-211 | never empty; the configured login path when one is set, `auth/approle/login` otherwise |
| VaultStorage.GetApproleLogoutPath | main.go:213-219 | never empty; the configured logout path when one is set, `auth/token/revoke-self` otherwise |
| VaultStorage.GetLockTimeout | main.go:241-247 | the configured lock timeout when present, 5 minutes otherwise |
| VaultStorage.GetLockPollingInterval | main.go:249-255 | the configured polling interval when present, 5 seconds otherwise |
| VaultStorage.DefaultsAreFixedPoints | main.go:15-21 | writing a default out explicitly is indistinguishable from leaving the field unset, and applying an accessor's answer back into the record changes nothing |
| VaultStorage.GetVaultBaseUrl | main.go:197-199 | the base URL is the address followed by `/v1/`, and the address can be recovered from it exactly |
| VaultStorage.BaseUrlInjective | main.go:197-199 | two configurations share a base URL if and only if their addresses render the same |
| VaultStorage.Set | main.go:107-168 | each assignment made while reading writes exactly its own field and leaves every other field unchanged; a pointer field becomes present |
| VaultStorage.SetOverwrites | main.go:107-168 | a later assignment to a field fully overwrites an earlier one |
| Directives.Message | main.go:169-183 | exactly the two validation errors and the unrecognized-parameter error carry text of the module's own; it is the exact, non-empty wording of each check, and `unrecognized parameter '<name>'` for an unknown name |
| Directives.UnrecognizedTextNamesDirective | main.go:169-170 | the unknown name can be read back from the unrecognized-parameter text, so two such errors have the same text exactly when they name the same directive |
| Directives.UnknownDirectiveText | main.go:169-170 | a line with an unknown directive name fails with the unrecognized-parameter text naming it |
| Directives.ValidationMessagesDistinct | main.go:175-183 | the two validation errors are told apart by their text |
| Directives.RequireArg | main.go:110-112 | a recognised directive yields exactly the argument that follows it on the line; without one it is an argument error naming the directive |
| Directives.Decode | main.go:108-170 | a name outside the ten directives is always "unrecognized parameter"; a known name without an argument is an argument error; otherwise the argument sets the directive's own field: verbatim for text, through the duration parser for the lock settings (a parse failure is returned), through the boolean scalar for `insecure_skip_verify` |
| Directives.DirectivesNeverSetAddress | main.go:107-171 | no block line can change the Vault address |
| Dispense.DecodeStep | main.go:99-105 | a segment without an address argument is an argument error; a failing URL parse returns its error; a parsed URL sets the address |
| Dispense.Run | main.go:97-173 | reading succeeds if and only if every header and every line decodes |
| Dispense.RunAppend | main.go:97-173 | reading a concatenation is reading the first part and continuing from its result; an error in the first part is final |
| Dispense.RunStopsAt | main.go:99-171 | reading stops at a failing step: the result is that step's error whatever follows |
| Dispense.RunFirstError | main.go:97-173 | a failed reading reports the error of the first step that fails |
| Dispense.RunLastWins | main.go:107-168 | after a successful reading each field holds the value of the last step that set it, or its starting value if none did |
| Dispense.LatestInit | main.go:107-168 | a field either keeps its starting value through a reading or ends with a value that does not depend on it |
| Dispense.RunIdempotent | main.go:107-168 | performing the same steps again on the result of a reading changes nothing |
| Dispense.LaterDirectiveOverrides | main.go:107-168 | of two decodable lines with the same directive name, the first has no effect |
| Dispense.LatestSkips | main.go:107-168 | steps that set no value for a field leave the field's last value as it was |
| Dispense.LatestAfterLastSetter | main.go:107-168 | when a step is followed only by steps that do not set its field, the field's last value is the one that step sets |
| Dispense.RunKeepsAddress | main.go:102 | once an address is set, further reading keeps one set |
| Caddyfile.Validate | main.go:175-185 | accepts exactly the records with a secrets path and a token or both AppRole ids; an empty secrets path is reported before a missing credential; every rejection carries one of the two validation texts |
| Caddyfile.Unmarshal | main.go:96-186 | succeeds if and only if every step decodes and the read record is valid; an accepted record is valid; a read record that fails validation gives the secrets-path error when its secrets path is empty and the credential error otherwise |
| Caddyfile.UnmarshalCaddyfile | main.go:96-186 | the nested reading loops with their early returns compute exactly `Unmarshal` |
| Caddyfile.EmptyCaddyfileFails | main.go:175-178 | an empty Caddyfile read into the zero value fails with the secrets-path error, worded `secret_path is required` |
| Caddyfile.MissingCredentialRejected | main.go:180-183 | a read record with a secrets path but neither a token nor both AppRole ids is rejected with the credential error and its text |
| Caddyfile.SecretsPathCheckedFirst | main.go:175-183 | a read record with an empty secrets path is rejected with the secrets-path error, whatever its credentials |
| Caddyfile.TokenAndAppRoleTogetherAccepted | main.go:180-183 | a token together with both AppRole ids is accepted |
| Caddyfile.UnmarshalLastWins | main.go:107-168 | in an accepted configuration each field holds the value of the last line that set it |
| Caddyfile.UnmarshalStopsAtBadLine | main.go:107-171 | the first failing block line decides the result; later lines and validation are never reached |
| Caddyfile.RunStopsAtBadLine | main.go:107-171 | reading a Caddyfile whose block has a failing line after lines that decode ends with that line's error |
| Caddyfile.UnmarshalMissingAddress | main.go:97-101 | a segment without an address argument is an argument error and nothing after it is read |
| Caddyfile.UnmarshalBadAddress | main.go:102-105 | a segment whose address fails to parse as a URL ends the operation with the parser's error; nothing after it is read and validation is not reached |
| Caddyfile.UnmarshalIdempotent | main.go:107-185 | reading a Caddyfile again over its own accepted result gives the same result |
| Caddyfile.AcceptedFromZeroHasAddress | main.go:97-178 | from the zero value, an accepted Caddyfile has at least one segment and so always sets the address |
| Caddyfile.AccessorsOfReadConfig | main.go:205-255 | after reading from the zero value, each defaulting accessor reports the last line's argument for its field, or the default when no line set it or the path set was empty |
| Caddyfile.LockTimeoutLineTakesEffect | main.go:149-158 | in a Caddyfile accepted from the zero value, the last `lock_timeout` line anywhere in it (any lines before it, in any segment, and only other directives after it) has an argument that parses, and the lock timeout is that duration |
| Caddyfile.SuiteConfiguration | main_suite_test.go:47-57 | the suite's literal configuration is valid and reports a 15-second lock timeout, a 5-second polling interval and the default AppRole paths |
| Caddyfile.UnvalidatedConfigurationStillAnswers | main.go:241-255 | the zero record fails validation, yet the accessors still answer with the defaults |

## Left out

- The storage engine: `Store`, `Load`, `Delete`, `Exists`, `List`, `Stat`, `Lock`, `Unlock`, the path mapping, AppRole login, token caching and revocation. They live in the external `certmagic-vault-storage` library, which is not part of this model. The module only constructs it in `Provision`.
- Caddy plumbing: module registration, `CaddyModule`, `Provision`, `CertMagicStorage` and the interface guards. These belong to the host framework.
- Logging: `SetLogger`, `GetLogger` and the test suite's logger setup.
- The pass-through getters (`GetToken`, `GetApproleRoleId`, `GetApproleSecretId`, `GetSecretsPath`, `GetPathPrefix`, `GetInsecureSkipVerify`). Each returns one field of `Storage` unchanged.
- The dispenser's own behaviour: nesting, braces, and tokens left over on a line. A leftover token is read by the dispenser as the next directive name. The input model expresses that as a further `Entry`. The model does not derive entries from raw tokens.
- The wording of the errors that come from the dispenser and the parsers. For `ArgErr`, `UrlError` and `DurationError` the model keeps only the kind of error and its operand: the directive name or the parser's reason. Their text is not modelled.
- Directives.Message: the file and line that the dispenser's `Errf` adds around the unrecognized-parameter text are not modelled; only the module's own part of the text is.
- URL parsing, duration parsing and scalar reading are opaque parameters. Their own rules are not modelled.
- Directives.Decode: a non-boolean `insecure_skip_verify` argument makes the source panic on a failed type assertion. The model returns the error `NotBoolean` instead.
- Caddyfile.Unmarshal: on an error the source has already written some fields of the receiver. The model returns only the error, since the host discards a module whose configuration failed.
- VaultStorage.GetVaultBaseUrl: requires the address to be set. How an unset (nil) address renders depends on the external URL type, which is not part of this model.
- The JSON configuration path: it fills the same record by decoding JSON, without validation. The accessors cover it, because they take any record.
