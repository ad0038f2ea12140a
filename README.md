# aws-mfa: a verified model of the credential refresh

`aws-mfa` is a small command-line program. It renews temporary AWS session
credentials:

1. It reads the long-term IAM user keys and the MFA device serial from section
   `default-long-term` of `~/.aws/credentials`.
2. It asks the operator for the one-time MFA code.
3. It calls STS `GetSessionToken` with that code, asking for a 36-hour session.
4. It writes the returned session credentials into section `default` of the
   same file.

This project models the program's own decision logic in Dafny and proves it
correct. The credentials file is treated as an abstract table: section name →
(key → value). Any step that aborts the program (`unwrap`, `exit(1)`) becomes
an `Err` value of one `Error` datatype.

Modules: one per step of `src/main.rs`, plus three shared ones (`Wrappers`, `AwsTypes`, `IniTable`):

- `Wrappers`: `Option` and `Result`. `Result` is failure-compatible, so the aborting steps can be chained with `:-`; an `Option` converts to it with `ToResult`.
- `AwsTypes`: the records `LongTermCredentials`, `Credentials` (the STS session credentials) and `StsError`, the two profile names, and the `Error` kinds.
- `IniTable`: the parsed file as `map<string, map<string, string>>`, plus a class `Ini` whose methods are the three in-place operations the program uses: `section_mut`, `with_section(..).set(..)` and `Properties::insert`.
- `MfaToken`: `str::trim` (with the exact Unicode White_Space set of Rust's `char::is_whitespace`), `<u32 as FromStr>::from_str`, and `get_mfa_token`.
- `LongTermReader`: `get_aws_lt_credentials`.
- `SessionRequest`: the `GetSessionTokenRequest` record and how the reply of STS is read. The call itself is not modelled: the reply is an input.
- `CredentialsUpdate`: `update_credentials_file`. It exists twice: as an imperative method on `Ini` (find or create `default`, then six successive inserts), and as the function `UpdatedTable` that specifies it. The properties of `UpdatedTable` are lemmas.
- `AwsMfa`: `main`, split where the program talks to STS. `PrepareRequest` covers everything before the call: reader, prompt and request. `Run` takes the reply to that request and yields the file to write back.

Points of behaviour that need care:

- **Leading zeros and `+` are kept.** The token is the trimmed text, not the parsed number. So `000123` is sent as `000123`, and `+5` (which is a valid `u32`) is sent as `+5`.
- **No retry.** A rejected code ends the run.
- **Placeholder key.** When `default` is absent, it is created by setting `aws_secret_key_id = ""`. None of the six writes overwrites that key, so a created section ends with seven keys. An existing `default` never gains it.
- **Signing.** STS signs the request with the credentials of profile `default-long-term`, which `ProfileProvider` resolves. Only the MFA device and the token go into the request record.
- **Aborts become values.** Each `unwrap` or `exit(1)` becomes an `Error` value. A missing section or key is reported as `ProfileNotFound` or `MissingKey`, naming it.

## Model

| member | source | states |
|---|---|---|
| `MfaToken.IsWhitespace` | src/main.rs:72 | the characters `trim` removes: exactly the 25 code points of the Unicode White_Space property that `char::is_whitespace` tests (U+0009 to U+000D, U+0020, U+0085, U+00A0, U+1680, U+2000 to U+200A, U+2028, U+2029, U+202F, U+205F, U+3000); `TrimStart`, `TrimEnd` and `TrimSurrounded` are stated over it |
| `MfaToken.TrimStart` | src/main.rs:72 | the result is the suffix of the input that starts at its first non-whitespace character; everything dropped is whitespace |
| `MfaToken.TrimEnd` | src/main.rs:72 | the result is the prefix of the input that ends at its last non-whitespace character; everything dropped is whitespace |
| `MfaToken.Trim` | src/main.rs:72 | the trimmed text is no longer than the input and has no whitespace at either end |
| `MfaToken.TrimSurrounded` | src/main.rs:72 | trimming removes exactly the surrounding whitespace: whitespace + x + whitespace trims to x when x has no whitespace at its ends |
| `MfaToken.TrimIdempotent` | src/main.rs:72-74 | the second trim before parsing changes nothing |
| `MfaToken.Accumulate` | src/main.rs:74 | the digit loop with checked multiply and add succeeds iff every character is an ASCII digit and the positional value stays within u32; on success it returns that value; it never reports `Empty` |
| `MfaToken.ParseU32` | src/main.rs:74-80 | accepts exactly an optional `+` followed by one or more ASCII digits whose value is at most 4294967295, returning that value; the error is `Empty` exactly for the empty string, as in current Rust, where a lone sign is `InvalidDigit` (older releases reported `Empty` for it; the program discards the kind) |
| `MfaToken.GetMfaToken` | src/main.rs:64-83 | succeeds iff the trimmed line parses as a u32, returning the trimmed text itself; otherwise fails with `InvalidMfaToken` |
| `MfaToken.U32LiteralHasNoWhitespace` | src/main.rs:72-74 | text that parses as a u32 contains no whitespace, so it is already trimmed |
| `MfaToken.AcceptedTokenShape` | src/main.rs:74-82 | an accepted token is a non-empty digit string (at most one leading `+`) with no whitespace |
| `MfaToken.GetMfaTokenPadded` | src/main.rs:72-82 | a u32 literal surrounded by whitespace (such as the line's newline) is returned untouched, with its leading zeros |
| `MfaToken.AcceptsSixDigits` | src/main.rs:72-82 | `123456` followed by a newline yields `123456` |
| `MfaToken.KeepsLeadingZeros` | src/main.rs:72-82 | `000123` padded with spaces and a newline yields `000123`, not `123` |
| `MfaToken.RejectsEmpty` | src/main.rs:74-80 | an empty line is rejected |
| `MfaToken.RejectsLetters` | src/main.rs:74-80 | `abc123` is rejected |
| `MfaToken.RejectsInnerSpace` | src/main.rs:74-80 | `12 34` is rejected: trimming does not remove inner whitespace |
| `MfaToken.AcceptsU32Max` | src/main.rs:74-80 | `4294967295` is accepted |
| `MfaToken.RejectsAboveU32Max` | src/main.rs:74-80 | `4294967296` is rejected as out of u32 range |
| `IniTable.Lookup` | src/main.rs:56-59 | `Ini::section` and `Properties::get`: an entry is found iff its name is present, with its stored contents |
| `IniTable.Ini.HasSection` | src/main.rs:115 | the `section_mut(default)` test: true exactly when the loaded table has the section; `EnsureDefaultSection` branches on it |
| `IniTable.Ini.constructor` | src/main.rs:113 | the loaded object holds the parsed table |
| `IniTable.Ini.WithSectionSet` | src/main.rs:119 | creates the section when absent, sets one key in it, and changes no other section |
| `IniTable.Ini.Insert` | src/main.rs:124-129 | sets one key of an existing section and changes nothing else |
| `LongTermReader.GetLongTermCredentials` | src/main.rs:48-62 | succeeds iff `default-long-term` exists with all three keys, returning their values verbatim; a missing section gives `ProfileNotFound`; otherwise the error names the first missing key in the order access key, secret key, MFA device |
| `LongTermReader.ReaderDependsOnlyOnLongTermSection` | src/main.rs:56-59 | files that agree on `default-long-term` give the same reader outcome |
| `SessionRequest.SessionTokenRequest` | src/main.rs:90 | the request asks for 129600 seconds, with the MFA device as serial number and the token verbatim as token code |
| `SessionRequest.RequestIgnoresKeys` | src/main.rs:86-90 | the long-term access and secret keys do not affect the request |
| `SessionRequest.SessionCredentials` | src/main.rs:92-104 | an error reply becomes `SessionRequestFailed` carrying that error; a response without credentials becomes `NoSessionCredentials`; otherwise the response's credentials are returned |
| `CredentialsUpdate.WithSession` | src/main.rs:124-129 | the section after the six inserts, one key after another in the program's order; `WithSessionWrites` and `WithSessionTwice` state what it holds |
| `CredentialsUpdate.UpdatedTable` | src/main.rs:115-129 | the file the update writes back: `default`, or `{aws_secret_key_id: ""}` when it is absent, with `WithSession` applied, and no other section touched; `UpdateWritesDefault`, `UpdateKeepsOtherSections`, `PlaceholderOnlyWhenCreated`, `CreatedSectionHasSevenKeys`, `LaterUpdateWins` and `UpdateIdempotent` are proved about it, and `UpdateCredentialsFile` is proved equal to it |
| `CredentialsUpdate.WithSessionWrites` | src/main.rs:124-129 | the six inserts add exactly the six session keys, give them `False`, the access key, the secret key, the session token twice and the expiration, and keep every other key's value |
| `CredentialsUpdate.UpdateWritesDefault` | src/main.rs:115-129 | after the update `default` holds the six session values; an existing `default` keeps all its other keys and values and gains nothing else; a created one holds the six keys plus `aws_secret_key_id = ""` |
| `CredentialsUpdate.UpdateKeepsOtherSections` | src/main.rs:115-129 | every section other than `default` is present afterwards exactly when it was before, with the same contents |
| `CredentialsUpdate.UpdateCredentialsFile` | src/main.rs:107-132 | finding or creating `default` and making the six inserts in place leaves the file equal to `UpdatedTable` of the old file |
| `CredentialsUpdate.EnsureDefaultSection` | src/main.rs:115-122 | an existing `default` is left as it is; a missing one is created holding only `aws_secret_key_id = ""`; nothing else changes |
| `CredentialsUpdate.WriteSessionKeys` | src/main.rs:124-129 | the six inserts into `default`, in the program's order, change only that section |
| `CredentialsUpdate.PlaceholderOnlyWhenCreated` | src/main.rs:115-122 | `aws_secret_key_id` is in `default` afterwards iff the section was created or already had that key, and an existing value of it is kept |
| `CredentialsUpdate.CreatedSectionHasSevenKeys` | src/main.rs:115-129 | a created `default` has exactly seven keys |
| `CredentialsUpdate.WithSessionTwice` | src/main.rs:124-129 | writing the session keys a second time leaves only what the second write put |
| `CredentialsUpdate.LaterUpdateWins` | src/main.rs:115-129 | a second update overwrites the first entirely: the result is as if only the second had run |
| `CredentialsUpdate.UpdateIdempotent` | src/main.rs:115-129 | updating twice with the same credentials gives the same file as updating once |
| `AwsMfa.PrepareRequest` | src/main.rs:33-41 | a reader failure is the run's error and comes before the code is checked; with a good profile a non-u32 code fails with `InvalidMfaToken`; otherwise the request asks for 129600 seconds with the stored MFA device and the trimmed code |
| `AwsMfa.Run` | src/main.rs:32-46 | a failure before the call is the run's error; an error reply gives `SessionRequestFailed`, a reply without credentials `NoSessionCredentials`; the run succeeds iff all three steps do, and then yields `UpdatedTable` of the file with the returned credentials |
| `AwsMfa.UpdateKeepsLongTermProfile` | src/main.rs:115-129 | the update never changes what the reader returns |
| `AwsMfa.RunKeepsLongTermProfile` | src/main.rs:33-45 | after a successful run the file still yields the same long-term credentials, so the next run sends the same MFA device |
| `AwsMfa.ExampleRequest` | src/main.rs:33-41 | for an example profile and the line `123456` the request is 129600 seconds, that profile's MFA device and `123456` |
| `AwsMfa.EndToEnd` | src/main.rs:32-46 | for that profile, that line and a reply carrying credentials, `default` is created with the session values, `assumed_role = False` and the placeholder key, and `default-long-term` is kept |
| `AwsMfa.MissingProfileFailsFirst` | src/main.rs:33 | without `default-long-term` the run fails with `ProfileNotFound`, whatever was typed and whatever the reply |
| `AwsMfa.BadCodeStopsRun` | src/main.rs:37 | with a complete profile, the code `12 34` ends the run with `InvalidMfaToken` before a request is built |

## Left out

- Reading the line from standard input, and every `println!`: these are I/O. The token function takes the line as a parameter. A failed `read_line` is not modelled.
- Resolving the home directory and building the file path: these depend on the environment.
- The file is loaded twice, once by the reader and once by the writer, with the prompt and the network call in between. The model assumes the file does not change between the two loads: `Run` gives the reader and the writer the same parsed table, and `RunKeepsLongTermProfile` rests on that assumption. A concurrent edit of the file is not modelled.
- `Ini::load_from_file`, `write_to_file` and INI text syntax: these belong to the `ini` crate. The model works on the parsed table and the table to write back. A file that cannot be loaded or written, and the crate's ordering of keys and sections, are not represented.
- The `ini` crate's general (unnamed) section: the program never touches it, and section names here are plain strings.
- The STS client, `HttpClient`, the region and `ProfileProvider` credential resolution: these are a foreign library and the network. The reply of the service is an input of `Run`. Signing the request with profile `default-long-term` is not modelled.
- Printing the body of an `Unknown` STS error, and the `unwrap` of its UTF-8 decoding: this is output only. Either way the run ends with `SessionRequestFailed`.
- The messages of the aborting `unwrap` and `exit(1)` calls: each abort is an `Error` value instead, naming the missing section or key where there is one.
