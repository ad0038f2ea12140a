/** The records, constants and failure kinds shared by the steps of the
    credential refresh (src/main.rs). */
module AwsTypes {

  /** Section that receives the session credentials. */
  const DEFAULT_PROFILE: string := "default"
  /** Section that holds the long-term IAM user keys and the MFA device. */
  const LONG_TERM_PROFILE: string := "default-long-term"

  newtype byte = x: int | 0 <= x < 256

  /** The long-term IAM user credentials read from the credentials file. */
  datatype LongTermCredentials = LongTermCredentials(
    accessKey: string,
    secretKey: string,
    mfaDevice: string)

  /** The session credentials carried by a GetSessionToken response. */
  datatype Credentials = Credentials(
    accessKeyId: string,
    secretAccessKey: string,
    sessionToken: string,
    expiration: string)

  /** Why the GetSessionToken call failed; `Unknown` carries the raw
      response body that the program prints. */
  datatype StsError =
    | Unknown(body: seq<byte>)
    | ServiceError(message: string)

  /** Every way a run ends early.  The program aborts (a panic in `unwrap`
      or `exit(1)`) in each of these cases; here they are values. */
  datatype Error =
    | ProfileNotFound(section: string)
    | MissingKey(section: string, key: string)
    | InvalidMfaToken
    | SessionRequestFailed(cause: StsError)
    | NoSessionCredentials
}
