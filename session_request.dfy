/** Building the GetSessionToken request and reading the reply
    (`get_aws_session_credentials`).  The call itself is outside the model:
    the reply is given. */
module SessionRequest {
  import opened Wrappers
  import opened AwsTypes

  /** The longest session an MFA-authenticated IAM user can request: 36 hours. */
  const SESSION_DURATION_SECONDS: int := 36 * 60 * 60

  datatype GetSessionTokenRequest = GetSessionTokenRequest(
    durationSeconds: Option<int>,
    serialNumber: Option<string>,
    tokenCode: Option<string>)

  datatype GetSessionTokenResponse = GetSessionTokenResponse(credentials: Option<Credentials>)

  /** The request record: a fixed 36-hour duration, the MFA device as serial
      number and the token verbatim.  The long-term keys are not part of it;
      the call is signed with profile `default-long-term` instead. */
  function SessionTokenRequest(lt: LongTermCredentials, mfaToken: string): (r: GetSessionTokenRequest)
    ensures r.durationSeconds == Some(129600)
    ensures r.serialNumber == Some(lt.mfaDevice)
    ensures r.tokenCode == Some(mfaToken)
  {
    GetSessionTokenRequest(Some(SESSION_DURATION_SECONDS), Some(lt.mfaDevice), Some(mfaToken))
  }

  /** Only the MFA device and the token decide the request. */
  lemma RequestIgnoresKeys(lt1: LongTermCredentials, lt2: LongTermCredentials, mfaToken: string)
    requires lt1.mfaDevice == lt2.mfaDevice
    ensures SessionTokenRequest(lt1, mfaToken) == SessionTokenRequest(lt2, mfaToken)
  {
  }

  /** Reads the service's reply to the single request.  An error from the
      service ends the run; so does a response without credentials. */
  function SessionCredentials(reply: Result<GetSessionTokenResponse, StsError>): (r: Result<Credentials, Error>)
    ensures reply.Err? ==> r == Err(SessionRequestFailed(reply.error))
    ensures reply.Ok? && reply.value.credentials.None? ==> r == Err(NoSessionCredentials)
    ensures reply.Ok? && reply.value.credentials.Some? ==> r == Ok(reply.value.credentials.value)
  {
    match reply
    case Err(e) => Err(SessionRequestFailed(e))
    case Ok(response) => response.credentials.ToResult(NoSessionCredentials)
  }
}
