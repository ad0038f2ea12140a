/** One run of the program (`main`): read the long-term profile, take the
    MFA code, exchange both for session credentials, and write those into
    section `default`.  The first failing step ends the run.

    The run is split where the program talks to STS: `PrepareRequest` is
    everything before the call, `Run` takes the service's reply to that
    request and yields the file to write back. */
module AwsMfa {
  import opened Wrappers
  import opened AwsTypes
  import opened IniTable
  import opened MfaToken
  import opened LongTermReader
  import opened SessionRequest
  import opened CredentialsUpdate

  /** Reader, prompt and request construction.  A reader failure comes
      first, before the operator is asked for a code. */
  function PrepareRequest(t: Table, line: string): (r: Result<GetSessionTokenRequest, Error>)
    ensures GetLongTermCredentials(t).Err? ==> r == Err(GetLongTermCredentials(t).error)
    ensures HasLongTermProfile(t) && !IsU32Literal(Trim(line)) ==> r == Err(InvalidMfaToken)
    ensures r.Ok? <==> HasLongTermProfile(t) && IsU32Literal(Trim(line))
    ensures r.Ok? ==>
      r.value == GetSessionTokenRequest(Some(129600), Some(t[LONG_TERM_PROFILE][MFA_DEVICE]), Some(Trim(line)))
  {
    var longTerm :- GetLongTermCredentials(t);
    var mfaToken :- GetMfaToken(line);
    Ok(SessionTokenRequest(longTerm, mfaToken))
  }

  /** The whole run, given the parsed credentials file, the line typed at the
      prompt and the reply STS sent to `PrepareRequest(t, line)`.  The
      reader and the writer see the same file.  When no request is sent the
      reply plays no part. */
  function Run(t: Table, line: string, reply: Result<GetSessionTokenResponse, StsError>): (r: Result<Table, Error>)
    ensures PrepareRequest(t, line).Err? ==> r == Err(PrepareRequest(t, line).error)
    ensures PrepareRequest(t, line).Ok? && reply.Err? ==> r == Err(SessionRequestFailed(reply.error))
    ensures PrepareRequest(t, line).Ok? && reply.Ok? && reply.value.credentials.None? ==> r == Err(NoSessionCredentials)
    ensures r.Ok? <==> PrepareRequest(t, line).Ok? && reply.Ok? && reply.value.credentials.Some?
    ensures r.Ok? ==> r.value == UpdatedTable(t, reply.value.credentials.value)
  {
    var request :- PrepareRequest(t, line);
    var session :- SessionCredentials(reply);
    Ok(UpdatedTable(t, session))
  }

  /** Writing section `default` never touches `default-long-term`, so the next
      run reads the same long-term credentials. */
  lemma UpdateKeepsLongTermProfile(t: Table, c: Credentials)
    ensures GetLongTermCredentials(UpdatedTable(t, c)) == GetLongTermCredentials(t)
  {
    UpdateKeepsOtherSections(t, c);
    assert LONG_TERM_PROFILE != DEFAULT_PROFILE by {
      assert |LONG_TERM_PROFILE| != |DEFAULT_PROFILE|;
    }
    ReaderDependsOnlyOnLongTermSection(UpdatedTable(t, c), t);
  }

  /** After a successful run the long-term profile is still in place, and the
      next run sends the same MFA device. */
  lemma RunKeepsLongTermProfile(t: Table, line: string, reply: Result<GetSessionTokenResponse, StsError>)
    requires Run(t, line, reply).Ok?
    ensures GetLongTermCredentials(Run(t, line, reply).value) == GetLongTermCredentials(t)
  {
    UpdateKeepsLongTermProfile(t, reply.value.credentials.value);
  }

  /** The long-term profile of an IAM user used by the two lemmas below. */
  predicate IsExampleFile(t: Table) {
    t == map[LONG_TERM_PROFILE := map[
      ACCESS_KEY_ID := "AKIAEXAMPLE",
      SECRET_ACCESS_KEY := "secret",
      MFA_DEVICE := "arn:aws:iam::111111111111:mfa/user"]]
  }

  /** With that profile and the code 123456 typed at the prompt, the request
      asks for 36 hours with the profile's MFA device and the code. */
  lemma ExampleRequest(t: Table)
    requires IsExampleFile(t)
    ensures PrepareRequest(t, "123456\n")
      == Ok(GetSessionTokenRequest(Some(129600), Some("arn:aws:iam::111111111111:mfa/user"), Some("123456")))
  {
    assert HasLongTermProfile(t);
    assert t[LONG_TERM_PROFILE][MFA_DEVICE] == "arn:aws:iam::111111111111:mfa/user" by {
      assert MFA_DEVICE != SECRET_ACCESS_KEY && MFA_DEVICE != ACCESS_KEY_ID by {
        assert MFA_DEVICE[4] != SECRET_ACCESS_KEY[4] && MFA_DEVICE[4] != ACCESS_KEY_ID[4];
      }
    }
    AcceptsSixDigits();
  }

  /** A complete run: the credentials STS issues for that request end up in a
      new section `default`, beside the untouched long-term profile. */
  lemma EndToEnd(t: Table, issued: Credentials)
    requires IsExampleFile(t)
    requires issued == Credentials("ASIAEXAMPLE", "secret2", "tok", "2024-01-01T00:00:00Z")
    ensures
      var r := Run(t, "123456\n", Ok(GetSessionTokenResponse(Some(issued))));
      && r.Ok?
      && r.value[LONG_TERM_PROFILE] == t[LONG_TERM_PROFILE]
      && r.value[DEFAULT_PROFILE].Keys == WRITTEN_KEYS + {PLACEHOLDER_KEY}
      && r.value[DEFAULT_PROFILE]["aws_secret_key_id"] == ""
      && r.value[DEFAULT_PROFILE]["assumed_role"] == "False"
      && r.value[DEFAULT_PROFILE]["aws_access_key_id"] == "ASIAEXAMPLE"
      && r.value[DEFAULT_PROFILE]["aws_secret_access_key"] == "secret2"
      && r.value[DEFAULT_PROFILE]["aws_session_token"] == "tok"
      && r.value[DEFAULT_PROFILE]["aws_security_token"] == "tok"
      && r.value[DEFAULT_PROFILE]["expiration"] == "2024-01-01T00:00:00Z"
  {
    ExampleRequest(t);
    assert Run(t, "123456\n", Ok(GetSessionTokenResponse(Some(issued)))) == Ok(UpdatedTable(t, issued));
    assert DEFAULT_PROFILE !in t by {
      assert |LONG_TERM_PROFILE| != |DEFAULT_PROFILE|;
    }
    UpdateWritesDefault(t, issued);
    UpdateKeepsOtherSections(t, issued);
    assert LONG_TERM_PROFILE != DEFAULT_PROFILE by {
      assert |LONG_TERM_PROFILE| != |DEFAULT_PROFILE|;
    }
  }

  /** A file without the long-term profile fails at the first step, whatever
      was typed and whatever the service would answer. */
  lemma MissingProfileFailsFirst(t: Table, line: string, reply: Result<GetSessionTokenResponse, StsError>)
    requires LONG_TERM_PROFILE !in t
    ensures Run(t, line, reply) == Err(ProfileNotFound(LONG_TERM_PROFILE))
  {
  }

  /** With a complete profile, a malformed code ends the run before any
      request is built. */
  lemma BadCodeStopsRun(t: Table, reply: Result<GetSessionTokenResponse, StsError>)
    requires HasLongTermProfile(t)
    ensures PrepareRequest(t, "12 34") == Err(InvalidMfaToken)
    ensures Run(t, "12 34", reply) == Err(InvalidMfaToken)
  {
    RejectsInnerSpace();
  }
}
