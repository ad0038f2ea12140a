/** Reading the long-term profile from the credentials file
    (`get_aws_lt_credentials`). */
module LongTermReader {
  import opened Wrappers
  import opened AwsTypes
  import opened IniTable

  const ACCESS_KEY_ID: string := "aws_access_key_id"
  const SECRET_ACCESS_KEY: string := "aws_secret_access_key"
  const MFA_DEVICE: string := "aws_mfa_device"

  /** The file holds a complete long-term profile. */
  predicate HasLongTermProfile(t: Table) {
    && LONG_TERM_PROFILE in t
    && ACCESS_KEY_ID in t[LONG_TERM_PROFILE]
    && SECRET_ACCESS_KEY in t[LONG_TERM_PROFILE]
    && MFA_DEVICE in t[LONG_TERM_PROFILE]
  }

  /** Looks up section `default-long-term`, then its three keys in order,
      stopping at the first one that is missing.  On success the three values
      are returned exactly as stored. */
  function GetLongTermCredentials(t: Table): (r: Result<LongTermCredentials, Error>)
    ensures r.Ok? <==> HasLongTermProfile(t)
    ensures r.Ok? ==>
      var p := t[LONG_TERM_PROFILE];
      r.value == LongTermCredentials(p[ACCESS_KEY_ID], p[SECRET_ACCESS_KEY], p[MFA_DEVICE])
    ensures LONG_TERM_PROFILE !in t ==> r == Err(ProfileNotFound(LONG_TERM_PROFILE))
    ensures LONG_TERM_PROFILE in t && r.Err? ==>
      var p := t[LONG_TERM_PROFILE];
      && r.error.MissingKey?
      && r.error.section == LONG_TERM_PROFILE
      && r.error.key !in p
      && r.error.key in {ACCESS_KEY_ID, SECRET_ACCESS_KEY, MFA_DEVICE}
      && (r.error.key != ACCESS_KEY_ID ==> ACCESS_KEY_ID in p)
      && (r.error.key == MFA_DEVICE ==> SECRET_ACCESS_KEY in p)
  {
    var section :- Lookup(t, LONG_TERM_PROFILE).ToResult(ProfileNotFound(LONG_TERM_PROFILE));
    var accessKey :- Lookup(section, ACCESS_KEY_ID).ToResult(MissingKey(LONG_TERM_PROFILE, ACCESS_KEY_ID));
    var secretKey :- Lookup(section, SECRET_ACCESS_KEY).ToResult(MissingKey(LONG_TERM_PROFILE, SECRET_ACCESS_KEY));
    var mfaDevice :- Lookup(section, MFA_DEVICE).ToResult(MissingKey(LONG_TERM_PROFILE, MFA_DEVICE));
    Ok(LongTermCredentials(accessKey, secretKey, mfaDevice))
  }

  /** The reader sees only its own section: two files that agree on
      `default-long-term` (or both lack it) give the same outcome. */
  lemma ReaderDependsOnlyOnLongTermSection(t1: Table, t2: Table)
    requires LONG_TERM_PROFILE in t1 <==> LONG_TERM_PROFILE in t2
    requires LONG_TERM_PROFILE in t1 ==> t1[LONG_TERM_PROFILE] == t2[LONG_TERM_PROFILE]
    ensures GetLongTermCredentials(t1) == GetLongTermCredentials(t2)
  {
  }
}
