/** Writing the session credentials into section `default`
    (`update_credentials_file`). */
module CredentialsUpdate {
  import opened AwsTypes
  import opened IniTable

  /** The six keys every update writes. */
  const WRITTEN_KEYS: set<string> := {
    "assumed_role", "aws_access_key_id", "aws_secret_access_key",
    "aws_session_token", "aws_security_token", "expiration"
  }

  /** The key a newly created `default` section starts with.  It is not one of
      the written keys (`aws_secret_key_id`, not `aws_access_key_id`), so it
      stays in the file with an empty value. */
  const PLACEHOLDER_KEY: string := "aws_secret_key_id"

  /** Section `p` after the six inserts, in the order the program does them. */
  function WithSession(p: Properties, c: Credentials): Properties {
    p["assumed_role" := "False"]
     ["aws_access_key_id" := c.accessKeyId]
     ["aws_secret_access_key" := c.secretAccessKey]
     ["aws_session_token" := c.sessionToken]
     ["aws_security_token" := c.sessionToken]
     ["expiration" := c.expiration]
  }

  /** The file after the update: section `default`, created with the
      placeholder key when absent, with the session keys written into it. */
  function UpdatedTable(t: Table, c: Credentials): Table {
    var base := if DEFAULT_PROFILE in t then t[DEFAULT_PROFILE] else map[PLACEHOLDER_KEY := ""];
    t[DEFAULT_PROFILE := WithSession(base, c)]
  }

  /** The inserts add exactly the written keys, give them the session values
      (the session token twice), and keep every other key's value. */
  lemma WithSessionWrites(p: Properties, c: Credentials)
    ensures var r := WithSession(p, c);
      && r.Keys == p.Keys + WRITTEN_KEYS
      && r["assumed_role"] == "False"
      && r["aws_access_key_id"] == c.accessKeyId
      && r["aws_secret_access_key"] == c.secretAccessKey
      && r["aws_session_token"] == c.sessionToken
      && r["aws_security_token"] == c.sessionToken
      && r["expiration"] == c.expiration
    ensures forall k :: k in p && k !in WRITTEN_KEYS ==> WithSession(p, c)[k] == p[k]
  {
  }

  /** What section `default` holds after the update: the six session values;
      an existing section keeps all its other keys and values, a created one
      holds the placeholder key with an empty value and nothing else. */
  lemma UpdateWritesDefault(t: Table, c: Credentials)
    ensures DEFAULT_PROFILE in UpdatedTable(t, c)
    ensures var d := UpdatedTable(t, c)[DEFAULT_PROFILE];
      && d.Keys >= WRITTEN_KEYS
      && d["assumed_role"] == "False"
      && d["aws_access_key_id"] == c.accessKeyId
      && d["aws_secret_access_key"] == c.secretAccessKey
      && d["aws_session_token"] == c.sessionToken
      && d["aws_security_token"] == c.sessionToken
      && d["expiration"] == c.expiration
    ensures DEFAULT_PROFILE in t ==>
      UpdatedTable(t, c)[DEFAULT_PROFILE].Keys == t[DEFAULT_PROFILE].Keys + WRITTEN_KEYS
    ensures DEFAULT_PROFILE in t ==>
      forall k :: k in t[DEFAULT_PROFILE] && k !in WRITTEN_KEYS ==>
        UpdatedTable(t, c)[DEFAULT_PROFILE][k] == t[DEFAULT_PROFILE][k]
    ensures DEFAULT_PROFILE !in t ==>
      && UpdatedTable(t, c)[DEFAULT_PROFILE].Keys == WRITTEN_KEYS + {PLACEHOLDER_KEY}
      && UpdatedTable(t, c)[DEFAULT_PROFILE][PLACEHOLDER_KEY] == ""
  {
    var base := if DEFAULT_PROFILE in t then t[DEFAULT_PROFILE] else map[PLACEHOLDER_KEY := ""];
    WithSessionWrites(base, c);
  }

  /** Nothing outside section `default` changes: every other section is
      present exactly when it was, with the same contents. */
  lemma UpdateKeepsOtherSections(t: Table, c: Credentials)
    ensures forall name :: name != DEFAULT_PROFILE ==> (name in UpdatedTable(t, c) <==> name in t)
    ensures forall name :: name != DEFAULT_PROFILE && name in t ==> UpdatedTable(t, c)[name] == t[name]
  {
  }

  /** The update in place: find `default`, create it when absent, then six
      successive inserts into it. */
  method UpdateCredentialsFile(ini: Ini, c: Credentials)
    modifies ini
    ensures ini.sections == UpdatedTable(old(ini.sections), c)
  {
    EnsureDefaultSection(ini);
    WriteSessionKeys(ini, c);
  }

  /** The `section(default).is_none()` branch: a missing section `default` is
      created holding only the placeholder key; an existing one is left as is. */
  method EnsureDefaultSection(ini: Ini)
    modifies ini
    ensures DEFAULT_PROFILE in old(ini.sections) ==> ini.sections == old(ini.sections)
    ensures DEFAULT_PROFILE !in old(ini.sections) ==>
      ini.sections == old(ini.sections)[DEFAULT_PROFILE := map[PLACEHOLDER_KEY := ""]]
  {
    if !ini.HasSection(DEFAULT_PROFILE) {
      ini.WithSectionSet(DEFAULT_PROFILE, PLACEHOLDER_KEY, "");
      assert SectionOrEmpty(old(ini.sections), DEFAULT_PROFILE)[PLACEHOLDER_KEY := ""] == map[PLACEHOLDER_KEY := ""];
    }
  }

  /** The six inserts into the section `section_mut` found. */
  method WriteSessionKeys(ini: Ini, c: Credentials)
    requires DEFAULT_PROFILE in ini.sections
    modifies ini
    ensures ini.sections == old(ini.sections)[DEFAULT_PROFILE := WithSession(old(ini.sections)[DEFAULT_PROFILE], c)]
  {
    ini.Insert(DEFAULT_PROFILE, "assumed_role", "False");
    ini.Insert(DEFAULT_PROFILE, "aws_access_key_id", c.accessKeyId);
    ini.Insert(DEFAULT_PROFILE, "aws_secret_access_key", c.secretAccessKey);
    ini.Insert(DEFAULT_PROFILE, "aws_session_token", c.sessionToken);
    ini.Insert(DEFAULT_PROFILE, "aws_security_token", c.sessionToken);
    ini.Insert(DEFAULT_PROFILE, "expiration", c.expiration);
  }

  /** The placeholder key appears only in a section the update created; an
      existing `default` has it afterwards only if it had it before, with
      its old value. */
  lemma PlaceholderOnlyWhenCreated(t: Table, c: Credentials)
    ensures var d := UpdatedTable(t, c)[DEFAULT_PROFILE];
      PLACEHOLDER_KEY in d <==> (DEFAULT_PROFILE !in t || PLACEHOLDER_KEY in t[DEFAULT_PROFILE])
    ensures DEFAULT_PROFILE in t && PLACEHOLDER_KEY in t[DEFAULT_PROFILE] ==>
      UpdatedTable(t, c)[DEFAULT_PROFILE][PLACEHOLDER_KEY] == t[DEFAULT_PROFILE][PLACEHOLDER_KEY]
  {
    UpdateWritesDefault(t, c);
  }

  /** A created section holds exactly seven keys: the six written ones and
      the placeholder. */
  lemma CreatedSectionHasSevenKeys(t: Table, c: Credentials)
    requires DEFAULT_PROFILE !in t
    ensures |UpdatedTable(t, c)[DEFAULT_PROFILE]| == 7
  {
    UpdateWritesDefault(t, c);
    var d := UpdatedTable(t, c)[DEFAULT_PROFILE];
    assert |WRITTEN_KEYS| == 6;
    assert d.Keys == WRITTEN_KEYS + {PLACEHOLDER_KEY};
    assert |d.Keys| == |WRITTEN_KEYS| + 1;
  }

  /** Writing the session keys twice leaves what the second write put. */
  lemma WithSessionTwice(p: Properties, c1: Credentials, c2: Credentials)
    ensures WithSession(WithSession(p, c1), c2) == WithSession(p, c2)
  {
    WithSessionWrites(p, c1);
    WithSessionWrites(WithSession(p, c1), c2);
    WithSessionWrites(p, c2);
    var q := WithSession(WithSession(p, c1), c2);
    var r := WithSession(p, c2);
    assert q.Keys == r.Keys;
    forall k | k in q ensures q[k] == r[k] {
      if k !in WRITTEN_KEYS {
        assert q[k] == WithSession(p, c1)[k] == p[k];
      }
    }
  }

  /** A second update overwrites the six keys of the first and nothing else:
      the result is as if only the second had run. */
  lemma LaterUpdateWins(t: Table, c1: Credentials, c2: Credentials)
    ensures UpdatedTable(UpdatedTable(t, c1), c2) == UpdatedTable(t, c2)
  {
    var base := if DEFAULT_PROFILE in t then t[DEFAULT_PROFILE] else map[PLACEHOLDER_KEY := ""];
    assert UpdatedTable(t, c1)[DEFAULT_PROFILE] == WithSession(base, c1);
    WithSessionTwice(base, c1, c2);
  }

  /** Updating twice with the same credentials is the same as updating once. */
  lemma UpdateIdempotent(t: Table, c: Credentials)
    ensures UpdatedTable(UpdatedTable(t, c), c) == UpdatedTable(t, c)
  {
    LaterUpdateWins(t, c, c);
  }
}
