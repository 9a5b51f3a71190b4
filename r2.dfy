// Cloudflare R2 configuration (lib/r2.ts): the environment check, the
// memoised storage client, and public object URLs. process.env is a
// parameter; the S3 client is reduced to the settings it is built with.

module R2 {
  import opened Common
  import opened Text

  /** The four settings read from process.env (None: unset). */
  datatype ProcessEnv = ProcessEnv(
    accountId: Option<string>,
    accessKeyId: Option<string>,
    secretAccessKey: Option<string>,
    bucketName: Option<string>)

  /** R2Env: the validated settings. */
  datatype R2Env = R2Env(accountId: string, accessKeyId: string, secretAccessKey: string, bucket: string)

  /** The configuration an S3Client is constructed with. */
  datatype S3Client = S3Client(
    region: string,
    endpoint: string,
    accessKeyId: string,
    secretAccessKey: string,
    forcePathStyle: bool)

  const MissingPrefix := "Missing R2 environment variables: "
  const StorageHost := ".r2.cloudflarestorage.com"

  /** A JavaScript string value is truthy when it is set and not empty. */
  predicate Truthy(v: Option<string>)
  {
    v.Some? && v.value != ""
  }

  predicate Complete(e: ProcessEnv)
  {
    Truthy(e.accountId) && Truthy(e.accessKeyId) && Truthy(e.secretAccessKey) && Truthy(e.bucketName)
  }

  /** The four required settings, in the order validateR2Env checks them. */
  datatype Setting = AccountId | AccessKeyId | SecretAccessKey | BucketName

  /** The environment variable behind a setting. */
  function VarName(s: Setting): string
  {
    match s
    case AccountId => "R2_ACCOUNT_ID"
    case AccessKeyId => "R2_ACCESS_KEY_ID"
    case SecretAccessKey => "R2_SECRET_ACCESS_KEY"
    case BucketName => "R2_BUCKET_NAME"
  }

  /** The value process.env holds for a setting. */
  function Value(e: ProcessEnv, s: Setting): Option<string>
  {
    match s
    case AccountId => e.accountId
    case AccessKeyId => e.accessKeyId
    case SecretAccessKey => e.secretAccessKey
    case BucketName => e.bucketName
  }

  /** The settings whose names are pushed onto `missing`, in check order. */
  function MissingSettings(e: ProcessEnv): (m: seq<Setting>)
    ensures |m| <= 4
    ensures m == [] <==> Complete(e)
    ensures forall s :: s in m <==> !Truthy(Value(e, s))
  {
    (if Truthy(e.accountId) then [] else [AccountId]) +
    (if Truthy(e.accessKeyId) then [] else [AccessKeyId]) +
    (if Truthy(e.secretAccessKey) then [] else [SecretAccessKey]) +
    (if Truthy(e.bucketName) then [] else [BucketName])
  }

  /** The names of a list of settings, in order. */
  function VarNames(ss: seq<Setting>): (names: seq<string>)
    ensures |names| == |ss|
    ensures forall i :: 0 <= i < |ss| ==> names[i] == VarName(ss[i])
  {
    if ss == [] then [] else [VarName(ss[0])] + VarNames(ss[1..])
  }

  /** The thrown message. */
  function MissingMessage(e: ProcessEnv): (m: string)
    ensures StartsWith(m, MissingPrefix)
    ensures Complete(e) ==> m == MissingPrefix
  {
    MissingPrefix + Join(VarNames(MissingSettings(e)), ", ")
  }

  /** validateR2Env: throws (Err) iff a setting is unset or empty, naming each such setting. */
  method ValidateR2Env(e: ProcessEnv) returns (r: Result<R2Env>)
    ensures r.Err? <==> !Complete(e)
    ensures r.Err? ==> r.message == MissingMessage(e)
    ensures r.Ok? ==>
      r.value == R2Env(e.accountId.value, e.accessKeyId.value, e.secretAccessKey.value, e.bucketName.value)
  {
    var missing: seq<Setting> := [];
    if !Truthy(e.accountId) { missing := missing + [AccountId]; }
    if !Truthy(e.accessKeyId) { missing := missing + [AccessKeyId]; }
    if !Truthy(e.secretAccessKey) { missing := missing + [SecretAccessKey]; }
    if !Truthy(e.bucketName) { missing := missing + [BucketName]; }
    assert missing == MissingSettings(e);
    if |missing| > 0 {
      return Err(MissingPrefix + Join(VarNames(missing), ", "));
    }
    return Ok(R2Env(e.accountId.value, e.accessKeyId.value, e.secretAccessKey.value, e.bucketName.value));
  }

  /** Every missing setting is named in the message. */
  lemma MessageNamesEachMissing(e: ProcessEnv, s: Setting)
    requires !Truthy(Value(e, s))
    ensures Contains(MissingMessage(e), VarName(s))
  {
    var m := MissingSettings(e);
    var i :| 0 <= i < |m| && m[i] == s;
    JoinContains(VarNames(m), ", ", i);
    ContainsAfterPrefix(MissingPrefix, Join(VarNames(m), ", "), VarName(s));
  }

  /** A setting's position in validateR2Env's sequence of checks. */
  function Rank(s: Setting): nat
  {
    match s
    case AccountId => 0
    case AccessKeyId => 1
    case SecretAccessKey => 2
    case BucketName => 3
  }

  /** The missing settings are listed in check order, each once. */
  lemma MissingInCheckOrder(e: ProcessEnv)
    ensures var m := MissingSettings(e);
      forall i, j :: 0 <= i < j < |m| ==> Rank(m[i]) < Rank(m[j])
  {
  }

  /** With nothing set, all four settings are listed, in check order. */
  lemma NothingSetListsAll()
    ensures MissingSettings(ProcessEnv(None, None, None, None)) ==
      [AccountId, AccessKeyId, SecretAccessKey, BucketName]
  {
  }

  /** An empty string counts as missing, exactly like an unset variable. */
  lemma EmptyIsMissing(e: ProcessEnv)
    requires e.bucketName == Some("") && Truthy(e.accountId) && Truthy(e.accessKeyId) && Truthy(e.secretAccessKey)
    ensures MissingMessage(e) == MissingPrefix + "R2_BUCKET_NAME"
  {
    assert MissingSettings(e) == [BucketName];
  }

  /** The account endpoint the client talks to. */
  function Endpoint(accountId: string): string
  {
    "https://" + accountId + StorageHost
  }

  /** The client getR2Client constructs for env. */
  function NewClient(env: R2Env): (c: S3Client)
    ensures c.endpoint == Endpoint(env.accountId) && c.region == "auto" && c.forcePathStyle
    ensures c.accessKeyId == env.accessKeyId && c.secretAccessKey == env.secretAccessKey
  {
    S3Client("auto", Endpoint(env.accountId), env.accessKeyId, env.secretAccessKey, true)
  }

  /** The public URL of an object: the bucket as a subdomain of the account's storage host. */
  function PublicUrl(env: R2Env, key: string): (url: string)
    ensures StartsWith(url, "https://")
    ensures |url| > |key| && url[|url| - |key|..] == key
  {
    "https://" + PublicHost(env) + "/" + key
  }

  /** The host of a public URL: the bucket as a subdomain of the account's storage host. */
  function PublicHost(env: R2Env): string
  {
    env.bucket + "." + env.accountId + StorageHost
  }

  /**
   * The host and the key can be read back from a public URL: the host is the
   * text between "https://" and the first '/', the key everything after it,
   * when neither the bucket nor the account id holds a '/'.
   */
  lemma PublicUrlParts(env: R2Env, key: string)
    requires '/' !in env.bucket && '/' !in env.accountId
    ensures var url := PublicUrl(env, key);
      var host := PublicHost(env);
      host == env.bucket + "." + Endpoint(env.accountId)[8..] &&
      StartsWith(url, "https://") && Before(url[8..], '/') == host && url[8 + |host| + 1..] == key
  {
    var host := PublicHost(env);
    assert host == env.bucket + "." + Endpoint(env.accountId)[8..] by {
      assert Endpoint(env.accountId)[8..] == env.accountId + StorageHost;
    }
    assert '/' !in host by {
      assert '/' !in StorageHost;
    }
    UrlParts(host, key);
  }

  /** "https://" + host + "/" + key splits back into host and key when the host holds no '/'. */
  lemma UrlParts(host: string, key: string)
    requires '/' !in host
    ensures var url := "https://" + host + "/" + key;
      StartsWith(url, "https://") && Before(url[8..], '/') == host && url[8 + |host| + 1..] == key
  {
    var url := "https://" + host + "/" + key;
    assert url[8..] == host + ['/'] + key;
    BeforeSeparator(host, '/', key);
  }

  /** The module-level `client` and `cachedEnv`. */
  class Store {
    var client: Option<S3Client>
    var cachedEnv: Option<R2Env>

    /** Both are set together, and the client is the one built from the cached env. */
    predicate Valid()
      reads this
    {
      (client.Some? <==> cachedEnv.Some?) &&
      (client.Some? ==> client.value == NewClient(cachedEnv.value))
    }

    constructor ()
      ensures Valid() && client.None? && cachedEnv.None?
    {
      client := None;
      cachedEnv := None;
    }

    /**
     * getR2Client: once a client is cached, it and its env are returned
     * whatever process.env now holds; otherwise validate (a failure throws
     * and caches nothing) and cache a new client.
     */
    method GetR2Client(e: ProcessEnv) returns (r: Result<(S3Client, R2Env)>)
      requires Valid()
      modifies this
      ensures Valid()
      ensures old(client).Some? ==>
        r == Ok((old(client).value, old(cachedEnv).value)) &&
        client == old(client) && cachedEnv == old(cachedEnv)
      ensures old(client).None? && !Complete(e) ==>
        r == Err(MissingMessage(e)) && client.None? && cachedEnv.None?
      ensures old(client).None? && Complete(e) ==>
        var env := R2Env(e.accountId.value, e.accessKeyId.value, e.secretAccessKey.value, e.bucketName.value);
        r == Ok((NewClient(env), env)) && client == Some(NewClient(env)) && cachedEnv == Some(env)
    {
      if client.Some? && cachedEnv.Some? {
        return Ok((client.value, cachedEnv.value));
      }
      var v := ValidateR2Env(e);
      if v.Err? {
        return Err(v.message);
      }
      var env := v.value;
      client := Some(NewClient(env));
      cachedEnv := Some(env);
      return Ok((client.value, env));
    }

    /**
     * toPublicUrl: the override env when given, which leaves the cache as it
     * is; otherwise the env of getR2Client, whose error propagates.
     */
    method ToPublicUrl(key: string, envOverride: Option<R2Env>, e: ProcessEnv) returns (r: Result<string>)
      requires Valid()
      modifies this
      ensures Valid()
      ensures envOverride.Some? ==>
        r == Ok(PublicUrl(envOverride.value, key)) && client == old(client) && cachedEnv == old(cachedEnv)
      ensures envOverride.None? && old(client).Some? ==>
        r == Ok(PublicUrl(old(cachedEnv).value, key)) && client == old(client) && cachedEnv == old(cachedEnv)
      ensures envOverride.None? && old(client).None? && !Complete(e) ==>
        r == Err(MissingMessage(e)) && client.None?
      ensures envOverride.None? && old(client).None? && Complete(e) ==>
        var env := R2Env(e.accountId.value, e.accessKeyId.value, e.secretAccessKey.value, e.bucketName.value);
        r == Ok(PublicUrl(env, key)) && cachedEnv == Some(env)
    {
      if envOverride.Some? {
        return Ok(PublicUrl(envOverride.value, key));
      }
      var got := GetR2Client(e);
      if got.Err? {
        return Err(got.message);
      }
      return Ok(PublicUrl(got.value.1, key));
    }
  }
}
