/**
 * The storage diagnostics handler, server/api/debug/env-check.get.ts: it
 * lists the environment variables whose names relate to the key-value
 * store, masking the values of credentials and URLs.
 */
module EnvCheck {
  import opened Text

  datatype EnvReply =
    | Unauthorized
    | Report(vars: map<string, string>, count: nat)

  const NotSet: string := "not set"
  const Ellipsis: string := "..."
  const SecretShown: nat := 10
  const UrlShown: nat := 30

  /** A name mentioning KV, REDIS, STORAGE or UPSTASH is listed. */
  predicate Listed(name: string) {
    Contains(name, "KV") || Contains(name, "REDIS") || Contains(name, "STORAGE") || Contains(name, "UPSTASH")
  }

  /** A name mentioning TOKEN, KEY or SECRET holds a credential. */
  predicate Secret(name: string) {
    Contains(name, "TOKEN") || Contains(name, "KEY") || Contains(name, "SECRET")
  }

  predicate Url(name: string) {
    Contains(name, "URL")
  }

  /**
   * What is shown for one variable: a credential's first 10 characters, a
   * URL's first 30 (the credential rule wins when both apply), any other
   * value whole; an empty value is "not set".
   */
  function Mask(name: string, value: string): (shown: string)
    ensures value == "" ==> shown == NotSet
    ensures value != "" && Secret(name) ==> shown == Take(value, SecretShown) + Ellipsis
    ensures value != "" && !Secret(name) && Url(name) ==> shown == Take(value, UrlShown) + Ellipsis
    ensures value != "" && !Secret(name) && !Url(name) ==> shown == value
  {
    if Secret(name) then (if value != "" then Take(value, SecretShown) + Ellipsis else NotSet)
    else if Url(name) then (if value != "" then Take(value, UrlShown) + Ellipsis else NotSet)
    else if value != "" then value else NotSet
  }

  /** The handler: 401 without a session user, else the masked listing and its size. */
  function CheckEnv(user: bool, env: map<string, string>): (r: EnvReply)
    ensures !user <==> r.Unauthorized?
    ensures r.Report? ==> r.count == |r.vars|
    ensures r.Report? ==> forall name :: name in r.vars <==> name in env && Listed(name)
  {
    if !user then Unauthorized
    else
      var vars := map name | name in env && Listed(name) :: Mask(name, env[name]);
      Report(vars, |vars|)
  }

  /**
   * A credential is never shown beyond its first 10 characters: what is
   * shown is "not set", or a prefix of the value of at most 10 characters
   * followed by "...".
   */
  lemma SecretsTruncated(env: map<string, string>, name: string)
    requires name in env && Listed(name) && Secret(name)
    ensures var shown := CheckEnv(true, env).vars[name];
      || (env[name] == "" && shown == NotSet)
      || exists p :: |p| <= SecretShown && StartsWith(env[name], p) && shown == p + Ellipsis
  {
    if env[name] != "" {
      var p := Take(env[name], SecretShown);
      assert CheckEnv(true, env).vars[name] == p + Ellipsis;
    }
  }

  /** A URL that is not also a credential is shown up to its first 30 characters. */
  lemma UrlsTruncated(env: map<string, string>, name: string)
    requires name in env && Listed(name) && !Secret(name) && Url(name)
    ensures var shown := CheckEnv(true, env).vars[name];
      || (env[name] == "" && shown == NotSet)
      || exists p :: |p| <= UrlShown && StartsWith(env[name], p) && shown == p + Ellipsis
  {
    if env[name] != "" {
      var p := Take(env[name], UrlShown);
      assert CheckEnv(true, env).vars[name] == p + Ellipsis;
    }
  }

  /** Only masked names can hide a value; any other listed value is shown as it is. */
  lemma PlainValuesShown(env: map<string, string>, name: string)
    requires name in env && Listed(name) && !Secret(name) && !Url(name) && env[name] != ""
    ensures CheckEnv(true, env).vars[name] == env[name]
  {
  }
}
