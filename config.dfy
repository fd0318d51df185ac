/**
 * The application's configuration class: values read from the environment
 * once, at import time.  The environment is a map from variable name to
 * value; the random key `secrets.token_hex(32)` would produce is a parameter.
 */
module Config {
  import opened Wrappers
  import opened Strings

  const PostgresScheme := "postgres://"
  const PostgresqlScheme := "postgresql://"
  const SqliteFallbackUri := "sqlite:///milk-calculation.db"
  const DefaultSmtpServer := "smtp.gmail.com"
  const DefaultSmtpPort := "587"

  datatype AppConfig = AppConfig(
    secretKey: string,
    databaseUri: string,
    smtpServer: string,
    smtpPort: Option<int>,   // None: int() raised, the module cannot be imported
    emailAddress: Option<string>,
    emailPassword: Option<string>)

  /** `os.environ.get(name)`. */
  function Get(env: map<string, string>, name: string): Option<string> {
    if name in env then Some(env[name]) else None
  }

  /** Python truthiness of an optional string: present and not empty. */
  predicate Truthy(s: Option<string>) { s.Some? && s.value != "" }

  /**
   * DATABASE_URL after the rewrite: a value that starts with `postgres://`
   * gets `postgresql://` in its place, and everything else is kept as it is.
   */
  function NormaliseDatabaseUrl(url: Option<string>): (r: Option<string>)
    ensures url.Some? && StartsWith(url.value, PostgresScheme) ==>
      r == Some(PostgresqlScheme + url.value[|PostgresScheme|..])
    ensures !(url.Some? && StartsWith(url.value, PostgresScheme)) ==> r == url
  {
    if Truthy(url) && StartsWith(url.value, PostgresScheme) then
      ReplaceFirstAtPrefix(url.value, PostgresScheme, PostgresqlScheme);
      Some(ReplaceFirst(url.value, PostgresScheme, PostgresqlScheme))
    else
      url
  }

  /** The rewritten URL when there is a non-empty one; the local SQLite file otherwise. */
  function DatabaseUri(url: Option<string>): (r: string)
    ensures !Truthy(url) ==> r == SqliteFallbackUri
    ensures Truthy(url) ==> Some(r) == NormaliseDatabaseUrl(url)
  {
    var normalised := NormaliseDatabaseUrl(url);
    if Truthy(normalised) then normalised.value else SqliteFallbackUri
  }

  /**
   * The class attributes of `Config`: a non-empty SECRET_KEY or else the
   * random key, the normalised database URI, which never keeps the
   * `postgres://` scheme, and the e-mail settings as the environment gives them.
   */
  function Load(env: map<string, string>, randomHex: string): (c: AppConfig)
    ensures c.secretKey == "" ==> randomHex == ""
    ensures !StartsWith(c.databaseUri, PostgresScheme)
    ensures c.emailAddress.Some? <==> "EMAIL_ADDRESS" in env
    ensures c.emailPassword.Some? <==> "EMAIL_PASSWORD" in env
  {
    DatabaseUriNeverPostgresScheme(Get(env, "DATABASE_URL"));
    var secret := Get(env, "SECRET_KEY");
    AppConfig(
      secretKey := if Truthy(secret) then secret.value else randomHex,
      databaseUri := DatabaseUri(Get(env, "DATABASE_URL")),
      smtpServer := Get(env, "SMTP_SERVER").GetOr(DefaultSmtpServer),
      smtpPort := ParseInt(Get(env, "SMTP_PORT").GetOr(DefaultSmtpPort)),
      emailAddress := Get(env, "EMAIL_ADDRESS"),
      emailPassword := Get(env, "EMAIL_PASSWORD"))
  }

  lemma PostgresqlIsNotPostgres(rest: string)
    ensures !StartsWith(PostgresqlScheme + rest, PostgresScheme)
  {
    assert (PostgresqlScheme + rest)[8] == 'q';
    assert PostgresScheme[8] == ':';
  }

  /** Rewriting twice is rewriting once: `postgresql://` does not start with `postgres://`. */
  lemma NormaliseIdempotent(url: Option<string>)
    ensures NormaliseDatabaseUrl(NormaliseDatabaseUrl(url)) == NormaliseDatabaseUrl(url)
  {
    if url.Some? && StartsWith(url.value, PostgresScheme) {
      PostgresqlIsNotPostgres(url.value[|PostgresScheme|..]);
    }
  }

  /** Whatever DATABASE_URL holds, the URI handed to SQLAlchemy never uses the `postgres://` scheme. */
  lemma DatabaseUriNeverPostgresScheme(url: Option<string>)
    ensures !StartsWith(DatabaseUri(url), PostgresScheme)
  {
    if Truthy(url) && StartsWith(url.value, PostgresScheme) {
      PostgresqlIsNotPostgres(url.value[|PostgresScheme|..]);
    } else if !Truthy(url) {
      assert SqliteFallbackUri[0] != PostgresScheme[0];
    }
  }

  /**
   * SECRET_KEY falls back to the random key when the variable is missing or
   * empty (`or`), while SMTP_SERVER and SMTP_PORT fall back only when the
   * variable is missing (a default argument to `get`).
   */
  lemma LoadDefaults(env: map<string, string>, randomHex: string)
    ensures var c := Load(env, randomHex);
      && (("SECRET_KEY" !in env || env["SECRET_KEY"] == "") ==> c.secretKey == randomHex)
      && ("SECRET_KEY" in env && env["SECRET_KEY"] != "" ==> c.secretKey == env["SECRET_KEY"])
      && ("SMTP_SERVER" !in env ==> c.smtpServer == DefaultSmtpServer)
      && ("SMTP_SERVER" in env ==> c.smtpServer == env["SMTP_SERVER"])
      && ("SMTP_PORT" !in env ==> c.smtpPort == Some(587))
      && ("DATABASE_URL" !in env ==> c.databaseUri == SqliteFallbackUri)
  {
    assert NatToDecimal(5) == "5";
    assert NatToDecimal(58) == NatToDecimal(5) + ['8'];
    assert NatToDecimal(587) == NatToDecimal(58) + ['7'];
    assert NatToDecimal(587) == DefaultSmtpPort;
    ParseIntOfDecimal(587);
  }
}
