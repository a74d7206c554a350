/**
 * The non-validating database configuration of internal/db/cfg.go: built from the
 * environment record plus a user and password, printed as the same `postgres://` URL.
 */
module DbCfg {
  import opened Outcomes
  import ConnUrl

  /** The fields of the environment record (DB_IP, DB_PORT, DB_NAME, DB_SUPERUSER_LOGIN, DB_SUPERUSER_PASSWORD). */
  datatype EnvConfig = EnvConfig(dbIp: string, dbPort: int, dbName: string, dbSuperuser: string, dbPassword: string)

  datatype Config = Config(addr: string, port: int, user: string, password: string, dbName: string)

  /** Never fails, whatever the fields hold: address, port and database name come from the
      environment record, user and password from the arguments. */
  function NewConfig(env: EnvConfig, user: string, password: string): (r: Result<Config, string>)
    ensures r.Success?
    ensures r.value.addr == env.dbIp && r.value.port == env.dbPort && r.value.dbName == env.dbName
    ensures r.value.user == user && r.value.password == password
  {
    Success(Config(env.dbIp, env.dbPort, user, password, env.dbName))
  }

  /** Same layout as the validating configuration; the signed port is printed by `%d`. */
  function ConnectionString(c: Config): (s: string)
    ensures |s| > |ConnUrl.Scheme| + |ConnUrl.Params|
    ensures s[..|ConnUrl.Scheme|] == ConnUrl.Scheme && s[|s| - |ConnUrl.Params|..] == ConnUrl.Params
  {
    ConnUrl.Layout(c.user, c.password, c.addr, ConnUrl.SignedDecimal(c.port), c.dbName)
  }

  function ParseConnectionString(s: string): Option<Config>
  {
    match ConnUrl.ParseUrl(s)
    case None => None
    case Some(p) =>
      match ConnUrl.ParseSignedDecimal(p.port)
      case None => None
      case Some(n) => Some(Config(p.host, n, p.user, p.password, p.db))
  }

  /** Every component, the signed port included, is recoverable from the string when the
      user has no ':', the password no '@' and the address no ':'. */
  lemma ConnectionStringRoundTrip(c: Config)
    requires ':' !in c.user && '@' !in c.password && ':' !in c.addr
    ensures ParseConnectionString(ConnectionString(c)) == Some(c)
  {
    var port := ConnUrl.SignedDecimal(c.port);
    ConnUrl.SignedDecimalHasNoSlash(c.port);
    ConnUrl.LayoutRoundTrip(ConnUrl.Parts(c.user, c.password, c.addr, port, c.dbName));
    ConnUrl.SignedDecimalRoundTrip(c.port);
  }

  /** A negative port is printed with a leading '-' right after the address's ':'. */
  lemma NegativePortPrintsSign(c: Config)
    requires c.port < 0
    ensures var s := ConnectionString(c);
            var at := |ConnUrl.Scheme| + |c.user| + 1 + |c.password| + 1 + |c.addr| + 1;
            at < |s| && s[at - 1] == ':' && s[at] == '-'
  {
    var port := ConnUrl.SignedDecimal(c.port);
    var s := ConnectionString(c);
    var at := |ConnUrl.Scheme| + |c.user| + 1 + |c.password| + 1 + |c.addr| + 1;
    assert s == ConnUrl.Scheme + c.user + ":" + c.password + "@" + c.addr + ":" + port + "/" + c.dbName + ConnUrl.Params;
    assert s[at - 1] == ':';
    assert s[at] == port[0];
  }

  /** What the program does with it: the configuration built from the environment and the
      superuser credentials prints the environment's address, port and database. */
  lemma EnvConfigRoundTrip(env: EnvConfig)
    requires ':' !in env.dbSuperuser && '@' !in env.dbPassword && ':' !in env.dbIp
    ensures var r := NewConfig(env, env.dbSuperuser, env.dbPassword);
            ParseConnectionString(ConnectionString(r.value)) == Some(Config(env.dbIp, env.dbPort, env.dbSuperuser, env.dbPassword, env.dbName))
  {
    ConnectionStringRoundTrip(Config(env.dbIp, env.dbPort, env.dbSuperuser, env.dbPassword, env.dbName));
  }
}
