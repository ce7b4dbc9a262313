/**
 * The configuration step shared by the two Go programs (licenseChecker and licenseRemoval):
 * load `.env`, read the three credentials, and refuse an empty one. Loading `.env` is outside
 * the model: its failure, if any, is a parameter, and the environment is a map.
 */
module GoConfig {
  import opened Wrappers

  datatype Config = Config(tenantId: string, clientId: string, clientSecret: string)

  /** `os.Getenv`: the empty string when the variable is unset. */
  function Getenv(env: map<string, string>, name: string): (v: string)
    ensures name in env ==> v == env[name]
    ensures name !in env ==> v == ""
  {
    if name in env then env[name] else ""
  }

  /** `loadConfig`: fails iff `.env` could not be loaded or one of the three variables is empty or unset. */
  function LoadConfig(dotenvError: Option<string>, env: map<string, string>): (r: Result<Config, string>)
    ensures dotenvError.Some? ==> r == Err("error loading .env file: " + dotenvError.value)
    ensures dotenvError.None? ==>
      (r.Ok? <==>
        && "TENANT_ID" in env && env["TENANT_ID"] != ""
        && "CLIENT_ID" in env && env["CLIENT_ID"] != ""
        && "CLIENT_SECRET" in env && env["CLIENT_SECRET"] != "")
    ensures dotenvError.None? && r.Err? ==> r.error == "missing required environment variables"
    ensures r.Ok? ==> r.value == Config(env["TENANT_ID"], env["CLIENT_ID"], env["CLIENT_SECRET"])
  {
    if dotenvError.Some? then Err("error loading .env file: " + dotenvError.value)
    else
      var config := Config(Getenv(env, "TENANT_ID"), Getenv(env, "CLIENT_ID"), Getenv(env, "CLIENT_SECRET"));
      if config.tenantId == "" || config.clientId == "" || config.clientSecret == "" then
        Err("missing required environment variables")
      else
        Ok(config)
  }
}
