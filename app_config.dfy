/**
 * app/config.py: the settings the Flask application reads from the
 * environment once, at import. The environment is a parameter; loading
 * .env and the logger warnings are left to the caller.
 */
module AppConfig {
  import opened Wrappers
  import opened PyText
  import opened EtlUtils

  /** os.getenv(key, default) */
  function Getenv(env: Env, key: string, default: string): (v: string)
    ensures key in env ==> v == env[key]
    ensures key !in env ==> v == default
  {
    if key in env then env[key] else default
  }

  /**
   * DB_VENDOR: the lowercased variable ("postgres" when unset); anything
   * other than postgres or mysql is replaced by postgres.
   */
  function Vendor(env: Env): (v: string)
    ensures v == "postgres" || v == "mysql"
    ensures Lower(Getenv(env, "DB_VENDOR", "postgres")) == "mysql" <==> v == "mysql"
  {
    var v := Lower(Getenv(env, "DB_VENDOR", "postgres"));
    if v != "postgres" && v != "mysql" then "postgres" else v
  }

  /**
   * The logger warning of the vendor check fires exactly for a vendor it
   * replaces: never when DB_VENDOR is unset, and the fallback is postgres.
   */
  predicate VendorWarned(env: Env): (warned: bool)
    ensures warned <==> Vendor(env) != Lower(Getenv(env, "DB_VENDOR", "postgres"))
    ensures warned ==> Vendor(env) == "postgres"
    ensures "DB_VENDOR" !in env ==> !warned
  {
    var v := Lower(Getenv(env, "DB_VENDOR", "postgres"));
    v != "postgres" && v != "mysql"
  }

  lemma {:induction false} LowerIdempotent(s: string)
    ensures Lower(Lower(s)) == Lower(s)
  {
    assert forall i :: 0 <= i < |s| ==> LowerChar(LowerChar(s[i])) == LowerChar(s[i]);
  }

  /** The vendor ignores ASCII case: "MySQL" and "mysql" select the same database. */
  lemma VendorIgnoresCase(env: Env, text: string)
    ensures Vendor(env["DB_VENDOR" := text]) == Vendor(env["DB_VENDOR" := Lower(text)])
  {
    LowerIdempotent(text);
  }

  /** DB_CFG */
  datatype DbConfig = DbConfig(host: string, port: int, dbname: string, user: string, password: string, vendor: string)

  /** The text int() is given for the port: DB_PORT, or the vendor's default port. */
  function PortText(env: Env): string {
    Getenv(env, "DB_PORT", if Vendor(env) == "postgres" then "5432" else "3306")
  }

  /**
   * DB_CFG, or the text int() rejected (the import then fails with
   * ValueError). host, dbname and password default to "localhost",
   * "olist" and ""; the user defaults to the vendor's administrator.
   */
  function DbCfg(env: Env): (r: Result<DbConfig, string>)
    ensures r.Failure? <==> ParseInt(PortText(env)).None?
    ensures r.Failure? ==> r.error == PortText(env)
    ensures r.Success? ==>
              && r.value.port == ParseInt(PortText(env)).value
              && r.value.vendor == Vendor(env)
              && r.value.host == Getenv(env, "DB_HOST", "localhost")
              && r.value.dbname == Getenv(env, "DB_NAME", "olist")
              && r.value.password == Getenv(env, "DB_PASS", "")
              && ("DB_USER" in env ==> r.value.user == env["DB_USER"])
              && ("DB_USER" !in env ==> r.value.user == (if r.value.vendor == "postgres" then "postgres" else "root"))
  {
    var vendor := Vendor(env);
    match ParseInt(PortText(env))
    case None => Failure(PortText(env))
    case Some(port) =>
      Success(DbConfig(
        Getenv(env, "DB_HOST", "localhost"),
        port,
        Getenv(env, "DB_NAME", "olist"),
        Getenv(env, "DB_USER", if vendor == "postgres" then "postgres" else "root"),
        Getenv(env, "DB_PASS", ""),
        vendor))
  }

  /**
   * The logger warning about the password, checked on DB_CFG: it fires
   * exactly when DB_PASS is unset or empty.
   */
  predicate PasswordWarned(cfg: DbConfig) {
    cfg.password == ""
  }

  /** The password warning of a configuration read from env fires exactly when DB_PASS is unset or "". */
  lemma PasswordWarning(env: Env)
    requires DbCfg(env).Success?
    ensures PasswordWarned(DbCfg(env).value) <==> "DB_PASS" !in env || env["DB_PASS"] == ""
  {
  }

  /** With no DB_PORT the port is 5432 for postgres and 3306 for mysql. */
  lemma DefaultPort(env: Env)
    requires "DB_PORT" !in env
    ensures DbCfg(env).Success?
    ensures DbCfg(env).value.port == (if Vendor(env) == "postgres" then 5432 else 3306)
  {
    PostgresPortText();
    MysqlPortText();
  }

  lemma ShowNatDigit(n: nat, d: nat)
    requires 1 <= n && d < 10
    ensures ShowNat(10 * n + d) == ShowNat(n) + [DigitChar(d)]
  {
  }

  lemma PostgresPortText()
    ensures ParseInt("5432") == Some(5432)
  {
    assert ShowNat(5432) == "5432" by {
      ShowNatDigit(5, 4);
      ShowNatDigit(54, 3);
      ShowNatDigit(543, 2);
    }
    ParseShow(5432);
  }

  lemma MysqlPortText()
    ensures ParseInt("3306") == Some(3306)
  {
    assert ShowNat(3306) == "3306" by {
      ShowNatDigit(3, 3);
      ShowNatDigit(33, 0);
      ShowNatDigit(330, 6);
    }
    ParseShow(3306);
  }

  /** An empty environment gives the local postgres defaults. */
  lemma EmptyEnvironment()
    ensures DbCfg(map[]) == Success(DbConfig("localhost", 5432, "olist", "postgres", "", "postgres"))
  {
    assert Lower("postgres") == "postgres";
    DefaultPort(map[]);
  }

  /** DEBUG: FLASK_ENV, "development" when unset, equals "development". */
  function Debug(env: Env): (debug: bool)
    ensures "FLASK_ENV" !in env ==> debug
    ensures "FLASK_ENV" in env ==> (debug <==> env["FLASK_ENV"] == "development")
  {
    Getenv(env, "FLASK_ENV", "development") == "development"
  }
}
