/** `withIsolatedBunSqlEnv` (packages/session-persistence-postgres/src/connection.ts): the
    environment keys a database client would read are hidden while it is constructed. */
module BunEnvironment {
  import opened Wrappers

  type Variables = map<string, string>

  const URL_KEYS: seq<string> := [
    "DATABASE_URL", "DATABASEURL", "TLS_DATABASE_URL",
    "POSTGRES_URL", "PGURL", "PG_URL", "TLS_POSTGRES_DATABASE_URL",
    "MYSQL_URL", "MYSQLURL", "TLS_MYSQL_DATABASE_URL",
    "MARIADB_URL", "MARIADBURL", "TLS_MARIADB_DATABASE_URL",
    "SQLITE_URL", "SQLITEURL"]

  function Value(vars: Variables, key: string): Option<string> {
    if key in vars then Some(vars[key]) else None
  }

  /** Set to the same text in both, or in neither. */
  ghost predicate SameAt(key: string, a: Variables, b: Variables) {
    (key in a <==> key in b) && (key in a && key in b ==> a[key] == b[key])
  }

  class ProcessEnv {
    var vars: Variables

    constructor (vars: Variables)
      ensures this.vars == vars
    {
      this.vars := vars;
    }

    /** `keys` without repetition; what each held is saved and deleted. */
    method Hide(keys: seq<string>) returns (saved: map<string, Option<string>>)
      modifies this
      ensures saved.Keys == (set k | k in keys)
      ensures forall k :: k in keys ==> saved[k] == Value(old(vars), k) && k !in vars
      ensures forall k :: k !in keys ==> Value(vars, k) == Value(old(vars), k)
    {
      saved := map[];
      for i := 0 to |keys|
        invariant saved.Keys == (set k | k in keys[..i])
        invariant forall k :: k in keys[..i] ==> saved[k] == Value(old(vars), k) && k !in vars
        invariant forall k :: k !in keys[..i] ==> Value(vars, k) == Value(old(vars), k)
      {
        assert keys[..i + 1] == keys[..i] + [keys[i]];
        if keys[i] !in saved {
          saved := saved[keys[i] := Value(vars, keys[i])];
        }
        vars := vars - {keys[i]};
      }
      assert keys[..|keys|] == keys;
    }

    method Restore(keys: seq<string>, saved: map<string, Option<string>>)
      requires forall k :: k in keys ==> k in saved
      modifies this
      ensures forall k :: k in keys ==> Value(vars, k) == saved[k]
      ensures forall k :: k !in keys ==> Value(vars, k) == Value(old(vars), k)
    {
      for i := 0 to |keys|
        invariant forall k :: k in keys[..i] ==> Value(vars, k) == saved[k]
        invariant forall k :: k !in keys[..i] ==> Value(vars, k) == Value(old(vars), k)
      {
        assert keys[..i + 1] == keys[..i] + [keys[i]];
        if saved[keys[i]].None? {
          vars := vars - {keys[i]};
        } else {
          vars := vars[keys[i] := saved[keys[i]].value];
        }
      }
      assert keys[..|keys|] == keys;
    }

    /** The callback sees none of the keys; afterwards each is exactly as it was, set or not, whatever
        the callback did to it, and every other variable is as the callback left it. */
    method WithIsolatedBunSqlEnv(run: Variables -> Variables) returns (seen: Variables)
      modifies this
      ensures forall k :: k in URL_KEYS ==> k !in seen && SameAt(k, vars, old(vars))
      ensures forall k :: k !in URL_KEYS ==> SameAt(k, seen, old(vars)) && SameAt(k, vars, run(seen))
    {
      var saved := Hide(URL_KEYS);
      seen := vars;
      vars := run(seen);
      Restore(URL_KEYS, saved);
    }
  }
}
