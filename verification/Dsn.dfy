/** The connection-string resolver (packages/session-persistence-postgres/src/connection.ts): which
    strings become socket options and which are passed through.  Percent-decoding is a parameter. */
module Dsn {
  import opened Wrappers
  import opened DsnText

  type Decoder = string -> Option<string>

  datatype DsnError = EmptyString | UnsupportedScheme | BadEncoding | MissingUsername | MissingDatabase

  datatype Fields = Fields(username: string, password: string, database: string)

  /** A string is passed through; a socket connection gets an options object. */
  datatype Target = Text(url: string) | Socket(path: string, fields: Fields)

  type Params = map<string, string>

  /** One way to read what stands before the query. */
  datatype Reading = Reading(userinfo: string, path: string)

  // ---------------------------------------------------------------- the resolver

  predicate IsSpace(c: char) {
    var n := c as int;
    9 <= n <= 13 || n in {0x20, 0xA0, 0x1680, 0x2028, 0x2029, 0x202F, 0x205F, 0x3000, 0xFEFF} || 0x2000 <= n <= 0x200A
  }

  function Trim(s: string): string {
    if s == "" then ""
    else if IsSpace(s[0]) then Trim(s[1..])
    else if IsSpace(s[|s| - 1]) then Trim(s[..|s| - 1])
    else s
  }

  function Lower(c: char): char {
    if 'A' <= c <= 'Z' then (c as int + 32) as char else c
  }

  predicate StartsWith(s: string, prefix: string) {
    |prefix| <= |s| && forall i :: 0 <= i < |prefix| ==> Lower(s[i]) == prefix[i]
  }

  const LONG_SCHEME := "postgresql://"
  const SHORT_SCHEME := "postgres://"

  function SchemeLength(s: string): (n: Option<nat>)
    ensures n.Some? ==> n.value <= |s|
  {
    if StartsWith(s, LONG_SCHEME) then Some(|LONG_SCHEME|)
    else if StartsWith(s, SHORT_SCHEME) then Some(|SHORT_SCHEME|)
    else None
  }

  /** One `key=value` of the query; the first of a repeated key wins, and its value alone is decoded. */
  function AddPair(decode: Decoder, pair: string, params: Params): Option<Params> {
    if pair == "" then Some(params)
    else
      var key := decode(UpTo(pair, '='));
      if key.None? then None
      else if key.value in params then Some(params)
      else
        var value := decode(After(pair, '='));
        if value.None? then None else Some(params[key.value := value.value])
  }

  function AddPairs(decode: Decoder, pairs: seq<string>, params: Params): Option<Params> {
    if pairs == [] then Some(params)
    else
      var next := AddPair(decode, pairs[0], params);
      if next.None? then None else AddPairs(decode, pairs[1..], next.value)
  }

  method ParseQueryPairs(decode: Decoder, query: string) returns (params: Option<Params>)
    ensures params == AddPairs(decode, Split(query, '&'), map[])
  {
    var pairs := Split(query, '&');
    var out: Params := map[];
    for i := 0 to |pairs|
      invariant AddPairs(decode, pairs[i..], out) == AddPairs(decode, pairs, map[])
    {
      assert pairs[i..][1..] == pairs[i + 1..];
      if pairs[i] != "" {
        var key := decode(UpTo(pairs[i], '='));
        if key.None? {
          return None;
        }
        if key.value !in out {
          var value := decode(After(pairs[i], '='));
          if value.None? {
            return None;
          }
          out := out[key.value := value.value];
        }
      }
    }
    params := Some(out);
  }

  /** `params.get(first) ?? params.get(second) ?? ""`. */
  function Lookup(params: Params, first: string, second: string): string {
    if first in params then params[first] else if second in params then params[second] else ""
  }

  /** What stands before the first `/`, and the rest. */
  function Authority(before: string): string {
    UpTo(before, '/')
  }

  function PathOf(before: string): string {
    if IndexOf(before, '/').Some? then before[IndexOf(before, '/').value..] else ""
  }

  function Standard(authority: string, path: string): Reading {
    var at := LastIndexOf(authority, '@');
    Reading(if at.None? then "" else authority[..at.value], path)
  }

  /** The userinfo goes on to the `@` at `r` of the path. */
  function Rejoined(authority: string, path: string, r: nat): Reading
    requires r < |path|
  {
    var remainder := path[r + 1..];
    var host := IndexOf(remainder, '/');
    Reading(authority + path[..r], if host.None? then "" else remainder[host.value..])
  }

  function Readings(authority: string, path: string): (c: seq<Reading>)
    ensures |c| > 0
  {
    var rejoinAt := LastIndexOf(path, '@');
    if '@' !in authority && rejoinAt.Some? && ':' in authority + path[..rejoinAt.value]
    then [Standard(authority, path), Rejoined(authority, path, rejoinAt.value)]
    else [Standard(authority, path)]
  }

  function Candidates(before: string): (c: seq<Reading>)
    ensures |c| > 0
  {
    var atSlash := LastAtSlash(before);
    if atSlash.Some? then [Reading(before[..atSlash.value], before[atSlash.value + 1..])]
    else Readings(Authority(before), PathOf(before))
  }

  function Userinfo(decode: Decoder, userinfo: string): Option<(string, string)> {
    if userinfo == "" then Some(("", ""))
    else if IndexOf(userinfo, ':').None? then
      var username := decode(userinfo);
      if username.None? then None else Some((username.value, ""))
    else
      var username, password := decode(UpTo(userinfo, ':')), decode(After(userinfo, ':'));
      if username.None? || password.None? then None else Some((username.value, password.value))
  }

  /** The first path segment, decoded. */
  function PathDatabase(decode: Decoder, path: string): Option<string> {
    var segment := FirstNonEmpty(Split(path, '/'));
    if segment == "" then Some("") else decode(segment)
  }

  /** The partial form of `socketFields`; `None` is a bad encoding. */
  function SocketFields(decode: Decoder, reading: Reading, params: Params): Option<Fields> {
    var user, database := Userinfo(decode, reading.userinfo), PathDatabase(decode, reading.path);
    if user.None? || database.None? then None
    else Some(Fields(
      if user.value.0 != "" then user.value.0 else Lookup(params, "user", "username"),
      if user.value.1 != "" then user.value.1 else Lookup(params, "password", "password"),
      if database.value != "" then database.value else Lookup(params, "dbname", "database")))
  }

  predicate Complete(f: Fields) {
    f.username != "" && f.database != ""
  }

  /** The first reading that gives complete fields; a bad encoding in a reading tried ends the search. */
  function FirstComplete(decode: Decoder, readings: seq<Reading>, params: Params): Result<Option<Fields>, DsnError> {
    if readings == [] then Ok(None)
    else
      var fields := SocketFields(decode, readings[0], params);
      if fields.None? then Err(BadEncoding)
      else if Complete(fields.value) then Ok(Some(fields.value))
      else FirstComplete(decode, readings[1..], params)
  }

  function ResolveSocket(decode: Decoder, before: string, params: Params, socket: string): Result<Target, DsnError> {
    var readings := Candidates(before);
    var found := FirstComplete(decode, readings, params);
    if found.Err? then Err(found.error)
    else if found.value.Some? then Ok(Socket(socket, found.value.value))
    else
      var first := SocketFields(decode, readings[0], params);
      if first.None? || first.value.username == "" then Err(MissingUsername) else Err(MissingDatabase)
  }

  function ResolveAfterScheme(decode: Decoder, url: string, after: string): Result<Target, DsnError> {
    var text := UpTo(after, '#');
    var params := AddPairs(decode, Split(After(text, '?'), '&'), map[]);
    if params.None? then Err(BadEncoding)
    else
      var socket := Lookup(params.value, "host", "socket");
      if socket == "" || socket[0] != '/' then Ok(Text(url))
      else ResolveSocket(decode, UpTo(text, '?'), params.value, socket)
  }

  /** `resolveBunSqlTarget`. */
  function Resolve(decode: Decoder, url: string): Result<Target, DsnError> {
    var raw := Trim(url);
    if raw == "" then Err(EmptyString)
    else if SchemeLength(raw).None? then Err(UnsupportedScheme)
    else ResolveAfterScheme(decode, url, raw[SchemeLength(raw).value..])
  }

  // ---------------------------------------------------------------- what a string resolves to

  /** The query's `host` parameter, or else its `socket` parameter, decoded; `None` for a string that is
      refused before it is looked at. */
  function SocketParameter(decode: Decoder, url: string): Option<string> {
    var raw := Trim(url);
    if raw == "" || SchemeLength(raw).None? then None
    else
      var params := AddPairs(decode, Split(After(UpTo(raw[SchemeLength(raw).value..], '#'), '?'), '&'), map[]);
      if params.None? then None else Some(Lookup(params.value, "host", "socket"))
  }

  predicate IsAbsolute(path: string) {
    path != "" && path[0] == '/'
  }

  /** A string is passed through, unchanged, exactly when that parameter is no absolute path; a socket
      target has that very path, a username and a database. */
  lemma ResolvedTargets(decode: Decoder, url: string)
    ensures var r, socket := Resolve(decode, url), SocketParameter(decode, url);
            && (r == Ok(Text(url)) <==> socket.Some? && !IsAbsolute(socket.value))
            && (r.Ok? && r.value.Text? ==> r.value.url == url)
            && (r.Ok? && r.value.Socket? ==>
                 socket == Some(r.value.path) && IsAbsolute(r.value.path) && Complete(r.value.fields))
  {
    var raw := Trim(url);
    if raw != "" && SchemeLength(raw).Some? {
      var text := UpTo(raw[SchemeLength(raw).value..], '#');
      var params := AddPairs(decode, Split(After(text, '?'), '&'), map[]);
      if params.Some? {
        FoundIsComplete(decode, Candidates(UpTo(text, '?')), params.value);
      }
    }
  }

  lemma {:induction false} FoundIsComplete(decode: Decoder, readings: seq<Reading>, params: Params)
    ensures var found := FirstComplete(decode, readings, params);
            found.Ok? && found.value.Some? ==> Complete(found.value.value)
  {
    if readings != [] {
      FoundIsComplete(decode, readings[1..], params);
    }
  }

  // ---------------------------------------------------------------- what the query says

  /** A pair that names `key`. */
  predicate Names(decode: Decoder, pair: string, key: string) {
    pair != "" && decode(UpTo(pair, '=')) == Some(key)
  }

  ghost predicate FirstNaming(decode: Decoder, pairs: seq<string>, key: string, i: nat) {
    i < |pairs| && Names(decode, pairs[i], key) && forall j :: 0 <= j < i ==> !Names(decode, pairs[j], key)
  }

  /** What is left of a pair without its first `=` is the key, and what follows it the value. */
  lemma PairParts(pair: string)
    ensures '=' !in pair ==> UpTo(pair, '=') == pair && After(pair, '=') == ""
    ensures '=' in pair ==> pair == UpTo(pair, '=') + "=" + After(pair, '=') && '=' !in UpTo(pair, '=')
  {
    var i := IndexOf(pair, '=');
    if i.Some? {
      assert pair == pair[..i.value] + [pair[i.value]] + pair[i.value + 1..];
    }
  }

  lemma {:induction false} PairsAfter(decode: Decoder, pairs: seq<string>, before: Params, params: Params, key: string)
    requires AddPairs(decode, pairs, before) == Some(params)
    ensures key in before ==> key in params && params[key] == before[key]
    ensures key !in before ==> forall i: nat :: FirstNaming(decode, pairs, key, i) ==>
              key in params && decode(After(pairs[i], '=')) == Some(params[key])
    ensures key !in before && key in params ==> exists i: nat :: FirstNaming(decode, pairs, key, i)
  {
    if pairs != [] {
      var next, rest := AddPair(decode, pairs[0], before).value, pairs[1..];
      PairsAfter(decode, rest, next, params, key);
      if key !in before {
        forall i: nat | FirstNaming(decode, pairs, key, i)
          ensures key in params && decode(After(pairs[i], '=')) == Some(params[key])
        {
          if i > 0 {
            assert !Names(decode, pairs[0], key);
            FirstNamingLater(decode, pairs, key, i - 1);
          }
        }
        if key in params {
          if key in next {
            assert FirstNaming(decode, pairs, key, 0);
          } else {
            var i: nat :| FirstNaming(decode, rest, key, i);
            FirstNamingLater(decode, pairs, key, i);
          }
        }
      }
    }
  }

  lemma FirstNamingLater(decode: Decoder, pairs: seq<string>, key: string, i: nat)
    requires pairs != [] && !Names(decode, pairs[0], key)
    ensures FirstNaming(decode, pairs[1..], key, i) <==> FirstNaming(decode, pairs, key, i + 1)
  {
    if FirstNaming(decode, pairs[1..], key, i) {
      forall j | 0 <= j < i + 1 ensures !Names(decode, pairs[j], key) {
        assert j > 0 ==> pairs[j] == pairs[1..][j - 1];
      }
    }
    if FirstNaming(decode, pairs, key, i + 1) {
      forall j | 0 <= j < i ensures !Names(decode, pairs[1..][j], key) {
        assert pairs[1..][j] == pairs[j + 1];
      }
    }
  }

  /** A parameter has the decoded value of the first pair that names it, and is missing if none does. */
  lemma ParameterIsTheFirst(decode: Decoder, query: string, params: Params, key: string)
    requires AddPairs(decode, Split(query, '&'), map[]) == Some(params)
    ensures key in params <==> exists i: nat :: FirstNaming(decode, Split(query, '&'), key, i)
    ensures forall i: nat :: FirstNaming(decode, Split(query, '&'), key, i) ==>
              key in params && decode(After(Split(query, '&')[i], '=')) == Some(params[key])
  {
    PairsAfter(decode, Split(query, '&'), map[], params, key);
  }

  /** A pair whose key does not decode, or that is the first to name its key and has a value that does not. */
  ghost predicate Fails(decode: Decoder, pairs: seq<string>, before: Params, i: nat) {
    && i < |pairs| && pairs[i] != ""
    && (|| decode(UpTo(pairs[i], '=')).None?
        || (var key := decode(UpTo(pairs[i], '=')).value;
            key !in before && FirstNaming(decode, pairs, key, i) && decode(After(pairs[i], '=')).None?))
  }

  lemma FailsLater(decode: Decoder, pairs: seq<string>, before: Params, next: Params, i: nat)
    requires pairs != [] && AddPair(decode, pairs[0], before) == Some(next)
    ensures Fails(decode, pairs[1..], next, i) <==> Fails(decode, pairs, before, i + 1)
  {
    if i < |pairs[1..]| && pairs[1..][i] != "" && decode(UpTo(pairs[1..][i], '=')).Some? {
      var key := decode(UpTo(pairs[1..][i], '=')).value;
      assert pairs[i + 1] == pairs[1..][i];
      if Names(decode, pairs[0], key) {
        assert key in next && !FirstNaming(decode, pairs, key, i + 1);
      } else {
        FirstNamingLater(decode, pairs, key, i);
      }
    }
  }

  /** Parsing fails exactly when there is such a pair; the value of a later pair of the same key is never decoded. */
  lemma {:induction false} PairsFailIff(decode: Decoder, pairs: seq<string>, before: Params)
    ensures AddPairs(decode, pairs, before).None? <==> exists i: nat :: Fails(decode, pairs, before, i)
  {
    if pairs != [] {
      var next := AddPair(decode, pairs[0], before);
      if next.None? {
        assert Fails(decode, pairs, before, 0);
      } else {
        PairsFailIff(decode, pairs[1..], next.value);
        if i: nat :| Fails(decode, pairs, before, i) {
          assert i > 0;
          FailsLater(decode, pairs, before, next.value, i - 1);
        }
        if i: nat :| Fails(decode, pairs[1..], next.value, i) {
          FailsLater(decode, pairs, before, next.value, i);
        }
      }
    }
  }

  /** The one of two parameters that counts: the first if it is given, even empty, and else the second. */
  ghost predicate Says(params: Params, first: string, second: string, value: string) {
    || (first in params && value == params[first])
    || (first !in params && second in params && value == params[second])
    || (first !in params && second !in params && value == "")
  }

  /** Before the query a reading's own username, password and first path segment count, and where one of
      them is empty the query's parameters do. */
  lemma FieldsAre(decode: Decoder, reading: Reading, params: Params)
    requires SocketFields(decode, reading, params).Some?
    ensures var f, own, segment := SocketFields(decode, reading, params).value, Userinfo(decode, reading.userinfo),
                                   FirstNonEmpty(Split(reading.path, '/'));
            && own.Some? && (segment != "" ==> decode(segment).Some?)
            && (if own.value.0 != "" then f.username == own.value.0 else Says(params, "user", "username", f.username))
            && (if own.value.1 != "" then f.password == own.value.1
                else Says(params, "password", "password", f.password))
            && (if segment != "" && decode(segment).value != "" then f.database == decode(segment).value
                else Says(params, "dbname", "database", f.database))
  {
  }

  /** Userinfo up to its first `:` is the username, and the rest, if any, the password, each decoded. */
  lemma UserinfoIs(decode: Decoder, userinfo: string)
    ensures var r, own := Userinfo(decode, userinfo), IndexOf(userinfo, ':');
            if userinfo == "" then r == Some(("", ""))
            else if own.None? then r.Some? <==> decode(userinfo).Some?
            else r.Some? <==> decode(userinfo[..own.value]).Some? && decode(userinfo[own.value + 1..]).Some?
    ensures var r, own := Userinfo(decode, userinfo), IndexOf(userinfo, ':');
            r.Some? && userinfo != "" ==>
              && decode(if own.None? then userinfo else userinfo[..own.value]) == Some(r.value.0)
              && (if own.None? then r.value.1 == "" else decode(userinfo[own.value + 1..]) == Some(r.value.1))
  {
  }

  /** The search over what the readings give: a bad encoding, or the first complete fields, ends it. */
  function FirstOf(found: seq<Option<Fields>>): Result<Option<Fields>, DsnError> {
    if found == [] then Ok(None)
    else if found[0].None? then Err(BadEncoding)
    else if found[0].value.username != "" && found[0].value.database != "" then Ok(found[0])
    else FirstOf(found[1..])
  }

  function Found(decode: Decoder, readings: seq<Reading>, params: Params): (found: seq<Option<Fields>>)
    ensures |found| == |readings|
  {
    if readings == [] then []
    else [SocketFields(decode, readings[0], params)] + Found(decode, readings[1..], params)
  }

  lemma {:induction false} SearchIs(decode: Decoder, readings: seq<Reading>, params: Params)
    ensures FirstComplete(decode, readings, params) == FirstOf(Found(decode, readings, params))
  {
    if readings != [] {
      SearchIs(decode, readings[1..], params);
      assert Found(decode, readings, params)[1..] == Found(decode, readings[1..], params);
    }
  }

  /** Fields that were read, but without a username or a database. */
  predicate Lacks(fields: Option<Fields>) {
    fields.Some? && (fields.value.username == "" || fields.value.database == "")
  }

  /** The first of them that does not lack anything decides, and with none nothing is found. */
  lemma {:induction false} SearchEnds(found: seq<Option<Fields>>, n: nat)
    requires n <= |found| && forall i :: 0 <= i < n ==> Lacks(found[i])
    ensures n == |found| ==> FirstOf(found) == Ok(None)
    ensures n < |found| && !Lacks(found[n]) ==>
              FirstOf(found) == if found[n].None? then Err(BadEncoding) else Ok(found[n])
  {
    if n > 0 {
      SearchEnds(found[1..], n - 1);
    }
  }

  /** With no userinfo and no path that names a database the query must give the username and the database:
      what is missing is reported, a missing username first. */
  lemma QueryAlone(decode: Decoder, params: Params, socket: string)
    requires decode("") == Some("")
    ensures var r := ResolveSocket(decode, "", params, socket);
            exists username, password, database ::
              && Says(params, "user", "username", username) && Says(params, "password", "password", password)
              && Says(params, "dbname", "database", database)
              && r == if username == "" then Err(MissingUsername) else if database == "" then Err(MissingDatabase)
                      else Ok(Socket(socket, Fields(username, password, database)))
  {
    assert Candidates("") == [Reading("", "")];
    assert Split("", '/') == [""] && [""][1..] == [];
    var f := SocketFields(decode, Reading("", ""), params).value;
    assert Says(params, "user", "username", f.username) && Says(params, "password", "password", f.password);
    assert Says(params, "dbname", "database", f.database);
    var rest := [Reading("", "")][1..];
    assert rest == [];
    assert FirstComplete(decode, rest, params) == Ok(None);
  }

  /** If no reading is complete the first one decides which error it is. */
  lemma WhichIsMissing(decode: Decoder, before: string, params: Params, socket: string)
    requires var found := Found(decode, Candidates(before), params);
             Lacks(found[0]) && forall i :: 0 <= i < |found| ==> Lacks(found[i])
    ensures ResolveSocket(decode, before, params, socket)
         == if Found(decode, Candidates(before), params)[0].value.username == "" then Err(MissingUsername)
            else Err(MissingDatabase)
  {
    SearchIs(decode, Candidates(before), params);
    SearchEnds(Found(decode, Candidates(before), params), |Candidates(before)|);
  }

  // ---------------------------------------------------------------- around the query and before it

  const WHITE_SPACE: set<int> := {
    0x09, 0x0A, 0x0B, 0x0C, 0x0D, 0x20, 0xA0, 0x1680, 0x2000, 0x2001, 0x2002, 0x2003, 0x2004, 0x2005, 0x2006,
    0x2007, 0x2008, 0x2009, 0x200A, 0x2028, 0x2029, 0x202F, 0x205F, 0x3000, 0xFEFF}

  /** The white space and line terminators of ECMAScript (sections 12.2 and 12.3 of ECMA-262), one by one. */
  lemma SpacesAre(c: char)
    ensures IsSpace(c) <==> (c as int in WHITE_SPACE)
  {
  }

  /** A query with a bad encoding fails the whole string, and so does a reading tried that has one. */
  lemma BadEncodingsFail(decode: Decoder, url: string, after: string)
    ensures var text := UpTo(after, '#');
            var pairs := Split(After(text, '?'), '&');
            (exists i: nat :: Fails(decode, pairs, map[], i)) ==>
              ResolveAfterScheme(decode, url, after) == Err(BadEncoding)
  {
    PairsFailIff(decode, Split(After(UpTo(after, '#'), '?'), '&'), map[]);
  }

  ghost predicate AllSpaces(s: string) {
    forall c :: c in s ==> IsSpace(c)
  }

  /** Trimming takes off white space at both ends, and all of it. */
  lemma {:induction false} TrimIs(s: string) returns (front: string, back: string)
    ensures s == front + Trim(s) + back && AllSpaces(front) && AllSpaces(back)
    ensures Trim(s) != "" ==> !IsSpace(Trim(s)[0]) && !IsSpace(Trim(s)[|Trim(s)| - 1])
  {
    front, back := "", "";
    if s != "" && IsSpace(s[0]) {
      front, back := TrimIs(s[1..]);
      assert s == [s[0]] + s[1..] == [s[0]] + (front + Trim(s) + back);
      front := [s[0]] + front;
    } else if s != "" && IsSpace(s[|s| - 1]) {
      front, back := TrimIs(s[..|s| - 1]);
      assert s == s[..|s| - 1] + [s[|s| - 1]] == front + Trim(s) + back + [s[|s| - 1]];
      back := back + [s[|s| - 1]];
    }
  }

  lemma {:induction false} SearchFailsAs(decode: Decoder, readings: seq<Reading>, params: Params)
    ensures var r := FirstComplete(decode, readings, params); r.Err? ==> r.error == BadEncoding
  {
    if readings != [] {
      SearchFailsAs(decode, readings[1..], params);
    }
  }

  lemma AfterSchemeFailsAs(decode: Decoder, url: string, after: string)
    ensures var r := ResolveAfterScheme(decode, url, after);
            r.Err? ==> r.error in {BadEncoding, MissingUsername, MissingDatabase}
  {
    var text := UpTo(after, '#');
    var params := AddPairs(decode, Split(After(text, '?'), '&'), map[]);
    if params.Some? {
      SearchFailsAs(decode, Candidates(UpTo(text, '?')), params.value);
    }
  }

  lemma OneScheme(s: string)
    ensures !(StartsWith(s, "postgresql://") && StartsWith(s, "postgres://"))
  {
    assert "postgresql://"[8] == 'q' && "postgres://"[8] == ':';
  }

  /** A string of white space is empty, and one that starts with neither scheme is refused; letters of
      either case will do. */
  lemma SchemesAre(decode: Decoder, url: string)
    ensures var raw, r := Trim(url), Resolve(decode, url);
            if raw == "" then r == Err(EmptyString)
            else if StartsWith(raw, "postgresql://") then r == ResolveAfterScheme(decode, url, raw[13..])
            else if StartsWith(raw, "postgres://") then r == ResolveAfterScheme(decode, url, raw[11..])
            else r == Err(UnsupportedScheme)
    ensures Trim(url) != "" && (StartsWith(Trim(url), "postgresql://") || StartsWith(Trim(url), "postgres://")) ==>
              Resolve(decode, url) != Err(EmptyString) && Resolve(decode, url) != Err(UnsupportedScheme)
  {
    var raw := Trim(url);
    OneScheme(raw);
    if raw != "" && SchemeLength(raw).Some? {
      AfterSchemeFailsAs(decode, url, raw[SchemeLength(raw).value..]);
    }
  }

  lemma StartsWithIs(s: string, prefix: string)
    requires forall c :: c in prefix ==> !('A' <= c <= 'Z')
    ensures StartsWith(s, prefix) <==>
              |prefix| <= |s| && forall i :: 0 <= i < |prefix| ==>
                s[i] == prefix[i] || ('A' <= s[i] <= 'Z' && s[i] as int + ('a' as int - 'A' as int) == prefix[i] as int)
  {
    assert forall i :: 0 <= i < |prefix| ==> prefix[i] in prefix;
  }

  /** With a host between the `@` and the path, the userinfo ends at the `@` and the host counts for nothing. */
  lemma HostIsIgnored(userinfo: string, host: string, database: string)
    requires '/' !in userinfo && '/' !in host && '@' !in host && host != "" && '@' !in database
    ensures Candidates(userinfo + "@" + host + "/" + database) == [Reading(userinfo, "/" + database)]
  {
    var authority := userinfo + "@" + host;
    var before := authority + "/" + database;
    IndexOfMiddle(authority, '/', database);
    LastIndexOfMiddle(userinfo, '@', host);
    assert before[..|authority|] == authority && before[|authority|..] == "/" + database;
    assert authority[..|userinfo|] == userinfo;
    forall k: nat ensures !AtSlash(before, k) {
      assert k < |authority| ==> before[k] == authority[k];
      assert |authority| < k < |before| ==> before[k] == database[k - |authority| - 1];
      assert k + 1 < |authority| ==> before[k + 1] == authority[k + 1] && authority[k + 1] in authority;
      assert k + 1 == |authority| ==> before[k] == host[|host| - 1];
    }
    assert LastAtSlash(before).None?;
  }
}
