/** Which printed connection strings the resolver
    (packages/session-persistence-postgres/src/connection.ts) reads back.  The parts are printed raw,
    as they stand or percent-encoded, and read back decoded. */
module DsnRoundTrip {
  import opened Wrappers
  import opened DsnText
  import opened Dsn

  /** Text without `%` decodes to itself. */
  ghost predicate DecodesPlain(decode: Decoder) {
    forall s: string :: '%' !in s ==> decode(s) == Some(s)
  }

  /** `a` + `c` + `b` decodes to its decoded parts around `c`, and fails if either part does. */
  ghost predicate DecodesAround(decode: Decoder, a: string, c: char, b: string) {
    decode(a + [c] + b) ==
      if decode(a).Some? && decode(b).Some? then Some(decode(a).value + [c] + decode(b).value) else None
  }

  /** No escape reaches across a `/` or an `@`. */
  ghost predicate DecodesInParts(decode: Decoder) {
    forall a: string, c: char, b: string :: c == '/' || c == '@' ==> DecodesAround(decode, a, c, b)
  }

  /** The two things asked of the decoder can be had together. */
  lemma SomeDecoderWillDo()
    ensures DecodesPlain(s => Some(s)) && DecodesInParts(s => Some(s))
  {
  }

  /** Holds none of these characters. */
  predicate Free(s: string, reserved: set<char>) {
    forall c :: c in s ==> c !in reserved
  }

  /** The parts of a connection string as they are printed. */
  datatype Raw = Raw(user: string, password: string, database: string, path: string)

  /** What they decode to. */
  ghost predicate DecodesTo(decode: Decoder, raw: Raw, fields: Fields, socket: string) {
    && decode(raw.user) == Some(fields.username) && decode(raw.password) == Some(fields.password)
    && decode(raw.database) == Some(fields.database) && decode(raw.path) == Some(socket)
    && Complete(fields) && IsAbsolute(socket)
  }

  /** A value of the query, as it may be printed. */
  predicate QueryValue(s: string) {
    Free(s, {'#', '&'})
  }

  predicate EndsInText(s: string) {
    s != "" && !IsSpace(s[|s| - 1])
  }

  const HOST := "host"
  const DBNAME := "dbname"

  lemma KeysArePlain()
    ensures Free(HOST, {'&', '=', '%', '#'}) && Free(DBNAME, {'&', '=', '%', '#'}) && HOST != DBNAME
  {
  }

  function Pair(key: string, value: string): string {
    key + "=" + value
  }

  lemma TrimmedScheme(decode: Decoder, rest: string)
    requires rest != "" && !IsSpace(rest[|rest| - 1])
    ensures Resolve(decode, LONG_SCHEME + rest) == ResolveAfterScheme(decode, LONG_SCHEME + rest, rest)
  {
    var url := LONG_SCHEME + rest;
    assert url[|url| - 1] == rest[|rest| - 1] && url[0] == 'p';
    assert Trim(url) == url;
    assert StartsWith(url, LONG_SCHEME) by {
      assert forall i :: 0 <= i < |LONG_SCHEME| ==> url[i] == LONG_SCHEME[i];
    }
    assert url[|LONG_SCHEME|..] == rest;
  }

  /** `before` + `?` + `query`, with no fragment. */
  lemma SplitsAtQuery(decode: Decoder, url: string, before: string, query: string, params: Params)
    requires '?' !in before && '#' !in before && '#' !in query
    requires AddPairs(decode, Split(query, '&'), map[]) == Some(params)
    requires var socket := Lookup(params, "host", "socket"); socket != "" && socket[0] == '/'
    ensures ResolveAfterScheme(decode, url, before + "?" + query)
         == ResolveSocket(decode, before, params, Lookup(params, "host", "socket"))
  {
    NoIndex(before + "?" + query, '#');
    IndexOfMiddle(before, '?', query);
  }

  lemma PairAdds(decode: Decoder, key: string, value: string, decoded: string, params: Params)
    requires decode(key) == Some(key) && '=' !in key && decode(value) == Some(decoded) && key !in params
    ensures AddPair(decode, Pair(key, value), params) == Some(params[key := decoded])
  {
    IndexOfMiddle(key, '=', value);
  }

  lemma OnePair(decode: Decoder, pair: string, params: Params)
    requires '&' !in pair && AddPair(decode, pair, map[]) == Some(params)
    ensures AddPairs(decode, Split(pair, '&'), map[]) == Some(params)
  {
    NoIndex(pair, '&');
    assert Split(pair, '&') == [pair];
    assert [pair][1..] == [];
  }

  lemma TwoPairs(decode: Decoder, first: string, second: string, one: Params, both: Params)
    requires '&' !in first && '&' !in second
    requires AddPair(decode, first, map[]) == Some(one) && AddPair(decode, second, one) == Some(both)
    ensures AddPairs(decode, Split(first + "&" + second, '&'), map[]) == Some(both)
  {
    var query := first + "&" + second;
    IndexOfMiddle(first, '&', second);
    NoIndex(second, '&');
    assert query[..|first|] == first && query[|first| + 1..] == second;
    assert Split(query, '&') == [first] + Split(second, '&') == [first, second];
    assert [first, second][1..] == [second] && [second][1..] == [];
    assert AddPairs(decode, [second], one) == AddPairs(decode, [], both);
  }

  lemma PairIsOne(key: string, value: string)
    requires Free(key, {'&', '#'}) && Free(value, {'&', '#'})
    ensures '&' !in Pair(key, value) && '#' !in Pair(key, value)
  {
  }

  lemma QueryResolves(decode: Decoder, before: string, query: string, params: Params)
    requires '?' !in before && '#' !in before && '#' !in query && query != "" && !IsSpace(query[|query| - 1])
    requires AddPairs(decode, Split(query, '&'), map[]) == Some(params)
    requires var socket := Lookup(params, "host", "socket"); socket != "" && socket[0] == '/'
    ensures Resolve(decode, LONG_SCHEME + (before + "?" + query))
         == ResolveSocket(decode, before, params, Lookup(params, "host", "socket"))
  {
    var rest := before + "?" + query;
    assert rest[|rest| - 1] == query[|query| - 1];
    TrimmedScheme(decode, rest);
    SplitsAtQuery(decode, LONG_SCHEME + rest, before, query, params);
  }

  lemma UserinfoReadsBack(decode: Decoder, user: string, password: string, username: string, decoded: string)
    requires ':' !in user && decode(user) == Some(username) && decode(password) == Some(decoded)
    ensures Userinfo(decode, user + ":" + password) == Some((username, decoded))
  {
    IndexOfMiddle(user, ':', password);
  }

  lemma FirstReadingWins(decode: Decoder, before: string, reading: Reading, params: Params, socket: string,
                         fields: Fields)
    requires Candidates(before)[0] == reading
    requires SocketFields(decode, reading, params) == Some(fields) && Complete(fields)
    ensures ResolveSocket(decode, before, params, socket) == Ok(Socket(socket, fields))
  {
  }

  lemma SecondReadingWins(decode: Decoder, before: string, first: Reading, second: Reading, params: Params,
                          socket: string, fields: Fields)
    requires Candidates(before) == [first, second]
    requires SocketFields(decode, first, params).Some? && !Complete(SocketFields(decode, first, params).value)
    requires SocketFields(decode, second, params) == Some(fields) && Complete(fields)
    ensures ResolveSocket(decode, before, params, socket) == Ok(Socket(socket, fields))
  {
    assert [first, second][1..] == [second];
    assert FirstComplete(decode, [second], params) == Ok(Some(fields));
  }

  // ---------------------------------------------------------------- the database in the path

  /** What may be printed around a password: the username ends at a `:`, and the database at a `/`. */
  predicate PrintableAround(raw: Raw) {
    && raw.user != "" && Free(raw.user, {'?', '#', ':'})
    && raw.database != "" && Free(raw.database, {'?', '#', '/'})
    && QueryValue(raw.path) && EndsInText(raw.path)
  }

  /** The password holds no raw `?` or `#`, and nothing more is asked of it. */
  predicate Printable(raw: Raw) {
    PrintableAround(raw) && Free(raw.password, {'?', '#'})
  }

  /** The documented form: `postgresql://user:password@/database?host=/path`. */
  function Print(raw: Raw): string {
    LONG_SCHEME + (Before(raw) + "?" + Pair(HOST, raw.path))
  }

  function Before(raw: Raw): string {
    raw.user + ":" + raw.password + "@/" + raw.database
  }

  lemma OneReading(raw: Raw)
    requires '/' !in raw.database
    ensures Candidates(Before(raw)) == [Reading(raw.user + ":" + raw.password, "/" + raw.database)]
  {
    var before, userinfo := Before(raw), raw.user + ":" + raw.password;
    LastAtSlashMiddle(userinfo, raw.database);
    assert before[..|userinfo|] == userinfo;
    assert before[|userinfo| + 1..] == "/" + raw.database;
  }

  lemma PrintedFields(decode: Decoder, raw: Raw, fields: Fields, socket: string)
    requires Printable(raw) && DecodesTo(decode, raw, fields, socket)
    ensures SocketFields(decode, Reading(raw.user + ":" + raw.password, "/" + raw.database), map[HOST := socket])
         == Some(fields)
  {
    UserinfoReadsBack(decode, raw.user, raw.password, fields.username, fields.password);
    OneSegment(raw.database);
  }

  lemma PrintedParts(raw: Raw)
    requires Printable(raw)
    ensures '?' !in Before(raw) && '#' !in Before(raw)
    ensures '#' !in Pair(HOST, raw.path) && '&' !in Pair(HOST, raw.path) && EndsInText(Pair(HOST, raw.path))
  {
    KeysArePlain();
    PairIsOne(HOST, raw.path);
    var pair := Pair(HOST, raw.path);
    assert pair[|pair| - 1] == raw.path[|raw.path| - 1];
  }

  lemma PrintedResolves(decode: Decoder, raw: Raw, fields: Fields, socket: string)
    requires DecodesPlain(decode) && Printable(raw) && DecodesTo(decode, raw, fields, socket)
    ensures Resolve(decode, Print(raw)) == ResolveSocket(decode, Before(raw), map[HOST := socket], socket)
  {
    var params: Params := map[HOST := socket];
    PrintedParts(raw);
    KeysArePlain();
    PairAdds(decode, HOST, raw.path, socket, map[]);
    OnePair(decode, Pair(HOST, raw.path), params);
    QueryResolves(decode, Before(raw), Pair(HOST, raw.path), params);
  }

  /** The printed fields are read back, whatever the password: with `/`, `:`, `@` and `@/` in it as they
      are, or percent-encoded. */
  lemma PrintedFieldsReadBack(decode: Decoder, raw: Raw, fields: Fields, socket: string)
    requires DecodesPlain(decode) && Printable(raw) && DecodesTo(decode, raw, fields, socket)
    ensures Resolve(decode, Print(raw)) == Ok(Socket(socket, fields))
  {
    PrintedResolves(decode, raw, fields, socket);
    OneReading(raw);
    PrintedFields(decode, raw, fields, socket);
    FirstReadingWins(decode, Before(raw), Reading(raw.user + ":" + raw.password, "/" + raw.database),
                     map[HOST := socket], socket, fields);
  }

  lemma NoPairs(decode: Decoder)
    ensures AddPairs(decode, Split("", '&'), map[]) == Some(map[])
  {
    NoIndex("", '&');
    assert Split("", '&') == [""] && [""][1..] == [];
    assert AddPairs(decode, [""], map[]) == AddPairs(decode, [], map[]);
  }

  /** A raw `#` before any `?` leaves no query. */
  lemma HashHidesQuery(decode: Decoder, front: string, back: string)
    requires Free(front, {'?', '#'}) && back != "" && !IsSpace(back[|back| - 1])
    ensures Resolve(decode, LONG_SCHEME + (front + "#" + back)) == Ok(Text(LONG_SCHEME + (front + "#" + back)))
  {
    var rest := front + "#" + back;
    assert rest[|rest| - 1] == back[|back| - 1];
    TrimmedScheme(decode, rest);
    IndexOfMiddle(front, '#', back);
    NoIndex(front, '?');
    NoPairs(decode);
  }

  /** A raw `#` ends the string before its query: it is passed through and dialled as it is, not as a socket. */
  lemma HashInPasswordPassesThrough(decode: Decoder, raw: Raw, head: string, tail: string)
    requires '?' !in raw.user && '#' !in raw.user && EndsInText(raw.path)
    requires raw.password == head + "#" + tail && Free(head, {'?', '#'})
    ensures Resolve(decode, Print(raw)) == Ok(Text(Print(raw)))
  {
    var front := raw.user + ":" + head;
    var back := tail + "@/" + raw.database + "?" + Pair(HOST, raw.path);
    var rest := front + "#" + back;
    assert Before(raw) + "?" + Pair(HOST, raw.path) == rest;
    assert back[|back| - 1] == raw.path[|raw.path| - 1];
    HashHidesQuery(decode, front, back);
  }

  // ---------------------------------------------------------------- the database in a parameter

  function BeforeByName(user: string, password: string): string {
    user + ":" + password + "@"
  }

  function ByNameQuery(database: string, path: string): string {
    Pair(HOST, path) + "&" + Pair(DBNAME, database)
  }

  /** `postgresql://user:password@?host=/path&dbname=database`, where two readings compete. */
  function PrintByName(raw: Raw): string {
    LONG_SCHEME + (BeforeByName(raw.user, raw.password) + "?" + ByNameQuery(raw.database, raw.path))
  }

  /** The password again is any without a raw `?` or `#`; the username holds no raw `@` or `/` either. */
  predicate PrintableByName(raw: Raw) {
    && PlainUser(raw.user) && Free(raw.password, {'?', '#'})
    && QueryValue(raw.database) && EndsInText(raw.database) && QueryValue(raw.path)
  }

  predicate PlainUser(user: string) {
    user != "" && Free(user, {'?', '#', ':', '@', '/'})
  }

  /** The password holds an `@` that ends an earlier reading: before its first `/`, or right before some `/`. */
  predicate Misleads(password: string) {
    || LastAtSlash(password).Some?
    || (IndexOf(password, '/').Some? && '@' in UpTo(password, '/'))
  }

  /** What the query says, and what it leaves unsaid. */
  function ByNameParams(database: string, socket: string): (params: Params)
    ensures Lookup(params, "host", "socket") == socket && Lookup(params, "dbname", "database") == database
    ensures Lookup(params, "user", "username") == "" && Lookup(params, "password", "password") == ""
  {
    map[HOST := socket][DBNAME := database]
  }

  lemma ByNameQueryParses(decode: Decoder, raw: Raw, fields: Fields, socket: string)
    requires DecodesPlain(decode) && PrintableByName(raw) && DecodesTo(decode, raw, fields, socket)
    ensures AddPairs(decode, Split(ByNameQuery(raw.database, raw.path), '&'), map[])
         == Some(ByNameParams(fields.database, socket))
  {
    KeysArePlain();
    var first: Params := map[HOST := socket];
    PairAdds(decode, HOST, raw.path, socket, map[]);
    PairAdds(decode, DBNAME, raw.database, fields.database, first);
    PairIsOne(HOST, raw.path);
    PairIsOne(DBNAME, raw.database);
    TwoPairs(decode, Pair(HOST, raw.path), Pair(DBNAME, raw.database), first, ByNameParams(fields.database, socket));
  }

  lemma ByNameParts(raw: Raw)
    requires PrintableByName(raw)
    ensures '?' !in BeforeByName(raw.user, raw.password) && '#' !in BeforeByName(raw.user, raw.password)
    ensures '#' !in ByNameQuery(raw.database, raw.path) && EndsInText(ByNameQuery(raw.database, raw.path))
  {
    KeysArePlain();
    PairIsOne(HOST, raw.path);
    PairIsOne(DBNAME, raw.database);
    var query := ByNameQuery(raw.database, raw.path);
    assert query[|query| - 1] == raw.database[|raw.database| - 1];
  }

  /** The whole string comes down to its readings. */
  lemma ByNameResolves(decode: Decoder, raw: Raw, fields: Fields, socket: string)
    requires DecodesPlain(decode) && PrintableByName(raw) && DecodesTo(decode, raw, fields, socket)
    ensures Resolve(decode, PrintByName(raw))
         == ResolveSocket(decode, BeforeByName(raw.user, raw.password), ByNameParams(fields.database, socket), socket)
  {
    ByNameParts(raw);
    ByNameQueryParses(decode, raw, fields, socket);
    QueryResolves(decode, BeforeByName(raw.user, raw.password), ByNameQuery(raw.database, raw.path),
                  ByNameParams(fields.database, socket));
  }

  /** No `/` in the password: the standard reading is the right one. */
  lemma NoSlashReading(user: string, password: string)
    requires PlainUser(user) && '/' !in password
    ensures Candidates(BeforeByName(user, password)) == [Reading(user + ":" + password, "")]
  {
    var before := BeforeByName(user, password);
    NoIndex(before, '/');
    assert forall j: nat :: j < |before| ==> before[j] in before;
    EndsAtAt(user + ":" + password);
    NoIndex("", '@');
  }

  /** The two readings when only the path holds an `@`, and it ends the path. */
  lemma RejoinReadings(authority: string, front: string)
    requires '@' !in authority && ':' in authority
    ensures Readings(authority, front + "@") == [Reading("", front + "@"), Reading(authority + front, "")]
  {
    EndsAtAt(front);
    NoIndex(authority, '@');
    assert (front + "@")[|front| + 1..] == "";
    NoIndex("", '/');
  }

  lemma CandidatesAt(authority: string, path: string)
    requires path != "" && path[0] == '/' && '/' !in authority && LastAtSlash(authority + path).None?
    ensures Candidates(authority + path) == Readings(authority, path)
  {
    IndexOfMiddle(authority, '/', path[1..]);
    assert authority + path == authority + "/" + path[1..];
    assert (authority + path)[..|authority|] == authority && (authority + path)[|authority|..] == path;
  }

  lemma Regrouped(user: string, a: string, b: string)
    ensures BeforeByName(user, a + "/" + b) == (user + ":" + a) + (("/" + b) + "@")
    ensures (user + ":" + a) + ("/" + b) == user + ":" + (a + "/" + b)
  {
  }

  lemma RejoinedCandidates(before: string, authority: string, front: string, whole: string)
    requires before == authority + (front + "@") && whole == authority + front && LastAtSlash(before).None?
    requires front != "" && front[0] == '/' && '/' !in authority && '@' !in authority && ':' in authority
    ensures Candidates(before) == [Reading("", front + "@"), Reading(whole, "")]
  {
    CandidatesAt(authority, front + "@");
    RejoinReadings(authority, front);
  }

  /** A `/` and no misleading `@`: the standard reading has no username, and the rejoined one is right. */
  lemma RejoinedReading(user: string, a: string, b: string)
    requires PlainUser(user) && '/' !in a && '@' !in a && LastAtSlash(a + "/" + b).None?
    ensures Candidates(BeforeByName(user, a + "/" + b))
         == [Reading("", "/" + b + "@"), Reading(user + ":" + (a + "/" + b), "")]
  {
    NoAtSlash(user, a + "/" + b);
    Regrouped(user, a, b);
    RejoinedCandidates(BeforeByName(user, a + "/" + b), user + ":" + a, "/" + b, user + ":" + (a + "/" + b));
  }

  lemma EndsAtAt(front: string)
    ensures LastIndexOf(front + "@", '@') == Some(|front|) && (front + "@")[..|front|] == front
  {
    LastIndexOfMiddle(front, '@', "");
    assert front + "@" + "" == front + "@";
  }

  /** What stands at `@/` in the whole stands there in the password. */
  lemma AtSlashInPassword(user: string, password: string, i: nat)
    ensures AtSlash(BeforeByName(user, password), |user| + 1 + i) == AtSlash(password, i)
  {
    var before, k := BeforeByName(user, password), |user| + 1 + i;
    assert i < |password| ==> before[k] == password[i];
    assert i + 1 < |password| ==> before[k + 1] == password[i + 1];
  }

  lemma NoAtSlash(user: string, password: string)
    requires PlainUser(user) && LastAtSlash(password).None?
    ensures LastAtSlash(BeforeByName(user, password)).None?
  {
    var before := BeforeByName(user, password);
    assert forall j: nat :: j < |user| ==> before[j] in user;
    forall j: nat ensures !AtSlash(before, j) {
      if j > |user| {
        AtSlashInPassword(user, password, j - |user| - 1);
      }
    }
  }

  /** Every segment of a path that decodes decodes. */
  lemma {:induction false} SegmentDecodes(decode: Decoder, s: string)
    requires DecodesPlain(decode) && DecodesInParts(decode) && decode(s).Some?
    ensures decode(FirstNonEmpty(Split(s, '/'))).Some?
    decreases |s|
  {
    var i := IndexOf(s, '/');
    if i.Some? {
      var a, b := s[..i.value], s[i.value + 1..];
      assert s == a + ['/'] + b;
      assert DecodesAround(decode, a, '/', b);
      SegmentDecodes(decode, b);
      assert Split(s, '/') == [a] + Split(b, '/');
      assert Split(s, '/')[1..] == Split(b, '/');
    } else {
      assert Split(s, '/') == [s] && [s][1..] == [];
    }
  }

  /** The standard reading of a password with a plain `/` finds no username. */
  lemma NoUserReading(decode: Decoder, path: string, params: Params)
    requires DecodesPlain(decode) && DecodesInParts(decode) && decode(path).Some?
    requires Lookup(params, "user", "username") == ""
    ensures var fields := SocketFields(decode, Reading("", path), params);
            fields.Some? && !Complete(fields.value)
  {
    SegmentDecodes(decode, path);
  }

  /** What a reading yields that leaves the database to the parameter. */
  lemma ByNameFields(decode: Decoder, user: string, password: string, fields: Fields, params: Params)
    requires ':' !in user && decode(user) == Some(fields.username) && decode(password) == Some(fields.password)
    requires fields.username != "" && Lookup(params, "password", "password") == ""
    requires Lookup(params, "dbname", "database") == fields.database
    ensures SocketFields(decode, Reading(user + ":" + password, ""), params) == Some(fields)
  {
    UserinfoReadsBack(decode, user, password, fields.username, fields.password);
    NoIndex("", '/');
  }

  /** What stands around an inner `/` or `@` decodes, and so does what is left with an `@` after it. */
  lemma PartsDecode(decode: Decoder, a: string, c: char, b: string)
    requires DecodesPlain(decode) && DecodesInParts(decode) && (c == '/' || c == '@') && decode(a + [c] + b).Some?
    ensures decode(a).Some? && decode(b).Some? && decode(b + "@").Some?
    ensures decode(a + [c] + b).value == decode(a).value + [c] + decode(b).value
  {
    assert DecodesAround(decode, a, c, b);
    assert DecodesAround(decode, b, '@', "");
    assert b + ['@'] + "" == b + "@";
  }

  lemma SlashPathDecodes(decode: Decoder, b: string)
    requires DecodesPlain(decode) && DecodesInParts(decode) && decode(b + "@").Some?
    ensures decode("/" + b + "@").Some?
  {
    assert DecodesAround(decode, "", '/', b + "@");
    assert "" + ['/'] + (b + "@") == "/" + b + "@";
  }

  lemma RejoinedReadsBack(decode: Decoder, user: string, a: string, b: string, fields: Fields, params: Params,
                          socket: string)
    requires DecodesPlain(decode) && DecodesInParts(decode) && PlainUser(user)
    requires '/' !in a && '@' !in a && LastAtSlash(a + "/" + b).None? && decode(a + "/" + b).Some?
    requires Lookup(params, "user", "username") == "" && Complete(fields)
    requires SocketFields(decode, Reading(user + ":" + (a + "/" + b), ""), params) == Some(fields)
    ensures ResolveSocket(decode, BeforeByName(user, a + "/" + b), params, socket) == Ok(Socket(socket, fields))
  {
    RejoinedReading(user, a, b);
    PartsDecode(decode, a, '/', b);
    SlashPathDecodes(decode, b);
    NoUserReading(decode, "/" + b + "@", params);
    SecondReadingWins(decode, BeforeByName(user, a + "/" + b), Reading("", "/" + b + "@"),
                      Reading(user + ":" + (a + "/" + b), ""), params, socket, fields);
  }

  lemma FirstSlashParts(password: string) returns (a: string, b: string)
    requires '/' in password && !Misleads(password)
    ensures password == a + "/" + b && '/' !in a && '@' !in a
  {
    var i := IndexOf(password, '/').value;
    a, b := password[..i], password[i + 1..];
    SplitAt(password, i);
  }

  lemma ByNameReadsBack(decode: Decoder, user: string, password: string, fields: Fields, params: Params, socket: string)
    requires DecodesPlain(decode) && DecodesInParts(decode) && PlainUser(user) && !Misleads(password)
    requires decode(user) == Some(fields.username) && decode(password) == Some(fields.password) && Complete(fields)
    requires Lookup(params, "user", "username") == "" && Lookup(params, "password", "password") == ""
    requires Lookup(params, "dbname", "database") == fields.database
    ensures ResolveSocket(decode, BeforeByName(user, password), params, socket) == Ok(Socket(socket, fields))
  {
    ByNameFields(decode, user, password, fields, params);
    if '/' !in password {
      NoSlashReading(user, password);
      FirstReadingWins(decode, BeforeByName(user, password), Reading(user + ":" + password, ""), params, socket,
                       fields);
    } else {
      var a, b := FirstSlashParts(password);
      RejoinedReadsBack(decode, user, a, b, fields, params, socket);
    }
  }

  lemma LastAtSlashIs(s: string, k: nat)
    requires AtSlash(s, k) && forall t: nat :: k < t ==> !AtSlash(s, t)
    ensures LastAtSlash(s) == Some(k)
  {
  }

  lemma SlashCandidate(before: string, k: nat)
    requires AtSlash(before, k) && forall t: nat :: k < t ==> !AtSlash(before, t)
    ensures Candidates(before) == [Reading(before[..k], before[k + 1..])]
  {
    LastAtSlashIs(before, k);
  }

  lemma CutParts(user: string, password: string, j: nat)
    requires j < |password|
    ensures var before, k := BeforeByName(user, password), |user| + 1 + j;
            before[..k] == user + ":" + password[..j] && before[k + 1..] == password[j + 1..] + "@"
  {
  }

  /** `@/` inside the password: everything from its last `@/` on is taken for the path. */
  lemma CutAtSlash(user: string, password: string, j: nat)
    requires AtSlash(password, j) && forall t: nat :: j < t ==> !AtSlash(password, t)
    ensures Candidates(BeforeByName(user, password)) == [Reading(user + ":" + password[..j], password[j + 1..] + "@")]
  {
    var before, k: nat := BeforeByName(user, password), |user| + 1 + j;
    AtSlashInPassword(user, password, j);
    forall t: nat | k < t ensures !AtSlash(before, t) {
      AtSlashInPassword(user, password, t - |user| - 1);
    }
    SlashCandidate(before, k);
    CutParts(user, password, j);
  }

  /** The standard reading when the authority holds an `@`. */
  lemma StandardReading(authority: string, path: string, at: nat)
    requires LastAtSlash(authority + path).None? && IndexOf(authority + path, '/') == Some(|authority|)
    requires LastIndexOf(authority, '@') == Some(at)
    ensures Candidates(authority + path) == [Reading(authority[..at], path)]
  {
    assert (authority + path)[..|authority|] == authority && (authority + path)[|authority|..] == path;
  }

  lemma AuthorityParts(user: string, a: string, rest: string, b: string)
    ensures var authority := user + ":" + a + "@" + rest;
            && BeforeByName(user, a + "@" + rest + "/" + b) == authority + ("/" + b + "@")
            && authority + ("/" + b + "@") == authority + "/" + (b + "@")
            && authority[..|user + ":" + a|] == user + ":" + a
  {
  }

  /** An `@` before the first `/`: it ends the authority. */
  lemma CutBeforeSlash(user: string, a: string, rest: string, b: string)
    requires PlainUser(user) && '/' !in a && '/' !in rest && '@' !in rest && LastAtSlash(a + "@" + rest + "/" + b).None?
    ensures Candidates(BeforeByName(user, a + "@" + rest + "/" + b)) == [Reading(user + ":" + a, "/" + b + "@")]
  {
    var front := user + ":" + a;
    var authority := front + "@" + rest;
    NoAtSlash(user, a + "@" + rest + "/" + b);
    AuthorityParts(user, a, rest, b);
    IndexOfMiddle(authority, '/', b + "@");
    LastIndexOfMiddle(front, '@', rest);
    StandardReading(authority, "/" + b + "@", |front|);
  }

  lemma SplitAt(s: string, k: nat)
    requires k < |s|
    ensures s == s[..k] + [s[k]] + s[k + 1..]
  {
  }

  /** What a misleading password is cut into: a prefix, an `@`, and the rest, of which the reading takes
      `tail` for the path. */
  lemma MisledAtSlash(decode: Decoder, user: string, password: string)
    returns (prefix: string, tail: string, rest: string)
    requires PlainUser(user) && LastAtSlash(password).Some?
    requires DecodesInParts(decode) && DecodesPlain(decode) && decode(password).Some?
    ensures Candidates(BeforeByName(user, password)) == [Reading(user + ":" + prefix, tail)]
    ensures password == prefix + ['@'] + rest && decode(tail).Some?
  {
    var j := LastAtSlash(password).value;
    prefix, rest := password[..j], password[j + 1..];
    tail := rest + "@";
    SplitAt(password, j);
    CutAtSlash(user, password, j);
    PartsDecode(decode, prefix, '@', rest);
  }

  lemma AtBeforeSlashParts(password: string, i: nat, m: nat)
    requires m < i < |password| && password[m] == '@' && password[i] == '/'
    ensures var prefix, between, b := password[..m], password[m + 1..i], password[i + 1..];
            && password[..i] == prefix + "@" + between
            && password == prefix + "@" + between + "/" + b
            && password == prefix + ['@'] + (between + "/" + b)
            && password == password[..i] + ['/'] + b
  {
  }

  lemma MisledBeforeSlash(decode: Decoder, user: string, password: string)
    returns (prefix: string, tail: string, rest: string)
    requires PlainUser(user) && Misleads(password) && LastAtSlash(password).None?
    requires DecodesInParts(decode) && DecodesPlain(decode) && decode(password).Some?
    ensures Candidates(BeforeByName(user, password)) == [Reading(user + ":" + prefix, tail)]
    ensures password == prefix + ['@'] + rest && decode(tail).Some?
  {
    var i := IndexOf(password, '/').value;
    var m := LastIndexOf(password[..i], '@').value;
    var between, b := password[m + 1..i], password[i + 1..];
    prefix, rest, tail := password[..m], between + "/" + b, "/" + b + "@";
    AtBeforeSlashParts(password, i, m);
    CutBeforeSlash(user, prefix, between, b);
    PartsDecode(decode, password[..i], '/', b);
    SlashPathDecodes(decode, b);
  }

  /** What a cut reading yields. */
  lemma CutFields(decode: Decoder, user: string, prefix: string, tail: string, params: Params) returns (fields: Fields)
    requires DecodesPlain(decode) && DecodesInParts(decode) && ':' !in user
    requires decode(user).Some? && decode(user).value != "" && decode(prefix).Some? && decode(tail).Some?
    requires Lookup(params, "password", "password") == "" && Lookup(params, "dbname", "database") != ""
    ensures SocketFields(decode, Reading(user + ":" + prefix, tail), params) == Some(fields) && Complete(fields)
    ensures fields.password == decode(prefix).value
  {
    UserinfoReadsBack(decode, user, prefix, decode(user).value, decode(prefix).value);
    SegmentDecodes(decode, tail);
    fields := SocketFields(decode, Reading(user + ":" + prefix, tail), params).value;
  }

  /** A misleading password is cut short, and whatever database is found with it. */
  lemma MisledFields(decode: Decoder, user: string, password: string, params: Params, socket: string)
    returns (fields: Fields)
    requires DecodesPlain(decode) && DecodesInParts(decode) && PlainUser(user) && Misleads(password)
    requires decode(user).Some? && decode(user).value != "" && decode(password).Some?
    requires Lookup(params, "password", "password") == "" && Lookup(params, "dbname", "database") != ""
    ensures ResolveSocket(decode, BeforeByName(user, password), params, socket) == Ok(Socket(socket, fields))
    ensures |fields.password| < |decode(password).value|
  {
    var prefix, tail, rest;
    if LastAtSlash(password).Some? {
      prefix, tail, rest := MisledAtSlash(decode, user, password);
    } else {
      prefix, tail, rest := MisledBeforeSlash(decode, user, password);
    }
    PartsDecode(decode, prefix, '@', rest);
    fields := CutFields(decode, user, prefix, tail, params);
    FirstReadingWins(decode, BeforeByName(user, password), Reading(user + ":" + prefix, tail), params, socket, fields);
  }

  /** With the database in a parameter and no path, the fields are read back exactly when no `@` of the
      printed password comes before its first `/` or right before some `/`; otherwise the password is cut
      short. */
  lemma ByNameReadsBackIff(decode: Decoder, raw: Raw, fields: Fields, socket: string)
    requires DecodesPlain(decode) && DecodesInParts(decode)
    requires PrintableByName(raw) && DecodesTo(decode, raw, fields, socket)
    ensures Resolve(decode, PrintByName(raw)) == Ok(Socket(socket, fields)) <==> !Misleads(raw.password)
    ensures Resolve(decode, PrintByName(raw)).Ok?
  {
    var params := ByNameParams(fields.database, socket);
    ByNameResolves(decode, raw, fields, socket);
    if Misleads(raw.password) {
      var cut := MisledFields(decode, raw.user, raw.password, params, socket);
    } else {
      ByNameReadsBack(decode, raw.user, raw.password, fields, params, socket);
    }
  }
}
