/** When the printed parts of a connection string
    (packages/session-persistence-postgres/src/connection.ts) are not read back: a `?` that stands raw in
    the password starts the query too early, and whatever follows, no query can make up for it. */
module DsnReadBack {
  import opened Wrappers
  import opened DsnText
  import opened Dsn
  import opened DsnRoundTrip

  const DELIMITERS := {'/', '@', '?', '#', '&', '=', ':'}

  /** No escape reaches across a delimiter. */
  ghost predicate DecodesAtDelimiters(decode: Decoder) {
    forall a: string, c: char, b: string :: c in DELIMITERS ==> DecodesAround(decode, a, c, b)
  }

  lemma SomeDecoderSplits()
    ensures DecodesPlain(s => Some(s)) && DecodesAtDelimiters(s => Some(s))
  {
  }

  /** How long a text is once decoded. */
  function Length(decode: Decoder, s: string): nat {
    if decode(s).Some? then |decode(s).value| else 0
  }

  lemma LengthAround(decode: Decoder, a: string, c: char, b: string)
    requires DecodesAtDelimiters(decode) && c in DELIMITERS && decode(a + [c] + b).Some?
    ensures decode(a).Some? && decode(b).Some?
    ensures Length(decode, a + [c] + b) == Length(decode, a) + 1 + Length(decode, b)
  {
    assert DecodesAround(decode, a, c, b);
  }

  lemma BothDecode(decode: Decoder, a: string, c: char, b: string)
    requires DecodesAtDelimiters(decode) && c in DELIMITERS && decode(a).Some? && decode(b).Some?
    ensures decode(a + [c] + b).Some?
  {
    assert DecodesAround(decode, a, c, b);
  }

  lemma LengthAt(decode: Decoder, s: string, k: nat)
    requires DecodesAtDelimiters(decode) && k < |s| && s[k] in DELIMITERS && decode(s).Some?
    ensures decode(s[..k]).Some? && decode(s[k + 1..]).Some?
    ensures Length(decode, s) == Length(decode, s[..k]) + 1 + Length(decode, s[k + 1..])
  {
    SplitAt(s, k);
    LengthAround(decode, s[..k], s[k], s[k + 1..]);
  }

  // ---------------------------------------------------------------- what parameters take up

  function Total(decode: Decoder, pairs: seq<string>): nat {
    if pairs == [] then 0 else Length(decode, pairs[0]) + 1 + Total(decode, pairs[1..])
  }

  ghost predicate AllDecode(decode: Decoder, pairs: seq<string>) {
    forall i :: 0 <= i < |pairs| ==> decode(pairs[i]).Some?
  }

  lemma {:induction false} TotalOfSplit(decode: Decoder, query: string)
    requires DecodesAtDelimiters(decode) && decode(query).Some?
    ensures AllDecode(decode, Split(query, '&')) && Total(decode, Split(query, '&')) == Length(decode, query) + 1
    decreases |query|
  {
    var i := IndexOf(query, '&');
    if i.None? {
      assert Split(query, '&') == [query] && [query][1..] == [];
    } else {
      var rest := query[i.value + 1..];
      LengthAt(decode, query, i.value);
      TotalOfSplit(decode, rest);
      assert Split(query, '&') == [query[..i.value]] + Split(rest, '&');
      assert Split(query, '&')[1..] == Split(rest, '&');
    }
  }

  function Weight(params: Params, key: string): nat {
    if key in params then |key| + |params[key]| + 1 else 0
  }

  /** Four parameter names. */
  datatype Keys = Keys(a: string, b: string, c: string, d: string) {
    predicate Distinct() {
      a != b && a != c && a != d && b != c && b != d && c != d
    }
  }

  function Weights(params: Params, keys: Keys): nat {
    Weight(params, keys.a) + Weight(params, keys.b) + Weight(params, keys.c) + Weight(params, keys.d)
  }

  lemma OneMoreWeighs(params: Params, key: string, value: string, keys: Keys)
    requires keys.Distinct() && key !in params
    ensures Weights(params[key := value], keys) <= Weights(params, keys) + |key| + |value| + 1
  {
    var next := params[key := value];
    assert forall k :: k != key ==> Weight(next, k) == Weight(params, k);
    assert Weight(next, key) == |key| + |value| + 1 && Weight(params, key) == 0;
  }

  lemma PairWeighs(decode: Decoder, pair: string, params: Params, keys: Keys)
    requires DecodesPlain(decode) && DecodesAtDelimiters(decode) && decode(pair).Some? && keys.Distinct()
    requires AddPair(decode, pair, params).Some?
    ensures Weights(AddPair(decode, pair, params).value, keys) <= Weights(params, keys) + Length(decode, pair) + 1
  {
    var i, key := IndexOf(pair, '='), decode(UpTo(pair, '='));
    if pair != "" && key.value !in params {
      if i.Some? {
        LengthAt(decode, pair, i.value);
      } else {
        assert decode("") == Some("");
      }
      OneMoreWeighs(params, key.value, decode(After(pair, '=')).value, keys);
    }
  }

  lemma {:induction false} PairsWeigh(decode: Decoder, pairs: seq<string>, before: Params, params: Params, keys: Keys)
    requires DecodesPlain(decode) && DecodesAtDelimiters(decode) && AllDecode(decode, pairs) && keys.Distinct()
    requires AddPairs(decode, pairs, before) == Some(params)
    ensures Weights(params, keys) <= Weights(before, keys) + Total(decode, pairs)
  {
    if pairs != [] {
      PairWeighs(decode, pairs[0], before, keys);
      assert AllDecode(decode, pairs[1..]);
      PairsWeigh(decode, pairs[1..], AddPair(decode, pairs[0], before).value, params, keys);
    }
  }

  /** Four parameters together are no longer than the query they come from. */
  lemma QueryWeighs(decode: Decoder, query: string, params: Params, keys: Keys)
    requires DecodesPlain(decode) && DecodesAtDelimiters(decode) && decode(query).Some? && keys.Distinct()
    requires AddPairs(decode, Split(query, '&'), map[]) == Some(params)
    ensures Weights(params, keys) <= Length(decode, query) + 1
  {
    TotalOfSplit(decode, query);
    PairsWeigh(decode, Split(query, '&'), map[], params, keys);
  }

  // ---------------------------------------------------------------- what a reading takes

  /** The userinfo ends at the `@` at `k`, if there is any, and the path is what stands from a later `/` on. */
  predicate IsCut(before: string, r: Reading, k: nat, i: nat) {
    && i <= |before| && r.path == before[i..] && (i < |before| ==> before[i] == '/')
    && (r.userinfo != "" ==> k < i && before[k] == '@' && r.userinfo == before[..k])
  }

  lemma StandardCut(authority: string, path: string) returns (k: nat, i: nat)
    requires path != "" ==> path[0] == '/'
    ensures IsCut(authority + path, Standard(authority, path), k, i)
  {
    var at, before := LastIndexOf(authority, '@'), authority + path;
    k, i := if at.Some? then at.value else 0, |authority|;
    assert before[|authority|..] == path;
    assert at.Some? ==> before[..k] == authority[..k];
  }

  lemma RejoinedCut(authority: string, path: string, r: nat) returns (k: nat, i: nat)
    requires r < |path| && path[r] == '@'
    ensures IsCut(authority + path, Rejoined(authority, path, r), k, i)
  {
    var before, remainder := authority + path, path[r + 1..];
    var host := IndexOf(remainder, '/');
    k := |authority| + r;
    i := if host.None? then |before| else k + 1 + host.value;
    assert before[..k] == authority + path[..r] && before[k + 1..] == remainder;
    assert host.Some? ==> before[i..] == remainder[host.value..];
  }

  lemma ReadingsCut(authority: string, path: string, n: nat) returns (k: nat, i: nat)
    requires n < |Readings(authority, path)| && (path != "" ==> path[0] == '/')
    ensures IsCut(authority + path, Readings(authority, path)[n], k, i)
  {
    if n == 0 {
      k, i := StandardCut(authority, path);
    } else {
      k, i := RejoinedCut(authority, path, LastIndexOf(path, '@').value);
    }
  }

  lemma AuthorityAndPath(before: string)
    ensures before == Authority(before) + PathOf(before)
    ensures PathOf(before) != "" ==> PathOf(before)[0] == '/'
  {
  }

  lemma CandidateCut(before: string, n: nat) returns (k: nat, i: nat)
    requires n < |Candidates(before)|
    ensures IsCut(before, Candidates(before)[n], k, i)
  {
    if LastAtSlash(before).Some? {
      k, i := LastAtSlash(before).value, LastAtSlash(before).value + 1;
    } else {
      AuthorityAndPath(before);
      k, i := ReadingsCut(Authority(before), PathOf(before), n);
    }
  }

  lemma {:induction false} SegmentLength(decode: Decoder, s: string)
    requires DecodesAtDelimiters(decode) && DecodesPlain(decode) && decode(s).Some?
    ensures decode(FirstNonEmpty(Split(s, '/'))).Some?
    ensures Length(decode, FirstNonEmpty(Split(s, '/'))) <= Length(decode, s)
    decreases |s|
  {
    var i := IndexOf(s, '/');
    if i.Some? {
      var rest := s[i.value + 1..];
      LengthAt(decode, s, i.value);
      SegmentLength(decode, rest);
      assert Split(s, '/') == [s[..i.value]] + Split(rest, '/');
      assert Split(s, '/')[1..] == Split(rest, '/');
    } else {
      assert Split(s, '/') == [s] && [s][1..] == [];
    }
  }

  /** A database named by a path that ends `s` is no longer than `s`. */
  lemma PathLength(decode: Decoder, s: string, i: nat)
    requires DecodesAtDelimiters(decode) && DecodesPlain(decode) && decode(s).Some?
    requires i <= |s| && (i < |s| ==> s[i] == '/')
    ensures var database := PathDatabase(decode, s[i..]);
            database.Some? && |database.value| <= Length(decode, s)
  {
    if i < |s| {
      LengthAt(decode, s, i);
      var path := s[i..];
      assert "" + [s[i]] + s[i + 1..] == path;
      assert decode("") == Some("");
      BothDecode(decode, "", s[i], s[i + 1..]);
      LengthAround(decode, "", s[i], s[i + 1..]);
      SegmentLength(decode, path);
    } else {
      assert s[i..] == "";
      NoIndex("", '/');
      assert Split("", '/') == [""] && [""][1..] == [];
    }
  }

  /** Who reads the fields of `user:head...` back has taken the password from the query, and the username
      or the database too, unless `head` holds the database. */
  ghost predicate TakenFromQuery(decode: Decoder, user: string, head: string, params: Params, fields: Fields) {
    && fields.password == Lookup(params, "password", "password")
    && (|| fields.database == Lookup(params, "dbname", "database")
        || |fields.database| <= Length(decode, head)
        || (fields.username == Lookup(params, "user", "username")
            && |fields.database| <= Length(decode, user) + 1 + Length(decode, head)))
  }

  lemma HeadParts(user: string, head: string, r: Reading, k: nat, i: nat) returns (j: nat, l: nat)
    requires IsCut(user + ":" + head, r, k, i) && r.userinfo != "" && |user| < k
    ensures j < l <= |head| && head[j] == '@' && (l < |head| ==> head[l] == '/')
    ensures r == Reading(user + ":" + head[..j], head[l..])
  {
    j, l := k - |user| - 1, i - |user| - 1;
    assert (user + ":" + head)[..k] == user + ":" + head[..j];
    assert (user + ":" + head)[i..] == head[l..];
  }

  /** The `@` stands in `head`, at `j`. */
  lemma InHead(decode: Decoder, user: string, head: string, j: nat, l: nat)
    requires DecodesAtDelimiters(decode) && DecodesPlain(decode) && ':' !in user
    requires decode(user).Some? && decode(head).Some?
    requires j < l <= |head| && head[j] == '@' && (l < |head| ==> head[l] == '/')
    ensures var userinfo, database := Userinfo(decode, user + ":" + head[..j]), PathDatabase(decode, head[l..]);
            && userinfo.Some? && userinfo.value.0 == decode(user).value && |userinfo.value.1| < Length(decode, head)
            && database.Some? && |database.value| <= Length(decode, head)
  {
    LengthAt(decode, head, j);
    UserinfoReadsBack(decode, user, head[..j], decode(user).value, decode(head[..j]).value);
    PathLength(decode, head, l);
  }

  /** The `@` stands in the username. */
  lemma InUser(decode: Decoder, user: string, head: string, k: nat)
    requires DecodesAtDelimiters(decode) && ':' !in user && decode(user).Some?
    requires 0 < k <= |user| && (user + ":" + head)[k] == '@'
    ensures var userinfo := Userinfo(decode, (user + ":" + head)[..k]);
            userinfo.Some? && userinfo.value.1 == "" && |userinfo.value.0| < |decode(user).value|
  {
    var before := user + ":" + head;
    assert k < |user| && before[k] == user[k] && before[..k] == user[..k];
    NoIndex(user[..k], ':');
    LengthAt(decode, user, k);
  }

  lemma TakesInHead(decode: Decoder, user: string, head: string, j: nat, l: nat, params: Params, fields: Fields)
    requires DecodesAtDelimiters(decode) && DecodesPlain(decode) && ':' !in user
    requires decode(user) == Some(fields.username) && decode(head).Some? && |fields.password| > Length(decode, head)
    requires j < l <= |head| && head[j] == '@' && (l < |head| ==> head[l] == '/')
    requires SocketFields(decode, Reading(user + ":" + head[..j], head[l..]), params) == Some(fields)
    ensures TakenFromQuery(decode, user, head, params, fields)
  {
    InHead(decode, user, head, j, l);
  }

  /** The username comes from the query, unless one is found that is too short. */
  lemma TakesOutsideHead(decode: Decoder, user: string, head: string, userinfo: string, i: nat, params: Params,
                         fields: Fields)
    requires DecodesAtDelimiters(decode) && DecodesPlain(decode) && ':' !in user
    requires decode(user) == Some(fields.username) && decode(head).Some? && |fields.password| > Length(decode, head)
    requires var found := Userinfo(decode, userinfo);
             found.Some? && found.value.1 == "" && (found.value.0 == "" || |found.value.0| < |fields.username|)
    requires var before := user + ":" + head; i <= |before| && (i < |before| ==> before[i] == '/')
    requires SocketFields(decode, Reading(userinfo, (user + ":" + head)[i..]), params) == Some(fields)
    ensures TakenFromQuery(decode, user, head, params, fields)
  {
    BothDecode(decode, user, ':', head);
    LengthAround(decode, user, ':', head);
    PathLength(decode, user + ":" + head, i);
  }

  lemma ReadingTakes(decode: Decoder, user: string, head: string, n: nat, params: Params, fields: Fields)
    requires n < |Candidates(user + ":" + head)|
    requires DecodesAtDelimiters(decode) && DecodesPlain(decode) && ':' !in user
    requires decode(user) == Some(fields.username) && decode(head).Some? && |fields.password| > Length(decode, head)
    requires SocketFields(decode, Candidates(user + ":" + head)[n], params) == Some(fields)
    ensures TakenFromQuery(decode, user, head, params, fields)
  {
    var r := Candidates(user + ":" + head)[n];
    var k, i := CandidateCut(user + ":" + head, n);
    if r.userinfo != "" && k > |user| {
      var j, l := HeadParts(user, head, r, k, i);
      TakesInHead(decode, user, head, j, l, params, fields);
    } else {
      if r.userinfo != "" {
        InUser(decode, user, head, k);
      }
      TakesOutsideHead(decode, user, head, r.userinfo, i, params, fields);
    }
  }

  // ---------------------------------------------------------------- the query cannot make up for it

  /** The length of a query that gives the password, the socket, and what else was taken from it. */
  lemma TakenIsLong(decode: Decoder, user: string, head: string, query: string, params: Params, fields: Fields,
                    socket: string)
    requires DecodesPlain(decode) && DecodesAtDelimiters(decode) && decode(query).Some?
    requires AddPairs(decode, Split(query, '&'), map[]) == Some(params)
    requires Lookup(params, "host", "socket") == socket && socket != "" && Complete(fields)
    requires fields.password != "" && Length(decode, user) == |fields.username|
    requires TakenFromQuery(decode, user, head, params, fields)
    ensures |fields.password| + |socket| + |fields.database| + 13 <= Length(decode, query) + 1 + Length(decode, head)
  {
    var host := if "host" in params then "host" else "socket";
    var name := if "user" in params then "user" else "username";
    var database := if "dbname" in params then "dbname" else "database";
    QueryWeighs(decode, query, params, Keys("password", host, name, database));
  }

  lemma {:induction false} FoundAmong(decode: Decoder, readings: seq<Reading>, params: Params, fields: Fields)
    returns (n: nat)
    requires FirstComplete(decode, readings, params) == Ok(Some(fields))
    ensures n < |readings| && SocketFields(decode, readings[n], params) == Some(fields) && Complete(fields)
  {
    var first := SocketFields(decode, readings[0], params).value;
    if Complete(first) {
      n := 0;
    } else {
      n := FoundAmong(decode, readings[1..], params, fields);
      n := n + 1;
    }
  }

  /** A query that starts within the password, right after `head`, is too short to read it back. */
  lemma ShortQueryMisreads(decode: Decoder, user: string, head: string, query: string, params: Params, fields: Fields,
                           socket: string)
    requires DecodesPlain(decode) && DecodesAtDelimiters(decode) && ':' !in user
    requires decode(user) == Some(fields.username) && decode(head).Some? && decode(query).Some?
    requires AddPairs(decode, Split(query, '&'), map[]) == Some(params)
    requires Lookup(params, "host", "socket") == socket && socket != ""
    requires |fields.password| > Length(decode, head)
    requires Length(decode, query) + Length(decode, head) < |fields.password| + |socket| + |fields.database| + 12
    ensures ResolveSocket(decode, user + ":" + head, params, socket) != Ok(Socket(socket, fields))
  {
    var before := user + ":" + head;
    if ResolveSocket(decode, before, params, socket) == Ok(Socket(socket, fields)) {
      var n := FoundAmong(decode, Candidates(before), params, fields);
      ReadingTakes(decode, user, head, n, params, fields);
      assert false by {
        TakenIsLong(decode, user, head, query, params, fields, socket);
      }
    }
  }

  // ---------------------------------------------------------------- a raw `?` in the password

  lemma UpToHash(front: string, back: string)
    requires '#' !in front
    ensures UpTo(front + "?" + back, '#') == front + "?" + UpTo(back, '#')
  {
    var i := IndexOf(back, '#');
    if i.None? {
      NoIndex(front + "?" + back, '#');
    } else {
      var a, b := back[..i.value], back[i.value + 1..];
      SplitAt(back, i.value);
      assert front + "?" + back == (front + "?" + a) + "#" + b;
      IndexOfMiddle(front + "?" + a, '#', b);
    }
  }

  /** A raw `?` starts the query, which ends at the first `#`. */
  lemma QueryStartsAt(decode: Decoder, url: string, front: string, back: string)
    returns (params: Params)
    requires Free(front, {'?', '#'})
    requires var r := ResolveAfterScheme(decode, url, front + "?" + back); r.Ok? && r.value.Socket?
    ensures AddPairs(decode, Split(UpTo(back, '#'), '&'), map[]) == Some(params)
    ensures ResolveAfterScheme(decode, url, front + "?" + back)
         == ResolveSocket(decode, front, params, Lookup(params, "host", "socket"))
  {
    var query := UpTo(back, '#');
    UpToHash(front, back);
    IndexOfMiddle(front, '?', query);
    params := AddPairs(decode, Split(query, '&'), map[]).value;
  }

  lemma FoundHasThatPath(decode: Decoder, before: string, params: Params, socket: string, path: string, fields: Fields)
    requires ResolveSocket(decode, before, params, socket) == Ok(Socket(path, fields))
    ensures socket == path
  {
  }

  /** What stands after a `?` in the password. */
  function Back(raw: Raw, tail: string): string {
    tail + "@" + ("/" + (raw.database + "?" + Pair(HOST, raw.path)))
  }

  lemma PairLength(decode: Decoder, value: string)
    requires DecodesPlain(decode) && DecodesAtDelimiters(decode) && decode(value).Some?
    ensures decode(Pair(HOST, value)).Some? && Length(decode, Pair(HOST, value)) == 5 + Length(decode, value)
  {
    assert decode(HOST) == Some(HOST);
    BothDecode(decode, HOST, '=', value);
    LengthAround(decode, HOST, '=', value);
  }

  lemma BackLength(decode: Decoder, raw: Raw, tail: string)
    requires DecodesPlain(decode) && DecodesAtDelimiters(decode)
    requires decode(tail).Some? && decode(raw.database).Some? && decode(raw.path).Some?
    ensures decode(Back(raw, tail)).Some?
    ensures Length(decode, Back(raw, tail))
         == Length(decode, tail) + Length(decode, raw.database) + Length(decode, raw.path) + 8
  {
    var pair := Pair(HOST, raw.path);
    var rest := raw.database + "?" + pair;
    PairLength(decode, raw.path);
    BothDecode(decode, raw.database, '?', pair);
    LengthAround(decode, raw.database, '?', pair);
    assert decode("") == Some("") && "" + ['/'] + rest == "/" + rest;
    BothDecode(decode, "", '/', rest);
    LengthAround(decode, "", '/', rest);
    BothDecode(decode, tail, '@', "/" + rest);
    LengthAround(decode, tail, '@', "/" + rest);
  }

  /** The query that starts after a `?` in the password is not long enough. */
  lemma QueryLength(decode: Decoder, raw: Raw, tail: string)
    requires DecodesPlain(decode) && DecodesAtDelimiters(decode) && PrintableAround(raw)
    requires decode(tail).Some? && decode(raw.database).Some? && decode(raw.path).Some?
    ensures var query := UpTo(Back(raw, tail), '#');
            && decode(query).Some?
            && Length(decode, query)
               <= Length(decode, tail) + Length(decode, raw.database) + Length(decode, raw.path) + 8
  {
    var rest := "@" + ("/" + (raw.database + "?" + Pair(HOST, raw.path)));
    var i := IndexOf(tail, '#');
    if i.None? {
      KeysArePlain();
      BackLength(decode, raw, tail);
      NoIndex(Back(raw, tail), '#');
    } else {
      SplitAt(tail, i.value);
      assert Back(raw, tail) == tail[..i.value] + "#" + (tail[i.value + 1..] + rest);
      IndexOfMiddle(tail[..i.value], '#', tail[i.value + 1..] + rest);
      LengthAt(decode, tail, i.value);
    }
  }

  lemma PrintedAround(raw: Raw, head: string, tail: string)
    requires raw.password == head + "?" + tail && EndsInText(raw.path)
    ensures Print(raw) == LONG_SCHEME + (raw.user + ":" + head + "?" + Back(raw, tail))
    ensures EndsInText(raw.user + ":" + head + "?" + Back(raw, tail))
  {
    var rest := raw.user + ":" + head + "?" + Back(raw, tail);
    assert Before(raw) + "?" + Pair(HOST, raw.path) == rest;
    assert rest[|rest| - 1] == raw.path[|raw.path| - 1];
  }

  lemma LateQueryMisreads(decode: Decoder, url: string, user: string, head: string, back: string, fields: Fields,
                          socket: string)
    requires DecodesPlain(decode) && DecodesAtDelimiters(decode)
    requires Free(user, {'?', '#', ':'}) && Free(head, {'?', '#'}) && socket != ""
    requires decode(user) == Some(fields.username) && decode(head).Some? && decode(UpTo(back, '#')).Some?
    requires |fields.password| > Length(decode, head)
    requires Length(decode, UpTo(back, '#')) + Length(decode, head)
             < |fields.password| + |socket| + |fields.database| + 12
    ensures ResolveAfterScheme(decode, url, user + ":" + head + "?" + back) != Ok(Socket(socket, fields))
  {
    var front := user + ":" + head;
    if ResolveAfterScheme(decode, url, front + "?" + back) == Ok(Socket(socket, fields)) {
      var params := QueryStartsAt(decode, url, front, back);
      FoundHasThatPath(decode, front, params, Lookup(params, "host", "socket"), socket, fields);
      assert false by {
        ShortQueryMisreads(decode, user, head, UpTo(back, '#'), params, fields, socket);
      }
    }
  }

  /** A raw `?` in the password: the string is not read back, whatever the rest of the password and the
      other parts make of the query. */
  lemma QuestionMarkMisreads(decode: Decoder, raw: Raw, head: string, tail: string, fields: Fields, socket: string)
    requires DecodesPlain(decode) && DecodesAtDelimiters(decode)
    requires PrintableAround(raw) && DecodesTo(decode, raw, fields, socket)
    requires raw.password == head + "?" + tail && Free(head, {'?', '#'})
    ensures Resolve(decode, Print(raw)) != Ok(Socket(socket, fields))
  {
    PrintedAround(raw, head, tail);
    TrimmedScheme(decode, raw.user + ":" + head + "?" + Back(raw, tail));
    LengthAround(decode, head, '?', tail);
    QueryLength(decode, raw, tail);
    LateQueryMisreads(decode, Print(raw), raw.user, head, Back(raw, tail), fields, socket);
  }

  /** The parts of a printed string are read back exactly when no raw `?` or `#` stands in the password. */
  lemma PrintedFieldsReadBackIff(decode: Decoder, raw: Raw, fields: Fields, socket: string)
    requires DecodesPlain(decode) && DecodesAtDelimiters(decode)
    requires PrintableAround(raw) && DecodesTo(decode, raw, fields, socket)
    ensures Resolve(decode, Print(raw)) == Ok(Socket(socket, fields)) <==> Free(raw.password, {'?', '#'})
  {
    if Free(raw.password, {'?', '#'}) {
      PrintedFieldsReadBack(decode, raw, fields, socket);
    } else {
      var head, c, tail := FirstBreak(raw.password);
      if c == '?' {
        QuestionMarkMisreads(decode, raw, head, tail, fields, socket);
      } else {
        HashInPasswordPassesThrough(decode, raw, head, tail);
      }
    }
  }

  lemma {:induction false} FirstBreak(s: string) returns (head: string, c: char, tail: string)
    requires !Free(s, {'?', '#'})
    ensures s == head + [c] + tail && Free(head, {'?', '#'}) && c in {'?', '#'}
  {
    if s[0] in {'?', '#'} {
      head, c, tail := "", s[0], s[1..];
    } else {
      head, c, tail := FirstBreak(s[1..]);
      head := [s[0]] + head;
    }
  }
}
