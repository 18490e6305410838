/** The string searches that the connection-string resolver
    (packages/session-persistence-postgres/src/connection.ts) is built from. */
module DsnText {
  import opened Wrappers
  import opened StringSearch

  function IndexOf(s: string, c: char): (r: Option<nat>)
    ensures r.Some? ==> r.value < |s| && s[r.value] == c && c !in s[..r.value]
    ensures r.None? ==> c !in s
  {
    FindIsFirst(s, c);
    var i := Find(s, c);
    assert s[..|s|] == s;
    if i == |s| then None else Some(i)
  }

  function LastIndexOf(s: string, c: char): (r: Option<nat>)
    ensures r.Some? ==> r.value < |s| && s[r.value] == c && c !in s[r.value + 1..]
    ensures r.None? ==> c !in s
  {
    if s == "" then None
    else if s[|s| - 1] == c then Some(|s| - 1)
    else
      var front := LastIndexOf(s[..|s| - 1], c);
      assert s == s[..|s| - 1] + [s[|s| - 1]];
      if front.Some? then
        assert s[front.value + 1..] == s[..|s| - 1][front.value + 1..] + [s[|s| - 1]];
        front
      else None
  }

  /** `@/` stands at `k`. */
  predicate AtSlash(s: string, k: nat) {
    k + 1 < |s| && s[k] == '@' && s[k + 1] == '/'
  }

  /** `s.lastIndexOf("@/")`. */
  function LastAtSlash(s: string): (r: Option<nat>)
    ensures r.Some? ==> AtSlash(s, r.value) && forall j: nat :: r.value < j ==> !AtSlash(s, j)
    ensures r.None? ==> forall j: nat :: !AtSlash(s, j)
  {
    if |s| < 2 then None
    else if AtSlash(s, |s| - 2) then Some(|s| - 2)
    else
      assert forall j: nat :: AtSlash(s, j) ==> AtSlash(s[..|s| - 1], j);
      assert forall j: nat :: AtSlash(s[..|s| - 1], j) ==> AtSlash(s, j);
      LastAtSlash(s[..|s| - 1])
  }

  function UpTo(s: string, c: char): string {
    if IndexOf(s, c).Some? then s[..IndexOf(s, c).value] else s
  }

  function After(s: string, c: char): string {
    if IndexOf(s, c).Some? then s[IndexOf(s, c).value + 1..] else ""
  }

  /** `s.split(c)`. */
  function Split(s: string, c: char): (parts: seq<string>)
    ensures |parts| > 0
    decreases |s|
  {
    var i := IndexOf(s, c);
    if i.None? then [s] else [s[..i.value]] + Split(s[i.value + 1..], c)
  }

  /** `filter(part => part !== "")[0]`, or `""`. */
  function FirstNonEmpty(parts: seq<string>): string {
    if parts == [] then "" else if parts[0] != "" then parts[0] else FirstNonEmpty(parts[1..])
  }

  /** Searches on `a` + `c` + `b`. */
  lemma IndexOfMiddle(a: string, c: char, b: string)
    requires c !in a
    ensures IndexOf(a + [c] + b, c) == Some(|a|)
    ensures UpTo(a + [c] + b, c) == a && After(a + [c] + b, c) == b
  {
    var s := a + [c] + b;
    assert s[..|a|] == a && s[|a| + 1..] == b;
    FindFirst(s, c, |a|);
  }

  lemma {:induction false} LastIndexOfMiddle(a: string, c: char, b: string)
    requires c !in b
    ensures LastIndexOf(a + [c] + b, c) == Some(|a|)
  {
    var s := a + [c] + b;
    if b != "" {
      LastIndexOfMiddle(a, c, b[..|b| - 1]);
      assert s[..|s| - 1] == a + [c] + b[..|b| - 1];
    }
  }

  lemma NoIndex(s: string, c: char)
    requires c !in s
    ensures IndexOf(s, c) == None && LastIndexOf(s, c) == None && UpTo(s, c) == s && After(s, c) == ""
  {
  }

  lemma LastAtSlashMiddle(a: string, b: string)
    requires '/' !in b
    ensures LastAtSlash(a + "@/" + b) == Some(|a|)
  {
    var s := a + "@/" + b;
    assert AtSlash(s, |a|);
    forall j: nat | |a| < j ensures !AtSlash(s, j) {
      assert j + 1 < |s| ==> s[j + 1] == b[j - |a| - 1];
    }
  }

  /** A path that holds something but slashes has a first segment, and it holds no slash. */
  lemma {:induction false} FirstSegmentExists(s: string, k: nat)
    requires k < |s| && s[k] != '/'
    ensures FirstNonEmpty(Split(s, '/')) != "" && forall c :: c in FirstNonEmpty(Split(s, '/')) ==> c in s
    decreases |s|
  {
    var i := IndexOf(s, '/');
    if i.Some? && i.value == 0 {
      var rest := s[1..];
      FirstSegmentExists(rest, k - 1);
      assert Split(s, '/') == [""] + Split(rest, '/');
      assert Split(s, '/')[1..] == Split(rest, '/');
    } else {
      assert Split(s, '/')[0] == if i.None? then s else s[..i.value];
    }
  }

  lemma OneSegment(d: string)
    requires d != "" && '/' !in d
    ensures FirstNonEmpty(Split("/" + d, '/')) == d
  {
    IndexOfMiddle("", '/', d);
    assert "" + "/" + d == "/" + d;
    NoIndex(d, '/');
    assert Split("/" + d, '/') == [""] + Split(d, '/');
    assert Split("/" + d, '/')[1..] == Split(d, '/') == [d];
  }

  function Joined(parts: seq<string>, c: char): string {
    if parts == [] then "" else if |parts| == 1 then parts[0] else parts[0] + [c] + Joined(parts[1..], c)
  }

  /** The parts hold no `c`, and joined by it they are the text again. */
  lemma {:induction false} SplitIs(s: string, c: char)
    ensures Joined(Split(s, c), c) == s && forall part :: part in Split(s, c) ==> c !in part
    decreases |s|
  {
    var i := IndexOf(s, c);
    if i.Some? {
      SplitIs(s[i.value + 1..], c);
      var parts := Split(s, c);
      assert parts[1..] == Split(s[i.value + 1..], c);
      assert s == s[..i.value] + [c] + s[i.value + 1..];
      assert forall part :: part in parts ==> part == parts[0] || part in parts[1..];
    }
  }

  /** The first part that is not empty, if there is one. */
  lemma {:induction false} FirstNonEmptyIs(parts: seq<string>)
    ensures if forall i :: 0 <= i < |parts| ==> parts[i] == "" then FirstNonEmpty(parts) == ""
            else exists i :: 0 <= i < |parts| && parts[i] == FirstNonEmpty(parts) != ""
                             && forall j :: 0 <= j < i ==> parts[j] == ""
  {
    if parts != [] && parts[0] == "" {
      var rest := parts[1..];
      FirstNonEmptyIs(rest);
      assert forall i :: 0 <= i < |rest| ==> rest[i] == parts[i + 1];
      if i :| 0 <= i < |rest| && rest[i] == FirstNonEmpty(rest) != "" && forall j :: 0 <= j < i ==> rest[j] == "" {
        assert forall j :: 0 <= j < i + 1 ==> parts[j] == "" by {
          assert forall j :: 0 < j < i + 1 ==> parts[j] == rest[j - 1];
        }
        assert parts[i + 1] == FirstNonEmpty(parts);
      }
    }
  }
}
