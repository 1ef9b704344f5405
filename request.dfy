/** The HTTP method and the request line of an HTTP/1.1 request
    (`ReqType` and `req_type_with_path` in src/main.rs). */
module Request {
  import opened Wrappers

  /** The two methods the client can send. */
  datatype ReqType = ReqGet | ReqPost

  /** What follows the path on every request line: a space, the protocol
      version and the line terminator. */
  const LineSuffix: string := " HTTP/1.1\r\n"

  predicate NoSpace(s: string) {
    forall k :: 0 <= k < |s| ==> s[k] != ' '
  }

  /** The method token as it is written on the wire. */
  function AsStr(m: ReqType): (s: string)
    ensures s == "GET" || s == "POST"
    ensures |s| >= 3 && NoSpace(s)
  {
    match m
    case ReqGet => "GET"
    case ReqPost => "POST"
  }

  /** Case-sensitive parse of a method token. `None` stands for the
      `unimplemented!()` panic the program hits on any other text. */
  function FromStr(s: string): (r: Option<ReqType>)
    ensures r.Some? <==> s == "GET" || s == "POST"
    ensures r.Some? ==> AsStr(r.value) == s
  {
    match s
    case "GET" => Some(ReqGet)
    case "POST" => Some(ReqPost)
    case _ => None
  }

  /** The two method tokens are distinct. */
  lemma AsStrInjective(a: ReqType, b: ReqType)
    ensures AsStr(a) == AsStr(b) <==> a == b
  {
  }

  /** Parsing the token of a method gives that method back. */
  lemma FromStrAsStr(m: ReqType)
    ensures FromStr(AsStr(m)) == Some(m)
  {
  }

  /** Every token `FromStr` accepts is the token of exactly the method it returns. */
  lemma FromStrOnlyTokens(s: string, m: ReqType)
    ensures FromStr(s) == Some(m) <==> s == AsStr(m)
  {
    if s == AsStr(m) {
      FromStrAsStr(m);
    }
  }

  /** The request line `METHOD SP path SP HTTP/1.1 CRLF`. */
  function ReqTypeWithPath(m: ReqType, path: string): (line: string)
    ensures |line| == |AsStr(m)| + 1 + |path| + |LineSuffix|
    ensures line[..|AsStr(m)|] == AsStr(m) && line[|AsStr(m)|] == ' '
    ensures line[|line| - 2..] == "\r\n"
  {
    AsStr(m) + " " + path + LineSuffix
  }

  /** Index of the first space in `s`, or `|s|` when there is none. */
  function IndexOfSpace(s: string): (i: nat)
    ensures i <= |s|
    ensures i < |s| ==> s[i] == ' '
    ensures NoSpace(s[..i])
  {
    if s == [] then 0
    else if s[0] == ' ' then 0
    else
      var j := IndexOfSpace(s[1..]);
      assert s[..j + 1] == [s[0]] + s[1..][..j];
      j + 1
  }

  /** In `token SP tail` with a space-free token, the first space is the one
      right after the token. */
  lemma FirstSpaceEndsToken(token: string, tail: string)
    requires NoSpace(token)
    ensures IndexOfSpace(token + " " + tail) == |token|
  {
    var s := token + " " + tail;
    assert s[|token|] == ' ';
    assert s[..|token|] == token;
  }

  /** A reader for request lines, the inverse of `ReqTypeWithPath`: the
      method is the text up to the first space, the path everything between
      that space and the trailing ` HTTP/1.1` CRLF. */
  function SplitRequestLine(line: string): (r: Option<(ReqType, string)>)
    ensures r.Some? ==> ReqTypeWithPath(r.value.0, r.value.1) == line
  {
    var i := IndexOfSpace(line);
    if i == |line| then None
    else
      var token, rest := line[..i], line[i + 1..];
      var parsed := FromStr(token);
      if parsed.None? then None
      else if |rest| < |LineSuffix| || rest[|rest| - |LineSuffix|..] != LineSuffix then None
      else
        var path := rest[..|rest| - |LineSuffix|];
        assert rest == path + LineSuffix;
        assert line == token + " " + rest;
        assert line == AsStr(parsed.value) + " " + path + LineSuffix;
        Some((parsed.value, path))
  }

  /** Serialising a request line and reading it back recovers the method and
      the path, whatever characters the path holds. */
  lemma {:induction false} RequestLineRoundTrip(m: ReqType, path: string)
    ensures SplitRequestLine(ReqTypeWithPath(m, path)) == Some((m, path))
  {
    var token, rest := AsStr(m), path + LineSuffix;
    var line := ReqTypeWithPath(m, path);
    assert line == token + " " + rest;
    FirstSpaceEndsToken(token, rest);
    assert line[..|token|] == token && line[|token| + 1..] == rest;
    FromStrAsStr(m);
    assert rest[|rest| - |LineSuffix|..] == LineSuffix;
    assert rest[..|rest| - |LineSuffix|] == path;
  }

  /** Two request lines are equal only when their methods and paths are. */
  lemma RequestLineInjective(m1: ReqType, p1: string, m2: ReqType, p2: string)
    requires ReqTypeWithPath(m1, p1) == ReqTypeWithPath(m2, p2)
    ensures m1 == m2 && p1 == p2
  {
    RequestLineRoundTrip(m1, p1);
    RequestLineRoundTrip(m2, p2);
  }
}
