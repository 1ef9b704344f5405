/** The request-building part of `main` (src/main.rs:78-94): request line,
    the fixed `Host` and `Connection` headers, and the terminating CRLF,
    all appended to one buffer. */
module Client {
  import opened Wrappers
  import opened Request
  import opened Headers
  import opened Buffer

  /** The headers `main` always sends, in this order. */
  function FixedHeaders(url: string): seq<Header>
  {
    [Header("Host", url), Header("Connection", "close")]
  }

  /** The request text `main` writes for method `m` and host `url`. */
  function RequestText(m: ReqType, url: string): string
  {
    ReqTypeWithPath(m, "/") + HeadersText(FixedHeaders(url)) + "\r\n"
  }

  /** The request, written out in full: request line for `/`, then `Host`,
      then `Connection: close`, then the empty line. */
  lemma RequestTextExact(m: ReqType, url: string)
    ensures RequestText(m, url)
            == ReqTypeWithPath(m, "/") + "Host: " + url + "\r\n" + "Connection: close\r\n" + "\r\n"
  {
    var hs := FixedHeaders(url);
    assert hs[..|hs| - 1] == [hs[0]];
    assert [hs[0]][..0] == [];
    assert HeadersText([hs[0]]) == ConstructHeaderAsString(hs[0]);
    assert HeadersText(hs) == ConstructHeaderAsString(hs[0]) + ConstructHeaderAsString(hs[1]);
  }

  /** The first line of the request reads back as method `m` and path `/`. */
  lemma RequestLineFirst(m: ReqType, url: string)
    ensures var n := |ReqTypeWithPath(m, "/")|;
      n <= |RequestText(m, url)| && SplitRequestLine(RequestText(m, url)[..n]) == Some((m, "/"))
  {
    var line := ReqTypeWithPath(m, "/");
    assert RequestText(m, url)[..|line|] == line;
    RequestLineRoundTrip(m, "/");
  }

  /** Where the headers sit after the request line: the `Host` line carrying
      `url` verbatim comes first, `Connection: close` after it, and the text
      ends with the empty line that closes the header block. */
  lemma RequestTextLayout(m: ReqType, url: string)
    ensures var r, n := RequestText(m, url), |ReqTypeWithPath(m, "/")|;
      |r| == n + |url| + 29
      && FieldValue(r[n..n + |url| + 8], "Host") == Some(url)
      && r[n + |url| + 8..n + |url| + 27] == "Connection: close\r\n"
      && r[|r| - 4..] == "\r\n\r\n"
  {
    RequestTextExact(m, url);
    var host := "Host: " + url + "\r\n";
    assert host == ConstructHeaderAsString(Header("Host", url));
    FieldLineRoundTrip(Header("Host", url));
    var line, conn := ReqTypeWithPath(m, "/"), "Connection: close\r\n";
    assert RequestText(m, url) == line + host + conn + "\r\n";
    SlicesOfFour(line, host, conn, "\r\n");
  }

  /** Slicing `a + b + c + d` at the part boundaries gives the parts back. */
  lemma SlicesOfFour(a: string, b: string, c: string, d: string)
    ensures var r := a + b + c + d;
      r[|a|..|a| + |b|] == b && r[|a| + |b|..|a| + |b| + |c|] == c && r[|r| - |d|..] == d
  {
    var r := a + b + c + d;
    assert r == a + (b + (c + d));
    assert r[|a|..] == b + (c + d);
    assert r[|a| + |b|..] == c + d;
  }

  /** Builds the request text the way `main` does: one buffer that the
      request line starts, the headers extend and the final CRLF closes. */
  method BuildRequest(m: ReqType, url: string) returns (text: string)
    ensures text == RequestText(m, url)
    ensures text == ReqTypeWithPath(m, "/") + "Host: " + url + "\r\n" + "Connection: close\r\n" + "\r\n"
  {
    var buf := new StringBuf(ReqTypeWithPath(m, "/"));
    var headers := FixedHeaders(url);
    ApplyAllHeaders(headers, buf);
    buf.ReqHeadersEnd();
    text := buf.text;
    RequestTextExact(m, url);
  }
}
