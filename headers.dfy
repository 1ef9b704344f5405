/** Header fields and their serialisation (`Header` in src/main.rs). */
module Headers {
  import opened Wrappers
  import opened Buffer

  /** One header field. Names and values are arbitrary text: nothing is
      validated or escaped, and a sequence of headers may repeat a name. */
  datatype Header = Header(name: string, value: string)

  /** The field line `name ": " value CRLF`. */
  function ConstructHeaderAsString(h: Header): (line: string)
    ensures |line| == |h.name| + |h.value| + 4
  {
    h.name + ": " + h.value + "\r\n"
  }

  /** Name and value are copied verbatim into fixed positions of the field
      line, between the separator and the line terminator. */
  lemma FieldLineLayout(h: Header)
    ensures var line := ConstructHeaderAsString(h);
      line[..|h.name|] == h.name && line[|h.name|..|h.name| + 2] == ": "
      && line[|h.name| + 2..|line| - 2] == h.value && line[|line| - 2..] == "\r\n"
  {
  }

  /** A reader for one field line whose name is known, the inverse of
      `ConstructHeaderAsString`. */
  function FieldValue(line: string, name: string): (r: Option<string>)
    ensures r.Some? ==> ConstructHeaderAsString(Header(name, r.value)) == line
    ensures r.None? ==> forall v :: ConstructHeaderAsString(Header(name, v)) != line
  {
    if |line| >= |name| + 4 && line[..|name|] == name && line[|name|..|name| + 2] == ": "
       && line[|line| - 2..] == "\r\n"
    then
      var v := line[|name| + 2..|line| - 2];
      assert line == name + ": " + v + "\r\n";
      Some(v)
    else None
  }

  /** The value a field line carries is exactly the value it was built from,
      whatever characters (CR and LF included) it contains. */
  lemma FieldLineRoundTrip(h: Header)
    ensures FieldValue(ConstructHeaderAsString(h), h.name) == Some(h.value)
  {
    FieldLineLayout(h);
  }

  /** The header block: the field lines of `hs` concatenated in order. */
  function HeadersText(hs: seq<Header>): string
  {
    if hs == [] then ""
    else HeadersText(hs[..|hs| - 1]) + ConstructHeaderAsString(hs[|hs| - 1])
  }

  /** Independent reference for the block's length: the sum over the headers
      of name length, value length and the four separator characters. */
  function TotalSize(hs: seq<Header>): nat
  {
    if hs == [] then 0
    else |hs[0].name| + |hs[0].value| + 4 + TotalSize(hs[1..])
  }

  lemma {:induction false} TotalSizeAppend(a: seq<Header>, b: seq<Header>)
    ensures TotalSize(a + b) == TotalSize(a) + TotalSize(b)
  {
    if a != [] {
      assert (a + b)[1..] == a[1..] + b;
      TotalSizeAppend(a[1..], b);
    } else {
      assert a + b == b;
    }
  }

  /** Adding one header at the end adds its field line at the end. */
  lemma HeadersTextSnoc(hs: seq<Header>, h: Header)
    ensures HeadersText(hs + [h]) == HeadersText(hs) + ConstructHeaderAsString(h)
  {
    assert (hs + [h])[..|hs|] == hs;
  }

  /** Serialising `a + b` is serialising `a` and then `b`. */
  lemma {:induction false} HeadersTextAppend(a: seq<Header>, b: seq<Header>)
    ensures HeadersText(a + b) == HeadersText(a) + HeadersText(b)
  {
    if b == [] {
      assert a + b == a;
    } else {
      var init, last := b[..|b| - 1], b[|b| - 1];
      assert b == init + [last];
      assert a + b == (a + init) + [last];
      HeadersTextAppend(a, init);
      HeadersTextSnoc(a + init, last);
      HeadersTextSnoc(init, last);
      assert HeadersText(a) + (HeadersText(init) + ConstructHeaderAsString(last))
          == (HeadersText(a) + HeadersText(init)) + ConstructHeaderAsString(last);
    }
  }

  /** The block has as many characters as `TotalSize` counts. */
  lemma {:induction false} HeadersTextLength(hs: seq<Header>)
    ensures |HeadersText(hs)| == TotalSize(hs)
  {
    if hs != [] {
      var init, last := hs[..|hs| - 1], hs[|hs| - 1];
      assert hs == init + [last];
      HeadersTextLength(init);
      TotalSizeAppend(init, [last]);
      assert TotalSize([last]) == |last.name| + |last.value| + 4;
    }
  }

  /** The `i`-th header's field line sits, unchanged, right after the field
      lines of the headers before it: order is kept, and a header that
      occurs twice is emitted once per occurrence. */
  lemma HeadersTextAt(hs: seq<Header>, i: nat)
    requires i < |hs|
    ensures TotalSize(hs[..i + 1]) == TotalSize(hs[..i]) + |hs[i].name| + |hs[i].value| + 4
    ensures TotalSize(hs[..i + 1]) <= |HeadersText(hs)|
    ensures HeadersText(hs)[TotalSize(hs[..i])..TotalSize(hs[..i + 1])]
            == ConstructHeaderAsString(hs[i])
  {
    var before, after := hs[..i], hs[i + 1..];
    assert hs == before + [hs[i]] + after;
    assert hs[..i + 1] == before + [hs[i]];
    HeadersTextAppend(before + [hs[i]], after);
    HeadersTextAppend(before, [hs[i]]);
    assert HeadersText([hs[i]]) == ConstructHeaderAsString(hs[i]) by {
      assert [hs[i]][..0] == [];
    }
    HeadersTextLength(before);
    HeadersTextLength(hs);
    TotalSizeAppend(before, [hs[i]]);
    TotalSizeAppend(before + [hs[i]], after);
  }

  /** The loop of `apply_all_headers`: builds the block in a local
      accumulator, one field line per header, in order. */
  method ConcatHeaders(headers: seq<Header>) returns (header: string)
    ensures header == HeadersText(headers)
  {
    header := "";
    for i := 0 to |headers|
      invariant header == HeadersText(headers[..i])
    {
      assert headers[..i + 1][..i] == headers[..i];
      header := header + ConstructHeaderAsString(headers[i]);
    }
    assert headers[..|headers|] == headers;
  }

  /** `apply_all_headers`: appends the whole header block to `buf`. The old
      contents stay an unchanged prefix, and no headers append nothing. */
  method ApplyAllHeaders(headers: seq<Header>, buf: StringBuf)
    modifies buf
    ensures buf.text == old(buf.text) + HeadersText(headers)
  {
    var header := ConcatHeaders(headers);
    buf.PushStr(header);
  }
}
