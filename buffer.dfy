/** The growable text buffer the request is assembled in: Rust's `String`
    with `push_str`, and the `ReqString::req_headers_end` extension that
    closes the header block (src/main.rs:13-21). */
module Buffer {

  class StringBuf {
    var text: string

    constructor (init: string)
      ensures text == init
    {
      text := init;
    }

    /** Appends `s` at the end; what was there before is kept as a prefix. */
    method PushStr(s: string)
      modifies this
      ensures text == old(text) + s
    {
      text := text + s;
    }

    /** Appends the empty line (a bare CRLF) that ends the header block. */
    method ReqHeadersEnd()
      modifies this
      ensures text == old(text) + "\r\n"
      ensures |text| == |old(text)| + 2 && text[..|old(text)|] == old(text)
    {
      PushStr("\r\n");
    }
  }
}
