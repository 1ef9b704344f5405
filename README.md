# HTTPR request serialiser, modelled in Dafny

HTTPR is a small command-line HTTP/1.1 client. It builds one request as
text, sends it over a TCP connection and prints the reply. This project
models how the request text is built and proves facts about it. The parts
modelled are:

- the method enum `ReqType` with `as_str` and `from_str`;
- the request line from `req_type_with_path`, which is
  `METHOD SP path SP HTTP/1.1 CRLF`, the request-line shape of section 3 of
  RFC 9112;
- the header field line from `Header::construct_header_as_string`, which is
  `name ": " value CRLF`, the field-line shape of section 5 of RFC 9112.
  Nothing in it is validated or escaped;
- `Header::apply_all_headers`, which joins the field lines in order in a
  local string and then appends that string to the caller's buffer;
- `req_headers_end` (from the `ReqString` extension of `String`), which
  appends the CRLF that ends the header block;
- the assembly in `main`. It writes the request line for `/`, then
  `Host: <url>`, then `Connection: close`, then the final CRLF.

Modules, one file each:

- `Wrappers` (`wrappers.dfy`): `Option`.
- `Request` (`request.dfy`): `ReqType`, `AsStr`, `FromStr` and
  `ReqTypeWithPath`. It also holds `SplitRequestLine`, a reader for request
  lines that the program does not have. It is here as the inverse that the
  round-trip lemma is stated against.
- `Buffer` (`buffer.dfy`): the class `StringBuf`. It stands for the mutable
  Rust `String`, with `PushStr` and `ReqHeadersEnd`.
- `Headers` (`headers.dfy`): `Header`, `ConstructHeaderAsString`,
  `FieldValue` (a field-line reader used as the inverse), `HeadersText` (the
  header block as a specification function), `TotalSize` (a separate
  definition of its length), the loop `ConcatHeaders` and the mutating
  `ApplyAllHeaders`.
- `Client` (`client.dfy`): `FixedHeaders`, the specification function
  `RequestText` and the method `BuildRequest`. `BuildRequest` threads one
  `StringBuf` through the same steps as `main`.

`from_str` panics (`unimplemented!()`) on any text other than `GET` or
`POST`. The model returns `None` there.

The program has no constraint on the path: the serialiser accepts any text.
So the model serialises and round-trips every path, the empty path included.
The one path `main` uses is `/`.

## Model

| member | source | states |
|---|---|---|
| Request.AsStr | src/main.rs:28-33 | the wire token is `GET` or `POST`, has at least three characters and contains no space |
| Request.FromStr | src/main.rs:34-40 | it succeeds exactly on the case-sensitive texts `GET` and `POST`; every other text is the panic, modelled as `None`; when it succeeds, `AsStr` of the result gives the input text back |
| Request.FromStrAsStr | src/main.rs:27-40 | `from_str(as_str(m)) == m` for both methods |
| Request.FromStrOnlyTokens | src/main.rs:34-40 | `FromStr(s)` returns `m` if and only if `s` is `AsStr(m)` |
| Request.AsStrInjective | src/main.rs:28-33 | the two methods have different tokens: the tokens are equal if and only if the methods are |
| Request.ReqTypeWithPath | src/main.rs:23-25 | the request line starts with the method token and then a space, ends with CRLF, and has exactly token + 1 + path + 11 characters |
| Request.SplitRequestLine | src/main.rs:23-25 | when the reader accepts a line, serialising the method and path it returns rebuilds that exact line |
| Request.RequestLineRoundTrip | src/main.rs:23-25 | reading back a serialised request line gives the original method and path, for every path |
| Request.RequestLineInjective | src/main.rs:23-25 | different (method, path) pairs never give the same request line |
| Buffer.StringBuf.ReqHeadersEnd | src/main.rs:17-20 | appends exactly CRLF: the buffer grows by 2 and its old contents are an unchanged prefix |
| Headers.ConstructHeaderAsString | src/main.rs:57-59 | the field line has length name + value + 4 |
| Headers.FieldLineLayout | src/main.rs:57-59 | the name, then `: `, then the value, then CRLF sit at fixed positions of the field line, copied verbatim with no escaping |
| Headers.FieldValue | src/main.rs:57-59 | when the reader returns a value, building the field line from that name and value rebuilds the line; when it rejects a line, no value builds it |
| Headers.FieldLineRoundTrip | src/main.rs:57-59 | reading the value back from a field line gives the header's value unchanged, CR and LF included |
| Headers.HeadersText | src/main.rs:51-54 | no `ensures`: its body is the reference definition of the header block, the field lines of the headers concatenated in vector order; `ConcatHeaders`, `ApplyAllHeaders`, `HeadersTextAppend`, `HeadersTextLength` and `HeadersTextAt` are stated against it |
| Headers.HeadersTextAppend | src/main.rs:52-54 | the serialisation of `a + b` is that of `a` followed by that of `b` |
| Headers.HeadersTextLength | src/main.rs:52-58 | the header block is as long as the sum over its headers of name + value + 4 |
| Headers.HeadersTextAt | src/main.rs:52-54 | the i-th header's field line appears unchanged right after those of the headers before it, so order is kept and each duplicate name is emitted once per occurrence |
| Headers.ConcatHeaders | src/main.rs:51-54 | the accumulator loop yields the header block of all the headers, in vector order |
| Headers.ApplyAllHeaders | src/main.rs:50-56 | the buffer becomes its old contents followed by the header block; with no headers it is unchanged |
| Client.FixedHeaders | src/main.rs:81-90 | no `ensures`: its body is the header vector `main` builds, `Host` carrying the url and then `Connection: close`; `RequestText` and `BuildRequest` use it |
| Client.RequestText | src/main.rs:78-94 | no `ensures`: its body is the reference definition of the whole request, request line for `/`, header block of `FixedHeaders`, final CRLF; `BuildRequest`, `RequestTextExact`, `RequestLineFirst` and `RequestTextLayout` are stated against it |
| Client.RequestTextExact | src/main.rs:78-94 | the request is the request line for `/`, then `Host: url` CRLF, then `Connection: close` CRLF, then CRLF |
| Client.RequestLineFirst | src/main.rs:78 | the first line of the request reads back as method m and path `/` |
| Client.RequestTextLayout | src/main.rs:81-94 | right after the request line comes the `Host` line, which carries the url verbatim; `Connection: close` follows it; the text ends with the empty line CRLF CRLF; the total length is the request line + url + 29 |
| Client.BuildRequest | src/main.rs:78-94 | the buffer that `main` builds step by step equals the request text, written out in full |

## Left out

- Socket I/O in `main` (src/main.rs:96-104) is not modelled. This covers `TcpStream::connect`, writing the request, `read_to_end` and the two `println!` calls. All of it is network and terminal output.
- `get_sockets` (src/main.rs:107-116) is not modelled. It is one call into the operating system's address resolver, whose behaviour is not visible.
- The `WriteBytes` trait (src/main.rs:62-70) is not modelled. It is a one-line wrapper over `TcpStream::write`.
- UTF-8 decoding of the reply (src/main.rs:103) is not modelled. It is a library call on unparsed bytes.
- Command-line parsing (src/args.rs) is not modelled. It is configuration of the argument library. The one piece of logic it reaches, `from_str`, is modelled.
- Rust ownership is not modelled. `apply_all_headers` consumes its vector and `construct_header_as_string` consumes its header. The model passes values.
- Text is a sequence of characters, where Rust `String` is UTF-8 bytes. Every operation here only concatenates, so the resulting text is the same. The length facts (`ConstructHeaderAsString`, `TotalSize`, `HeadersTextLength`, `ReqTypeWithPath`, `RequestTextLayout`) count characters, whereas Rust's `String::len` counts bytes. They still hold byte for byte in the parts the program adds, because every separator and fixed text (`": "`, `" HTTP/1.1\r\n"`, CRLF, `GET`, `POST`, `Host`, `Connection: close`) is ASCII, one byte per character. A name, value, path or url with non-ASCII characters adds its UTF-8 byte length rather than its character count.
- Nothing stops a header from being appended after the terminating CRLF. The program does not enforce this either; it relies on the order of the calls in `main`.
