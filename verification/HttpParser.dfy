/**
 Answering a request (HTTP-server-cpp/src/http_parser.cpp).  A character stands for a byte.

 `render` stands for the JSON library: it gives the reply text for a POST body, or nothing
 when parsing throws.
 */
module HttpParser {
  import opened Wrappers
  import opened Decimal
  import TtlCache

  const CRLF := "\r\n"
  const TTL := 60

  // ---------- Tokens of the request line ----------

  predicate IsSpace(c: char) {
    c == ' ' || c == '\t' || c == '\n' || c == '\r' || c == '\U{000B}' || c == '\U{000C}'
  }

  function SkipSpaces(s: string): string {
    if s != "" && IsSpace(s[0]) then SkipSpaces(s[1..]) else s
  }

  function Word(s: string): string {
    if s == "" || IsSpace(s[0]) then "" else [s[0]] + Word(s[1..])
  }

  lemma {:induction false} WordIsPrefix(s: string)
    ensures Word(s) <= s
  {
    if s != "" && !IsSpace(s[0]) { WordIsPrefix(s[1..]); }
  }

  function Method(raw: string): string { Word(SkipSpaces(raw)) }

  /** The second word of the request, read by the second extraction. */
  function Path(raw: string): string {
    var rest := SkipSpaces(raw);
    WordIsPrefix(rest);
    Word(SkipSpaces(rest[|Word(rest)|..]))
  }

  predicate BlankLineAt(s: string, q: nat) {
    q + 4 <= |s| && s[q..q + 4] == "\r\n\r\n"
  }

  /** Where the first blank line starts, as `raw.find("\r\n\r\n")` reports it. */
  function FindBlankLine(s: string): (p: Option<nat>)
    ensures p.Some? ==> BlankLineAt(s, p.value) && forall q | 0 <= q < p.value :: !BlankLineAt(s, q)
    ensures p == None ==> forall q :: !BlankLineAt(s, q)
  {
    if |s| < 4 then None
    else if BlankLineAt(s, 0) then Some(0)
    else
      var p := FindBlankLine(s[1..]);
      assert forall q: nat :: BlankLineAt(s, q) <==> q > 0 && BlankLineAt(s[1..], q - 1) by {
        forall q: nat ensures BlankLineAt(s, q) <==> q > 0 && BlankLineAt(s[1..], q - 1) {
          if q > 0 && q + 4 <= |s| { assert s[q..q + 4] == s[1..][q - 1..q + 3]; }
        }
      }
      if p.Some? then Some(p.value + 1) else None
  }

  // ---------- Responses ----------

  const LENGTH_FIELD := "Content-Length: "

  /** Lines written one after another, closed by an empty line and followed by the body. */
  function Render(lines: seq<string>, body: string): string {
    if lines == [] then CRLF + body else lines[0] + CRLF + Render(lines[1..], body)
  }

  function BodyLines(status: string, body: string): seq<string> {
    [status, LENGTH_FIELD + ToString(|body|), "Content-Type: text/plain", "Connection: close"]
  }

  function WithBody(status: string, body: string): string {
    Render(BodyLines(status, body), body)
  }

  function GetResponse(path: string): string {
    WithBody("HTTP/1.1 200 OK", "Hello from GET " + path)
  }

  const BAD_REQUEST := "HTTP/1.1 400 Bad Request" + CRLF + "Content-Length: 0" + CRLF + "Connection: close" + CRLF + CRLF
  // http_parser.cpp has no line break after the length here
  const NOT_IMPLEMENTED := "HTTP/1.1 501 Not Implemented" + CRLF + "Content-Length: 0Connection: close" + CRLF + CRLF

  function PostResponse(raw: string, render: string -> Option<string>): string {
    match FindBlankLine(raw)
    case None => BAD_REQUEST
    case Some(p) =>
      match render(raw[p + 4..])
      case Some(reply) => WithBody("HTTP/1.1 200 OK", reply)
      case None => WithBody("HTTP/1.1 400 Bad Request", "Invalid JSON")
  }

  /** The answer to a request as a pure function, without any cache. */
  function Reply(raw: string, render: string -> Option<string>): string {
    if Method(raw) == "GET" then GetResponse(Path(raw))
    else if Method(raw) == "POST" then PostResponse(raw, render)
    else NOT_IMPLEMENTED
  }

  // ---------- How a client reads a response ----------

  /** The text up to the first line break, and the text after it. */
  function NextLine(s: string): Option<(string, string)> {
    if |s| < 2 then None
    else if s[..2] == CRLF then Some(("", s[2..]))
    else
      match NextLine(s[1..])
      case None => None
      case Some((line, rest)) => Some(([s[0]] + line, rest))
  }

  lemma {:induction false} NextLineShorter(s: string)
    ensures NextLine(s).Some? ==> |NextLine(s).value.1| < |s|
  {
    if |s| >= 2 && s[..2] != CRLF { NextLineShorter(s[1..]); }
  }

  /** The lines before the first empty line, and the body after it (section 2.1 of RFC 9112). */
  function ReadHead(s: string): Option<(seq<string>, string)>
    decreases |s|
  {
    NextLineShorter(s);
    match NextLine(s)
    case None => None
    case Some((line, rest)) =>
      if line == "" then Some(([], rest))
      else
        match ReadHead(rest)
        case None => None
        case Some((lines, body)) => Some(([line] + lines, body))
  }

  /** The value of a `Content-Length` line, if it is a number (section 8.6 of RFC 9110). */
  function LengthOf(line: string): Option<nat> {
    if LENGTH_FIELD <= line && line != LENGTH_FIELD && AllDigits(line[|LENGTH_FIELD|..])
    then Some(Number(line[|LENGTH_FIELD|..])) else None
  }

  /** The first line that is a well-formed length field. */
  function ContentLength(lines: seq<string>): Option<nat> {
    if lines == [] then None
    else if LengthOf(lines[0]).Some? then LengthOf(lines[0])
    else ContentLength(lines[1..])
  }

  /** A client that reads head, length and then that many bytes gets the whole response (section 6.3 of RFC 9112). */
  predicate WellFramed(s: string) {
    match ReadHead(s)
    case None => false
    case Some((lines, body)) => ContentLength(lines) == Some(|body|)
  }

  predicate OneLine(s: string) {
    s != "" && '\r' !in s
  }

  lemma {:induction false} NextLineOf(line: string, rest: string)
    requires '\r' !in line
    ensures NextLine(line + CRLF + rest) == Some((line, rest))
  {
    var s := line + CRLF + rest;
    if line == "" {
      assert s[..2] == CRLF && s[2..] == rest;
    } else {
      assert s[0] == line[0] != CRLF[0];
      assert s[..2] != CRLF by { assert s[..2][0] == line[0]; }
      assert s[1..] == line[1..] + CRLF + rest;
      NextLineOf(line[1..], rest);
      assert [line[0]] + line[1..] == line;
    }
  }

  /** Reading inverts writing: lines and body come back unchanged. */
  lemma {:induction false} ReadHeadOfRender(lines: seq<string>, body: string)
    requires forall l | l in lines :: OneLine(l)
    ensures ReadHead(Render(lines, body)) == Some((lines, body))
    decreases |lines|
  {
    if lines == [] {
      assert CRLF + body == "" + CRLF + body;
      NextLineOf("", body);
    } else {
      assert OneLine(lines[0]);
      NextLineOf(lines[0], Render(lines[1..], body));
      ReadHeadOfRender(lines[1..], body);
      assert [lines[0]] + lines[1..] == lines;
    }
  }

  lemma LengthOfToString(n: nat)
    ensures OneLine(LENGTH_FIELD + ToString(n)) && LengthOf(LENGTH_FIELD + ToString(n)) == Some(n)
  {
    NumberRoundTrip(n);
    var line := LENGTH_FIELD + ToString(n);
    assert line[|LENGTH_FIELD|..] == ToString(n);
    forall i | 0 <= i < |line| ensures line[i] != '\r' {
      if i >= |LENGTH_FIELD| { assert line[i] == ToString(n)[i - |LENGTH_FIELD|]; }
    }
  }

  lemma BodyFramed(status: string, body: string)
    requires OneLine(status) && !(LENGTH_FIELD <= status)
    ensures ReadHead(WithBody(status, body)).Some? && ReadHead(WithBody(status, body)).value.1 == body
    ensures WellFramed(WithBody(status, body))
  {
    var lines := BodyLines(status, body);
    LengthOfToString(|body|);
    ReadHeadOfRender(lines, body);
    assert ContentLength(lines) == ContentLength(lines[1..]);
  }

  const BAD_REQUEST_LINES := ["HTTP/1.1 400 Bad Request", "Content-Length: 0", "Connection: close"]

  lemma BadRequestIsRender()
    ensures Render(BAD_REQUEST_LINES, "") == BAD_REQUEST
  {
    var lines := BAD_REQUEST_LINES;
    assert lines[1..][1..] == ["Connection: close"];
    assert Render(lines[1..][1..], "") == "Connection: close" + CRLF + Render([], "");
  }

  lemma BadRequestLength()
    ensures OneLine("Content-Length: 0") && ContentLength(BAD_REQUEST_LINES) == Some(0)
  {
    var lines := BAD_REQUEST_LINES;
    assert "Content-Length: 0" == LENGTH_FIELD + ToString(0);
    LengthOfToString(0);
    assert ContentLength(lines) == ContentLength(lines[1..]);
  }

  lemma BadRequestFramed()
    ensures WellFramed(BAD_REQUEST)
  {
    BadRequestIsRender();
    BadRequestLength();
    hide Render, ContentLength, BAD_REQUEST;
    ReadHeadOfRender(BAD_REQUEST_LINES, "");
  }

  const NOT_IMPLEMENTED_LINES := ["HTTP/1.1 501 Not Implemented", "Content-Length: 0Connection: close"]

  lemma NotImplementedIsRender()
    ensures Render(NOT_IMPLEMENTED_LINES, "") == NOT_IMPLEMENTED
  {
    var lines := NOT_IMPLEMENTED_LINES;
    assert lines[1..][1..] == [];
    assert Render(lines[1..], "") == lines[1] + CRLF + Render([], "");
  }

  lemma NotImplementedLength()
    ensures ContentLength(NOT_IMPLEMENTED_LINES) == None
  {
    var lines := NOT_IMPLEMENTED_LINES;
    assert lines[1][|LENGTH_FIELD|..][1] == 'C';
    assert lines[1..][1..] == [];
    assert ContentLength(lines[1..]) == None;
    assert ContentLength(lines) == ContentLength(lines[1..]);
  }

  lemma NotImplementedUnframed()
    ensures !WellFramed(NOT_IMPLEMENTED)
  {
    NotImplementedIsRender();
    NotImplementedLength();
    hide Render, ContentLength, NOT_IMPLEMENTED;
    ReadHeadOfRender(NOT_IMPLEMENTED_LINES, "");
  }

  lemma StatusIsNoLength(status: string)
    requires status != "" && status[0] == 'H'
    ensures !(LENGTH_FIELD <= status)
  {
    assert LENGTH_FIELD[0] == 'C';
  }

  /** Exactly the answers to GET and POST can be read back by a client; the 501 answer has no usable length. */
  lemma FramedIff(raw: string, render: string -> Option<string>)
    ensures WellFramed(Reply(raw, render)) <==> Method(raw) == "GET" || Method(raw) == "POST"
  {
    hide WellFramed, WithBody, ReadHead, FindBlankLine, Method, Path, BAD_REQUEST, NOT_IMPLEMENTED;
    StatusIsNoLength("HTTP/1.1 200 OK");
    StatusIsNoLength("HTTP/1.1 400 Bad Request");
    if Method(raw) == "GET" {
      BodyFramed("HTTP/1.1 200 OK", "Hello from GET " + Path(raw));
    } else if Method(raw) == "POST" {
      BadRequestFramed();
      BodyFramed("HTTP/1.1 400 Bad Request", "Invalid JSON");
      var p := FindBlankLine(raw);
      if p.Some? && render(raw[p.value + 4..]).Some? {
        BodyFramed("HTTP/1.1 200 OK", render(raw[p.value + 4..]).value);
      }
    } else {
      NotImplementedUnframed();
    }
  }

  /** A request whose answer a client cannot frame. */
  lemma PutIsUnframed(render: string -> Option<string>)
    ensures !WellFramed(Reply("PUT / HTTP/1.1\r\n\r\n", render))
  {
    var raw := "PUT / HTTP/1.1\r\n\r\n";
    assert Method(raw)[0] == 'P' && Method(raw)[1] == 'U';
    FramedIff(raw, render);
  }

  // ---------- Memoisation ----------

  /** Every entry is the response that would be computed again. */
  ghost predicate Memo(data: TtlCache.Data) {
    forall path | path in data :: data[path].value == GetResponse(path)
  }

  /** What the workers and the event loop do to the shared cache, in any order and at any times. */
  ghost predicate ServerOp(op: TtlCache.Op) {
    op.Put? ==> op.value == GetResponse(op.key) && op.ttl == TTL
  }

  function AfterOps(data: TtlCache.Data, ops: seq<TtlCache.Timed>): TtlCache.Data {
    if ops == [] then data else TtlCache.AfterOp(AfterOps(data, ops[..|ops| - 1]), ops[|ops| - 1])
  }

  lemma {:induction false} MemoAlways(data: TtlCache.Data, ops: seq<TtlCache.Timed>)
    requires Memo(data) && forall t | t in ops :: ServerOp(t.op)
    ensures Memo(AfterOps(data, ops))
    decreases |ops|
  {
    if ops != [] {
      MemoAlways(data, ops[..|ops| - 1]);
      assert ServerOp(ops[|ops| - 1].op);
    }
  }

  lemma ResponseIsNotSentinel(path: string)
    ensures GetResponse(path) != TtlCache.NOT_FOUND
  {
    assert GetResponse(path)[0] == "HTTP/1.1 200 OK"[0];
    assert TtlCache.NOT_FOUND[0] == 'N';
  }

  /** Whatever was cached, expired or swept before, a lookup is a miss or gives the recomputed response. */
  lemma {:induction false} MemoisationTransparent(ops: seq<TtlCache.Timed>, path: string, now: int)
    requires forall t | t in ops :: ServerOp(t.op)
    ensures var found := TtlCache.Answer(AfterOps(map[], ops), path, now);
            (if found != TtlCache.NOT_FOUND then found else GetResponse(path)) == GetResponse(path)
    ensures var data := AfterOps(map[], ops);
            TtlCache.Answer(data, path, now) == TtlCache.NOT_FOUND
            <==> !(path in data && TtlCache.Alive(data[path], now))
  {
    MemoAlways(map[], ops);
    ResponseIsNotSentinel(path);
  }

  /** Other threads use the cache between two critical sections of this one. */
  method OthersRun(cache: TtlCache.Cache, ops: seq<TtlCache.Timed>)
    requires Memo(cache.data) && forall t | t in ops :: ServerOp(t.op)
    modifies cache
    ensures Memo(cache.data) && cache.data == AfterOps(old(cache.data), ops)
  {
    for i := 0 to |ops|
      invariant Memo(cache.data) && cache.data == AfterOps(old(cache.data), ops[..i])
    {
      var now := ops[i].now;
      assert ops[..i + 1][..i] == ops[..i] && ops[..i + 1][i] == ops[i] == TtlCache.At(now, ops[i].op);
      assert ServerOp(ops[i].op);
      match ops[i].op
      case Put(k, v, ttl) => cache.Put(k, v, ttl, now);
      case Get(k) => var _ := cache.Get(k, now);
      case Cleanup => cache.Cleanup(now);
    }
    assert ops[..|ops|] == ops;
  }

  /** `handle_request`: the answer never depends on the cache, on the clock, or on what others do meanwhile. */
  method HandleRequest(cache: TtlCache.Cache, raw: string, render: string -> Option<string>, lookupTime: int,
                       meanwhile: seq<TtlCache.Timed>, storeTime: int)
    returns (reply: string)
    requires Memo(cache.data) && forall t | t in meanwhile :: ServerOp(t.op)
    modifies cache
    ensures Memo(cache.data) && reply == Reply(raw, render)
    ensures Method(raw) != "GET" ==> cache.data == old(cache.data)
    ensures Method(raw) == "GET" ==>
              var (path, data) := (Path(raw), old(cache.data));
              if path in data && lookupTime < data[path].expiresAt then cache.data == data
              else cache.data == AfterOps(data - {path}, meanwhile)[path := TtlCache.Entry(reply, storeTime + 60)]
  {
    hide Method, Path, AfterOps, WithBody, GetResponse, PostResponse, ServerOp, BAD_REQUEST, NOT_IMPLEMENTED;
    var word := Method(raw);
    if word == "GET" {
      var path := Path(raw);
      ResponseIsNotSentinel(path);
      ghost var before := cache.data;
      var cached := cache.Get(path, lookupTime);
      if cached != TtlCache.NOT_FOUND { return cached; }
      reply := GetResponse(path);
      assert cache.data == before - {path};
      OthersRun(cache, meanwhile);
      cache.Put(path, reply, TTL, storeTime);
      return;
    }
    if word == "POST" {
      reply := PostResponse(raw, render);
      return;
    }
    reply := NOT_IMPLEMENTED;
  }
}
