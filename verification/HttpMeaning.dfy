/**
 What the server answers to the text of a request, in plain strings (HTTP-server-cpp/src/http_parser.cpp).
 */
module HttpMeaning {
  import opened Wrappers
  import opened Decimal
  import opened HttpParser

  const WHITE := {' ', '\t', '\n', '\r', '\U{000B}', '\U{000C}'}

  lemma SpaceIsWhite(c: char)
    ensures IsSpace(c) <==> c in WHITE
  {
  }

  ghost predicate NoWhite(s: string) {
    forall i | 0 <= i < |s| :: s[i] !in WHITE
  }

  ghost predicate AllWhite(s: string) {
    forall i | 0 <= i < |s| :: s[i] in WHITE
  }

  lemma {:induction false} SkipsSpaces(spaces: string, rest: string)
    requires AllWhite(spaces) && rest != "" && rest[0] !in WHITE
    ensures SkipSpaces(spaces + rest) == rest
  {
    if spaces == "" {
      assert spaces + rest == rest;
    } else {
      assert (spaces + rest)[0] == spaces[0] && (spaces + rest)[1..] == spaces[1..] + rest;
      SkipsSpaces(spaces[1..], rest);
    }
  }

  lemma {:induction false} ReadsWord(word: string, rest: string)
    requires NoWhite(word) && (rest != "" ==> rest[0] in WHITE)
    ensures Word(word + rest) == word
  {
    if word == "" {
      assert word + rest == rest;
    } else {
      assert (word + rest)[0] == word[0] && (word + rest)[1..] == word[1..] + rest;
      ReadsWord(word[1..], rest);
    }
  }

  /** A request: white space, the method, white space, the path, and whatever follows after white space. */
  ghost predicate IsRequest(raw: string, method': string, path: string) {
    exists before, between, after ::
      && Parts(before, method', between, path, after)
      && raw == before + (method' + (between + (path + after)))
  }

  ghost predicate Parts(before: string, method': string, between: string, path: string, after: string) {
    && AllWhite(before) && AllWhite(between) && between != ""
    && NoWhite(method') && method' != "" && NoWhite(path) && path != ""
    && (after != "" ==> after[0] in WHITE)
  }

  lemma Tokens(raw: string, method': string, path: string)
    requires IsRequest(raw, method', path)
    ensures Method(raw) == method' && Path(raw) == path
  {
    var before, between, after :| && Parts(before, method', between, path, after)
                                  && raw == before + (method' + (between + (path + after)));
    var tail := between + (path + after);
    assert (method' + tail)[0] == method'[0] && tail[0] == between[0] && (path + after)[0] == path[0];
    hide Word, SkipSpaces;
    SkipsSpaces(before, method' + tail);
    ReadsWord(method', tail);
    assert (method' + tail)[|method'|..] == tail;
    SkipsSpaces(between, path + after);
    ReadsWord(path, after);
  }


  /** The lines of the head and the body of an answer with a body. */
  function Answer(status: string, body: string): (seq<string>, string) {
    ([status, "Content-Length: " + ToString(|body|), "Content-Type: text/plain", "Connection: close"], body)
  }

  lemma AnswerIs(status: string, body: string)
    ensures Answer(status, body) == (BodyLines(status, body), body)
  {
  }

  lemma BodyLinesFit(status: string, body: string)
    requires OneLine(status)
    ensures forall l | l in BodyLines(status, body) :: OneLine(l)
  {
    LengthOfToString(|body|);
  }

  lemma WithBodyIs(status: string, body: string)
    requires OneLine(status)
    ensures ReadHead(WithBody(status, body)) == Some(Answer(status, body))
  {
    BodyLinesFit(status, body);
    AnswerIs(status, body);
    hide ReadHead, Render, BodyLines, Answer;
    ReadHeadOfRender(BodyLines(status, body), body);
  }

  lemma StatusFits()
    ensures OneLine("HTTP/1.1 200 OK") && OneLine("HTTP/1.1 400 Bad Request")
  {
  }

  /** Every GET is greeted with its path. */
  lemma GetIs(raw: string, path: string, render: string -> Option<string>)
    requires IsRequest(raw, "GET", path)
    ensures ReadHead(Reply(raw, render)) == Some(Answer("HTTP/1.1 200 OK", "Hello from GET " + path))
  {
    StatusFits();
    hide ReadHead, Answer, OneLine, WithBody, Method, Path, IsRequest;
    Tokens(raw, "GET", path);
    WithBodyIs("HTTP/1.1 200 OK", "Hello from GET " + path);
  }

  /** In particular with single spaces. */
  lemma GetLine(path: string, rest: string, render: string -> Option<string>)
    requires NoWhite(path) && path != ""
    ensures ReadHead(Reply("GET " + path + " " + rest, render)).Some?
    ensures var (lines, body) := ReadHead(Reply("GET " + path + " " + rest, render)).value;
            lines != [] && lines[0] == "HTTP/1.1 200 OK" && body == "Hello from GET " + path
  {
    hide ReadHead, Reply, IsRequest, Parts;
    SingleSpaces(path, rest);
    GetIs("GET " + path + " " + rest, path, render);
  }

  lemma SingleSpaces(path: string, rest: string)
    requires NoWhite(path) && path != ""
    ensures IsRequest("GET " + path + " " + rest, "GET", path)
  {
    var raw := "GET " + path + " " + rest;
    assert raw == "" + ("GET" + (" " + (path + (" " + rest))));
    assert Parts("", "GET", " ", path, " " + rest);
  }

  ghost predicate BlankAt(raw: string, p: nat) {
    p + 4 <= |raw| && raw[p] == '\r' && raw[p + 1] == '\n' && raw[p + 2] == '\r' && raw[p + 3] == '\n'
  }

  lemma BlankIs(raw: string, p: nat)
    ensures BlankAt(raw, p) <==> BlankLineAt(raw, p)
  {
  }

  /** The first blank line of a request is at `p`. */
  ghost predicate FirstBlankLine(raw: string, p: nat) {
    BlankAt(raw, p) && forall q | 0 <= q < p :: !BlankAt(raw, q)
  }

  lemma BlankLineFound(raw: string, p: nat)
    requires FirstBlankLine(raw, p)
    ensures FindBlankLine(raw) == Some(p)
  {
    hide BlankAt, BlankLineAt;
    BlankIs(raw, p);
    forall q: nat ensures BlankAt(raw, q) <==> BlankLineAt(raw, q) { BlankIs(raw, q); }
  }

  /** A POST is answered with what is made of the text after its first blank line. */
  lemma PostIs(raw: string, path: string, p: nat, render: string -> Option<string>)
    requires IsRequest(raw, "POST", path) && FirstBlankLine(raw, p)
    ensures p + 4 <= |raw|
    ensures ReadHead(Reply(raw, render))
            == match render(raw[p + 4..])
               case Some(made) => Some(Answer("HTTP/1.1 200 OK", made))
               case None => Some(Answer("HTTP/1.1 400 Bad Request", "Invalid JSON"))
  {
    StatusFits();
    hide ReadHead, Answer, OneLine, WithBody, Method, Path, IsRequest, FindBlankLine;
    Tokens(raw, "POST", path);
    BlankLineFound(raw, p);
    match render(raw[p + 4..])
    case Some(made) => WithBodyIs("HTTP/1.1 200 OK", made);
    case None => WithBodyIs("HTTP/1.1 400 Bad Request", "Invalid JSON");
  }

  /** Without a blank line it is a bad request. */
  lemma PostWithoutBody(raw: string, path: string, render: string -> Option<string>)
    requires IsRequest(raw, "POST", path) && forall q: nat :: !BlankAt(raw, q)
    ensures ReadHead(Reply(raw, render))
            == Some((["HTTP/1.1 400 Bad Request", "Content-Length: 0", "Connection: close"], ""))
  {
    hide ReadHead, Render, Method, Path, IsRequest, BlankAt, BlankLineAt, BAD_REQUEST;
    Tokens(raw, "POST", path);
    forall q: nat ensures !BlankLineAt(raw, q) { BlankIs(raw, q); }
    BadRequestIsRender();
    BadRequestLength();
    ReadHeadOfRender(BAD_REQUEST_LINES, "");
  }

  /** Every other method is answered with a head whose second line runs into the third. */
  lemma OtherIs(raw: string, method': string, path: string, render: string -> Option<string>)
    requires IsRequest(raw, method', path) && method' != "GET" && method' != "POST"
    ensures ReadHead(Reply(raw, render)) == Some((["HTTP/1.1 501 Not Implemented", "Content-Length: 0Connection: close"], ""))
  {
    hide ReadHead, Render, Method, Path, IsRequest, NOT_IMPLEMENTED;
    Tokens(raw, method', path);
    NotImplementedIsRender();
    ReadHeadOfRender(NOT_IMPLEMENTED_LINES, "");
  }
}
