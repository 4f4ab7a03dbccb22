/**
 * What one request does, stated on Handle, the function ProcessRequest is
 * proved to compute.
 */
module ServerProperties {
  import opened Wrappers
  import opened Text
  import opened Connections
  import opened FileSystem
  import opened RequestLine
  import opened Headers
  import opened Paths
  import opened AccessLog
  import opened WebServer

  /** A request is malformed, and nothing is written or changed, exactly when
      there is no request line, the line has fewer than two tokens, or it is
      a GET whose headers are not ended by an empty line. */
  lemma FailsExactlyWhenMalformed(input: seq<string>, files: map<string, string>, unwritable: set<string>,
                                  addr: string, time: string)
    ensures Handle(input, files, unwritable, addr, time).Err? <==>
      || input == []
      || |Tokens(input[0])| < 2
      || (Tokens(input[0])[0] == "GET" && FirstBlankLine(input, 1).None?)
  {
    if input != [] {
      ParseTakesFirstTwoTokens(input[0]);
    }
  }

  /** The 200 answer differs from the 501 text at the first digit of the code. */
  lemma SuccessIsNot501(contents: string)
    ensures Ok200 + contents != NotImplemented501
  {
    assert (Ok200 + contents)[9] == Ok200[9];
    assert Ok200[9] == '2' && NotImplemented501[9] == '5';
  }

  /** No answer of GET is the 501 text. */
  lemma ServedIsNot501(pathname: string, userAgent: string, files: map<string, string>, unwritable: set<string>,
                       addr: string, time: string)
    requires pathname != []
    ensures Serve(pathname, userAgent, files, unwritable, addr, time).output != NotImplemented501
  {
    var path := NormalizePath(pathname);
    assert |NotFound404| == 22 && |NotFound404Blank| == 24 && |NotImplemented501| == 30;
    if Allowed(path) && path in files {
      SuccessIsNot501(files[path]);
    }
  }

  /** No answer of PUT is the 501 text. */
  lemma StoredIsNot501(pathname: string, lines: seq<string>, files: map<string, string>, unwritable: set<string>)
    requires 1 <= |lines|
    ensures Store(pathname, lines, 1, files, unwritable).output != NotImplemented501
  {
    assert |Created201| == 20 && |ServerError500| == 34 && |NotImplemented501| == 30;
  }

  /** Only the exact, case-sensitive commands GET and PUT are dispatched;
      anything else gets the fixed 501 text and leaves every file alone. */
  lemma OnlyGetAndPutAreImplemented(input: seq<string>, files: map<string, string>, unwritable: set<string>,
                                    addr: string, time: string)
    requires input != [] && |Tokens(input[0])| >= 2
    ensures var command := Tokens(input[0])[0];
      command != "GET" && command != "PUT" <==>
      Handle(input, files, unwritable, addr, time) == Ok(Exchange(NotImplemented501, files))
  {
    ParseTakesFirstTwoTokens(input[0]);
    var pathname := Tokens(input[0])[1];
    match ScanHeaders(input, 1)
    case None =>
      StoredIsNot501(pathname, input, files, unwritable);
    case Some((userAgent, _)) =>
      ServedIsNot501(pathname, userAgent, files, unwritable, addr, time);
      StoredIsNot501(pathname, input, files, unwritable);
  }

  /** The three answers to a well-formed GET, each with its one log call:
      denied paths get a status line with no blank line after it, allowed
      paths that cannot be opened the same line followed by a blank line, and
      readable allowed paths the 200 line followed by exactly the contents. */
  lemma GetResponses(input: seq<string>, files: map<string, string>, unwritable: set<string>,
                     addr: string, time: string)
    requires input != [] && |Tokens(input[0])| >= 2 && Tokens(input[0])[0] == "GET"
    requires FirstBlankLine(input, 1).Some?
    ensures var path := NormalizePath(Tokens(input[0])[1]);
      var userAgent := LastUserAgent(input[1..FirstBlankLine(input, 1).value]);
      var h := Handle(input, files, unwritable, addr, time);
      && h.Ok?
      && (!Allowed(path) ==>
            h.value == Exchange(NotFound404, Logged(files, unwritable, addr, time, "GET", path, 404, userAgent)))
      && (Allowed(path) && path !in files ==>
            h.value == Exchange(NotFound404Blank, Logged(files, unwritable, addr, time, "GET", path, 404, userAgent)))
      && (Allowed(path) && path in files ==>
            h.value == Exchange(Ok200 + files[path], Logged(files, unwritable, addr, time, "GET", path, 200, userAgent)))
  {
    ParseTakesFirstTwoTokens(input[0]);
  }

  /** A GET changes no file but the access log, and appends to it exactly one
      line, with the status it answered, unless the user-agent field is
      missing or the log cannot be opened. */
  lemma GetAppendsAtMostOneEntry(input: seq<string>, files: map<string, string>, unwritable: set<string>,
                                 addr: string, time: string)
    requires input != [] && |Tokens(input[0])| >= 2 && Tokens(input[0])[0] == "GET"
    requires FirstBlankLine(input, 1).Some?
    ensures Handle(input, files, unwritable, addr, time).Ok?
    ensures var path := NormalizePath(Tokens(input[0])[1]);
      var userAgent := LastUserAgent(input[1..FirstBlankLine(input, 1).value]);
      var status := if Allowed(path) && path in files then 200 else 404;
      var after := Handle(input, files, unwritable, addr, time).value.files;
      && (forall p :: p != AccessLogPath ==> (p in after <==> p in files) && (p in after ==> after[p] == files[p]))
      && (after != files <==> UserAgentField(userAgent).Some? && AccessLogPath !in unwritable)
      && (after != files ==>
            && AccessLogPath in after
            && after[AccessLogPath] == ContentsOf(files, AccessLogPath)
              + LogLine(addr, time, "GET", path, status, Trim(UserAgentField(userAgent).value)) + "\n")
  {
    GetResponses(input, files, unwritable, addr, time);
    var path := NormalizePath(Tokens(input[0])[1]);
    var userAgent := LastUserAgent(input[1..FirstBlankLine(input, 1).value]);
    var status := if Allowed(path) && path in files then 200 else 404;
    var logged := Logged(files, unwritable, addr, time, "GET", path, status, userAgent);
    assert Handle(input, files, unwritable, addr, time).value.files == logged;
    LoggedAppendsOneLine(files, unwritable, addr, time, "GET", path, status, userAgent);
  }

  /** Without a User-Agent header the sentinel ":" reaches logging, whose
      split(":")[1] throws: the GET is answered but not logged. */
  lemma GetWithoutUserAgentIsNotLogged(input: seq<string>, files: map<string, string>, unwritable: set<string>,
                                       addr: string, time: string)
    requires input != [] && |Tokens(input[0])| >= 2 && Tokens(input[0])[0] == "GET"
    requires FirstBlankLine(input, 1).Some?
    requires forall j :: 1 <= j < FirstBlankLine(input, 1).value ==> !IsUserAgentLine(input[j])
    ensures Handle(input, files, unwritable, addr, time).Ok?
    ensures Handle(input, files, unwritable, addr, time).value.files == files
  {
    var headers := input[1..FirstBlankLine(input, 1).value];
    assert forall j :: 0 <= j < |headers| ==> headers[j] == input[j + 1];
    LastUserAgentIsLast(headers);
    assert LastUserAgent(headers) == NoUserAgent;
    NoFieldCases([]);
    GetAppendsAtMostOneEntry(input, files, unwritable, addr, time);
  }

  /** "GET /../etc/passwd" is refused with the bare 404 line whatever files
      exist: the check compares strings, it does not resolve paths. */
  lemma TraversalIsRefused(input: seq<string>, files: map<string, string>, unwritable: set<string>,
                           addr: string, time: string)
    requires input != [] && input[0] == "GET /../etc/passwd"
    requires FirstBlankLine(input, 1).Some?
    ensures Handle(input, files, unwritable, addr, time).Ok?
    ensures Handle(input, files, unwritable, addr, time).value.output == NotFound404
  {
    var tokens := ["GET", "/../etc/passwd"];
    assert Join(tokens, ' ') == "GET /../etc/passwd" by {
      assert Join(tokens[1..], ' ') == "/../etc/passwd";
    }
    assert Delimiter !in tokens[0] && Delimiter !in tokens[1];
    TokensOfJoin(tokens);
    NormalizeExamples();
    TraversalDenied();
    GetResponses(input, files, unwritable, addr, time);
  }

  /** A PUT answers 201 or 500 and nothing else; on 201 the file at the raw,
      unchecked path holds the body lines up to the first empty line (or the
      end of the stream) with no terminators, and no other file changes. */
  lemma PutStoresBody(input: seq<string>, files: map<string, string>, unwritable: set<string>,
                      addr: string, time: string)
    requires input != [] && |Tokens(input[0])| >= 2 && Tokens(input[0])[0] == "PUT"
    ensures var path := Tokens(input[0])[1];
      var body := input[1..BodyEnd(input, 1)];
      var h := Handle(input, files, unwritable, addr, time);
      && h.Ok?
      && (path in unwritable ==> h.value == Exchange(ServerError500, files))
      && (path !in unwritable ==> h.value == Exchange(Created201, files[path := Concat(body)]))
  {
    ParseTakesFirstTwoTokens(input[0]);
  }

  /** What a PUT stores is what the client sent with every line terminator
      removed: the lines run together. */
  lemma PutDropsLineTerminators(input: seq<string>, files: map<string, string>, unwritable: set<string>,
                                addr: string, time: string)
    requires input != [] && |Tokens(input[0])| >= 2 && Tokens(input[0])[0] == "PUT"
    requires Tokens(input[0])[1] !in unwritable
    requires forall j :: 0 <= j < |input| ==> '\n' !in input[j]
    ensures Handle(input, files, unwritable, addr, time).Ok?
    ensures Tokens(input[0])[1] in Handle(input, files, unwritable, addr, time).value.files
    ensures var path := Tokens(input[0])[1];
      var stored := Handle(input, files, unwritable, addr, time).value.files[path];
      && stored == RemoveChar(Join(input[1..BodyEnd(input, 1)], '\n'), '\n')
      && '\n' !in stored
  {
    PutStoresBody(input, files, unwritable, addr, time);
    var body := input[1..BodyEnd(input, 1)];
    assert forall j :: 0 <= j < |body| ==> body[j] == input[j + 1];
    ConcatIsJoinWithoutSeparators(body, '\n');
  }

  /** The allow-list guards only GET: a PUT to a path GET would refuse is
      stored all the same. */
  lemma PutIgnoresAllowList(input: seq<string>, files: map<string, string>, unwritable: set<string>,
                            addr: string, time: string)
    requires input != [] && input[0] == "PUT ../etc/passwd"
    requires "../etc/passwd" !in unwritable
    ensures Handle(input, files, unwritable, addr, time).Ok?
    ensures !Allowed("../etc/passwd")
    ensures Handle(input, files, unwritable, addr, time).value.output == Created201
    ensures "../etc/passwd" in Handle(input, files, unwritable, addr, time).value.files
  {
    var tokens := ["PUT", "../etc/passwd"];
    assert Join(tokens, ' ') == "PUT ../etc/passwd" by {
      assert Join(tokens[1..], ' ') == "../etc/passwd";
    }
    assert Delimiter !in tokens[0] && Delimiter !in tokens[1];
    TokensOfJoin(tokens);
    TraversalDenied();
    PutStoresBody(input, files, unwritable, addr, time);
  }

  /** A GET leaves the file it serves as it was, so asking again gives the
      same answer. */
  lemma GetIsRepeatable(input: seq<string>, files: map<string, string>, unwritable: set<string>,
                        addr: string, time: string, time': string)
    requires input != [] && |Tokens(input[0])| >= 2 && Tokens(input[0])[0] == "GET"
    requires FirstBlankLine(input, 1).Some?
    ensures Handle(input, files, unwritable, addr, time).Ok?
    ensures Handle(input, Handle(input, files, unwritable, addr, time).value.files, unwritable, addr, time').Ok?
    ensures var after := Handle(input, files, unwritable, addr, time).value.files;
      Handle(input, after, unwritable, addr, time').value.output
        == Handle(input, files, unwritable, addr, time).value.output
  {
    GetAppendsAtMostOneEntry(input, files, unwritable, addr, time);
    GetResponses(input, files, unwritable, addr, time);
    var after := Handle(input, files, unwritable, addr, time).value.files;
    var path := NormalizePath(Tokens(input[0])[1]);
    GetResponses(input, after, unwritable, addr, time');
    if Allowed(path) {
      TraversalDenied();
      assert path != AccessLogPath;
    }
  }

  /** Round trip: after a PUT of an allowed name, a GET of that name returns
      exactly what was stored. */
  lemma PutThenGet(put: seq<string>, get: seq<string>, files: map<string, string>, unwritable: set<string>,
                   addr: string, time: string)
    requires put != [] && |Tokens(put[0])| >= 2 && Tokens(put[0])[0] == "PUT"
    requires Allowed(Tokens(put[0])[1]) && Tokens(put[0])[1] !in unwritable
    requires get != [] && |Tokens(get[0])| >= 2 && Tokens(get[0])[0] == "GET"
    requires NormalizePath(Tokens(get[0])[1]) == Tokens(put[0])[1]
    requires FirstBlankLine(get, 1).Some?
    ensures Handle(put, files, unwritable, addr, time).Ok?
    ensures Handle(get, Handle(put, files, unwritable, addr, time).value.files, unwritable, addr, time).Ok?
    ensures var stored := Handle(put, files, unwritable, addr, time).value.files;
      Handle(get, stored, unwritable, addr, time).value.output == Ok200 + Concat(put[1..BodyEnd(put, 1)])
  {
    PutStoresBody(put, files, unwritable, addr, time);
    var stored := Handle(put, files, unwritable, addr, time).value.files;
    GetResponses(get, stored, unwritable, addr, time);
  }
}
