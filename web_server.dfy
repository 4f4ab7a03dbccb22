/**
 * processRequest, serveFile and storeFile of SimpleWebServer
 * (SimpleWebServer.java:51-167): one request read from a connection, one
 * response written to it, with the filesystem and the access log updated.
 * Each method is proved against a function that gives its result.
 */
module WebServer {
  import opened Wrappers
  import opened Text
  import opened Connections
  import opened FileSystem
  import opened RequestLine
  import opened Headers
  import opened Paths
  import opened AccessLog

  // The response texts, as the source writes them.
  const Ok200 := "HTTP/1.0 200 OK\n\n"
  const NotFound404 := "HTTP/1.0 404 Not Found"
  const NotFound404Blank := "HTTP/1.0 404 Not Found\n\n"
  const Created201 := "HTTP/1.0 201 Created"
  const ServerError500 := "HTTP/1.0 500 Internal Server Error"
  const NotImplemented501 := "HTTP/1.0 501 Not Implemented\n\n"

  datatype Failure =
    | BadRequestLine(error: ParseError)  // no request line, or fewer than two tokens
    | UnterminatedHeaders                // a GET whose stream ends before the empty line

  /** What a handled request leaves behind: the text sent to the client and
      the files (the access log among them). */
  datatype Exchange = Exchange(output: string, files: map<string, string>)

  /** processRequest either returns or lets an exception escape. */
  datatype Outcome = Completed | Aborted(failure: Failure)

  /** serveFile: normalise, check the allow-list, open, answer, log once. */
  function Serve(pathname: string, userAgent: string, files: map<string, string>, unwritable: set<string>,
                 addr: string, time: string): Exchange
    requires pathname != []
  {
    var path := NormalizePath(pathname);
    if !Allowed(path) then
      Exchange(NotFound404, Logged(files, unwritable, addr, time, "GET", path, 404, userAgent))
    else if path !in files then
      Exchange(NotFound404Blank, Logged(files, unwritable, addr, time, "GET", path, 404, userAgent))
    else
      Exchange(Ok200 + files[path], Logged(files, unwritable, addr, time, "GET", path, 200, userAgent))
  }

  /** Where the body of a PUT ends: at the first empty line, or at the end of
      the stream. */
  function BodyEnd(lines: seq<string>, from: nat): (end: nat)
    requires from <= |lines|
    ensures from <= end <= |lines|
    ensures forall j :: from <= j < end ==> lines[j] != []
    ensures end < |lines| ==> lines[end] == []
  {
    match FirstBlankLine(lines, from)
    case Some(k) => k
    case None => |lines|
  }

  /** storeFile: the body lines, without terminators, become the file at the
      unchecked path; 500 when the file cannot be opened. */
  function Store(pathname: string, lines: seq<string>, from: nat, files: map<string, string>,
                 unwritable: set<string>): Exchange
    requires from <= |lines|
  {
    if pathname in unwritable then Exchange(ServerError500, files)
    else Exchange(Created201, files[pathname := Concat(lines[from..BodyEnd(lines, from)])])
  }

  /** processRequest on the whole request stream. */
  function Handle(input: seq<string>, files: map<string, string>, unwritable: set<string>,
                  addr: string, time: string): Result<Exchange, Failure>
  {
    var request := if input == [] then None else Some(input[0]);
    match ParseRequestLine(request)
    case Err(e) => Err(BadRequestLine(e))
    case Ok(Request(command, pathname)) =>
      if command == "GET" then
        match ScanHeaders(input, 1)
        case None => Err(UnterminatedHeaders)
        case Some((userAgent, _)) => Ok(Serve(pathname, userAgent, files, unwritable, addr, time))
      else if command == "PUT" then
        Ok(Store(pathname, input, 1, files, unwritable))
      else
        Ok(Exchange(NotImplemented501, files))
  }

  /** The loop of serveFile that copies the file a character at a time into
      the StringBuffer. */
  method ReadAll(contents: string) returns (sb: string)
    ensures sb == contents
  {
    sb := "";
    var i := 0;
    while i < |contents|
      invariant 0 <= i <= |contents|
      invariant sb == contents[..i]
    {
      sb := sb + [contents[i]];
      i := i + 1;
    }
    assert contents[..i] == contents;
  }

  /** The status line of a GET answer, followed by its log entry. */
  method Answer(conn: Connection, disk: Disk, statusLine: string, path: string, status: nat,
                userAgent: string, addr: string, time: string)
    modifies conn`output, disk`files
    ensures conn.output == old(conn.output) + statusLine
    ensures disk.files == Logged(old(disk.files), disk.unwritable, addr, time, "GET", path, status, userAgent)
  {
    conn.Write(statusLine);
    Logging(disk, addr, time, "GET", path, status, userAgent);
  }

  method ServeFile(conn: Connection, disk: Disk, pathname: string, userAgent: string, addr: string, time: string)
    requires pathname != []
    modifies conn`output, disk`files
    ensures var e := Serve(pathname, userAgent, old(disk.files), disk.unwritable, addr, time);
      conn.output == old(conn.output) + e.output && disk.files == e.files
  {
    var path := pathname;
    // remove the initial slash
    if path[0] == '/' {
      path := path[1..];
    }
    // no file name: serve the default document
    if path == [] {
      path := DefaultDocument;
    }
    assert path == NormalizePath(pathname);
    var isAllowed := IsAllowFile(path);
    if !isAllowed {
      Answer(conn, disk, NotFound404, path, 404, userAgent, addr, time);
      return;
    }
    var fr := disk.Open(path);
    if fr.None? {
      Answer(conn, disk, NotFound404Blank, path, 404, userAgent, addr, time);
      return;
    }
    var contents := fr.value;
    Answer(conn, disk, Ok200, path, 200, userAgent, addr, time);
    var sb := ReadAll(contents);
    conn.Write(sb);
    AppendAssociates(old(conn.output), Ok200, contents);
  }

  method StoreFile(conn: Connection, disk: Disk, pathname: string)
    requires conn.Valid()
    modifies conn`cursor, conn`output, disk`files
    ensures conn.Valid()
    ensures var e := Store(pathname, conn.input, old(conn.cursor), old(disk.files), disk.unwritable);
      conn.output == old(conn.output) + e.output && disk.files == e.files
  {
    var ok := disk.OpenWriter(pathname, false);
    if !ok {
      // new FileWriter(pathname) throws
      conn.Write(ServerError500);
      return;
    }
    ghost var start := conn.cursor;
    ghost var written := 0;
    var s := conn.ReadLine();
    while s.Some? && |s.value| > 0
      invariant conn.Valid() && start + written <= conn.cursor
      invariant conn.output == old(conn.output)
      invariant s.Some? ==> conn.cursor == start + written + 1 && s.value == conn.input[start + written]
      invariant s.None? ==> conn.cursor == start + written == |conn.input|
      invariant forall j :: start <= j < start + written ==> conn.input[j] != []
      invariant disk.files == old(disk.files)[pathname := Concat(conn.input[start..start + written])]
      decreases |conn.input| - written
    {
      ConcatAppend(conn.input[start..start + written], s.value);
      assert conn.input[start..start + written] + [s.value] == conn.input[start..start + written + 1];
      disk.Write(pathname, s.value);
      written := written + 1;
      s := conn.ReadLine();
    }
    assert start + written == BodyEnd(conn.input, start);
    conn.Write(Created201);
  }

  /** processRequest for a freshly accepted connection. */
  method ProcessRequest(conn: Connection, disk: Disk, addr: string, time: string) returns (outcome: Outcome)
    requires conn.Valid() && conn.cursor == 0 && conn.output == [] && !conn.closed
    modifies conn, disk
    ensures var h := Handle(conn.input, old(disk.files), disk.unwritable, addr, time);
      match h
      case Err(f) => outcome == Aborted(f) && conn.output == [] && !conn.closed && disk.files == old(disk.files)
      case Ok(e) => outcome == Completed && conn.output == e.output && conn.closed && disk.files == e.files
  {
    var request := conn.ReadLine();
    var parsed := ParseRequestLine(request);
    if parsed.Err? {
      return Aborted(BadRequestLine(parsed.error));
    }
    var command, pathname := parsed.value.command, parsed.value.pathname;
    if command == "GET" {
      var userAgent := GetUserAgentLine(conn);
      if userAgent.None? {
        return Aborted(UnterminatedHeaders);
      }
      ServeFile(conn, disk, pathname, userAgent.value, addr, time);
    } else if command == "PUT" {
      StoreFile(conn, disk, pathname);
    } else {
      conn.Write(NotImplemented501);
    }
    conn.Close();
    return Completed;
  }
}
