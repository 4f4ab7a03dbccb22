# SimpleWebServer, modelled in Dafny

This project models the request handling of `SimpleWebServer`, a toy
HTTP/1.0 server written to teach security flaws. It covers one connection
from start to finish:

- `processRequest` reads the request line, splits it with a
  `StringTokenizer` and dispatches on the command.
- `getUserAgentLine` reads the headers up to the empty line and keeps the
  last `User-Agent` line.
- `serveFile` normalises the path and checks it against the allow-list.
  It then answers 404, 404 with a blank line, or 200 with the file, and
  logs what it did.
- `storeFile` writes the body lines of a PUT to the file named by the raw
  path.
- `logging` builds one access-log line and appends it to `access.log`.
- `isAllowFile` compares the trimmed path with `ALLOW_FILES`.

Each Java library call the server depends on is written out in `Text` and
`RequestLine`:

- `String.trim`, `toLowerCase` and `startsWith`;
- `split(":")`, with Java's rule that trailing empty fields are removed;
- `String.join`, `replace("/", "")` and `Integer.toString`;
- `StringTokenizer(" ")` with `nextToken`.

The model has two layers:

- State that changes in place is modelled as classes:
  - `Connections.Connection` holds the lines the client sends, a read
    cursor, the text written back, and whether the writer is closed.
  - `FileSystem.Disk` holds a map from file names to contents, plus the
    set of names for which opening a `FileWriter` fails.
  - The methods `ServeFile`, `StoreFile`, `GetUserAgentLine`, `Logging`
    and `ProcessRequest` follow the Java statement by statement.
- Pure functions state what each method computes: `Serve`, `Store`,
  `ScanHeaders`, `Logged` and `Handle`. Each method is proved to compute
  its function. The properties of the server are lemmas about those
  functions, mainly in `ServerProperties`.

The access log is the file `access.log` in the same map of files, because
the server opens it with the same `FileWriter` it uses for PUT.

Behaviour of the code worth knowing, all of it modelled as written:

- The log line records the path after the leading slash is removed, e.g.
  `"GET index.html"`, not the path as requested.
- The logged user agent is the text between the first and the second colon
  of the header line, trimmed. Anything after a second colon is lost.
- A request with no `User-Agent` header, or with `User-Agent:` and no
  value, writes no log line at all. `split(":")` then has no second field,
  and the exception is caught inside `logging`.
- The allow-list check trims the path, but the file opened is the
  untrimmed path.
- PUT stores under the raw second token: the leading slash is not
  removed and there is no allow-list check. The body is the lines right
  after the request line, so headers are stored as content. The lines are
  written with no line terminators.
- An exception in `processRequest` is not caught. This happens when there
  is no request line, the line has fewer than two tokens, or a GET's
  stream ends before the empty line. The exception escapes `run()` and
  stops the server, rather than the server going on to the next
  connection. The model returns `Aborted` with the reason. It writes
  nothing and does not close the connection.

## Model

| member | source | states |
|---|---|---|
| Text.Trim | com/learnsecurity/SimpleWebServer.java:217 | the result has no character at or below U+0020 at either end, and the input equals trimmable lead + result + trimmable trail |
| Text.TrimOfPadded | com/learnsecurity/SimpleWebServer.java:192 | trimming any trimmable padding around a string with non-trimmable ends gives back exactly that string |
| Text.ToLower | com/learnsecurity/SimpleWebServer.java:174 | same length; every character is the ASCII lower-case of the one at the same index |
| Text.SplitOn | com/learnsecurity/SimpleWebServer.java:192 | at least one field, and no field contains the separator |
| Text.JoinSplit | com/learnsecurity/SimpleWebServer.java:192-199 | joining the fields of a split with the same separator gives back the input |
| Text.SplitJoin | com/learnsecurity/SimpleWebServer.java:192-199 | splitting a join of separator-free fields gives back the fields |
| Text.SplitOnFirst | com/learnsecurity/SimpleWebServer.java:192 | when the separator occurs, the first field is the text before its first occurrence and the rest are the split of what follows |
| Text.SomeFieldNonEmpty | com/learnsecurity/SimpleWebServer.java:192 | a split has a non-empty field exactly when the string holds a character other than the separator (so Java's split of ":" keeps no field) |
| Text.StripTrailingEmpty | com/learnsecurity/SimpleWebServer.java:192 | the result is a prefix of the input, every dropped field is empty, and the last kept field is not |
| Text.JavaSplit | com/learnsecurity/SimpleWebServer.java:192 | defined as Java's split with limit 0: a string without the separator is its own single field, otherwise the fields of SplitOn less the trailing empty ones (AccessLog.SecondField states what that means for index 1) |
| Text.Join | com/learnsecurity/SimpleWebServer.java:192-199 | String.join with a one-character separator: the fields with one separator between each pair (inverse of SplitOn by JoinSplit and SplitJoin) |
| Text.StartsWith | com/learnsecurity/SimpleWebServer.java:174 | the prefix is no longer than the string and equals its first characters |
| Text.RemoveChar | com/learnsecurity/SimpleWebServer.java:189 | the character no longer occurs, the length falls by exactly its number of occurrences, and a string without it is unchanged |
| Text.RemoveCharAppend | com/learnsecurity/SimpleWebServer.java:189 | removing a character distributes over concatenation |
| Text.Concat | com/learnsecurity/SimpleWebServer.java:158-160 | the lines written one after another with nothing between them; ConcatAppend and ConcatIsJoinWithoutSeparators state its properties |
| Text.ConcatAppend | com/learnsecurity/SimpleWebServer.java:158-160 | writing one more line appends exactly that line to what was written |
| Text.ConcatIsJoinWithoutSeparators | com/learnsecurity/SimpleWebServer.java:157-161 | the stored body equals the lines joined by a terminator with every terminator removed |
| Text.Decimal | com/learnsecurity/SimpleWebServer.java:199 | the status text is non-empty, all decimal digits, and has no leading zero except in "0" |
| Text.DecimalRoundTrip | com/learnsecurity/SimpleWebServer.java:199 | reading the decimal text back gives the number |
| RequestLine.NextToken | com/learnsecurity/SimpleWebServer.java:66-69 | None exactly when only delimiters remain; otherwise a non-empty, space-free token preceded only by delimiters and ended by a delimiter or the end |
| RequestLine.Tokens | com/learnsecurity/SimpleWebServer.java:66 | the tokens, as the non-empty fields of the line split at spaces, are non-empty and contain no space |
| RequestLine.NextTokenIsFirstToken | com/learnsecurity/SimpleWebServer.java:66-69 | nextToken from a position returns the first of the tokens of the rest of the line and leaves the others |
| RequestLine.TokensOfJoin | com/learnsecurity/SimpleWebServer.java:66 | the tokens of non-empty, space-free words joined by spaces are those words |
| RequestLine.ParseRequestLine | com/learnsecurity/SimpleWebServer.java:60-69 | a null line fails with NoRequestLine; a parsed command and path are non-empty and space-free |
| RequestLine.ParseTakesFirstTwoTokens | com/learnsecurity/SimpleWebServer.java:66-69 | parsing succeeds exactly when the line has two tokens or more, and then yields the first two, ignoring the rest |
| RequestLine.ParseExample | com/learnsecurity/SimpleWebServer.java:66-69 | "GET /index.html HTTP/1.0" parses to GET and /index.html |
| RequestLine.ParseOneTokenFails | com/learnsecurity/SimpleWebServer.java:68-69 | "GET" and the empty line have too few tokens |
| Connections.Connection.ReadLine | com/learnsecurity/SimpleWebServer.java:60 | returns the next line and advances the cursor, or null at the end of the stream |
| Connections.Connection.Write | com/learnsecurity/SimpleWebServer.java:91 | appends the text to what was sent |
| Connections.Connection.Close | com/learnsecurity/SimpleWebServer.java:95 | the writer is closed afterwards |
| Connections.FirstBlankLine | com/learnsecurity/SimpleWebServer.java:173 | the first empty line at or after the position, or None exactly when there is none |
| FileSystem.Disk.Open | com/learnsecurity/SimpleWebServer.java:127 | the contents when the file exists, failure exactly when it does not |
| FileSystem.Disk.OpenWriter | com/learnsecurity/SimpleWebServer.java:156 | fails exactly for unwritable paths; otherwise truncates, or keeps the contents when appending |
| FileSystem.Disk.Write | com/learnsecurity/SimpleWebServer.java:159 | appends the text to an open file and changes no other file |
| Headers.SentinelIsNotAUserAgentLine | com/learnsecurity/SimpleWebServer.java:172-174 | the default ":" does not itself match user-agent |
| Headers.UserAgentHeaderMatches | com/learnsecurity/SimpleWebServer.java:174 | a line whose first ten characters lower-case to "user-agent" is a User-Agent line whatever follows |
| Headers.UserAgentLineExamples | com/learnsecurity/SimpleWebServer.java:174 | "User-Agent..." and "USER-AGENT..." match; "Host: a" does not |
| Headers.IsUserAgentLine | com/learnsecurity/SimpleWebServer.java:174 | a line is a User-Agent line exactly when its ASCII lower-case form starts with "user-agent"; UserAgentHeaderMatches and UserAgentLineExamples state which lines qualify |
| Headers.LastUserAgent | com/learnsecurity/SimpleWebServer.java:170-180 | the last User-Agent line of the headers, scanning from the end, or ":" when there is none; LastUserAgentIsLast proves it is the last one |
| Headers.LastUserAgentIsLast | com/learnsecurity/SimpleWebServer.java:170-180 | the kept line is ":" only when no header is a User-Agent line, and otherwise a User-Agent line that no later header overrides |
| Headers.LastUserAgentStep | com/learnsecurity/SimpleWebServer.java:173-176 | each further header replaces the kept line exactly when it is a User-Agent line |
| Headers.ScanHeadersStops | com/learnsecurity/SimpleWebServer.java:173 | the header scan ends at the first empty line, returning the kept line and the position after it |
| Headers.ScanHeadersRunsOut | com/learnsecurity/SimpleWebServer.java:173 | without an empty line the header scan fails |
| Headers.ScanHeaders | com/learnsecurity/SimpleWebServer.java:170-180 | None when no empty line follows the position (the NullPointerException case), otherwise the kept User-Agent line and the position after the empty line; ScanHeadersStops and ScanHeadersRunsOut state both cases |
| Headers.GetUserAgentLine | com/learnsecurity/SimpleWebServer.java:170-180 | returns the last User-Agent line before the first empty line and stops after it; fails when the stream ends first |
| Paths.NormalizePath | com/learnsecurity/SimpleWebServer.java:109-117 | one leading slash is removed, "/" becomes index.html, other paths are kept |
| Paths.NormalizeExamples | com/learnsecurity/SimpleWebServer.java:109-117 | "/" gives index.html, "//x" gives "/x", "/../etc/passwd" gives "../etc/passwd" |
| Paths.Allowed | com/learnsecurity/SimpleWebServer.java:213-223 | some entry of ALLOW_FILES equals the trimmed path; AllowedIff gives the closed form |
| Paths.IsAllowFile | com/learnsecurity/SimpleWebServer.java:213-223 | true exactly when the trimmed path equals an entry of ALLOW_FILES |
| Paths.AllowedIff | com/learnsecurity/SimpleWebServer.java:26 | a path is allowed exactly when it is index.html with only trimmable padding |
| Paths.TraversalDenied | com/learnsecurity/SimpleWebServer.java:26 | "../etc/passwd", "/index.html" and "access.log" are not allowed |
| Paths.TrimmedNameIsAllowed | com/learnsecurity/SimpleWebServer.java:217 | "index.html" followed by a tab is allowed although it differs from the file name |
| AccessLog.UserAgentField | com/learnsecurity/SimpleWebServer.java:192 | split(":")[1] exists exactly when there is a colon followed by some non-colon, and then is the text up to the next colon |
| AccessLog.SecondField | com/learnsecurity/SimpleWebServer.java:192 | Java's split of a line without the separator has one field; with it, index 1 exists exactly when a non-separator follows the first separator, and is the text up to the next one |
| AccessLog.UserAgentFieldOfHeader | com/learnsecurity/SimpleWebServer.java:192 | for "name:value:rest" with colon-free name and value and a non-empty value, the field is the value |
| AccessLog.NoFieldCases | com/learnsecurity/SimpleWebServer.java:192 | ":", a colon-free name followed by one colon, and a line with no colon have no field, so nothing is logged |
| AccessLog.Endpoint | com/learnsecurity/SimpleWebServer.java:195 | the command and the path, separated by one space, in double quotes |
| AccessLog.Quoted | com/learnsecurity/SimpleWebServer.java:192 | the trimmed user agent in double quotes |
| AccessLog.LogLine | com/learnsecurity/SimpleWebServer.java:189-199 | the line is the slash-free address, "- -", "[", time, "]", quoted endpoint, status and quoted agent, separated by single spaces |
| AccessLog.JoinSnoc | com/learnsecurity/SimpleWebServer.java:198-199 | joining one more field appends the separator and that field |
| AccessLog.JoinEight | com/learnsecurity/SimpleWebServer.java:198-199 | String.join of eight fields is the fields with one separator between each pair |
| AccessLog.LogLineIsOneLine | com/learnsecurity/SimpleWebServer.java:198-205 | without a newline in its inputs the entry is a single line |
| AccessLog.Logged | com/learnsecurity/SimpleWebServer.java:182-211 | the files unchanged when split(":")[1] throws or access.log cannot be opened, otherwise access.log with the entry and a newline appended; LoggedAppendsOneLine states its properties |
| AccessLog.LoggedAppendsOneLine | com/learnsecurity/SimpleWebServer.java:182-211 | only access.log can change; it changes exactly when the field exists and the log is writable, and then gains one entry and a newline |
| AccessLog.Logging | com/learnsecurity/SimpleWebServer.java:182-211 | the files after the call are those of Logged |
| WebServer.Serve | com/learnsecurity/SimpleWebServer.java:98-150 | serveFile as a function of the files: the normalised path, then the bare 404 when it is not allowed, 404 and a blank line when it is not readable, 200, a blank line and the contents otherwise, each with its logging call; GetResponses, GetAppendsAtMostOneEntry and GetIsRepeatable state its properties |
| WebServer.BodyEnd | com/learnsecurity/SimpleWebServer.java:158 | the PUT body runs to the first empty line, or to the end of the stream |
| WebServer.Store | com/learnsecurity/SimpleWebServer.java:152-167 | storeFile as a function of the files: 500 and no change when the raw path cannot be opened for writing, otherwise 201 and the body lines run together as that file; PutStoresBody and PutDropsLineTerminators state its properties |
| WebServer.Handle | com/learnsecurity/SimpleWebServer.java:51-96 | processRequest as a function: the parse failure or the unterminated GET headers as an error, otherwise dispatch to Serve, Store or the 501 text; FailsExactlyWhenMalformed and OnlyGetAndPutAreImplemented state its properties |
| WebServer.ReadAll | com/learnsecurity/SimpleWebServer.java:145-148 | the character-by-character copy yields exactly the file contents |
| WebServer.Answer | com/learnsecurity/SimpleWebServer.java:119-144 | the status line is appended to the output and the files become those of Logged |
| WebServer.ServeFile | com/learnsecurity/SimpleWebServer.java:98-150 | the text sent and the files after the call are those of Serve |
| WebServer.StoreFile | com/learnsecurity/SimpleWebServer.java:152-167 | the text sent and the files after the call are those of Store; the cursor stays valid |
| WebServer.ProcessRequest | com/learnsecurity/SimpleWebServer.java:51-96 | a malformed request aborts with no output and no change; otherwise the output and files are those of Handle and the connection is closed |
| ServerProperties.FailsExactlyWhenMalformed | com/learnsecurity/SimpleWebServer.java:60-78 | a request throws exactly when there is no request line, fewer than two tokens, or a GET whose stream ends before the empty line |
| ServerProperties.SuccessIsNot501 | com/learnsecurity/SimpleWebServer.java:143 | no 200 answer equals the 501 text |
| ServerProperties.ServedIsNot501 | com/learnsecurity/SimpleWebServer.java:98-150 | no GET answer equals the 501 text |
| ServerProperties.StoredIsNot501 | com/learnsecurity/SimpleWebServer.java:152-167 | no PUT answer equals the 501 text |
| ServerProperties.OnlyGetAndPutAreImplemented | com/learnsecurity/SimpleWebServer.java:73-92 | a command other than the exact GET or PUT gets the 501 text and changes no file, and only such a command does |
| ServerProperties.GetResponses | com/learnsecurity/SimpleWebServer.java:109-149 | denied path: bare 404, logged 404; allowed but missing: 404 and blank line, logged 404; readable: 200, blank line and exactly the contents, logged 200 |
| ServerProperties.GetAppendsAtMostOneEntry | com/learnsecurity/SimpleWebServer.java:119-144 | a GET changes only access.log, and when it does it appends exactly one entry with the status it answered |
| ServerProperties.GetWithoutUserAgentIsNotLogged | com/learnsecurity/SimpleWebServer.java:192-209 | a GET without a User-Agent header leaves every file, the log included, unchanged |
| ServerProperties.TraversalIsRefused | com/learnsecurity/SimpleWebServer.java:109-123 | "GET /../etc/passwd" gets the bare 404 whatever files exist |
| ServerProperties.PutStoresBody | com/learnsecurity/SimpleWebServer.java:152-167 | a PUT answers 500 and changes nothing for unwritable paths, otherwise 201 with the body lines run together as the file at the raw path |
| ServerProperties.PutDropsLineTerminators | com/learnsecurity/SimpleWebServer.java:157-161 | the stored file is the body joined by newlines with the newlines removed, and contains none |
| ServerProperties.PutIgnoresAllowList | com/learnsecurity/SimpleWebServer.java:152-167 | "PUT ../etc/passwd" is stored and answered 201 although that path is not allowed |
| ServerProperties.GetIsRepeatable | com/learnsecurity/SimpleWebServer.java:119-149 | repeating a GET on the files it left gives the same answer |
| ServerProperties.PutThenGet | com/learnsecurity/SimpleWebServer.java:127-163 | after a PUT of an allowed name, a GET of that name returns 200 and exactly what was stored |

## Left out

- Sockets, the server socket on port 8080, the accept loop in `run()` and `main` are left out. The model handles one connection, given as the lines the client sends.
- Character streams are modelled as whole lines. `readLine` terminators (`\n`, `\r`, `\r\n`) and the platform charset are not modelled.
- The clock and the date format are left out. The formatted time is a parameter.
- `getRemoteSocketAddress` is left out. Its text is a parameter, and the model removes its slashes as the code does.
- `printStackTrace` is I/O and is left out. A failure inside `logging` just leaves the files unchanged.
- `IOException`s in the middle of a read or a write are left out. Only the failures the code handles are modelled: a missing file for `FileReader`, an unwritable path for `FileWriter`, and a null line from `readLine`.
- Text.ToLower: covers ASCII letters only. Java's `toLowerCase` also maps other letters, which cannot change whether a line starts with "user-agent" except in rare locale cases.
- File permissions, directories and path resolution are reduced to two facts: the file exists, and the path is writable. PUT truncates the file when it opens it.
- serveFile reads the file after the 200 line and the log entry are written, and logging writes to "access.log" in between. The model takes the contents when the file is opened. The result is the same because logging writes only "access.log", and no allowed path is "access.log" (Paths.TraversalDenied). Aliasing of two names for one file, through links or case-insensitive file systems, is not modelled.
