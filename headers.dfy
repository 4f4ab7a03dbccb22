/**
 * getUserAgentLine (SimpleWebServer.java:170-180): reads the header lines up
 * to the first empty one and keeps the last User-Agent line.
 */
module Headers {
  import opened Wrappers
  import opened Text
  import opened Connections

  const UserAgentPrefix := "user-agent"

  /** What getUserAgentLine returns when no header line matches. */
  const NoUserAgent := ":"

  predicate IsUserAgentLine(line: string) {
    StartsWith(ToLower(line), UserAgentPrefix)
  }

  lemma SentinelIsNotAUserAgentLine()
    ensures !IsUserAgentLine(NoUserAgent)
  {
  }

  /** A line that begins with the header name, in any ASCII case, matches. */
  lemma {:induction false} UserAgentHeaderMatches(name: string, rest: string)
    requires |name| == |UserAgentPrefix|
    requires forall i :: 0 <= i < |name| ==> LowerChar(name[i]) == UserAgentPrefix[i]
    ensures IsUserAgentLine(name + rest)
  {
    var lowered := ToLower(name + rest);
    forall i | 0 <= i < |UserAgentPrefix| ensures lowered[i] == UserAgentPrefix[i] {
      assert (name + rest)[i] == name[i];
    }
    assert lowered[..|UserAgentPrefix|] == UserAgentPrefix;
  }

  lemma UserAgentLineExamples(rest: string)
    ensures IsUserAgentLine("User-Agent" + rest)
    ensures IsUserAgentLine("USER-AGENT" + rest)
    ensures !IsUserAgentLine("Host: a")
  {
    UserAgentHeaderMatches("User-Agent", rest);
    UserAgentHeaderMatches("USER-AGENT", rest);
    assert ToLower("Host: a")[0] == 'h';
  }

  /** The last User-Agent line among `headers`, or the sentinel when there is
      none. */
  function LastUserAgent(headers: seq<string>): string {
    if headers == [] then NoUserAgent
    else if IsUserAgentLine(headers[|headers| - 1]) then headers[|headers| - 1]
    else LastUserAgent(headers[..|headers| - 1])
  }

  /** The kept line is the sentinel only when no header is a User-Agent line,
      and otherwise a User-Agent line that no later header overrides. */
  lemma {:induction false} LastUserAgentIsLast(headers: seq<string>)
    ensures LastUserAgent(headers) == NoUserAgent ==>
      forall j :: 0 <= j < |headers| ==> !IsUserAgentLine(headers[j])
    ensures LastUserAgent(headers) != NoUserAgent ==>
      exists j :: (0 <= j < |headers| && LastUserAgent(headers) == headers[j] && IsUserAgentLine(headers[j]) &&
                   forall k :: j < k < |headers| ==> !IsUserAgentLine(headers[k]))
  {
    SentinelIsNotAUserAgentLine();
    if headers != [] {
      var n := |headers| - 1;
      if IsUserAgentLine(headers[n]) {
        assert LastUserAgent(headers) == headers[n];
      } else {
        var init := headers[..n];
        LastUserAgentIsLast(init);
        assert forall j :: 0 <= j < |init| ==> init[j] == headers[j];
        if LastUserAgent(init) != NoUserAgent {
          var j :| 0 <= j < |init| && LastUserAgent(init) == init[j] && IsUserAgentLine(init[j]) &&
                   forall k :: j < k < |init| ==> !IsUserAgentLine(init[k]);
          assert LastUserAgent(headers) == headers[j];
        }
      }
    }
  }

  /** What getUserAgentLine computes from the stream position `from`: None
      when the stream ends before an empty line (readLine returns null and
      length() throws), otherwise the User-Agent line and the position after
      the empty line. */
  function ScanHeaders(lines: seq<string>, from: nat): Option<(string, nat)>
    requires from <= |lines|
  {
    match FirstBlankLine(lines, from)
    case None => None
    case Some(k) => Some((LastUserAgent(lines[from..k]), k + 1))
  }

  /** One more header line: it replaces the kept line when it is a User-Agent
      line. */
  lemma LastUserAgentStep(lines: seq<string>, from: nat, k: nat)
    requires from <= k < |lines|
    ensures LastUserAgent(lines[from..k + 1])
         == if IsUserAgentLine(lines[k]) then lines[k] else LastUserAgent(lines[from..k])
  {
    assert lines[from..k + 1][..k - from] == lines[from..k];
  }

  /** The scan stops at the first empty line. */
  lemma ScanHeadersStops(lines: seq<string>, from: nat, k: nat)
    requires from <= k < |lines| && lines[k] == []
    requires forall j :: from <= j < k ==> lines[j] != []
    ensures ScanHeaders(lines, from) == Some((LastUserAgent(lines[from..k]), k + 1))
  {
    var r := FirstBlankLine(lines, from);
    assert r.Some?;
    assert r.value == k;
  }

  /** The scan fails when no empty line follows. */
  lemma ScanHeadersRunsOut(lines: seq<string>, from: nat)
    requires from <= |lines|
    requires forall j :: from <= j < |lines| ==> lines[j] != []
    ensures ScanHeaders(lines, from) == None
  {
  }

  method GetUserAgentLine(conn: Connection) returns (userAgent: Option<string>)
    requires conn.Valid()
    modifies conn`cursor
    ensures conn.Valid()
    ensures ScanHeaders(conn.input, old(conn.cursor)).None? ==> userAgent.None?
    ensures ScanHeaders(conn.input, old(conn.cursor)).Some? ==>
      userAgent == Some(ScanHeaders(conn.input, old(conn.cursor)).value.0) &&
      conn.cursor == ScanHeaders(conn.input, old(conn.cursor)).value.1
  {
    ghost var start := conn.cursor;
    var targetLine := NoUserAgent;
    while true
      invariant conn.Valid() && start <= conn.cursor
      invariant forall j :: start <= j < conn.cursor ==> conn.input[j] != []
      invariant targetLine == LastUserAgent(conn.input[start..conn.cursor])
      decreases |conn.input| - conn.cursor
    {
      ghost var k := conn.cursor;
      var headerLine := conn.ReadLine();
      if headerLine.None? {
        // readLine() returned null: length() throws NullPointerException
        ScanHeadersRunsOut(conn.input, start);
        return None;
      }
      if |headerLine.value| == 0 {
        ScanHeadersStops(conn.input, start, k);
        return Some(targetLine);
      }
      assert conn.cursor == k + 1 && conn.input[k] == headerLine.value != [];
      LastUserAgentStep(conn.input, start, k);
      if IsUserAgentLine(headerLine.value) {
        targetLine := headerLine.value;
      }
    }
  }
}
