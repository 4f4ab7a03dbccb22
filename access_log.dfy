/**
 * logging (SimpleWebServer.java:182-211): one space-separated line appended
 * to the file "access.log"; every exception is caught and dropped.
 */
module AccessLog {
  import opened Wrappers
  import opened Text
  import opened FileSystem
  import Headers

  const AccessLogPath := "access.log"

  /** userAgentLine.split(":")[1], or None where that index is out of
      bounds: the text between the first colon and the next one, present only
      when some character after the first colon is not a colon. */
  function UserAgentField(userAgentLine: string): (r: Option<string>)
    ensures r.Some? <==> ':' in userAgentLine && HasOtherThan(userAgentLine[IndexOf(userAgentLine, ':') + 1..], ':')
    ensures r.Some? ==> r.value == UpTo(userAgentLine[IndexOf(userAgentLine, ':') + 1..], ':')
  {
    var fields := JavaSplit(userAgentLine, ':');
    SecondField(userAgentLine, ':');
    if |fields| >= 2 then Some(fields[1]) else None
  }

  lemma {:induction false} SecondField(s: string, c: char)
    ensures c !in s ==> |JavaSplit(s, c)| == 1
    ensures c in s ==> (|JavaSplit(s, c)| >= 2 <==> HasOtherThan(s[IndexOf(s, c) + 1..], c))
    ensures c in s && |JavaSplit(s, c)| >= 2 ==> JavaSplit(s, c)[1] == UpTo(s[IndexOf(s, c) + 1..], c)
  {
    if c !in s {
      return;
    }
    var after := s[IndexOf(s, c) + 1..];
    var fs := SplitOn(s, c);
    var tail := SplitOn(after, c);
    SplitOnFirst(s, c);
    SplitOnFirst(after, c);
    SomeFieldNonEmpty(after, c);
    assert fs == [fs[0]] + tail;
    var r := StripTrailingEmpty(fs);
    if HasOtherThan(after, c) {
      var j :| 0 <= j < |tail| && tail[j] != [];
      assert fs[j + 1] != [];
      assert |r| >= 2;
    }
  }

  lemma {:induction false} IndexOfAfterName(name: string, rest: string)
    requires ':' !in name
    ensures ':' in name + ":" + rest
    ensures IndexOf(name + ":" + rest, ':') == |name|
    ensures (name + ":" + rest)[|name| + 1..] == rest
  {
    var s := name + ":" + rest;
    assert s[|name|] == ':';
    assert s[..|name|] == name;
  }

  /** A header "name:value", the value free of colons, yields the value; a
      later colon ends it. */
  lemma UserAgentFieldOfHeader(name: string, value: string, rest: string)
    requires ':' !in name && ':' !in value && value != []
    requires rest == [] || rest[0] == ':'
    ensures UserAgentField(name + ":" + value + rest) == Some(value)
  {
    assert name + ":" + value + rest == name + ":" + (value + rest);
    IndexOfAfterName(name, value + rest);
    var after := value + rest;
    assert after[0] != ':';
    assert HasOtherThan(after, ':');
    if rest == [] {
      assert after == value;
    } else {
      assert after[|value|] == ':';
      assert after[..|value|] == value;
      assert IndexOf(after, ':') == |value|;
    }
  }

  /** The sentinel, a header with an empty value and a header without a colon
      all make split(":")[1] throw, so nothing is logged for them. */
  lemma NoFieldCases(name: string)
    requires ':' !in name
    ensures UserAgentField(Headers.NoUserAgent) == None
    ensures UserAgentField(name + ":") == None
    ensures UserAgentField(name) == None
  {
    IndexOfAfterName([], []);
    assert [] + ":" + [] == Headers.NoUserAgent;
    IndexOfAfterName(name, []);
    assert name + ":" + [] == name + ":";
  }

  /** The quoted request, "\"GET index.html\"". */
  function Endpoint(command: string, path: string): string {
    "\"" + command + " " + path + "\""
  }

  function Quoted(userAgent: string): string {
    "\"" + userAgent + "\""
  }

  /** String.join(" ", ...) of the eight fields of an entry. */
  function LogLine(addr: string, time: string, command: string, path: string, status: nat, userAgent: string): (r: string)
    ensures r == RemoveChar(addr, '/') + " " + "- -" + " " + "[" + " " + time + " " + "]" + " "
                 + Endpoint(command, path) + " " + Decimal(status) + " " + Quoted(userAgent)
  {
    var fields := [RemoveChar(addr, '/'), "- -", "[", time, "]", Endpoint(command, path), Decimal(status),
                   Quoted(userAgent)];
    JoinEight(fields, ' ');
    Join(fields, ' ')
  }

  /** Joining one more field appends the separator and that field. */
  lemma {:induction false} JoinSnoc(fields: seq<string>, field: string, c: char)
    requires fields != []
    ensures Join(fields + [field], c) == Join(fields, c) + [c] + field
  {
    if |fields| == 1 {
      assert (fields + [field])[1..] == [field];
    } else {
      assert (fields + [field])[1..] == fields[1..] + [field];
      JoinSnoc(fields[1..], field, c);
      assert fields[0] + [c] + (Join(fields[1..], c) + [c] + field)
          == fields[0] + [c] + Join(fields[1..], c) + [c] + field;
    }
  }

  lemma {:induction false} JoinEight(f: seq<string>, c: char)
    requires |f| == 8
    ensures Join(f, c) == f[0] + [c] + f[1] + [c] + f[2] + [c] + f[3] + [c] + f[4] + [c] + f[5] + [c] + f[6] + [c] + f[7]
  {
    assert f[..1] + [f[1]] == f[..2];
    JoinSnoc(f[..1], f[1], c);
    assert f[..2] + [f[2]] == f[..3];
    JoinSnoc(f[..2], f[2], c);
    assert f[..3] + [f[3]] == f[..4];
    JoinSnoc(f[..3], f[3], c);
    assert f[..4] + [f[4]] == f[..5];
    JoinSnoc(f[..4], f[4], c);
    assert f[..5] + [f[5]] == f[..6];
    JoinSnoc(f[..5], f[5], c);
    assert f[..6] + [f[6]] == f[..7];
    JoinSnoc(f[..6], f[6], c);
    assert f[..7] + [f[7]] == f;
    JoinSnoc(f[..7], f[7], c);
  }

  /** Every field is on one line, so the entry is exactly one line of the log. */
  lemma LogLineIsOneLine(addr: string, time: string, command: string, path: string, status: nat, userAgent: string)
    requires '\n' !in addr && '\n' !in time && '\n' !in command && '\n' !in path && '\n' !in userAgent
    ensures '\n' !in LogLine(addr, time, command, path, status, userAgent)
  {
    var pre := RemoveChar(addr, '/');
    assert forall x :: x in pre ==> x in addr by {
      RemoveCharKeeps(addr, '/');
    }
  }

  lemma {:induction false} RemoveCharKeeps(s: string, c: char)
    ensures forall x :: x in RemoveChar(s, c) ==> x in s
  {
    if s != [] {
      RemoveCharKeeps(s[1..], c);
    }
  }

  /** The files after logging: unchanged when the user-agent field is missing
      or the log cannot be opened, otherwise "access.log" with the line and a
      newline appended. */
  function Logged(files: map<string, string>, unwritable: set<string>, addr: string, time: string,
                  command: string, path: string, status: nat, userAgentLine: string): map<string, string>
  {
    match UserAgentField(userAgentLine)
    case None => files
    case Some(field) =>
      if AccessLogPath in unwritable then files
      else files[AccessLogPath := ContentsOf(files, AccessLogPath)
                                  + LogLine(addr, time, command, path, status, Trim(field)) + "\n"]
  }

  /** Logging touches no file but "access.log"; it changes the files exactly
      when the user-agent field exists and the log can be opened, and then
      the log gains exactly the entry and a newline. */
  lemma LoggedAppendsOneLine(files: map<string, string>, unwritable: set<string>, addr: string, time: string,
                             command: string, path: string, status: nat, userAgentLine: string)
    ensures var r := Logged(files, unwritable, addr, time, command, path, status, userAgentLine);
      forall p :: p != AccessLogPath ==> (p in r <==> p in files) && (p in r ==> r[p] == files[p])
    ensures var r := Logged(files, unwritable, addr, time, command, path, status, userAgentLine);
      r != files <==> UserAgentField(userAgentLine).Some? && AccessLogPath !in unwritable
    ensures var r := Logged(files, unwritable, addr, time, command, path, status, userAgentLine);
      r != files ==>
      && AccessLogPath in r
      && r[AccessLogPath] == ContentsOf(files, AccessLogPath)
                             + LogLine(addr, time, command, path, status, Trim(UserAgentField(userAgentLine).value)) + "\n"
  {
    var r := Logged(files, unwritable, addr, time, command, path, status, userAgentLine);
    if UserAgentField(userAgentLine).Some? && AccessLogPath !in unwritable {
      assert AccessLogPath !in files || |r[AccessLogPath]| > |files[AccessLogPath]|;
    }
  }

  method Logging(disk: Disk, addr: string, time: string, command: string, path: string, status: nat,
                 userAgentLine: string)
    modifies disk`files
    ensures disk.files == Logged(old(disk.files), disk.unwritable, addr, time, command, path, status, userAgentLine)
  {
    var field := UserAgentField(userAgentLine);
    if field.None? {
      // split(":")[1] throws ArrayIndexOutOfBoundsException, caught here
      return;
    }
    var userAgent := Trim(field.value);
    var log := LogLine(addr, time, command, path, status, userAgent);
    var ok := disk.OpenWriter(AccessLogPath, true);
    if !ok {
      // new FileWriter("access.log", true) throws, caught here
      return;
    }
    ghost var before := old(disk.files);
    ghost var prior := ContentsOf(before, AccessLogPath);
    assert disk.files == before[AccessLogPath := prior];
    disk.Write(AccessLogPath, log + "\n");
    AppendAssociates(prior, log, "\n");
  }
}
