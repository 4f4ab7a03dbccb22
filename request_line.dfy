/**
 * The request line: java.util.StringTokenizer with the delimiter " " and the
 * two nextToken() calls of processRequest (SimpleWebServer.java:60-69).
 */
module RequestLine {
  import opened Wrappers
  import opened Text

  const Delimiter: char := ' '

  /** Position of the first non-delimiter at or after `i`, or |s|. */
  function SkipDelimiters(s: string, i: nat): (j: nat)
    requires i <= |s|
    ensures i <= j <= |s|
    ensures forall k :: i <= k < j ==> s[k] == Delimiter
    ensures j < |s| ==> s[j] != Delimiter
    decreases |s| - i
  {
    if i < |s| && s[i] == Delimiter then SkipDelimiters(s, i + 1) else i
  }

  /** Position of the first delimiter at or after `i`, or |s|. */
  function ScanToken(s: string, i: nat): (j: nat)
    requires i <= |s|
    ensures i <= j <= |s|
    ensures forall k :: i <= k < j ==> s[k] != Delimiter
    ensures j < |s| ==> s[j] == Delimiter
    decreases |s| - i
  {
    if i < |s| && s[i] != Delimiter then ScanToken(s, i + 1) else i
  }

  /** StringTokenizer.nextToken from position `i`: the next maximal run of
      non-delimiters and the position after it, or None (the
      NoSuchElementException) when only delimiters remain. */
  function NextToken(s: string, i: nat): (r: Option<(string, nat)>)
    requires i <= |s|
    ensures r.None? <==> forall k :: i <= k < |s| ==> s[k] == Delimiter
    ensures r.Some? ==> var (token, end) := r.value;
      i < end <= |s| && token != [] && Delimiter !in token &&
      i + |token| <= end && token == s[end - |token|..end] &&
      (forall k :: i <= k < end - |token| ==> s[k] == Delimiter) &&
      (end < |s| ==> s[end] == Delimiter)
  {
    var b := SkipDelimiters(s, i);
    if b == |s| then None
    else
      var e := ScanToken(s, b);
      assert s[b] != Delimiter;
      Some((s[b..e], e))
  }

  /** The tokens of a string: its non-empty space-separated fields.  This is
      the reference definition NextToken is proved against. */
  function Tokens(s: string): (r: seq<string>)
    ensures forall i :: 0 <= i < |r| ==> r[i] != [] && Delimiter !in r[i]
  {
    NonEmptyKeepsFields(SplitOn(s, Delimiter), Delimiter);
    NonEmpty(SplitOn(s, Delimiter))
  }

  lemma {:induction false} NonEmptyKeepsFields(fields: seq<string>, c: char)
    requires forall i :: 0 <= i < |fields| ==> c !in fields[i]
    ensures forall i :: 0 <= i < |NonEmpty(fields)| ==> c !in NonEmpty(fields)[i]
  {
    if fields != [] {
      NonEmptyKeepsFields(fields[1..], c);
    }
  }

  function NonEmpty(fields: seq<string>): (r: seq<string>)
    ensures forall i :: 0 <= i < |r| ==> r[i] != []
  {
    if fields == [] then []
    else (if fields[0] == [] then [] else [fields[0]]) + NonEmpty(fields[1..])
  }

  lemma {:induction false} NonEmptyCons(field: string, fields: seq<string>)
    ensures NonEmpty([field] + fields) == (if field == [] then [] else [field]) + NonEmpty(fields)
  {
    assert ([field] + fields)[1..] == fields;
  }

  lemma {:induction false} NonEmptyKeepsAll(fields: seq<string>)
    requires forall i :: 0 <= i < |fields| ==> fields[i] != []
    ensures NonEmpty(fields) == fields
  {
    if fields != [] {
      NonEmptyKeepsAll(fields[1..]);
      assert [fields[0]] + fields[1..] == fields;
    }
  }

  /** NextToken agrees with Tokens: it finds nothing exactly when there are no
      tokens, and otherwise returns the first token and leaves the rest. */
  lemma {:induction false} NextTokenIsFirstToken(s: string, i: nat)
    requires i <= |s|
    ensures NextToken(s, i).None? <==> Tokens(s[i..]) == []
    ensures NextToken(s, i).Some? ==>
      Tokens(s[i..]) == [NextToken(s, i).value.0] + Tokens(s[NextToken(s, i).value.1..])
    decreases |s| - i
  {
    if i == |s| {
      assert s[i..] == [];
      TokensOfEmpty();
    } else if s[i] == Delimiter {
      TokensSkipDelimiter(s, i);
      assert SkipDelimiters(s, i) == SkipDelimiters(s, i + 1);
      NextTokenIsFirstToken(s, i + 1);
    } else {
      TokensAtToken(s, i);
    }
  }

  lemma TokensOfEmpty()
    ensures Tokens([]) == []
  {
    var fields: seq<string> := [[]];
    assert SplitOn([], Delimiter) == fields;
    assert fields[1..] == [];
    assert NonEmpty(fields) == [] + NonEmpty([]);
  }

  lemma {:induction false} TokensSkipDelimiter(s: string, i: nat)
    requires i < |s| && s[i] == Delimiter
    ensures Tokens(s[i..]) == Tokens(s[i + 1..])
  {
    assert s[i..] == [Delimiter] + s[i + 1..];
    SplitOnSeparator(s[i + 1..], Delimiter);
    NonEmptyCons([], SplitOn(s[i + 1..], Delimiter));
  }

  lemma {:induction false} TokensAtToken(s: string, i: nat)
    requires i < |s| && s[i] != Delimiter
    ensures NextToken(s, i) == Some((s[i..ScanToken(s, i)], ScanToken(s, i)))
    ensures Tokens(s[i..]) == [s[i..ScanToken(s, i)]] + Tokens(s[ScanToken(s, i)..])
  {
    var e := ScanToken(s, i);
    var token, rest := s[i..e], s[e..];
    assert SkipDelimiters(s, i) == i;
    assert s[i..] == token + rest;
    assert Delimiter !in token;
    SplitOnPrefix(token, rest, Delimiter);
    assert token + [] == token;
    if e == |s| {
      assert rest == [];
      assert SplitOn(rest, Delimiter) == [[]];
      assert SplitOn(s[i..], Delimiter) == [token];
      NonEmptyCons(token, []);
      NonEmptyCons([], []);
    } else {
      assert rest == [Delimiter] + s[e + 1..];
      SplitOnSeparator(s[e + 1..], Delimiter);
      var after := SplitOn(s[e + 1..], Delimiter);
      assert SplitOn(s[i..], Delimiter) == [token] + after;
      NonEmptyCons(token, after);
      NonEmptyCons([], after);
    }
  }

  /** Joining space-free tokens with single spaces and tokenising again gives
      them back. */
  lemma {:induction false} TokensOfJoin(tokens: seq<string>)
    requires forall i :: 0 <= i < |tokens| ==> tokens[i] != [] && Delimiter !in tokens[i]
    ensures Tokens(Join(tokens, Delimiter)) == tokens
  {
    if tokens == [] {
      TokensOfEmpty();
    } else {
      SplitJoin(tokens, Delimiter);
      NonEmptyKeepsAll(tokens);
    }
  }

  datatype Request = Request(command: string, pathname: string)

  datatype ParseError =
    | NoRequestLine   // readLine returned null: the StringTokenizer constructor throws
    | MissingToken    // fewer than two tokens: nextToken throws

  /** The command and the pathname are the first two tokens of the line. */
  function ParseRequestLine(request: Option<string>): (r: Result<Request, ParseError>)
    ensures r.Ok? ==> r.value.pathname != [] && Delimiter !in r.value.pathname
    ensures r.Ok? ==> r.value.command != [] && Delimiter !in r.value.command
    ensures request.None? ==> r == Err(NoRequestLine)
  {
    match request
    case None => Err(NoRequestLine)
    case Some(line) =>
      match NextToken(line, 0)
      case None => Err(MissingToken)
      case Some((command, next)) =>
        match NextToken(line, next)
        case None => Err(MissingToken)
        case Some((pathname, _)) => Ok(Request(command, pathname))
  }

  /** Parsing succeeds exactly when the line has at least two tokens, and then
      yields the first two. */
  lemma {:induction false} ParseTakesFirstTwoTokens(line: string)
    ensures ParseRequestLine(Some(line)).Ok? <==> |Tokens(line)| >= 2
    ensures ParseRequestLine(Some(line)).Ok? ==>
      ParseRequestLine(Some(line)).value == Request(Tokens(line)[0], Tokens(line)[1])
  {
    assert line[0..] == line;
    NextTokenIsFirstToken(line, 0);
    match NextToken(line, 0)
    case None =>
      assert ParseRequestLine(Some(line)).Err?;
    case Some((command, next)) =>
      assert Tokens(line) == [command] + Tokens(line[next..]);
      NextTokenIsFirstToken(line, next);
      match NextToken(line, next)
      case None =>
        assert ParseRequestLine(Some(line)).Err?;
        assert Tokens(line) == [command];
      case Some((pathname, after)) =>
        assert ParseRequestLine(Some(line)) == Ok(Request(command, pathname));
        ghost var rest := Tokens(line[after..]);
        assert Tokens(line) == [command] + ([pathname] + rest);
        assert Tokens(line)[0] == command && Tokens(line)[1] == pathname;
  }

  lemma ParseExample()
    ensures ParseRequestLine(Some("GET /index.html HTTP/1.0")) == Ok(Request("GET", "/index.html"))
  {
    var tokens := ["GET", "/index.html", "HTTP/1.0"];
    assert Join(tokens[2..], Delimiter) == "HTTP/1.0";
    assert Join(tokens[1..], Delimiter) == "/index.html" + " " + "HTTP/1.0";
    assert Join(tokens, Delimiter) == "GET /index.html HTTP/1.0";
    assert Delimiter !in tokens[0] && Delimiter !in tokens[1] && Delimiter !in tokens[2];
    assert forall i :: 0 <= i < |tokens| ==> tokens[i] != [] && Delimiter !in tokens[i];
    TokensOfJoin(tokens);
    ParseTakesFirstTwoTokens("GET /index.html HTTP/1.0");
  }

  lemma ParseOneTokenFails()
    ensures ParseRequestLine(Some("GET")) == Err(MissingToken)
    ensures ParseRequestLine(Some("")) == Err(MissingToken)
  {
    TokensOfJoin(["GET"]);
    assert Join(["GET"], Delimiter) == "GET";
    ParseTakesFirstTwoTokens("GET");
    TokensOfEmpty();
    ParseTakesFirstTwoTokens("");
  }
}
