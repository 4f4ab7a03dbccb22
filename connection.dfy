/**
 * One client connection: the lines the client sends, consumed one at a time
 * as BufferedReader.readLine returns them, and the text written to the
 * OutputStreamWriter.
 */
module Connections {
  import opened Wrappers

  class Connection {
    /** The lines of the request stream, without their terminators. */
    const input: seq<string>
    /** How many lines have been read. */
    var cursor: nat
    /** Everything written to the client so far. */
    var output: string
    /** Whether the writer (and with it the connection) has been closed. */
    var closed: bool

    ghost predicate Valid()
      reads this
    {
      cursor <= |input|
    }

    constructor (input: seq<string>)
      ensures Valid()
      ensures this.input == input && cursor == 0 && output == [] && !closed
    {
      this.input := input;
      cursor := 0;
      output := [];
      closed := false;
    }

    /** BufferedReader.readLine: the next line, or None (null) at the end of the stream. */
    method ReadLine() returns (line: Option<string>)
      requires Valid()
      modifies this`cursor
      ensures Valid()
      ensures old(cursor) < |input| ==> line == Some(input[old(cursor)]) && cursor == old(cursor) + 1
      ensures old(cursor) == |input| ==> line == None && cursor == old(cursor)
    {
      if cursor < |input| {
        line := Some(input[cursor]);
        cursor := cursor + 1;
      } else {
        line := None;
      }
    }

    /** OutputStreamWriter.write */
    method Write(s: string)
      modifies this`output
      ensures output == old(output) + s
    {
      output := output + s;
    }

    /** OutputStreamWriter.close */
    method Close()
      modifies this`closed
      ensures closed
    {
      closed := true;
    }
  }

  /** The index of the first empty line at or after `from`, if there is one. */
  function FirstBlankLine(lines: seq<string>, from: nat): (r: Option<nat>)
    requires from <= |lines|
    ensures r.Some? ==> from <= r.value < |lines| && lines[r.value] == []
    ensures r.Some? ==> forall j :: from <= j < r.value ==> lines[j] != []
    ensures r.None? <==> forall j :: from <= j < |lines| ==> lines[j] != []
    decreases |lines| - from
  {
    if from == |lines| then None
    else if lines[from] == [] then Some(from)
    else FirstBlankLine(lines, from + 1)
  }
}
