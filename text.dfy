/**
 * The java.lang.String operations the server relies on, as functions on
 * `string` (= seq<char>): trim, toLowerCase, startsWith, split, String.join,
 * replace of a single character, concatenation of lines and Integer.toString.
 */
module Text {

  // ---------------------------------------------------------------------
  // String.trim: strips every leading and trailing character whose code is
  // at most U+0020.
  // ---------------------------------------------------------------------

  predicate IsTrimmable(c: char) {
    c <= ' '
  }

  predicate AllTrimmable(s: string) {
    forall i :: 0 <= i < |s| ==> IsTrimmable(s[i])
  }

  function TrimStart(s: string): (r: string)
    ensures |r| <= |s| && r == s[|s| - |r|..]
    ensures AllTrimmable(s[..|s| - |r|])
    ensures r == [] || !IsTrimmable(r[0])
  {
    if s != [] && IsTrimmable(s[0]) then
      var r := TrimStart(s[1..]);
      assert s[1..][..|s| - 1 - |r|] == s[1..|s| - |r|];
      r
    else
      s
  }

  function TrimEnd(s: string): (r: string)
    ensures |r| <= |s| && r == s[..|r|]
    ensures AllTrimmable(s[|r|..])
    ensures r == [] || !IsTrimmable(r[|r| - 1])
  {
    if s != [] && IsTrimmable(s[|s| - 1]) then
      var r := TrimEnd(s[..|s| - 1]);
      assert s[..|s| - 1][|r|..] == s[|r|..|s| - 1];
      assert AllTrimmable(s[|r|..]) by {
        forall i | 0 <= i < |s[|r|..]| ensures IsTrimmable(s[|r|..][i]) {
          if i < |s| - 1 - |r| {
            assert s[|r|..][i] == s[|r|..|s| - 1][i];
          }
        }
      }
      r
    else
      s
  }

  /** The trimmed string is `s` less a trimmable prefix and a trimmable suffix,
      and begins and ends with a character that is not trimmable. */
  function Trim(s: string): (r: string)
    ensures r == [] || (!IsTrimmable(r[0]) && !IsTrimmable(r[|r| - 1]))
    ensures exists lead, trail :: s == lead + r + trail && AllTrimmable(lead) && AllTrimmable(trail)
  {
    var t := TrimStart(s);
    var r := TrimEnd(t);
    assert t == [] ==> r == [];
    assert t != [] && r != [] ==> r[0] == t[0];
    var lead, trail := s[..|s| - |t|], t[|r|..];
    assert s == lead + r + trail;
    r
  }

  lemma {:induction false} TrimStartSkips(lead: string, s: string)
    requires AllTrimmable(lead)
    ensures TrimStart(lead + s) == TrimStart(s)
  {
    if lead != [] {
      assert (lead + s)[0] == lead[0] && IsTrimmable(lead[0]);
      assert (lead + s)[1..] == lead[1..] + s;
      assert AllTrimmable(lead[1..]) by {
        forall i | 0 <= i < |lead[1..]| ensures IsTrimmable(lead[1..][i]) {
          assert lead[1..][i] == lead[i + 1];
        }
      }
      TrimStartSkips(lead[1..], s);
    } else {
      assert lead + s == s;
    }
  }

  lemma {:induction false} TrimEndSkips(s: string, trail: string)
    requires AllTrimmable(trail)
    ensures TrimEnd(s + trail) == TrimEnd(s)
  {
    if trail != [] {
      var shorter := trail[..|trail| - 1];
      assert (s + trail)[|s + trail| - 1] == trail[|trail| - 1];
      assert IsTrimmable(trail[|trail| - 1]);
      assert (s + trail)[..|s + trail| - 1] == s + shorter;
      assert AllTrimmable(shorter) by {
        forall i | 0 <= i < |shorter| ensures IsTrimmable(shorter[i]) {
          assert shorter[i] == trail[i];
        }
      }
      TrimEndSkips(s, shorter);
    } else {
      assert s + trail == s;
    }
  }

  /** The converse of Trim's contract: padding a string whose ends are not
      trimmable with trimmable characters on either side trims back to it. */
  lemma {:induction false} TrimOfPadded(lead: string, mid: string, trail: string)
    requires AllTrimmable(lead) && AllTrimmable(trail)
    requires mid == [] || (!IsTrimmable(mid[0]) && !IsTrimmable(mid[|mid| - 1]))
    ensures Trim(lead + mid + trail) == mid
  {
    assert lead + mid + trail == lead + (mid + trail);
    TrimStartSkips(lead, mid + trail);
    if mid == [] {
      assert mid + trail == trail + [];
      TrimStartSkips(trail, []);
    } else {
      assert TrimStart(mid + trail) == mid + trail;
      TrimEndSkips(mid, trail);
    }
  }

  // ---------------------------------------------------------------------
  // String.toLowerCase and String.startsWith
  // ---------------------------------------------------------------------

  /** Lower-case mapping of the ASCII letters; every other character is kept. */
  function LowerChar(c: char): (r: char)
    ensures 'A' <= c <= 'Z' ==> 'a' <= r <= 'z' && r as int - c as int == 32
    ensures !('A' <= c <= 'Z') ==> r == c
  {
    if 'A' <= c <= 'Z' then (c as int + 32) as char else c
  }

  function ToLower(s: string): (r: string)
    ensures |r| == |s|
    ensures forall i :: 0 <= i < |s| ==> r[i] == LowerChar(s[i])
  {
    if s == [] then [] else [LowerChar(s[0])] + ToLower(s[1..])
  }

  predicate StartsWith(s: string, prefix: string) {
    |prefix| <= |s| && s[..|prefix|] == prefix
  }

  // ---------------------------------------------------------------------
  // Splitting on one separator character, and its inverse, joining
  // ---------------------------------------------------------------------

  /** All the fields of `s` between occurrences of `c`, empty ones included:
      a string with n separators has n + 1 fields. */
  function SplitOn(s: string, c: char): (r: seq<string>)
    ensures |r| >= 1
    ensures forall i :: 0 <= i < |r| ==> c !in r[i]
  {
    if s == [] then
      [[]]
    else
      var rest := SplitOn(s[1..], c);
      if s[0] == c then [[]] + rest else [[s[0]] + rest[0]] + rest[1..]
  }

  /** String.join with a one-character separator. */
  function Join(fields: seq<string>, c: char): string {
    if fields == [] then []
    else if |fields| == 1 then fields[0]
    else fields[0] + [c] + Join(fields[1..], c)
  }

  lemma {:induction false} JoinSplit(s: string, c: char)
    ensures Join(SplitOn(s, c), c) == s
  {
    if s != [] {
      JoinSplit(s[1..], c);
      var rest := SplitOn(s[1..], c);
      if s[0] == c {
        assert ([[]] + rest)[1..] == rest;
      } else if |rest| == 1 {
        assert [[s[0]] + rest[0]] + rest[1..] == [[s[0]] + rest[0]];
      } else {
        var r := [[s[0]] + rest[0]] + rest[1..];
        assert r[1..] == rest[1..];
        assert Join(rest, c) == rest[0] + [c] + Join(rest[1..], c);
      }
    }
  }

  /** A prefix free of the separator is glued onto the first field. */
  lemma {:induction false} SplitOnPrefix(x: string, y: string, c: char)
    requires c !in x
    ensures SplitOn(x + y, c) == [x + SplitOn(y, c)[0]] + SplitOn(y, c)[1..]
  {
    if x != [] {
      assert (x + y)[0] == x[0] && x[0] != c;
      assert (x + y)[1..] == x[1..] + y;
      assert c !in x[1..];
      SplitOnPrefix(x[1..], y, c);
      assert [x[0]] + (x[1..] + SplitOn(y, c)[0]) == x + SplitOn(y, c)[0];
    } else {
      assert x + y == y;
      assert x + SplitOn(y, c)[0] == SplitOn(y, c)[0];
      assert [SplitOn(y, c)[0]] + SplitOn(y, c)[1..] == SplitOn(y, c);
    }
  }

  lemma {:induction false} SplitOnSeparator(y: string, c: char)
    ensures SplitOn([c] + y, c) == [[]] + SplitOn(y, c)
  {
    assert ([c] + y)[1..] == y;
  }

  /** Splitting a join gives back the fields (the round trip of JoinSplit). */
  lemma {:induction false} SplitJoin(fields: seq<string>, c: char)
    requires |fields| >= 1
    requires forall i :: 0 <= i < |fields| ==> c !in fields[i]
    ensures SplitOn(Join(fields, c), c) == fields
  {
    if |fields| == 1 {
      SplitOnPrefix(fields[0], [], c);
      assert fields[0] + [] == fields[0];
    } else {
      var tail := Join(fields[1..], c);
      SplitJoin(fields[1..], c);
      assert fields[0] + [c] + tail == fields[0] + ([c] + tail);
      SplitOnPrefix(fields[0], [c] + tail, c);
      SplitOnSeparator(tail, c);
      var after := SplitOn([c] + tail, c);
      assert after[0] == [] && after[1..] == fields[1..];
      assert fields[0] + after[0] == fields[0];
      assert [fields[0]] + fields[1..] == fields;
    }
  }

  /** Index of the first occurrence of `c` in `s`. */
  function IndexOf(s: string, c: char): (i: nat)
    requires c in s
    ensures i < |s| && s[i] == c && c !in s[..i]
  {
    if s[0] == c then 0 else
      assert c in s[1..];
      var i := IndexOf(s[1..], c);
      assert s[..i + 1] == [s[0]] + s[1..][..i];
      i + 1
  }

  /** The text of `s` before its first `c`, or all of `s` when there is none. */
  function UpTo(s: string, c: char): string {
    if c in s then s[..IndexOf(s, c)] else s
  }

  /** Splitting at the first separator: the first field is what precedes it,
      the other fields are the fields of what follows it. */
  lemma {:induction false} SplitOnFirst(s: string, c: char)
    ensures SplitOn(s, c)[0] == UpTo(s, c)
    ensures c in s ==> SplitOn(s, c)[1..] == SplitOn(s[IndexOf(s, c) + 1..], c)
    ensures c !in s ==> SplitOn(s, c) == [s]
  {
    if c in s {
      var i := IndexOf(s, c);
      var before, after := s[..i], s[i + 1..];
      assert s == before + ([c] + after);
      SplitOnPrefix(before, [c] + after, c);
      SplitOnSeparator(after, c);
      var fs := SplitOn([c] + after, c);
      assert fs[0] == [] && fs[1..] == SplitOn(after, c);
      assert before + fs[0] == before;
    } else {
      SplitOnPrefix(s, [], c);
      assert s + [] == s;
      assert SplitOn([], c) == [[]];
    }
  }

  predicate HasNonEmptyField(fields: seq<string>) {
    exists j :: 0 <= j < |fields| && fields[j] != []
  }

  predicate HasOtherThan(s: string, c: char) {
    exists k :: 0 <= k < |s| && s[k] != c
  }

  /** Some field is non-empty exactly when some character is not the separator. */
  lemma {:induction false} SomeFieldNonEmpty(s: string, c: char)
    ensures HasNonEmptyField(SplitOn(s, c)) <==> HasOtherThan(s, c)
  {
    var fs := SplitOn(s, c);
    if s == [] {
      assert fs == [[]];
    } else {
      SomeFieldNonEmpty(s[1..], c);
      var rest := SplitOn(s[1..], c);
      if s[0] == c {
        assert fs == [[]] + rest;
        if HasNonEmptyField(fs) {
          var j :| 0 <= j < |fs| && fs[j] != [];
          assert rest[j - 1] != [];
          var k :| 0 <= k < |s[1..]| && s[1..][k] != c;
          assert s[k + 1] != c;
        }
        if HasOtherThan(s, c) {
          var k :| 0 <= k < |s| && s[k] != c;
          assert s[1..][k - 1] != c;
          var j :| 0 <= j < |rest| && rest[j] != [];
          assert fs[j + 1] != [];
        }
      } else {
        assert fs[0] != [];
        assert s[0] != c;
      }
    }
  }

  /** Drops the empty fields at the end, as String.split does. */
  function StripTrailingEmpty(fields: seq<string>): (r: seq<string>)
    ensures |r| <= |fields| && r == fields[..|r|]
    ensures r == [] || r[|r| - 1] != []
    ensures forall i :: |r| <= i < |fields| ==> fields[i] == []
  {
    if fields == [] || fields[|fields| - 1] != [] then fields
    else StripTrailingEmpty(fields[..|fields| - 1])
  }

  /** String.split(String.valueOf(c)) with limit 0: a string without `c` is
      its only field; otherwise all fields less the trailing empty ones. */
  function JavaSplit(s: string, c: char): seq<string> {
    if c !in s then [s] else StripTrailingEmpty(SplitOn(s, c))
  }

  // ---------------------------------------------------------------------
  // String.replace of one character by nothing
  // ---------------------------------------------------------------------

  /** Every occurrence of `c` is dropped and nothing else: the length falls
      by the number of occurrences (with RemoveCharAppend, which keeps the
      order, this determines the result). */
  function RemoveChar(s: string, c: char): (r: string)
    ensures c !in r
    ensures |r| == |s| - multiset(s)[c]
    ensures c !in s ==> r == s
  {
    if s == [] then []
    else
      assert s == [s[0]] + s[1..];
      if s[0] == c then RemoveChar(s[1..], c)
      else [s[0]] + RemoveChar(s[1..], c)
  }

  lemma {:induction false} RemoveCharAppend(s: string, t: string, c: char)
    ensures RemoveChar(s + t, c) == RemoveChar(s, c) + RemoveChar(t, c)
  {
    if s != [] {
      assert (s + t)[0] == s[0];
      assert (s + t)[1..] == s[1..] + t;
      RemoveCharAppend(s[1..], t, c);
    } else {
      assert s + t == t;
    }
  }

  // ---------------------------------------------------------------------
  // Concatenation of lines with nothing between them
  // ---------------------------------------------------------------------

  function Concat(lines: seq<string>): string {
    if lines == [] then [] else lines[0] + Concat(lines[1..])
  }

  lemma {:induction false} ConcatAppend(lines: seq<string>, line: string)
    ensures Concat(lines + [line]) == Concat(lines) + line
  {
    if lines != [] {
      assert (lines + [line])[1..] == lines[1..] + [line];
      ConcatAppend(lines[1..], line);
    }
  }

  /** Writing the lines without terminators is the text as it was sent, lines
      separated by `c`, with every `c` removed. */
  lemma {:induction false} ConcatIsJoinWithoutSeparators(lines: seq<string>, c: char)
    requires forall i :: 0 <= i < |lines| ==> c !in lines[i]
    ensures Concat(lines) == RemoveChar(Join(lines, c), c)
  {
    if |lines| == 1 {
      assert Concat(lines) == lines[0] + Concat([]);
    } else if |lines| > 1 {
      ConcatIsJoinWithoutSeparators(lines[1..], c);
      RemoveCharAppend(lines[0] + [c], Join(lines[1..], c), c);
      RemoveCharAppend(lines[0], [c], c);
    }
  }

  // ---------------------------------------------------------------------
  // Integer.toString for non-negative values
  // ---------------------------------------------------------------------

  function Digit(d: nat): (r: char)
    requires d < 10
    ensures '0' <= r <= '9' && r as int - '0' as int == d
  {
    ('0' as int + d) as char
  }

  /** Integer.toString of a natural number: digits only, and no leading
      zero except in "0" itself. */
  function Decimal(n: nat): (r: string)
    ensures |r| >= 1
    ensures forall i :: 0 <= i < |r| ==> '0' <= r[i] <= '9'
    ensures n > 0 ==> r[0] != '0'
    ensures |r| == 1 || r[0] != '0'
  {
    if n < 10 then [Digit(n)] else Decimal(n / 10) + [Digit(n % 10)]
  }

  /** The value a string of decimal digits denotes. */
  function DecimalValue(s: string): int
  {
    if s == [] then 0 else 10 * DecimalValue(s[..|s| - 1]) + (s[|s| - 1] as int - '0' as int)
  }

  lemma {:induction false} DecimalRoundTrip(n: nat)
    ensures DecimalValue(Decimal(n)) == n
  {
    if n >= 10 {
      DecimalRoundTrip(n / 10);
      var s := Decimal(n);
      assert s[..|s| - 1] == Decimal(n / 10);
    } else {
      assert Decimal(n)[..0] == [];
    }
  }

  /** Appending two pieces one after the other appends their concatenation. */
  lemma AppendAssociates(sent: string, first: string, second: string)
    ensures sent + first + second == sent + (first + second)
  {
  }
}
