/**
 * Text as newline-separated lines. server.js builds the DXF document as one
 * string in which every group code and every value sits on a line of its
 * own; these functions relate that string to its sequence of lines.
 */
module Lines {
  predicate NoNewline(line: string)
  {
    '\n' !in line
  }

  predicate AllNoNewline(ls: seq<string>)
  {
    forall i :: 0 <= i < |ls| ==> NoNewline(ls[i])
  }

  /** Every line followed by a newline. */
  function Unlines(ls: seq<string>): string
  {
    if ls == [] then "" else ls[0] + "\n" + Unlines(ls[1..])
  }

  /** The lines separated by newlines, with none after the last one. */
  function JoinLines(ls: seq<string>): string
    requires |ls| > 0
  {
    Unlines(ls[..|ls| - 1]) + ls[|ls| - 1]
  }

  /** The lines of a text: the pieces between its newlines. */
  function SplitLines(s: string): (ls: seq<string>)
    ensures |ls| > 0 && AllNoNewline(ls)
  {
    if s == [] then [""]
    else
      var rest := SplitLines(s[1..]);
      if s[0] == '\n' then [""] + rest else [[s[0]] + rest[0]] + rest[1..]
  }

  lemma UnlinesCons(line: string, ls: seq<string>)
    ensures Unlines([line] + ls) == line + "\n" + Unlines(ls)
  {
    assert ([line] + ls)[1..] == ls;
  }

  /** Newline-terminated text distributes over concatenation of lines. */
  lemma {:induction false} UnlinesAppend(a: seq<string>, b: seq<string>)
    ensures Unlines(a + b) == Unlines(a) + Unlines(b)
  {
    if a != [] {
      assert (a + b)[1..] == a[1..] + b;
      UnlinesAppend(a[1..], b);
    } else {
      assert a + b == b;
    }
  }

  /** Appending lines to a text that ends in a newline. */
  lemma JoinLinesAfter(a: seq<string>, b: seq<string>)
    requires |b| > 0
    ensures JoinLines(a + b) == Unlines(a) + JoinLines(b)
  {
    assert (a + b)[..|a + b| - 1] == a + b[..|b| - 1];
    UnlinesAppend(a, b[..|b| - 1]);
  }

  /** A text without newlines is a single line. */
  lemma {:induction false} SplitSingleLine(line: string)
    requires NoNewline(line)
    ensures SplitLines(line) == [line]
  {
    if line != [] {
      SplitSingleLine(line[1..]);
      assert [line[0]] + line[1..] == line;
    }
  }

  /** A first line followed by a newline splits off as the first line. */
  lemma {:induction false} SplitFirstLine(line: string, t: string)
    requires NoNewline(line)
    ensures SplitLines(line + "\n" + t) == [line] + SplitLines(t)
  {
    var s := line + "\n" + t;
    if line == [] {
      assert s[1..] == t;
    } else {
      assert s[1..] == line[1..] + "\n" + t;
      SplitFirstLine(line[1..], t);
      assert [line[0]] + line[1..] == line;
    }
  }

  /** Splitting undoes joining, when no line holds a newline of its own. */
  lemma {:induction false} SplitJoinLines(ls: seq<string>)
    requires |ls| > 0 && AllNoNewline(ls)
    ensures SplitLines(JoinLines(ls)) == ls
  {
    if |ls| == 1 {
      assert ls[..0] == [] && Unlines([]) + ls[0] == ls[0];
      SplitSingleLine(ls[0]);
      assert ls == [ls[0]];
    } else {
      var tail := ls[1..];
      assert [ls[0]] + tail == ls;
      JoinLinesAfter([ls[0]], tail);
      UnlinesCons(ls[0], []);
      assert JoinLines(ls) == ls[0] + "\n" + JoinLines(tail);
      SplitFirstLine(ls[0], JoinLines(tail));
      SplitJoinLines(tail);
    }
  }

  /** The text of lines after a first line of their own. */
  lemma JoinLinesCons(first: string, rest: seq<string>)
    requires |rest| > 0
    ensures JoinLines([first] + rest) == first + "\n" + JoinLines(rest)
  {
    JoinLinesAfter([first], rest);
    UnlinesCons(first, []);
  }

  /** Joining undoes splitting: every text is the join of its lines. */
  lemma {:induction false} JoinSplitLines(s: string)
    ensures JoinLines(SplitLines(s)) == s
  {
    if s != [] {
      var rest := SplitLines(s[1..]);
      JoinSplitLines(s[1..]);
      assert [s[0]] + s[1..] == s;
      if s[0] == '\n' {
        JoinLinesCons("", rest);
      } else if |rest| == 1 {
        assert SplitLines(s) == [[s[0]] + rest[0]];
        assert JoinLines(rest) == rest[0];
      } else {
        JoinTailHead(s[0], rest);
      }
    }
  }

  /** Joining lines whose first line gained a leading character. */
  lemma JoinTailHead(c: char, rest: seq<string>)
    requires |rest| > 1
    ensures JoinLines([[c] + rest[0]] + rest[1..]) == [c] + JoinLines(rest)
  {
    JoinLinesCons([c] + rest[0], rest[1..]);
    assert [rest[0]] + rest[1..] == rest;
    JoinLinesCons(rest[0], rest[1..]);
  }
}
