/** A reference reading of a text as a list of lines: the complete lines (each without its
    "\n") and the unterminated tail. The reply decoder of the chat session is proved against
    this reading. */
module LineSplit {
  import opened Text

  /** The text of a sequence of chunks, in order. */
  function Concat(chunks: seq<string>): string {
    if chunks == [] then "" else chunks[0] + Concat(chunks[1..])
  }

  lemma ConcatOne(c: string)
    ensures Concat([c]) == c
  {
    assert [c][1..] == [];
  }

  lemma ConcatTwo(c: string, d: string)
    ensures Concat([c, d]) == c + d
  {
    assert [c, d][1..] == [d];
    ConcatOne(d);
  }

  /** A buffer followed by the text of some chunks is the buffer with the first chunk,
      followed by the text of the others. */
  lemma ConcatCons(b: string, chunks: seq<string>)
    requires chunks != []
    ensures b + Concat(chunks) == (b + chunks[0]) + Concat(chunks[1..])
  {
    AppendAssoc(b, chunks[0], Concat(chunks[1..]));
  }

  /** The complete lines of a text and its unterminated tail. */
  datatype Lines = Lines(complete: seq<string>, tail: string)

  function SplitLines(s: string): Lines
    decreases |s|
  {
    var i := IndexOf(s, '\n');
    if i == -1 then Lines([], s)
    else
      var t := SplitLines(s[i + 1..]);
      Lines([s[..i]] + t.complete, t.tail)
  }

  /** A text without a line feed. */
  predicate NoNewline(s: string) {
    IndexOf(s, '\n') == -1
  }

  /** A text without a line feed is all tail. */
  lemma SplitNoNewline(s: string)
    requires NoNewline(s)
    ensures SplitLines(s) == Lines([], s)
  {
  }

  /** A text with no complete line is all tail. */
  lemma {:induction false} SplitNoLines(s: string)
    requires SplitLines(s).complete == []
    ensures SplitLines(s).tail == s
  {
  }

  /** A line followed by "\n" is the first complete line. */
  lemma SplitCons(line: string, rest: string)
    requires NoNewline(line)
    ensures SplitLines(line + "\n" + rest)
         == Lines([line] + SplitLines(rest).complete, SplitLines(rest).tail)
  {
    var s := line + "\n" + rest;
    IndexOfAfter(line, '\n', rest);
    assert s[..|line|] == line;
    assert s[|line| + 1..] == rest;
  }

  /** A text with a complete line has a line feed. */
  lemma SplitHasLines(s: string)
    requires SplitLines(s).complete != []
    ensures !NoNewline(s)
  {
  }

  /** Every text with a line feed is its first line, "\n" and the rest. */
  lemma FirstLine(s: string)
    requires !NoNewline(s)
    ensures NoNewline(s[..IndexOf(s, '\n')])
    ensures s == s[..IndexOf(s, '\n')] + "\n" + s[IndexOf(s, '\n') + 1..]
  {
    IndexOfBefore(s, '\n');
  }

  /** Splitting a text that has more appended: the lines of the first part, then the lines of
      its tail followed by the addition. */
  lemma {:induction false} SplitAppend(x: string, y: string)
    ensures SplitLines(x + y).complete
         == SplitLines(x).complete + SplitLines(SplitLines(x).tail + y).complete
    ensures SplitLines(x + y).tail == SplitLines(SplitLines(x).tail + y).tail
    decreases |x|, 1
  {
    if NoNewline(x) {
      SplitNoNewline(x);
      assert [] + SplitLines(x + y).complete == SplitLines(x + y).complete;
    } else {
      var i := IndexOf(x, '\n');
      FirstLine(x);
      SplitAppendCons(x[..i], x[i + 1..], y);
    }
  }

  /** The case of `SplitAppend` where the first part starts with a complete line. */
  lemma {:induction false} SplitAppendCons(line: string, z: string, y: string)
    requires NoNewline(line)
    ensures SplitLines(line + "\n" + z + y).complete
         == SplitLines(line + "\n" + z).complete
            + SplitLines(SplitLines(line + "\n" + z).tail + y).complete
    ensures SplitLines(line + "\n" + z + y).tail
         == SplitLines(SplitLines(line + "\n" + z).tail + y).tail
    decreases |z| + 1, 0
  {
    var x := line + "\n" + z;
    assert x + y == line + "\n" + (z + y);
    SplitAppend(z, y);
    SplitCons(line, z);
    SplitCons(line, z + y);
    var t := SplitLines(z);
    var u := SplitLines(t.tail + y);
    assert SplitLines(x).tail == t.tail;
    assert SplitLines(x + y).complete == [line] + (t.complete + u.complete);
    ConsAppend(line, t.complete, u.complete);
  }

  lemma ConsAppend<T>(a: T, xs: seq<T>, ys: seq<T>)
    ensures [a] + (xs + ys) == ([a] + xs) + ys
  {
  }

  /** The tail of a split holds no line feed. */
  lemma {:induction false} SplitTail(s: string)
    ensures NoNewline(SplitLines(s).tail)
    decreases |s|
  {
    if IndexOf(s, '\n') != -1 {
      SplitTail(s[IndexOf(s, '\n') + 1..]);
    }
  }
}
