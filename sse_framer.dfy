/** The decoder of the streamed chat reply (src/hooks/useChat.ts, lines 156-194), stated as
    functions. It is a simplified reading of the server-sent events format of the WHATWG HTML
    Living Standard, section 9.2: the reply arrives as already-decoded text chunks, a carry-over
    buffer holds what is not yet terminated by "\n", and each complete line is
      - stripped of one trailing "\r",
      - ignored when it starts with ":" or is blank,
      - ignored when it does not start with "data: ",
      - otherwise its trimmed remainder is a payload: "[DONE]" ends the processing of the current
        buffer, anything else goes to the JSON parser; a payload the parser rejects is pushed back,
        with a "\n", to the front of the buffer and also ends the processing of the buffer.
    `JSON.parse` followed by `choices?.[0]?.delta?.content` is an oracle, `Parser`. */
module SseFramer {
  import opened Text
  import opened LineSplit

  /** What `JSON.parse(json).choices?.[0]?.delta?.content` gives: a thrown error, or the
      content field, None when it is absent. */
  datatype Parsed = Malformed | Json(content: Option<string>)

  type Parser = string -> Parsed

  const DataPrefix: string := "data: "
  const DoneSentinel: string := "[DONE]"

  /** The text a parsed payload adds to the reply: the content when it is a non-empty string
      (the source's `if (content)`), otherwise nothing. */
  function FragmentOf(p: Parsed): string {
    if p.Json? && p.content.Some? then p.content.value else ""
  }

  /** One trailing carriage return removed (`line.endsWith("\r")` then `line.slice(0, -1)`). */
  function StripCR(line: string): (r: string)
    ensures StartsWith(line, r)
    ensures |line| - 1 <= |r|
  {
    if EndsWith(line, "\r") then line[..|line| - 1] else line
  }

  /** How the framer treats one complete line, after StripCR. */
  datatype LineKind = Skipped | Done | Payload(json: string)

  function Classify(line: string): LineKind {
    if StartsWith(line, ":") || Trim(line) == "" then Skipped
    else if !StartsWith(line, DataPrefix) then Skipped
    else if Trim(line[|DataPrefix|..]) == DoneSentinel then Done
    else Payload(Trim(line[|DataPrefix|..]))
  }

  /** The framer's state between two steps: the carry-over buffer and the reply so far. */
  datatype Framer = Framer(buffer: string, content: string)

  /** The inner loop: process the complete lines at the front of `buffer` until none is left,
      a "[DONE]" payload is met or a payload fails to parse. The reply only ever grows. */
  function Drain(buffer: string, content: string, parse: Parser): (f: Framer)
    ensures content <= f.content
    decreases |buffer|
  {
    var i := IndexOf(buffer, '\n');
    if i == -1 then Framer(buffer, content)
    else
      var line := StripCR(buffer[..i]);
      var rest := buffer[i + 1..];
      match Classify(line)
      case Skipped => Drain(rest, content, parse)
      case Done => Framer(rest, content)
      case Payload(json) =>
        match parse(json)
        case Malformed => Framer(line + "\n" + rest, content)
        case Json(c) => Drain(rest, content + FragmentOf(Json(c)), parse)
  }

  /** The outer loop: each chunk is appended to the buffer, then the buffer is drained. */
  function Feed(chunks: seq<string>, f: Framer, parse: Parser): (g: Framer)
    ensures f.content <= g.content
  {
    if chunks == [] then f
    else Feed(chunks[1..], Drain(f.buffer + chunks[0], f.content, parse), parse)
  }

  /** The assistant reply a stream of chunks yields; what is left in the buffer at the end of
      the stream is dropped. */
  function StreamContent(chunks: seq<string>, parse: Parser): string {
    Feed(chunks, Framer("", ""), parse).content
  }

  // ---------------------------------------------------------------------------------------
  // One step of the inner loop, case by case.

  /** A skipped line is dropped. */
  lemma DrainSkipped(b: string, a: string, parse: Parser)
    requires IndexOf(b, '\n') >= 0
    requires Classify(StripCR(b[..IndexOf(b, '\n')])).Skipped?
    ensures Drain(b, a, parse) == Drain(b[IndexOf(b, '\n') + 1..], a, parse)
  {
  }

  /** "[DONE]" leaves the rest of the buffer as it is. */
  lemma DrainDone(b: string, a: string, parse: Parser)
    requires IndexOf(b, '\n') >= 0
    requires Classify(StripCR(b[..IndexOf(b, '\n')])).Done?
    ensures Drain(b, a, parse) == Framer(b[IndexOf(b, '\n') + 1..], a)
  {
  }

  /** A rejected payload is put back in front of the rest. */
  lemma DrainMalformed(b: string, a: string, parse: Parser)
    requires IndexOf(b, '\n') >= 0
    requires Stalls(b[..IndexOf(b, '\n')], parse)
    ensures Drain(b, a, parse)
         == Framer(StripCR(b[..IndexOf(b, '\n')]) + "\n" + b[IndexOf(b, '\n') + 1..], a)
  {
  }

  /** A parsed payload adds its fragment and the rest is drained. */
  lemma DrainFragment(b: string, a: string, parse: Parser)
    requires IndexOf(b, '\n') >= 0
    requires var k := Classify(StripCR(b[..IndexOf(b, '\n')])); k.Payload? && parse(k.json).Json?
    ensures Drain(b, a, parse)
         == Drain(b[IndexOf(b, '\n') + 1..], a + LineFragment(b[..IndexOf(b, '\n')], parse), parse)
  {
  }

  // ---------------------------------------------------------------------------------------
  // The framer against the line reading of LineSplit.

  /** A line that ends the processing of the buffer it is in. */
  predicate Stops(line: string, parse: Parser) {
    var k := Classify(StripCR(line));
    k.Done? || (k.Payload? && parse(k.json).Malformed?)
  }

  /** A data line whose payload the parser rejects. */
  predicate Stalls(line: string, parse: Parser) {
    var k := Classify(StripCR(line));
    k.Payload? && parse(k.json).Malformed?
  }

  /** No line of the list stops. */
  predicate NoneStops(lines: seq<string>, parse: Parser) {
    lines == [] || (!Stops(lines[0], parse) && NoneStops(lines[1..], parse))
  }

  lemma {:induction false} NoneStopsAppend(xs: seq<string>, ys: seq<string>, parse: Parser)
    ensures NoneStops(xs + ys, parse) <==> NoneStops(xs, parse) && NoneStops(ys, parse)
  {
    if xs == [] {
      assert xs + ys == ys;
    } else {
      assert (xs + ys)[1..] == xs[1..] + ys;
      NoneStopsAppend(xs[1..], ys, parse);
    }
  }

  /** The text one line contributes to the reply. */
  function LineFragment(line: string, parse: Parser): string {
    match Classify(StripCR(line))
    case Payload(json) => FragmentOf(parse(json))
    case _ => ""
  }

  /** The fragments of a list of lines, concatenated in line order. */
  function Fragments(lines: seq<string>, parse: Parser): string {
    if lines == [] then "" else LineFragment(lines[0], parse) + Fragments(lines[1..], parse)
  }

  lemma {:induction false} FragmentsAppend(xs: seq<string>, ys: seq<string>, parse: Parser)
    ensures Fragments(xs + ys, parse) == Fragments(xs, parse) + Fragments(ys, parse)
  {
    if xs == [] {
      assert xs + ys == ys;
    } else {
      assert (xs + ys)[1..] == xs[1..] + ys;
      FragmentsAppend(xs[1..], ys, parse);
      AppendAssoc(LineFragment(xs[0], parse), Fragments(xs[1..], parse), Fragments(ys, parse));
    }
  }

  lemma FragmentsCons(line: string, lines: seq<string>, parse: Parser)
    ensures Fragments([line] + lines, parse) == LineFragment(line, parse) + Fragments(lines, parse)
  {
    assert ([line] + lines)[1..] == lines;
  }

  /** One step of the inner loop on a buffer that starts with a complete line. */
  lemma DrainCons(line: string, rest: string, a: string, parse: Parser)
    requires NoNewline(line)
    ensures !Stops(line, parse) ==>
      Drain(line + "\n" + rest, a, parse) == Drain(rest, a + LineFragment(line, parse), parse)
    ensures Stalls(line, parse) ==>
      Drain(line + "\n" + rest, a, parse) == Framer(StripCR(line) + "\n" + rest, a)
    ensures Stops(line, parse) && !Stalls(line, parse) ==>
      Drain(line + "\n" + rest, a, parse) == Framer(rest, a)
  {
    var s := line + "\n" + rest;
    IndexOfAfter(line, '\n', rest);
    assert s[..|line|] == line;
    assert s[|line| + 1..] == rest;
    if Classify(StripCR(line)).Skipped? {
      assert a + LineFragment(line, parse) == a;
    }
  }

  /** Draining a buffer none of whose complete lines stops: every line is consumed, the tail is
      what remains, and the reply grows by the fragments of all lines in order. */
  lemma {:induction false} DrainNoStop(b: string, a: string, parse: Parser)
    requires NoneStops(SplitLines(b).complete, parse)
    ensures Drain(b, a, parse)
         == Framer(SplitLines(b).tail, a + Fragments(SplitLines(b).complete, parse))
    decreases |b|
  {
    if NoNewline(b) {
      SplitNoNewline(b);
      assert a + "" == a;
    } else {
      var i := IndexOf(b, '\n');
      var line, rest := b[..i], b[i + 1..];
      FirstLine(b);
      SplitCons(line, rest);
      var lines := SplitLines(rest).complete;
      assert ([line] + lines)[1..] == lines;
      DrainCons(line, rest, a, parse);
      DrainNoStop(rest, a + LineFragment(line, parse), parse);
      FragmentsCons(line, lines, parse);
      AppendAssoc(a, LineFragment(line, parse), Fragments(lines, parse));
    }
  }

  /** Draining a buffer whose first stopping line is `d`: the lines before it contribute their
      fragments and no later line does. After "[DONE]" the buffer holds the later lines; after a
      rejected payload it holds that line (CR-stripped) and the later lines. */
  lemma {:induction false} DrainStop(b: string, a: string, parse: Parser,
                                     before: seq<string>, d: string, after: seq<string>)
    requires SplitLines(b).complete == before + [d] + after
    requires NoneStops(before, parse) && Stops(d, parse)
    ensures Drain(b, a, parse).content == a + Fragments(before, parse)
    ensures SplitLines(Drain(b, a, parse).buffer)
         == Lines((if Stalls(d, parse) then [StripCR(d)] else []) + after, SplitLines(b).tail)
    decreases |b|, 2
  {
    SplitHasLines(b);
    FirstLine(b);
    var i := IndexOf(b, '\n');
    SplitCons(b[..i], b[i + 1..]);
    DrainStopCons(b[..i], b[i + 1..], a, parse, before, d, after);
  }

  /** `DrainStop` for a buffer written as its first line, "\n" and the rest. */
  lemma {:induction false} DrainStopCons(line: string, rest: string, a: string, parse: Parser,
                                         before: seq<string>, d: string, after: seq<string>)
    requires NoNewline(line)
    requires [line] + SplitLines(rest).complete == before + [d] + after
    requires NoneStops(before, parse) && Stops(d, parse)
    ensures Drain(line + "\n" + rest, a, parse).content == a + Fragments(before, parse)
    ensures SplitLines(Drain(line + "\n" + rest, a, parse).buffer)
         == Lines((if Stalls(d, parse) then [StripCR(d)] else []) + after, SplitLines(rest).tail)
    decreases |line| + 1 + |rest|, 1
  {
    if before == [] {
      DrainStopFirst(line, rest, a, parse, before, d, after);
    } else {
      ConsSplit(line, SplitLines(rest).complete, before, d, after);
      DrainStopLater(line, rest, a, parse, before, d, after);
    }
  }

  /** The first line of the text is the stopping line. */
  lemma DrainStopFirst(line: string, rest: string, a: string, parse: Parser,
                       before: seq<string>, d: string, after: seq<string>)
    requires NoNewline(line) && before == []
    requires [line] + SplitLines(rest).complete == before + [d] + after
    requires Stops(d, parse)
    ensures Drain(line + "\n" + rest, a, parse).content == a + Fragments(before, parse)
    ensures SplitLines(Drain(line + "\n" + rest, a, parse).buffer)
         == Lines((if Stalls(d, parse) then [StripCR(d)] else []) + after, SplitLines(rest).tail)
  {
    ConsSplit(line, SplitLines(rest).complete, before, d, after);
    assert a + Fragments(before, parse) == a;
    if Stalls(d, parse) {
      DrainStallsFirst(line, rest, a, parse);
    } else {
      DrainDoneFirst(line, rest, a, parse);
      assert [] + after == after;
    }
  }

  lemma DrainDoneFirst(line: string, rest: string, a: string, parse: Parser)
    requires NoNewline(line) && Stops(line, parse) && !Stalls(line, parse)
    ensures Drain(line + "\n" + rest, a, parse) == Framer(rest, a)
  {
    DrainCons(line, rest, a, parse);
  }

  /** A rejected first line is put back, CR-stripped, in front of the rest. */
  lemma DrainStallsFirst(line: string, rest: string, a: string, parse: Parser)
    requires NoNewline(line) && Stalls(line, parse)
    ensures Drain(line + "\n" + rest, a, parse).content == a
    ensures SplitLines(Drain(line + "\n" + rest, a, parse).buffer)
         == Lines([StripCR(line)] + SplitLines(rest).complete, SplitLines(rest).tail)
  {
    DrainCons(line, rest, a, parse);
    IndexOfPrefixNone(line, |StripCR(line)|, '\n');
    SplitCons(StripCR(line), rest);
  }

  /** The case of `DrainStop` where the stopping line is not the first. */
  lemma {:induction false} DrainStopLater(line: string, rest: string, a: string, parse: Parser,
                                          before: seq<string>, d: string, after: seq<string>)
    requires NoNewline(line)
    requires before != [] && line == before[0]
    requires SplitLines(rest).complete == before[1..] + [d] + after
    requires NoneStops(before, parse) && Stops(d, parse)
    ensures Drain(line + "\n" + rest, a, parse).content == a + Fragments(before, parse)
    ensures SplitLines(Drain(line + "\n" + rest, a, parse).buffer)
         == Lines((if Stalls(d, parse) then [StripCR(d)] else []) + after, SplitLines(rest).tail)
    decreases |line| + 1 + |rest|, 0
  {
    assert !Stops(before[0], parse);
    assert NoneStops(before[1..], parse);
    DrainCons(line, rest, a, parse);
    DrainStop(rest, a + LineFragment(line, parse), parse, before[1..], d, after);
    AppendAssoc(a, LineFragment(line, parse), Fragments(before[1..], parse));
  }

  /** Feeding chunks to a framer whose buffer holds no complete line, when no line of the whole
      text stops: the result depends only on the concatenation of the chunks. */
  lemma {:induction false} FeedNoStop(chunks: seq<string>, b: string, a: string, parse: Parser)
    requires NoNewline(b)
    requires NoneStops(SplitLines(b + Concat(chunks)).complete, parse)
    ensures Feed(chunks, Framer(b, a), parse)
         == Framer(SplitLines(b + Concat(chunks)).tail,
                   a + Fragments(SplitLines(b + Concat(chunks)).complete, parse))
  {
    if chunks == [] {
      assert b + Concat(chunks) == b;
      SplitNoNewline(b);
      assert a + "" == a;
    } else {
      var x := b + chunks[0];
      var r := Concat(chunks[1..]);
      ConcatCons(b, chunks);
      var lx := SplitLines(x);
      var ly := SplitLines(lx.tail + r);
      assert SplitLines(x + r) == Lines(lx.complete + ly.complete, ly.tail)
          && NoNewline(lx.tail) by {
        SplitAppend(x, r);
        SplitTail(x);
      }
      assert NoneStops(lx.complete, parse) && NoneStops(ly.complete, parse) by {
        NoneStopsAppend(lx.complete, ly.complete, parse);
      }
      var a' := a + Fragments(lx.complete, parse);
      assert Drain(x, a, parse) == Framer(lx.tail, a') by {
        DrainNoStop(x, a, parse);
      }
      FeedNoStop(chunks[1..], lx.tail, a', parse);
      assert a' + Fragments(ly.complete, parse)
          == a + Fragments(lx.complete + ly.complete, parse) by {
        FragmentsAppend(lx.complete, ly.complete, parse);
        AppendAssoc(a, Fragments(lx.complete, parse), Fragments(ly.complete, parse));
      }
    }
  }

  /** Once a rejected payload is at the front of the buffer, no later chunk adds anything. */
  lemma {:induction false} FeedStalled(chunks: seq<string>, b: string, a: string, parse: Parser)
    requires SplitLines(b).complete != [] && Stalls(SplitLines(b).complete[0], parse)
    ensures Feed(chunks, Framer(b, a), parse).content == a
  {
    if chunks != [] {
      var x := b + chunks[0];
      var d := SplitLines(b).complete[0];
      var lines := SplitLines(x).complete;
      assert lines != [] && lines[0] == d by {
        SplitAppend(b, chunks[0]);
        AppendHead(SplitLines(b).complete, SplitLines(SplitLines(b).tail + chunks[0]).complete);
      }
      var after := lines[1..];
      HeadTail(lines);
      var f := Drain(x, a, parse);
      assert f.content == a && SplitLines(f.buffer).complete == [StripCR(d)] + after by {
        DrainStop(x, a, parse, [], d, after);
      }
      StallsStripCR(d, parse);
      FeedStalled(chunks[1..], f.buffer, a, parse);
    }
  }

  /** A data payload line reads the same without one more trailing carriage return. */
  lemma ClassifyIgnoresTrailingCR(m: string)
    requires Classify(m + ['\r']).Payload?
    ensures Classify(m) == Classify(m + ['\r'])
  {
    DataLineLength(m);
    StartsWithAppend(m, ['\r'], DataPrefix);
    ClassifyDataLine(m);
    ClassifyDataLine(m + ['\r']);
    TrimSuffixIgnoresTrailingSpace(m, '\r', |DataPrefix|);
  }

  /** How a line with the "data: " prefix is read. */
  lemma ClassifyDataLine(line: string)
    requires StartsWith(line, DataPrefix)
    ensures Classify(line) == (if Trim(line[|DataPrefix|..]) == DoneSentinel then Done
                               else Payload(Trim(line[|DataPrefix|..])))
  {
    DataLineNotBlank(line);
  }

  /** A line with the "data: " prefix is neither a comment nor blank. */
  lemma DataLineNotBlank(line: string)
    requires StartsWith(line, DataPrefix)
    ensures !StartsWith(line, ":") && Trim(line) != ""
  {
    assert line[0] == line[..6][0] == 'd';
    assert line[..1][0] == 'd';
    TrimKeepsNonSpace(line, 0);
  }

  /** A data line that ends in a carriage return has the whole prefix before it. */
  lemma DataLineLength(m: string)
    requires StartsWith(m + ['\r'], DataPrefix)
    ensures |m| >= |DataPrefix|
  {
    var l := m + ['\r'];
    assert l[5] == l[..6][5] == ' ';
    assert l[|l| - 1] == '\r';
  }

  /** Stripping a carriage return again does not change how a rejected data line reads. */
  lemma StallsStripCR(d: string, parse: Parser)
    requires Stalls(d, parse)
    ensures Stalls(StripCR(d), parse)
    ensures Classify(StripCR(StripCR(d))) == Classify(StripCR(d))
  {
    var l := StripCR(d);
    if EndsWith(l, "\r") {
      var m := l[..|l| - 1];
      assert l == m + ['\r'];
      ClassifyIgnoresTrailingCR(m);
    }
  }

  /** Without chunks the whole text is the buffer, which has no complete line. */
  lemma NoLinesWithoutChunks(b: string, chunks: seq<string>)
    requires NoNewline(b) && chunks == []
    ensures SplitLines(b + Concat(chunks)).complete == []
  {
    assert b + Concat(chunks) == b;
    SplitNoNewline(b);
  }

  /** Feeding chunks when the first stopping line of the whole text is a rejected payload: the
      reply is the fragments of the lines before it, however the text is cut into chunks. */
  lemma {:induction false} FeedStopsAtStall(chunks: seq<string>, b: string, a: string,
                                            parse: Parser, before: seq<string>, d: string,
                                            after: seq<string>)
    requires NoNewline(b)
    requires SplitLines(b + Concat(chunks)).complete == before + [d] + after
    requires NoneStops(before, parse) && Stalls(d, parse)
    ensures Feed(chunks, Framer(b, a), parse).content == a + Fragments(before, parse)
  {
    if chunks == [] {
      NoLinesWithoutChunks(b, chunks);
      assert false;
    } else {
      var x := b + chunks[0];
      var r := Concat(chunks[1..]);
      ConcatCons(b, chunks);
      var lx := SplitLines(x);
      var ly := SplitLines(lx.tail + r);
      assert lx.complete + ly.complete == before + [d] + after && NoNewline(lx.tail) by {
        SplitAppend(x, r);
        SplitTail(x);
      }
      if |lx.complete| <= |before| {
        var k := |lx.complete|;
        CutBefore(lx.complete, ly.complete, before, d, after);
        NoneStopsAppend(before[..k], before[k..], parse);
        var a' := a + Fragments(before[..k], parse);
        assert Drain(x, a, parse) == Framer(lx.tail, a') by {
          DrainNoStop(x, a, parse);
        }
        FeedStopsAtStall(chunks[1..], lx.tail, a', parse, before[k..], d, after);
        assert a' + Fragments(before[k..], parse) == a + Fragments(before, parse) by {
          FragmentsAppend(before[..k], before[k..], parse);
          AppendAssoc(a, Fragments(before[..k], parse), Fragments(before[k..], parse));
        }
      } else {
        CutAfter(lx.complete, ly.complete, before, d, after);
        var mid := lx.complete[|before| + 1..];
        var f := Drain(x, a, parse);
        assert f.content == a + Fragments(before, parse)
            && SplitLines(f.buffer).complete == [StripCR(d)] + mid by {
          DrainStop(x, a, parse, before, d, mid);
        }
        StallsStripCR(d, parse);
        FeedStalled(chunks[1..], f.buffer, f.content, parse);
      }
    }
  }

  /** Feeding chunks when the last complete line of the whole text is "[DONE]" and no line
      before it stops: the reply is the fragments of the lines before "[DONE]". */
  lemma {:induction false} FeedStopsAtFinalDone(chunks: seq<string>, b: string, a: string,
                                                parse: Parser, before: seq<string>, d: string)
    requires NoNewline(b)
    requires SplitLines(b + Concat(chunks)).complete == before + [d]
    requires NoneStops(before, parse) && Classify(StripCR(d)).Done?
    ensures Feed(chunks, Framer(b, a), parse).content == a + Fragments(before, parse)
    decreases |chunks|, 1
  {
    if chunks == [] {
      NoLinesWithoutChunks(b, chunks);
      assert false;
    } else {
      var x := b + chunks[0];
      var r := Concat(chunks[1..]);
      ConcatCons(b, chunks);
      var lx := SplitLines(x);
      var ly := SplitLines(lx.tail + r);
      assert lx.complete + ly.complete == before + [d] && NoNewline(lx.tail) by {
        SplitAppend(x, r);
        SplitTail(x);
      }
      if |lx.complete| <= |before| {
        FeedDoneLater(chunks, b, a, parse, before, d);
      } else {
        FeedDoneHere(chunks, b, a, parse, before, d);
      }
    }
  }

  /** The first chunk completes the final "[DONE]" line. */
  lemma FeedDoneHere(chunks: seq<string>, b: string, a: string, parse: Parser,
                     before: seq<string>, d: string)
    requires chunks != [] && NoneStops(before, parse) && Classify(StripCR(d)).Done?
    requires SplitLines(b + chunks[0]).complete
           + SplitLines(SplitLines(b + chunks[0]).tail + Concat(chunks[1..])).complete
          == before + [d]
    requires |SplitLines(b + chunks[0]).complete| > |before|
    ensures Feed(chunks, Framer(b, a), parse).content == a + Fragments(before, parse)
  {
    var x := b + chunks[0];
    var lx := SplitLines(x);
    var ly := SplitLines(lx.tail + Concat(chunks[1..]));
    assert before + [d] == before + [d] + [];
    CutAfter(lx.complete, ly.complete, before, d, []);
    assert lx.complete == before + [d] && ly.complete == [] by {
      assert |lx.complete[|before| + 1..]| + |ly.complete| == 0;
      assert before + [d] + [] == before + [d];
    }
    FeedAfterFinalDone(chunks[1..], x, a, parse, before, d);
  }

  /** The first chunk completes only lines before the final "[DONE]": they are drained as
      fragments and the rest of the stream is fed from the leftover tail. */
  lemma {:induction false} FeedDoneLater(chunks: seq<string>, b: string, a: string,
                                         parse: Parser, before: seq<string>, d: string)
    requires chunks != [] && NoneStops(before, parse) && Classify(StripCR(d)).Done?
    requires NoNewline(SplitLines(b + chunks[0]).tail)
    requires SplitLines(b + chunks[0]).complete
           + SplitLines(SplitLines(b + chunks[0]).tail + Concat(chunks[1..])).complete
          == before + [d]
    requires |SplitLines(b + chunks[0]).complete| <= |before|
    ensures Feed(chunks, Framer(b, a), parse).content == a + Fragments(before, parse)
    decreases |chunks|, 0
  {
    var x := b + chunks[0];
    var lx := SplitLines(x);
    var ly := SplitLines(lx.tail + Concat(chunks[1..]));
    var k := |lx.complete|;
    assert before + [d] == before + [d] + [];
    CutBefore(lx.complete, ly.complete, before, d, []);
    NoneStopsAppend(before[..k], before[k..], parse);
    var a' := a + Fragments(before[..k], parse);
    assert Drain(x, a, parse) == Framer(lx.tail, a') by {
      DrainNoStop(x, a, parse);
    }
    assert before[k..] + [d] + [] == before[k..] + [d];
    FeedStopsAtFinalDone(chunks[1..], lx.tail, a', parse, before[k..], d);
    assert a' + Fragments(before[k..], parse) == a + Fragments(before, parse) by {
      FragmentsAppend(before[..k], before[k..], parse);
      AppendAssoc(a, Fragments(before[..k], parse), Fragments(before[k..], parse));
    }
  }

  /** Once the chunk that completes a final "[DONE]" line is drained, the later chunks, which
      complete no line, add nothing. */
  lemma FeedAfterFinalDone(rest: seq<string>, x: string, a: string, parse: Parser,
                           before: seq<string>, d: string)
    requires SplitLines(x).complete == before + [d]
    requires SplitLines(SplitLines(x).tail + Concat(rest)).complete == []
    requires NoneStops(before, parse) && Classify(StripCR(d)).Done?
    ensures Feed(rest, Drain(x, a, parse), parse).content == a + Fragments(before, parse)
  {
    var f := Drain(x, a, parse);
    DrainFinalDone(x, a, parse, before, d);
    SplitTail(x);
    FeedNoStop(rest, f.buffer, f.content, parse);
    assert f.content + "" == f.content;
  }

  /** Draining a text whose last complete line is "[DONE]" leaves the unterminated tail. */
  lemma DrainFinalDone(x: string, a: string, parse: Parser, before: seq<string>, d: string)
    requires SplitLines(x).complete == before + [d]
    requires NoneStops(before, parse) && Classify(StripCR(d)).Done?
    ensures Drain(x, a, parse).content == a + Fragments(before, parse)
    ensures Drain(x, a, parse).buffer == SplitLines(x).tail
  {
    var none: seq<string> := [];
    assert before + [d] == before + [d] + none;
    DrainStop(x, a, parse, before, d, none);
    assert !Stalls(d, parse);
    assert none + none == none;
    SplitNoLines(Drain(x, a, parse).buffer);
  }

  // ---------------------------------------------------------------------------------------
  // The properties of the whole stream.

  /** When no complete line stops, the reply is the concatenation, in line order, of the
      fragments of all complete lines of the concatenated chunks: it does not depend on where
      the chunk boundaries fall. */
  lemma ChunkBoundaryIndependence(chunks: seq<string>, parse: Parser)
    requires NoneStops(SplitLines(Concat(chunks)).complete, parse)
    ensures StreamContent(chunks, parse) == Fragments(SplitLines(Concat(chunks)).complete, parse)
    ensures StreamContent(chunks, parse) == StreamContent([Concat(chunks)], parse)
  {
    var text := Concat(chunks);
    var fragments := Fragments(SplitLines(text).complete, parse);
    assert "" + text == text;
    assert "" + fragments == fragments;
    FeedNoStop(chunks, "", "", parse);
    ConcatOne(text);
    FeedNoStop([text], "", "", parse);
  }

  /** The two-chunk instance: a frame split across a chunk boundary decodes as if it had come
      in one chunk. */
  lemma SplitFrameReassembles(b1: string, b2: string, parse: Parser)
    requires NoneStops(SplitLines(b1 + b2).complete, parse)
    ensures StreamContent([b1, b2], parse) == StreamContent([b1 + b2], parse)
  {
    ConcatTwo(b1, b2);
    ChunkBoundaryIndependence([b1, b2], parse);
  }

  /** A reply terminated by a final "[DONE]" line is the fragments of the lines before it,
      however it is cut into chunks. */
  lemma FinalDoneReply(chunks: seq<string>, parse: Parser, before: seq<string>, d: string)
    requires SplitLines(Concat(chunks)).complete == before + [d]
    requires NoneStops(before, parse) && Classify(StripCR(d)).Done?
    ensures StreamContent(chunks, parse) == Fragments(before, parse)
  {
    assert "" + Concat(chunks) == Concat(chunks);
    assert "" + Fragments(before, parse) == Fragments(before, parse);
    FeedStopsAtFinalDone(chunks, "", "", parse, before, d);
  }

  /** A complete data line the parser rejects is pushed back forever: the reply is the
      fragments of the lines before it, and nothing after it is ever decoded. */
  lemma MalformedLineStallsStream(chunks: seq<string>, parse: Parser, before: seq<string>,
                                  d: string, after: seq<string>)
    requires SplitLines(Concat(chunks)).complete == before + [d] + after
    requires NoneStops(before, parse) && Stalls(d, parse)
    ensures StreamContent(chunks, parse) == Fragments(before, parse)
  {
    assert "" + Concat(chunks) == Concat(chunks);
    assert "" + Fragments(before, parse) == Fragments(before, parse);
    FeedStopsAtStall(chunks, "", "", parse, before, d, after);
  }

  /** Feeding one chunk is one pass of the inner loop over the buffer and that chunk. */
  lemma FeedOne(c: string, f: Framer, parse: Parser)
    ensures Feed([c], f, parse) == Drain(f.buffer + c, f.content, parse)
  {
    assert [c][1..] == [];
  }

  /** A pass over a buffer that ends in one complete non-stopping line adds that line's text. */
  lemma DrainLastLine(x: string, a: string, parse: Parser)
    requires NoNewline(x) && !Stops(x, parse)
    ensures Drain(x + "\n", a, parse) == Framer("", a + LineFragment(x, parse))
  {
    assert x + "\n" == x + "\n" + "";
    DrainCons(x, "", a, parse);
  }

  /** "[DONE]" ends only the pass over the current buffer, and the read loop goes on, so a line
      after a "[DONE]" that is not the last line is decoded or not depending on the chunk cut:
      sent in the same chunk it is left in the buffer, sent in the next chunk it adds its text. */
  lemma DoneBeforeLineDependsOnCut(d: string, x: string, parse: Parser)
    requires NoNewline(d) && Stops(d, parse) && !Stalls(d, parse)
    requires NoNewline(x) && !Stops(x, parse)
    ensures StreamContent([d + "\n" + (x + "\n")], parse) == ""
    ensures StreamContent([d + "\n", x + "\n"], parse) == LineFragment(x, parse)
  {
    FeedOne(d + "\n" + (x + "\n"), Framer("", ""), parse);
    assert "" + (d + "\n" + (x + "\n")) == d + "\n" + (x + "\n");
    DrainDoneFirst(d, x + "\n", "", parse);

    assert [d + "\n", x + "\n"][1..] == [x + "\n"];
    assert "" + (d + "\n") == d + "\n" + "";
    DrainDoneFirst(d, "", "", parse);
    FeedOne(x + "\n", Framer("", ""), parse);
    assert "" + (x + "\n") == x + "\n";
    DrainLastLine(x, "", parse);
    assert "" + LineFragment(x, parse) == LineFragment(x, parse);
  }
}
