/** The reading side of `do_log`: bytes read from the log pipe are appended
    to a buffer, the buffer is cut at every newline, each cut-off line is
    handed to the JSON decoder, and the lines that decode to a truthy value
    are pushed onto the delivery queue. */
module Framing {
  import opened Wrappers
  import opened Json

  /** `s.split("\n", 2)`: `None` when `s` has no newline (Ruby then yields at
      most one element, so the second is nil); otherwise the text before the
      first newline and everything after it, possibly empty. */
  function SplitFirst(s: string): (r: Option<(string, string)>)
    ensures r.None? <==> '\n' !in s
    ensures r.Some? ==> s == r.value.0 + "\n" + r.value.1 && '\n' !in r.value.0
  {
    if |s| == 0 then None
    else if s[0] == '\n' then Some(("", s[1..]))
    else
      match SplitFirst(s[1..])
      case None => None
      case Some((line, rest)) =>
        assert s == [s[0]] + s[1..];
        Some(([s[0]] + line, rest))
  }

  /** The complete lines of `s`, in order, without their newlines. */
  function Lines(s: string): (r: seq<string>)
    ensures forall i :: 0 <= i < |r| ==> '\n' !in r[i]
    decreases |s|
  {
    match SplitFirst(s)
    case None => []
    case Some((line, rest)) => [line] + Lines(rest)
  }

  /** What is left of `s` after its last newline: the partial record held
      back until more bytes arrive. */
  function Rest(s: string): (r: string)
    ensures '\n' !in r
    decreases |s|
  {
    match SplitFirst(s)
    case None => s
    case Some((line, rest)) => Rest(rest)
  }

  /** Each line followed by its newline, all concatenated: the inverse of `Lines`. */
  function Unlines(lines: seq<string>): string {
    if |lines| == 0 then "" else lines[0] + "\n" + Unlines(lines[1..])
  }

  /** All bytes read, in order: the chunks returned by successive reads. */
  function Flatten(chunks: seq<string>): string {
    if |chunks| == 0 then "" else Flatten(chunks[..|chunks| - 1]) + chunks[|chunks| - 1]
  }

  /** The decoded values that are pushed onto the queue, in line order. */
  function Accepted(lines: seq<string>, decode: string -> Decoded): (q: seq<Json>)
    ensures |q| <= |lines|
    ensures forall i :: 0 <= i < |q| ==> Truthy(q[i])
  {
    if |lines| == 0 then []
    else
      var d := decode(lines[|lines| - 1]);
      Accepted(lines[..|lines| - 1], decode) + (if Keep(d) then [d.value] else [])
  }

  /** The lines reported as "Could not parse json", in line order. */
  function Ignored(lines: seq<string>, decode: string -> Decoded): (q: seq<string>)
    ensures |q| <= |lines|
  {
    if |lines| == 0 then []
    else
      var line := lines[|lines| - 1];
      Ignored(lines[..|lines| - 1], decode) + (if Keep(decode(line)) then [] else [line])
  }

  /** The read loop of `do_log` over the chunks the pipe delivers before the
      run ends. `framed` lists every line handed to the decoder, `queue` what
      was pushed onto the delivery queue and `ignored` what was reported as
      unparseable; `buffer` is the partial record still held. */
  method DoLog(chunks: seq<string>, decode: string -> Decoded)
    returns (buffer: string, framed: seq<string>, queue: seq<Json>, ignored: seq<string>)
    ensures framed == Lines(Flatten(chunks)) && buffer == Rest(Flatten(chunks))
    ensures Unlines(framed) + buffer == Flatten(chunks)
    ensures '\n' !in buffer
    ensures queue == Accepted(framed, decode) && ignored == Ignored(framed, decode)
  {
    buffer, framed, queue, ignored := "", [], [], [];
    var i := 0;
    while i < |chunks|
      invariant 0 <= i <= |chunks|
      invariant framed == Lines(Flatten(chunks[..i])) && buffer == Rest(Flatten(chunks[..i]))
      invariant queue == Accepted(framed, decode) && ignored == Ignored(framed, decode)
    {
      ghost var total := Flatten(chunks[..i + 1]);
      assert chunks[..i + 1][..i] == chunks[..i];
      LinesAppend(Flatten(chunks[..i]), chunks[i]);
      buffer := buffer + chunks[i];
      while true
        invariant framed + Lines(buffer) == Lines(total) && Rest(buffer) == Rest(total)
        invariant queue == Accepted(framed, decode) && ignored == Ignored(framed, decode)
        decreases |buffer|
      {
        var split := SplitFirst(buffer);
        if split.None? {
          assert Lines(buffer) == [] && Rest(buffer) == buffer;
          break;
        }
        var (line, newBuffer) := split.value;
        SplitStep(buffer, line, newBuffer);
        assert framed + [line] + Lines(newBuffer) == framed + Lines(buffer);
        buffer := line;  // overwritten below before it is read again
        var json := decode(line);
        FilterStep(framed, line, decode);
        if Keep(json) {
          queue := queue + [json.value];
        } else {
          ignored := ignored + [line];
        }
        framed := framed + [line];
        buffer := newBuffer;
      }
      i := i + 1;
    }
    assert chunks[..i] == chunks;
    Conservation(Flatten(chunks));
  }

  /** One cut of the buffer: its lines start with the cut-off line, and
      its remainder is that of what follows the newline. */
  lemma SplitStep(s: string, line: string, rest: string)
    requires SplitFirst(s) == Some((line, rest))
    ensures Lines(s) == [line] + Lines(rest) && Rest(s) == Rest(rest)
  {
  }

  /** Deciding one more line appends its outcome to the queue or to the
      report, and leaves the other unchanged. */
  lemma FilterStep(lines: seq<string>, line: string, decode: string -> Decoded)
    ensures Accepted(lines + [line], decode) ==
            Accepted(lines, decode) + (if Keep(decode(line)) then [decode(line).value] else [])
    ensures Ignored(lines + [line], decode) ==
            Ignored(lines, decode) + (if Keep(decode(line)) then [] else [line])
  {
    assert (lines + [line])[..|lines|] == lines;
  }

  /** `SplitFirst` is determined by its contract: any text before a first
      newline is the split. */
  lemma {:induction false} SplitUnique(s: string, line: string, rest: string)
    requires s == line + "\n" + rest && '\n' !in line
    ensures SplitFirst(s) == Some((line, rest))
  {
    if |line| == 0 {
      assert s[1..] == rest;
    } else {
      assert s[1..] == line[1..] + "\n" + rest;
      SplitUnique(s[1..], line[1..], rest);
      assert line == [s[0]] + line[1..];
    }
  }

  /** Appending bytes never changes the lines already complete: the lines of
      `s + t` are those of `s` followed by those of its held-back remainder
      extended by `t`. This is why a chunk boundary may fall anywhere,
      including right before or after a newline. */
  lemma {:induction false} LinesAppend(s: string, t: string)
    ensures Lines(s + t) == Lines(s) + Lines(Rest(s) + t)
    ensures Rest(s + t) == Rest(Rest(s) + t)
    decreases |s|
  {
    match SplitFirst(s)
    case None =>
    case Some((line, rest)) =>
      assert s + t == line + "\n" + (rest + t);
      SplitUnique(s + t, line, rest + t);
      LinesAppend(rest, t);
  }

  /** Framing conserves bytes: the emitted lines, each followed by its
      newline, and then the held-back remainder give back the input. */
  lemma {:induction false} Conservation(s: string)
    ensures Unlines(Lines(s)) + Rest(s) == s
    decreases |s|
  {
    match SplitFirst(s)
    case None =>
    case Some((line, rest)) =>
      Conservation(rest);
      SplitStep(s, line, rest);
      UnlinesCons(line, Lines(rest), Rest(rest));
  }

  /** `Unlines` of a first line and more lines, followed by some text. */
  lemma UnlinesCons(line: string, lines: seq<string>, tail: string)
    ensures Unlines([line] + lines) + tail == line + "\n" + (Unlines(lines) + tail)
  {
    assert ([line] + lines)[1..] == lines;
  }

  /** The converse of `Conservation`: newline-free lines followed by a
      newline-free remainder are framed back into exactly those lines and
      that remainder. Together the two make (`Lines`, `Rest`) the inverse
      of `Unlines`. */
  lemma {:induction false} FramingUnique(lines: seq<string>, rest: string)
    requires forall i :: 0 <= i < |lines| ==> '\n' !in lines[i]
    requires '\n' !in rest
    ensures Lines(Unlines(lines) + rest) == lines && Rest(Unlines(lines) + rest) == rest
  {
    if |lines| == 0 {
      assert Unlines(lines) + rest == rest;
    } else {
      var tail := Unlines(lines[1..]) + rest;
      assert lines == [lines[0]] + lines[1..];
      UnlinesCons(lines[0], lines[1..], rest);
      SplitUnique(Unlines(lines) + rest, lines[0], tail);
      SplitStep(Unlines(lines) + rest, lines[0], tail);
      FramingUnique(lines[1..], rest);
    }
  }

  /** One line is framed per newline read. */
  lemma {:induction false} LineCount(s: string)
    ensures |Lines(s)| == multiset(s)['\n']
    decreases |s|
  {
    match SplitFirst(s)
    case None =>
      assert '\n' !in multiset(s);
    case Some((line, rest)) =>
      LineCount(rest);
      assert '\n' !in multiset(line);
      assert multiset(s) == multiset(line) + multiset("\n") + multiset(rest);
  }

  /** A newline-free line followed by a newline is framed first, and
      framing goes on with what follows. */
  lemma FirstLine(s: string, line: string, rest: string)
    requires s == line + "\n" + rest && '\n' !in line
    ensures Lines(s) == [line] + Lines(rest) && Rest(s) == Rest(rest)
  {
    SplitUnique(s, line, rest);
    SplitStep(s, line, rest);
  }

  /** Two consecutive newlines frame an empty line, which is handed to the
      decoder like any other. */
  lemma ConsecutiveNewlines(s: string, t: string)
    requires '\n' !in s
    ensures Lines(s + "\n\n" + t) == [s, ""] + Lines(t) && Rest(s + "\n\n" + t) == Rest(t)
  {
    assert s + "\n\n" + t == s + "\n" + ("\n" + t);
    FirstLine(s + "\n\n" + t, s, "\n" + t);
    assert "\n" + t == "" + "\n" + t;
    FirstLine("\n" + t, "", t);
  }

  /** The decode filter works line by line: the pushes for a stream of lines
      are the pushes for any prefix followed by those for the remaining
      lines, in order, and likewise for the lines reported as unparseable. */
  lemma {:induction false} FilterAppend(a: seq<string>, b: seq<string>, decode: string -> Decoded)
    ensures Accepted(a + b, decode) == Accepted(a, decode) + Accepted(b, decode)
    ensures Ignored(a + b, decode) == Ignored(a, decode) + Ignored(b, decode)
    decreases |b|
  {
    if |b| == 0 {
      assert a + b == a;
    } else {
      var b' := b[..|b| - 1];
      assert (a + b)[..|a + b| - 1] == a + b';
      FilterAppend(a, b', decode);
    }
  }

  /** Every line is either pushed or reported, never both and never neither. */
  lemma {:induction false} FilterPartition(lines: seq<string>, decode: string -> Decoded)
    ensures |Accepted(lines, decode)| + |Ignored(lines, decode)| == |lines|
  {
    if |lines| > 0 {
      FilterPartition(lines[..|lines| - 1], decode);
    }
  }

  /** A value is queued exactly when some line decodes to it and it is truthy. */
  lemma {:induction false} AcceptedExactly(lines: seq<string>, decode: string -> Decoded, v: Json)
    ensures v in Accepted(lines, decode) <==>
            exists i :: 0 <= i < |lines| && decode(lines[i]) == Loaded(v) && Truthy(v)
  {
    if |lines| > 0 {
      var init := lines[..|lines| - 1];
      AcceptedExactly(init, decode, v);
      if v in Accepted(lines, decode) && v !in Accepted(init, decode) {
        assert decode(lines[|lines| - 1]) == Loaded(v);
      }
      if exists i :: 0 <= i < |lines| && decode(lines[i]) == Loaded(v) && Truthy(v) {
        var i :| 0 <= i < |lines| && decode(lines[i]) == Loaded(v) && Truthy(v);
        if i < |lines| - 1 {
          assert init[i] == lines[i];
        }
      }
    }
  }

  /** A malformed line is reported and dropped, and the valid line after it
      is still queued. */
  lemma MalformedLineSkipped(decode: string -> Decoded, bad: string, good: string, v: Json)
    requires decode(bad) == DecodeRaised && '\n' !in bad
    requires decode(good) == Loaded(v) && Truthy(v) && '\n' !in good
    ensures Accepted(Lines(bad + "\n" + good + "\n"), decode) == [v]
    ensures Ignored(Lines(bad + "\n" + good + "\n"), decode) == [bad]
  {
    var lines := [bad, good];
    assert Unlines(lines) + "" == bad + "\n" + good + "\n" by {
      UnlinesCons(bad, [good], "");
      UnlinesCons(good, [], "");
      assert [bad] + [good] == lines && [good] + [] == [good];
    }
    FramingUnique(lines, "");
    FilterStep([], bad, decode);
    FilterStep([bad], good, decode);
    assert [] + [bad] == [bad] && [bad] + [good] == lines;
  }
}
