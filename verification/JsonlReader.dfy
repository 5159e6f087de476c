/** The LF-only line reader of `scripts/capture-pi-fixtures.ts`: chunks of decoded
    text arrive cut anywhere, whole lines leave. */
module JsonlReader {
  const LF: char := '\n'
  const CR: char := '\r'

  // ---------------------------------------------------------------- reference

  /** The text cut at every LF. Always at least one piece. */
  function Pieces(text: string): (ps: seq<string>)
    ensures |ps| > 0
  {
    if text == [] then [""]
    else if text[0] == LF then [""] + Pieces(text[1..])
    else Glue(text[0], Pieces(text[1..]))
  }

  function Glue(c: char, ps: seq<string>): (r: seq<string>)
    requires |ps| > 0
    ensures |r| == |ps|
  {
    [[c] + ps[0]] + ps[1..]
  }

  function Last<T>(s: seq<T>): T
    requires |s| > 0
  {
    s[|s| - 1]
  }

  function Front<T>(s: seq<T>): seq<T>
    requires |s| > 0
  {
    s[..|s| - 1]
  }

  function StripCr(line: string): string {
    if |line| > 0 && Last(line) == CR then Front(line) else line
  }

  function StripEach(ps: seq<string>): (r: seq<string>)
    ensures |r| == |ps|
    ensures forall k :: 0 <= k < |ps| ==> r[k] == StripCr(ps[k])
  {
    seq(|ps|, k requires 0 <= k < |ps| => StripCr(ps[k]))
  }

  /** What the reader promises for a whole text: its pieces, the last one dropped
      when empty, each without one trailing CR. */
  function TextLines(text: string): seq<string> {
    var ps := Pieces(text);
    StripEach(if Last(ps) == "" then Front(ps) else ps)
  }

  function Concat(chunks: seq<string>): string {
    if chunks == [] then "" else Concat(Front(chunks)) + Last(chunks)
  }

  function JoinLf(ps: seq<string>): string
    requires |ps| > 0
  {
    if |ps| == 1 then ps[0] else ps[0] + [LF] + JoinLf(ps[1..])
  }

  /** `Pieces` is the only way to cut a text at its LFs: it rejoins to the text,
      no piece holds an LF, and any other list doing both is this one. */
  lemma {:induction false} PiecesCharacterised(text: string, ps: seq<string>)
    requires |ps| > 0
    ensures ps == Pieces(text) <==> JoinLf(ps) == text && forall p :: p in ps ==> LF !in p
  {
    PiecesRejoin(text);
    if JoinLf(ps) == text && forall p :: p in ps ==> LF !in p {
      PiecesOfJoin(ps);
    }
  }

  lemma {:induction false} PiecesRejoin(text: string)
    ensures JoinLf(Pieces(text)) == text
    ensures forall p :: p in Pieces(text) ==> LF !in p
  {
    if text != [] {
      var rest := Pieces(text[1..]);
      PiecesRejoin(text[1..]);
      if text[0] == LF {
        assert ([""] + rest)[1..] == rest;
      } else {
        var ps := Glue(text[0], rest);
        assert ps[1..] == rest[1..];
        assert JoinLf(ps) == [text[0]] + JoinLf(rest);
        assert rest[0] in rest;
      }
    }
  }

  lemma {:induction false} PiecesOfJoin(ps: seq<string>)
    requires |ps| > 0
    requires forall p :: p in ps ==> LF !in p
    ensures Pieces(JoinLf(ps)) == ps
  {
    if |ps| == 1 {
      PiecesWithoutLf(ps[0]);
    } else {
      PiecesOfJoin(ps[1..]);
      PiecesAfterLf(ps[0], JoinLf(ps[1..]));
      assert ps[0] + [LF] + JoinLf(ps[1..]) == ps[0] + ([LF] + JoinLf(ps[1..]));
    }
  }

  lemma {:induction false} PiecesWithoutLf(line: string)
    requires LF !in line
    ensures Pieces(line) == [line]
  {
    if line != [] {
      assert line[0] in line;
      PiecesWithoutLf(line[1..]);
      assert [line[0]] + line[1..] == line;
    }
  }

  lemma {:induction false} PiecesAfterLf(line: string, rest: string)
    requires LF !in line
    ensures Pieces(line + ([LF] + rest)) == [line] + Pieces(rest)
  {
    if line == [] {
      assert line + ([LF] + rest) == [LF] + rest;
    } else {
      assert line[0] in line;
      PiecesAfterLf(line[1..], rest);
      assert [line[0]] + line[1..] == line;
      assert (line + ([LF] + rest))[1..] == line[1..] + ([LF] + rest);
    }
  }

  lemma GlueAppend(c: char, ps: seq<string>, qs: seq<string>)
    requires |ps| > 0
    ensures Glue(c, ps + qs) == Glue(c, ps) + qs
  {
    assert (ps + qs)[1..] == ps[1..] + qs;
  }

  lemma FrontGlue(c: char, ps: seq<string>)
    requires |ps| > 1
    ensures Front(Glue(c, ps)) == Glue(c, Front(ps)) && Last(Glue(c, ps)) == Last(ps)
  {}

  lemma FrontAppend(p: string, ps: seq<string>)
    requires |ps| > 0
    ensures Front([p] + ps) == [p] + Front(ps) && Last([p] + ps) == Last(ps)
  {}

  /** Appending text only ever extends the unfinished last piece. */
  lemma {:induction false} PiecesOfAppend(a: string, b: string)
    ensures Pieces(a + b) == Front(Pieces(a)) + Pieces(Last(Pieces(a)) + b)
  {
    if a == [] {
      assert a + b == b && Pieces(a) == [""];
      assert Front([""]) == [] && "" + b == b;
    } else {
      var c, rest := a[0], Pieces(a[1..]);
      var tail := Pieces(Last(rest) + b);
      assert (a + b)[1..] == a[1..] + b;
      PiecesOfAppend(a[1..], b);
      assert Pieces(a[1..] + b) == Front(rest) + tail;
      if c == LF {
        FrontAppend("", rest);
        assert [""] + (Front(rest) + tail) == ([""] + Front(rest)) + tail;
      } else if |rest| == 1 {
        assert Front(rest) + tail == tail;
        assert ([c] + rest[0] + b)[1..] == rest[0] + b;
        assert Pieces([c] + rest[0] + b) == Glue(c, tail);
        assert Glue(c, rest) == [[c] + rest[0]];
      } else {
        FrontGlue(c, rest);
        GlueAppend(c, Front(rest), tail);
      }
    }
  }

  // ------------------------------------------------------------------- reader

  method IndexOfLf(s: string) returns (index: int)
    ensures index == -1 <==> LF !in s
    ensures index != -1 ==> 0 <= index < |s| && s[index] == LF && LF !in s[..index]
  {
    index := 0;
    while index < |s|
      invariant 0 <= index <= |s|
      invariant LF !in s[..index]
    {
      if s[index] == LF { return; }
      index := index + 1;
    }
    index := -1;
  }

  /** The inner loop: every finished piece of the buffer leaves as a line, one
      trailing CR stripped; what is left holds no LF. */
  method DrainLines(buffer: string) returns (lines: seq<string>, rest: string)
    ensures LF !in rest
    ensures Emitted(buffer, rest, lines)
  {
    rest := buffer;
    lines := [];
    ghost var done: seq<string> := [];
    var newlineIndex := IndexOfLf(rest);
    while newlineIndex != -1
      invariant newlineIndex == -1 <==> LF !in rest
      invariant newlineIndex != -1 ==>
        0 <= newlineIndex < |rest| && rest[newlineIndex] == LF && LF !in rest[..newlineIndex]
      invariant lines == StripEach(done)
      invariant Pieces(buffer) == done + Pieces(rest)
      decreases |rest|
    {
      var line := rest[..newlineIndex];
      Emit(buffer, done, rest, newlineIndex);
      done := done + [line];
      rest := rest[newlineIndex + 1..];
      if |line| > 0 && line[|line| - 1] == CR { line := line[..|line| - 1]; }
      lines := lines + [line];
      newlineIndex := IndexOfLf(rest);
    }
    PiecesWithoutLf(rest);
    assert Front(done + [rest]) == done;
  }

  /** The reader itself: `lines` collects the `onLine` calls, `flush` is what the
      decoder still owed when the stream ended (it never owes an LF). The result
      depends on the concatenated text alone, so every cutting of it agrees. */
  method ReadJsonlStream(chunks: seq<string>, flush: string) returns (lines: seq<string>)
    requires LF !in flush
    ensures lines == TextLines(Concat(chunks) + flush)
  {
    var buffer := "";
    lines := [];
    ghost var fed := "";
    for next := 0 to |chunks|
      invariant fed == Concat(chunks[..next])
      invariant LF !in buffer
      invariant Emitted(fed, buffer, lines)
    {
      var more, rest := DrainLines(buffer + chunks[next]);
      Feed(fed, buffer, chunks[next], rest, lines, more);
      ConcatNext(chunks, next);
      fed := fed + chunks[next];
      buffer := rest;
      lines := lines + more;
    }
    assert chunks[..|chunks|] == chunks;
    Finish(fed, buffer, flush, lines);
    var tail := FlushTail(buffer + flush);
    lines := lines + tail;
  }

  /** What the reader still emits once the stream has ended. */
  method FlushTail(buffer: string) returns (tail: seq<string>)
    ensures tail == if buffer == "" then [] else [StripCr(buffer)]
  {
    tail := [];
    if |buffer| > 0 {
      tail := [if buffer[|buffer| - 1] == CR then buffer[..|buffer| - 1] else buffer];
    }
  }

  lemma ConcatNext(chunks: seq<string>, next: nat)
    requires next < |chunks|
    ensures Concat(chunks[..next + 1]) == Concat(chunks[..next]) + chunks[next]
  {
    assert Front(chunks[..next + 1]) == chunks[..next];
  }

  /** Between chunks: every finished piece of the text so far has been emitted,
      and the buffer is exactly the unfinished one. */
  ghost predicate Emitted(fed: string, buffer: string, lines: seq<string>) {
    var ps := Pieces(fed);
    Last(ps) == buffer && lines == StripEach(Front(ps))
  }

  lemma Feed(fed: string, kept: string, chunk: string, rest: string, lines: seq<string>, more: seq<string>)
    requires Emitted(fed, kept, lines)
    requires Emitted(kept + chunk, rest, more)
    ensures Emitted(fed + chunk, rest, lines + more)
  {
    var buffer := kept + chunk;
    PiecesOfAppend(fed, chunk);
    FrontLast(Front(Pieces(fed)), Pieces(buffer));
  }

  lemma FrontLast(ps: seq<string>, qs: seq<string>)
    requires |qs| > 0
    ensures Front(ps + qs) == ps + Front(qs) && Last(ps + qs) == Last(qs)
  {}

  lemma Finish(fed: string, kept: string, flush: string, lines: seq<string>)
    requires LF !in kept && LF !in flush
    requires Emitted(fed, kept, lines)
    ensures TextLines(fed + flush) == lines + if kept + flush == "" then [] else [StripCr(kept + flush)]
  {
    var buffer := kept + flush;
    PiecesOfAppend(fed, flush);
    PiecesWithoutLf(buffer);
    FrontLast(Front(Pieces(fed)), [buffer]);
    assert Front(Pieces(fed)) + Front([buffer]) == Front(Pieces(fed));
    StripOneMore(Front(Pieces(fed)), buffer);
  }

  lemma StripOneMore(done: seq<string>, line: string)
    ensures StripEach(done + [line]) == StripEach(done) + [StripCr(line)]
  {}

  /** One turn of the inner loop: a finished piece leaves the buffer. */
  lemma Emit(fed: string, done: seq<string>, buffer: string, cut: nat)
    requires cut < |buffer| && buffer[cut] == LF && LF !in buffer[..cut]
    requires Pieces(fed) == done + Pieces(buffer)
    ensures Pieces(fed) == (done + [buffer[..cut]]) + Pieces(buffer[cut + 1..])
    ensures StripEach(done + [buffer[..cut]]) == StripEach(done) + [StripCr(buffer[..cut])]
  {
    var line, rest := buffer[..cut], buffer[cut + 1..];
    assert buffer == line + ([LF] + rest);
    MovePiece(fed, done, line, rest);
    StripOneMore(done, line);
  }

  lemma MovePiece(fed: string, done: seq<string>, line: string, rest: string)
    requires LF !in line
    requires Pieces(fed) == done + Pieces(line + ([LF] + rest))
    ensures Pieces(fed) == (done + [line]) + Pieces(rest)
  {
    PiecesAfterLf(line, rest);
    assert done + ([line] + Pieces(rest)) == (done + [line]) + Pieces(rest);
  }

  // ------------------------------------------------------------- read back

  /** What a sender writes: every line followed by one LF. */
  function Written(lines: seq<string>): string {
    if lines == [] then "" else lines[0] + [LF] + Written(lines[1..])
  }

  ghost predicate Survives(line: string) {
    LF !in line && (|line| > 0 ==> Last(line) != CR)
  }

  lemma {:induction false} PiecesOfWritten(lines: seq<string>)
    requires forall l :: l in lines ==> LF !in l
    ensures Pieces(Written(lines)) == lines + [""]
  {
    if lines != [] {
      PiecesOfWritten(lines[1..]);
      PiecesAfterLf(lines[0], Written(lines[1..]));
      assert Written(lines) == lines[0] + ([LF] + Written(lines[1..]));
    }
  }

  function Count(s: string): nat {
    if s == [] then 0 else (if s[0] == LF then 1 else 0) + Count(s[1..])
  }

  lemma {:induction false} CountAppend(a: string, b: string)
    ensures Count(a + b) == Count(a) + Count(b)
  {
    if a == [] {
      assert a + b == b;
    } else {
      CountAppend(a[1..], b);
      assert (a + b)[1..] == a[1..] + b;
    }
  }

  lemma {:induction false} PieceCount(text: string)
    ensures |Pieces(text)| == Count(text) + 1
  {
    if text != [] { PieceCount(text[1..]); }
  }

  lemma {:induction false} CountPositive(s: string)
    ensures Count(s) > 0 <==> LF in s
  {
    if s != [] { CountPositive(s[1..]); }
  }

  lemma {:induction false} WrittenCount(lines: seq<string>)
    ensures Count(Written(lines)) >= |lines|
    ensures (exists l :: l in lines && LF in l) ==> Count(Written(lines)) > |lines|
  {
    if lines != [] {
      WrittenCount(lines[1..]);
      CountPositive(lines[0]);
      CountAppend(lines[0], [LF] + Written(lines[1..]));
      assert Written(lines) == lines[0] + ([LF] + Written(lines[1..]));
      assert ([LF] + Written(lines[1..]))[1..] == Written(lines[1..]);
      if l :| l in lines && LF in l {
        assert l == lines[0] || l in lines[1..];
      }
    }
  }

  /** A list of lines written one per LF is read back exactly when no line holds
      an LF and none ends in a CR. */
  lemma ReadBackExactly(lines: seq<string>)
    ensures TextLines(Written(lines)) == lines <==> forall l :: l in lines ==> Survives(l)
  {
    if forall l :: l in lines ==> LF !in l {
      PiecesOfWritten(lines);
      assert Front(lines + [""]) == lines;
      StripIdentity(lines);
    } else {
      PieceCount(Written(lines));
      WrittenCount(lines);
    }
  }

  lemma StripIdentity(lines: seq<string>)
    ensures StripEach(lines) == lines <==> forall l :: l in lines ==> |l| > 0 ==> Last(l) != CR
  {
    if StripEach(lines) == lines {
      forall l | l in lines ensures |l| > 0 ==> Last(l) != CR {
        var k :| 0 <= k < |lines| && lines[k] == l;
        assert StripEach(lines)[k] == StripCr(lines[k]);
      }
    } else {
      var k :| 0 <= k < |lines| && StripEach(lines)[k] != lines[k];
      assert lines[k] in lines;
    }
  }

  function WithCr(lines: seq<string>): (r: seq<string>)
    ensures |r| == |lines|
    ensures forall k :: 0 <= k < |lines| ==> r[k] == lines[k] + [CR]
  {
    seq(|lines|, k requires 0 <= k < |lines| => lines[k] + [CR])
  }

  /** Lines written with CR and LF behind each come back exactly when none holds an LF: of
      the CRs a line ends in, one is taken off and the others are the line's own. */
  lemma CrLfReadBackExactly(lines: seq<string>)
    ensures TextLines(Written(WithCr(lines))) == lines <==> forall l :: l in lines ==> LF !in l
  {
    var written := WithCr(lines);
    if forall l :: l in lines ==> LF !in l {
      forall l | l in written ensures LF !in l {
        var k :| 0 <= k < |written| && written[k] == l;
        assert lines[k] in lines;
      }
      PiecesOfWritten(written);
      assert Front(written + [""]) == written;
      CrStripped(lines);
    } else {
      var l :| l in lines && LF in l;
      var k :| 0 <= k < |lines| && lines[k] == l;
      assert LF in written[k] && written[k] in written;
      PieceCount(Written(written));
      WrittenCount(written);
    }
  }

  lemma CrStripped(lines: seq<string>)
    ensures StripEach(WithCr(lines)) == lines
  {
    forall k | 0 <= k < |lines| ensures StripCr(WithCr(lines)[k]) == lines[k] {
      assert Front(lines[k] + [CR]) == lines[k];
    }
  }
}
