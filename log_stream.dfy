/** The line splitter that relays a gallery-dl subprocess's output into the
    log (`_log_stream` inside the gallery-dl runner). The stream is read in
    blocks; a carriage return counts as a line break, so that progress bars
    redrawn in place show up as they happen; every complete line is logged
    stripped, blank ones are dropped, and what is left in the buffer at the
    end of the stream is logged the same way. */
module LogStream {
  import opened Common

  /** A carriage return read as a line feed. */
  function AsNewline(c: char): char {
    if c == '\r' then '\n' else c
  }

  /** `s.replace("\r", "\n")` */
  function ReplaceCR(s: string): (r: string)
    ensures |r| == |s|
    ensures forall i :: 0 <= i < |s| ==> r[i] == AsNewline(s[i])
  {
    if s == [] then [] else [AsNewline(s[0])] + ReplaceCR(s[1..])
  }

  lemma ReplaceCRAppend(a: string, b: string)
    ensures ReplaceCR(a + b) == ReplaceCR(a) + ReplaceCR(b)
  {
    assert |ReplaceCR(a + b)| == |ReplaceCR(a) + ReplaceCR(b)|;
    forall i | 0 <= i < |a + b|
      ensures ReplaceCR(a + b)[i] == (ReplaceCR(a) + ReplaceCR(b))[i]
    {
      if i < |a| { assert (a + b)[i] == a[i]; } else { assert (a + b)[i] == b[i - |a|]; }
    }
  }

  lemma ReplaceCRNoCR(s: string)
    ensures '\r' !in ReplaceCR(s)
  {
    forall i | 0 <= i < |s|
      ensures ReplaceCR(s)[i] != '\r'
    {
    }
  }

  lemma ReplaceCRNoop(s: string)
    requires '\r' !in s
    ensures ReplaceCR(s) == s
  {
  }

  /** Everything the stream delivered, in order. */
  function Concat(chunks: seq<string>): string {
    if chunks == [] then "" else Concat(chunks[..|chunks| - 1]) + chunks[|chunks| - 1]
  }

  /** The prefix each relayed line carries. */
  function Tag(isStderr: bool): string {
    if isStderr then "[gallery-dl][stderr] " else "[gallery-dl] "
  }

  /** Each piece between line breaks, stripped. */
  function Stripped(pieces: seq<string>): (r: seq<string>)
    ensures |r| == |pieces|
  {
    if pieces == [] then [] else Stripped(pieces[..|pieces| - 1]) + [Strip(pieces[|pieces| - 1])]
  }

  lemma {:induction false} StrippedAppend(a: seq<string>, b: seq<string>)
    ensures Stripped(a + b) == Stripped(a) + Stripped(b)
  {
    if b == [] {
      assert a + b == a;
    } else {
      var n := |b|;
      assert (a + b)[..|a + b| - 1] == a + b[..n - 1];
      StrippedAppend(a, b[..n - 1]);
    }
  }

  /** The log records for a run of stripped lines: blank ones are dropped,
      the others carry the tag. */
  function Kept(lines: seq<string>, tag: string): seq<string> {
    if lines == [] then []
    else Kept(lines[..|lines| - 1], tag) + (if lines[|lines| - 1] == "" then [] else [tag + lines[|lines| - 1]])
  }

  lemma {:induction false} KeptAppend(a: seq<string>, b: seq<string>, tag: string)
    ensures Kept(a + b, tag) == Kept(a, tag) + Kept(b, tag)
  {
    if b == [] {
      assert a + b == a;
    } else {
      var n := |b|;
      assert (a + b)[..|a + b| - 1] == a + b[..n - 1];
      KeptAppend(a, b[..n - 1], tag);
    }
  }

  /** The log records for a run of pieces, in order. */
  function Records(pieces: seq<string>, tag: string): seq<string> {
    Kept(Stripped(pieces), tag)
  }

  lemma RecordsAppend(a: seq<string>, b: seq<string>, tag: string)
    ensures Records(a + b, tag) == Records(a, tag) + Records(b, tag)
  {
    StrippedAppend(a, b);
    KeptAppend(Stripped(a), Stripped(b), tag);
  }

  /** The records the whole stream yields: the text with carriage returns
      read as line breaks, cut at every line break, each piece stripped and
      blank ones dropped. */
  function Logged(chunks: seq<string>, isStderr: bool): seq<string> {
    Records(Split(ReplaceCR(Concat(chunks)), '\n'), Tag(isStderr))
  }

  lemma LastSplit<T>(s: seq<T>)
    requires |s| > 0
    ensures s == s[..|s| - 1] + [s[|s| - 1]]
  {
  }

  /** Feeding one more block: the pieces already complete stay as they
      are, and the open last piece, with the block appended, is split anew. */
  lemma FeedStep(before: string, done: seq<string>, buffer: string, text: string)
    requires Split(before, '\n') == done + [buffer] && '\r' !in buffer
    ensures Split(before + ReplaceCR(text), '\n') == done + Split(ReplaceCR(buffer + text), '\n')
  {
    ReplaceCRAppend(buffer, text);
    ReplaceCRNoop(buffer);
    SplitAppend(before, ReplaceCR(text), '\n');
    assert (done + [buffer])[..|done|] == done;
  }

  /** The `for line in lines[:-1]` loop: each line stripped, blank ones
      skipped, the rest logged with the tag. */
  method LogLines(lines: seq<string>, tag: string) returns (out: seq<string>)
    ensures out == Records(lines, tag)
  {
    out := [];
    var j := 0;
    while j < |lines|
      invariant 0 <= j <= |lines|
      invariant out == Records(lines[..j], tag)
    {
      assert lines[..j + 1] == lines[..j] + [lines[j]];
      RecordsAppend(lines[..j], [lines[j]], tag);
      var line := Strip(lines[j]);
      if line != "" {
        out := out + [tag + line];
      }
      j := j + 1;
    }
    assert lines[..j] == lines;
  }

  /** The invariant of the reading loop, carried over one more block. */
  lemma Advance(prefix: seq<string>, text: string, done: seq<string>, buffer: string, rest: string)
    requires Split(ReplaceCR(Concat(prefix)), '\n') == done + [buffer] && '\r' !in buffer
    requires var pieces := Split(ReplaceCR(buffer + text), '\n');
             pieces == pieces[..|pieces| - 1] + [rest]
    ensures var pieces := Split(ReplaceCR(buffer + text), '\n');
            Split(ReplaceCR(Concat(prefix + [text])), '\n') == (done + pieces[..|pieces| - 1]) + [rest]
  {
    assert (prefix + [text])[..|prefix|] == prefix;
    ReplaceCRAppend(Concat(prefix), text);
    FeedStep(ReplaceCR(Concat(prefix)), done, buffer, text);
  }

  /** One block read from the stream: it is appended to the buffer, line
      breaks are normalised, the complete lines are logged and the
      unterminated rest becomes the new buffer. */
  method Feed(buffer: string, text: string, tag: string) returns (out: seq<string>, rest: string)
    requires '\r' !in buffer
    ensures var pieces := Split(ReplaceCR(buffer + text), '\n');
            pieces == pieces[..|pieces| - 1] + [rest] && out == Records(pieces[..|pieces| - 1], tag)
    ensures '\r' !in rest
  {
    var joined := ReplaceCR(buffer + text);
    var lines := Split(joined, '\n');
    ReplaceCRNoCR(buffer + text);
    SplitPiecesFrom(joined, '\n', '\r', |lines| - 1);
    out := LogLines(lines[..|lines| - 1], tag);
    rest := lines[|lines| - 1];
    LastSplit(lines);
  }

  /** `_log_stream(stream, is_stderr)`. `None` stands for a missing stream;
      otherwise the stream is the sequence of decoded blocks it delivers, and
      the result is the sequence of lines written to the log. However the
      text is cut into blocks, the log is the same. */
  method RelayStream(stream: Option<seq<string>>, isStderr: bool) returns (logged: seq<string>)
    ensures stream.None? ==> logged == []
    ensures stream.Some? ==> logged == Logged(stream.value, isStderr)
  {
    logged := [];
    if stream.None? {
      return;
    }
    var chunks := stream.value;
    var tag := Tag(isStderr);
    var buffer := "";
    ghost var done: seq<string> := [];
    var i := 0;
    while i < |chunks|
      invariant 0 <= i <= |chunks|
      invariant '\r' !in buffer
      invariant Split(ReplaceCR(Concat(chunks[..i])), '\n') == done + [buffer]
      invariant logged == Records(done, tag)
    {
      var text := chunks[i];
      LastSplit(chunks[..i + 1]);
      assert chunks[..i + 1][..i] == chunks[..i];
      if text != "" {
        ghost var pieces := Split(ReplaceCR(buffer + text), '\n');
        var complete, rest := Feed(buffer, text, tag);
        Advance(chunks[..i], text, done, buffer, rest);
        RecordsAppend(done, pieces[..|pieces| - 1], tag);
        logged := logged + complete;
        done := done + pieces[..|pieces| - 1];
        buffer := rest;
      } else {
        assert chunks[..i + 1] == chunks[..i] + [""];
        assert Concat(chunks[..i]) + "" == Concat(chunks[..i]);
      }
      i := i + 1;
    }
    assert chunks[..i] == chunks;
    RecordsAppend(done, [buffer], tag);
    var rest := Strip(buffer);
    if rest != "" {
      logged := logged + [tag + rest];
    }
  }

  /** Each record is the tag followed by a non-blank line, and holds no
      line break the line did not hold. */
  lemma {:induction false} KeptShape(lines: seq<string>, tag: string)
    requires forall k :: 0 <= k < |lines| ==> '\n' !in lines[k] && '\r' !in lines[k]
    ensures forall r :: r in Kept(lines, tag) ==>
              StartsWith(r, tag) && |r| > |tag| && '\n' !in r[|tag|..] && '\r' !in r[|tag|..]
  {
    if lines != [] {
      var n := |lines|;
      KeptShape(lines[..n - 1], tag);
      var r := tag + lines[n - 1];
      assert r[|tag|..] == lines[n - 1] && r[..|tag|] == tag;
    }
  }

  /** Stripping keeps only characters of the piece it strips. */
  lemma {:induction false} StrippedInside(pieces: seq<string>, x: char)
    requires forall k :: 0 <= k < |pieces| ==> x !in pieces[k]
    ensures forall k :: 0 <= k < |pieces| ==> x !in Stripped(pieces)[k]
  {
    if pieces != [] {
      var n := |pieces|;
      StrippedInside(pieces[..n - 1], x);
      StripChars(pieces[n - 1]);
    }
  }

  lemma LoggedShape(chunks: seq<string>, isStderr: bool)
    ensures forall r :: r in Logged(chunks, isStderr) ==>
              StartsWith(r, Tag(isStderr)) && |r| > |Tag(isStderr)|
              && '\n' !in r[|Tag(isStderr)|..] && '\r' !in r[|Tag(isStderr)|..]
  {
    var pieces := Split(ReplaceCR(Concat(chunks)), '\n');
    ReplaceCRNoCR(Concat(chunks));
    forall k | 0 <= k < |pieces|
      ensures '\r' !in pieces[k]
    {
      SplitPiecesFrom(ReplaceCR(Concat(chunks)), '\n', '\r', k);
    }
    StrippedInside(pieces, '\n');
    StrippedInside(pieces, '\r');
    KeptShape(Stripped(pieces), Tag(isStderr));
  }

  /** A character absent from the text is absent from every piece of it. */
  lemma {:induction false} SplitPiecesFrom(s: string, c: char, x: char, k: int)
    requires x !in s && 0 <= k < |Split(s, c)|
    ensures x !in Split(s, c)[k]
  {
    if |s| > 0 {
      assert x !in s[1..] by {
        forall j | 0 <= j < |s[1..]|
          ensures s[1..][j] != x
        {
          assert s[1..][j] == s[j + 1];
        }
      }
      var rest := Split(s[1..], c);
      if s[0] == c {
        if k > 0 { SplitPiecesFrom(s[1..], c, x, k - 1); }
      } else if k == 0 {
        SplitPiecesFrom(s[1..], c, x, 0);
      } else {
        SplitPiecesFrom(s[1..], c, x, k);
      }
    }
  }

  /** Output with no line break at all, such as the last progress redraw
      before the process ends, is still logged once, from the final flush. */
  lemma UnterminatedTailIsFlushed(text: string, isStderr: bool)
    requires '\n' !in text && '\r' !in text && Strip(text) != ""
    ensures Logged([text], isStderr) == [Tag(isStderr) + Strip(text)]
  {
    assert Concat([text]) == Concat([]) + text == text;
    ReplaceCRNoop(text);
    SplitNoSeparator(text, '\n');
    StrippedOne(text);
    KeptOne(Strip(text), Tag(isStderr));
  }

  lemma StrippedOne(piece: string)
    ensures Stripped([piece]) == [Strip(piece)]
  {
    assert [piece][..0] == [];
  }

  lemma KeptOne(line: string, tag: string)
    requires line != ""
    ensures Kept([line], tag) == [tag + line]
  {
    assert [line][..0] == [];
  }

  /** A progress bar redrawn in place with carriage returns is logged
      exactly as if each redraw had been a line of its own. */
  lemma CarriageReturnActsAsNewline(a: string, b: string, isStderr: bool)
    ensures Logged([a + "\r" + b], isStderr) == Logged([a + "\n" + b], isStderr)
  {
    assert Concat([a + "\r" + b]) == a + "\r" + b;
    assert Concat([a + "\n" + b]) == a + "\n" + b;
    ReplaceCRAppend(a + "\r", b);
    ReplaceCRAppend(a, "\r");
    ReplaceCRAppend(a + "\n", b);
    ReplaceCRAppend(a, "\n");
  }
}
