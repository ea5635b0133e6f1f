/**
 Forwarding of a controller's output streams (crates/ro-sessiond/src/process.rs).

 Bytes arrive in reads of at most READ_SIZE bytes. Complete lines are emitted as they
 appear; a line longer than RUNNER_LINE_MAX is emitted in pieces, every piece but the first
 marked as a continuation. Each piece is decoded on its own before it is written, and what is not
 UTF-8 in it is replaced.
 */
module OutputForwarder {
  import opened Basics
  import opened ByteLines
  import opened Utf8

  const RUNNER_LINE_MAX: nat := 64 * 1024
  const READ_SIZE: nat := 8192

  datatype Piece = Piece(text: seq<byte>, continuation: bool)

  /** The lines that pieces make up: continuations glued to their predecessor. */
  function Join(pieces: seq<Piece>): (r: seq<seq<byte>>)
    ensures pieces != [] ==> r != []
    decreases |pieces|, 0
  {
    if pieces == [] then []
    else
      var init, last := pieces[..|pieces| - 1], pieces[|pieces| - 1];
      ClosedLines(init, last.continuation) + [OpenLine(init, last.continuation) + last.text]
  }

  /** The lines of a log that a next piece cannot extend. */
  function ClosedLines(pieces: seq<Piece>, continuation: bool): (r: seq<seq<byte>>)
    decreases |pieces|, 1
  {
    var joined := Join(pieces);
    if continuation && joined != [] then joined[..|joined| - 1] else joined
  }

  /** What a next piece would be glued to. */
  function OpenLine(pieces: seq<Piece>, continuation: bool): (r: seq<byte>)
    decreases |pieces|, 1
  {
    var joined := Join(pieces);
    if continuation && joined != [] then joined[|joined| - 1] else []
  }

  lemma JoinSnoc(pieces: seq<Piece>, text: seq<byte>, continuation: bool)
    ensures Join(pieces + [Piece(text, continuation)]) ==
            ClosedLines(pieces, continuation) + [OpenLine(pieces, continuation) + text]
  {
    assert (pieces + [Piece(text, continuation)])[..|pieces|] == pieces;
  }

  /** Emitting a piece with its newline closes the line under way. */
  lemma EmitLine(pieces: seq<Piece>, text: seq<byte>, continuation: bool, rest: seq<byte>)
    requires NEWLINE !in OpenLine(pieces, continuation) && NEWLINE !in text
    ensures var pieces' := pieces + [Piece(text, continuation)];
            var open := OpenLine(pieces, continuation) + (text + [NEWLINE] + rest);
            && ClosedLines(pieces', false) + Lines(rest) == ClosedLines(pieces, continuation) + Lines(open)
            && OpenLine(pieces', false) == []
            && Tail(open) == Tail(rest)
  {
    JoinSnoc(pieces, text, continuation);
    hide Lines, Tail;
    var line := OpenLine(pieces, continuation) + text;
    SplitFirst(line, rest);
    assert OpenLine(pieces, continuation) + (text + [NEWLINE] + rest) == line + [NEWLINE] + rest;
  }

  /** Emitting a piece without newline leaves the line under way open. */
  lemma EmitPart(pieces: seq<Piece>, text: seq<byte>, continuation: bool)
    ensures var pieces' := pieces + [Piece(text, continuation)];
            && ClosedLines(pieces', true) == ClosedLines(pieces, continuation)
            && OpenLine(pieces', true) == OpenLine(pieces, continuation) + text
  {
    JoinSnoc(pieces, text, continuation);
  }

  /** At end of stream a non-empty carry completes the line under way. */
  lemma FinalJoin(pieces: seq<Piece>, continuation: bool, carry: seq<byte>)
    requires continuation ==> carry != []
    ensures carry == [] ==> Join(pieces) == ClosedLines(pieces, continuation)
    ensures carry == [] ==> OpenLine(pieces, continuation) + carry == []
    ensures carry != [] ==>
              Join(pieces + [Piece(carry, continuation)])
              == ClosedLines(pieces, continuation) + [OpenLine(pieces, continuation) + carry]
  {
    JoinSnoc(pieces, carry, continuation);
  }

  /** The lines of a whole stream: an unterminated last line counts unless it is empty. */
  function StreamLines(s: seq<byte>): (r: seq<seq<byte>>)
  {
    Lines(s) + if Tail(s) == [] then [] else [Tail(s)]
  }

  ghost predicate Bounded(pieces: seq<Piece>, limit: nat)
  {
    forall i :: 0 <= i < |pieces| ==> |pieces[i].text| <= limit
  }

  /** Only whole stretches of RUNNER_LINE_MAX bytes are continued, and by something. */
  ghost predicate Cuts(pieces: seq<Piece>)
  {
    forall i :: 0 < i < |pieces| && pieces[i].continuation ==>
      |pieces[i - 1].text| == RUNNER_LINE_MAX && pieces[i].text != []
  }

  lemma CutsSnoc(pieces: seq<Piece>, p: Piece)
    ensures Cuts(pieces + [p]) <==>
            Cuts(pieces) && (pieces != [] && p.continuation ==>
                               |pieces[|pieces| - 1].text| == RUNNER_LINE_MAX && p.text != [])
  {
    var all := pieces + [p];
    assert all[|pieces|] == p;
    assert forall i :: 0 <= i < |pieces| ==> all[i] == pieces[i];
  }

  // ---------------------------------------------------------------- decoding

  /** The pieces as they are written to the log. */
  function Decoded(pieces: seq<Piece>): (r: seq<Piece>)
    ensures |r| == |pieces|
    ensures forall i :: 0 <= i < |r| ==> r[i] == Piece(Lossy(pieces[i].text), pieces[i].continuation)
  {
    seq(|pieces|, i requires 0 <= i < |pieces| => Piece(Lossy(pieces[i].text), pieces[i].continuation))
  }

  lemma DecodedSnoc(pieces: seq<Piece>, p: Piece)
    ensures Decoded(pieces + [p]) == Decoded(pieces) + [Piece(Lossy(p.text), p.continuation)]
  {
  }

  ghost predicate Longer(a: seq<seq<byte>>, b: seq<seq<byte>>)
  {
    |a| == |b| && forall i :: 0 <= i < |a| ==> |a[i]| >= |b[i]|
  }

  /** Decoding keeps the number of lines and never shortens one. */
  lemma {:induction false} DecodingLengthens(pieces: seq<Piece>)
    ensures Longer(Join(Decoded(pieces)), Join(pieces))
    decreases |pieces|
  {
    if pieces != [] {
      var init, last := pieces[..|pieces| - 1], pieces[|pieces| - 1];
      assert pieces == init + [last];
      DecodedSnoc(init, last);
      DecodingLengthens(init);
      JoinSnoc(init, last.text, last.continuation);
      JoinSnoc(Decoded(init), Lossy(last.text), last.continuation);
      hide Join, Lossy;
    }
  }

  ghost predicate AllUtf8(texts: seq<seq<byte>>)
  {
    forall i :: 0 <= i < |texts| ==> IsUtf8(texts[i])
  }

  function Texts(pieces: seq<Piece>): (r: seq<seq<byte>>)
    ensures |r| == |pieces|
    ensures forall i :: 0 <= i < |r| ==> r[i] == pieces[i].text
  {
    seq(|pieces|, i requires 0 <= i < |pieces| => pieces[i].text)
  }

  lemma EqualParts(a: seq<byte>, b: seq<byte>, a': seq<byte>, b': seq<byte>)
    requires |a'| >= |a| && |b'| >= |b| && a' + b' == a + b
    ensures a' == a && b' == b
  {
    assert |a' + b'| == |a| + |b|;
    assert a' == (a' + b')[..|a|] && a == (a + b)[..|a|];
    assert b' == (a' + b')[|a|..] && b == (a + b)[|a|..];
  }

  /** Lines that come through decoding unchanged have pieces that do. */
  lemma {:induction false} UnchangedPieces(pieces: seq<Piece>)
    requires Join(Decoded(pieces)) == Join(pieces)
    ensures AllUtf8(Texts(pieces))
    decreases |pieces|
  {
    if pieces != [] {
      var init, last := pieces[..|pieces| - 1], pieces[|pieces| - 1];
      assert pieces == init + [last];
      DecodedSnoc(init, last);
      JoinSnoc(init, last.text, last.continuation);
      JoinSnoc(Decoded(init), Lossy(last.text), last.continuation);
      DecodingLengthens(init);
      UnchangedLast(init, last);
      LossyIsExactIff(last.text);
      UnchangedPieces(init);
      hide Join, Lossy, IsUtf8;
      assert Texts(pieces) == Texts(init) + [last.text];
    }
  }

  lemma UnchangedLast(init: seq<Piece>, last: Piece)
    requires Longer(Join(Decoded(init)), Join(init))
    requires ClosedLines(Decoded(init), last.continuation) + [OpenLine(Decoded(init), last.continuation) + Lossy(last.text)]
          == ClosedLines(init, last.continuation) + [OpenLine(init, last.continuation) + last.text]
    ensures Join(Decoded(init)) == Join(init) && Lossy(last.text) == last.text
  {
    var a, a' := ClosedLines(init, last.continuation), ClosedLines(Decoded(init), last.continuation);
    var x, x' := OpenLine(init, last.continuation), OpenLine(Decoded(init), last.continuation);
    hide Join, Lossy;
    SameSnoc(a, x + last.text, a', x' + Lossy(last.text));
    EqualParts(x, last.text, x', Lossy(last.text));
    var joined, joined' := Join(init), Join(Decoded(init));
    if last.continuation && joined != [] {
      assert joined == a + [x] && joined' == a' + [x'];
    }
  }

  lemma SameSnoc<T>(a: seq<T>, x: T, b: seq<T>, y: T)
    requires a + [x] == b + [y]
    ensures a == b && x == y
  {
    assert |a + [x]| == |b + [y]|;
    assert a == (a + [x])[..|a|] && b == (b + [y])[..|b|];
    assert x == (a + [x])[|a|] && y == (b + [y])[|b|];
  }

  /** No cut falls inside a character. */
  ghost predicate CleanCuts(pieces: seq<Piece>)
  {
    forall i :: 0 < i < |pieces| && pieces[i].continuation ==> !StartsInside(pieces[i].text)
  }

  /** All pieces are UTF-8 exactly if the lines are and no cut falls inside a character. */
  lemma {:induction false} PiecesAreUtf8Iff(pieces: seq<Piece>)
    ensures AllUtf8(Texts(pieces)) <==> AllUtf8(Join(pieces)) && CleanCuts(pieces)
    decreases |pieces|
  {
    if pieces != [] {
      var init, last := pieces[..|pieces| - 1], pieces[|pieces| - 1];
      assert pieces == init + [last];
      JoinSnoc(init, last.text, last.continuation);
      PiecesAreUtf8Iff(init);
      hide Join, IsUtf8, StartsInside;
      UtfSnoc(Texts(init), last.text);
      assert Texts(pieces) == Texts(init) + [last.text];
      UtfSnoc(ClosedLines(init, last.continuation), OpenLine(init, last.continuation) + last.text);
      CutIsCleanIff(OpenLine(init, last.continuation), last.text);
      CleanSnoc(init, last);
      LastLine(init, last);
    }
  }

  lemma UtfSnoc(texts: seq<seq<byte>>, text: seq<byte>)
    ensures AllUtf8(texts + [text]) <==> AllUtf8(texts) && IsUtf8(text)
  {
    hide IsUtf8;
    assert (texts + [text])[|texts|] == text;
    assert forall i :: 0 <= i < |texts| ==> (texts + [text])[i] == texts[i];
  }

  lemma CleanSnoc(init: seq<Piece>, last: Piece)
    ensures CleanCuts(init + [last]) <==> CleanCuts(init) && (init != [] && last.continuation ==> !StartsInside(last.text))
  {
    assert (init + [last])[|init|] == last;
    assert forall i :: 0 <= i < |init| ==> (init + [last])[i] == init[i];
  }

  lemma LastLine(init: seq<Piece>, last: Piece)
    ensures if init != [] && last.continuation then
              AllUtf8(Join(init)) <==> AllUtf8(ClosedLines(init, true)) && IsUtf8(OpenLine(init, true))
            else
              ClosedLines(init, last.continuation) == Join(init) && OpenLine(init, last.continuation) == []
  {
    hide IsUtf8;
    var joined := Join(init);
    if init != [] && last.continuation {
      hide Join;
      assert joined == ClosedLines(init, true) + [OpenLine(init, true)];
      UtfSnoc(ClosedLines(init, true), OpenLine(init, true));
    }
  }

  /** The written log has the exact lines exactly if these are UTF-8 and no cut falls inside a character. */
  lemma NothingIsReplacedIff(pieces: seq<Piece>)
    ensures Join(Decoded(pieces)) == Join(pieces) <==> AllUtf8(Join(pieces)) && CleanCuts(pieces)
  {
    PiecesAreUtf8Iff(pieces);
    if AllUtf8(Texts(pieces)) {
      forall i | 0 <= i < |pieces|
        ensures Decoded(pieces)[i] == pieces[i]
      {
        assert IsUtf8(Texts(pieces)[i]);
        LossyIsExactIff(pieces[i].text);
      }
      assert Decoded(pieces) == pieces;
    }
    hide Join, AllUtf8, CleanCuts;
    if Join(Decoded(pieces)) == Join(pieces) {
      UnchangedPieces(pieces);
    }
  }

  /** No character of the line stands across a multiple of RUNNER_LINE_MAX. */
  ghost predicate FitsCuts(line: seq<byte>)
  {
    forall j :: 0 < j < |line| && j % RUNNER_LINE_MAX == 0 ==> !Continues(line[j])
  }

  ghost predicate AllFitCuts(lines: seq<seq<byte>>)
  {
    forall i :: 0 <= i < |lines| ==> FitsCuts(lines[i])
  }

  /** What a continuation is glued to has a multiple of RUNNER_LINE_MAX bytes. */
  lemma {:induction false} OpenIsMultiple(pieces: seq<Piece>)
    requires pieces != [] && Cuts(pieces) && |pieces[|pieces| - 1].text| == RUNNER_LINE_MAX
    ensures |OpenLine(pieces, true)| % RUNNER_LINE_MAX == 0
    decreases |pieces|
  {
    hide Join, OpenLine, Cuts;
    var init, last := pieces[..|pieces| - 1], pieces[|pieces| - 1];
    assert pieces == init + [last];
    CutsSnoc(init, last);
    EmitPart(init, last.text, last.continuation);
    if last.continuation && init != [] {
      OpenIsMultiple(init);
    } else {
      LastLine(init, last);
    }
    OneStretchMore(|OpenLine(init, last.continuation)|);
  }

  lemma OneStretchMore(n: nat)
    requires n % RUNNER_LINE_MAX == 0
    ensures (n + RUNNER_LINE_MAX) % RUNNER_LINE_MAX == 0
  {
  }

  lemma FittingPrefix(line: seq<byte>, more: seq<byte>)
    requires FitsCuts(line + more)
    ensures FitsCuts(line)
    ensures more != [] && line != [] && |line| % RUNNER_LINE_MAX == 0 ==> !StartsInside(more)
  {
    forall j | 0 < j < |line| && j % RUNNER_LINE_MAX == 0
      ensures !Continues(line[j])
    {
      assert (line + more)[j] == line[j];
    }
    if more != [] && line != [] && |line| % RUNNER_LINE_MAX == 0 {
      assert (line + more)[|line|] == more[0];
    }
  }

  lemma FitSnoc(lines: seq<seq<byte>>, line: seq<byte>)
    ensures AllFitCuts(lines + [line]) <==> AllFitCuts(lines) && FitsCuts(line)
  {
    hide FitsCuts;
    assert (lines + [line])[|lines|] == line;
    assert forall i :: 0 <= i < |lines| ==> (lines + [line])[i] == lines[i];
  }

  /** Cuts fall only at multiples of RUNNER_LINE_MAX, so lines that fit them are cut cleanly, however they arrive. */
  lemma {:induction false} FittingLinesAreCutCleanly(pieces: seq<Piece>)
    requires Cuts(pieces) && AllFitCuts(Join(pieces))
    ensures CleanCuts(pieces)
    decreases |pieces|
  {
    if pieces != [] {
      var init, last := pieces[..|pieces| - 1], pieces[|pieces| - 1];
      assert pieces == init + [last];
      JoinSnoc(init, last.text, last.continuation);
      if init != [] && last.continuation {
        OpenIsMultiple(init);
      }
      OpenIsThere(init, last.continuation);
      LastLine(init, last);
      hide Join, FitsCuts, StartsInside, AllFitCuts;
      var closed, open := ClosedLines(init, last.continuation), OpenLine(init, last.continuation);
      FitSnoc(closed, open + last.text);
      FittingPrefix(open, last.text);
      FitSnoc(closed, open);
      assert init == pieces[..|init|];
      FittingLinesAreCutCleanly(init);
      CleanSnoc(init, last);
    }
  }

  lemma FitsAppend(open: seq<byte>, text: seq<byte>)
    requires FitsCuts(open) && |open| % RUNNER_LINE_MAX == 0 && |text| <= RUNNER_LINE_MAX
    requires open != [] ==> !StartsInside(text)
    ensures FitsCuts(open + text)
  {
    var line := open + text;
    forall j | 0 < j < |line| && j % RUNNER_LINE_MAX == 0
      ensures !Continues(line[j])
    {
      if j > |open| {
        NoMultipleBetween(|open|, j);
      }
    }
  }

  lemma NoMultipleBetween(a: nat, j: nat)
    requires a % RUNNER_LINE_MAX == 0 && a < j < a + RUNNER_LINE_MAX
    ensures j % RUNNER_LINE_MAX != 0
  {
  }

  /** When no piece is longer than RUNNER_LINE_MAX, every multiple is a cut: clean cuts mean fitting lines. */
  lemma {:induction false} FinestCutsNeedFittingLines(pieces: seq<Piece>)
    requires Cuts(pieces) && Bounded(pieces, RUNNER_LINE_MAX) && CleanCuts(pieces)
    ensures AllFitCuts(Join(pieces))
    decreases |pieces|
  {
    if pieces != [] {
      var init, last := pieces[..|pieces| - 1], pieces[|pieces| - 1];
      assert pieces == init + [last];
      CutsSnoc(init, last);
      CleanSnoc(init, last);
      JoinSnoc(init, last.text, last.continuation);
      FinestCutsNeedFittingLines(init);
      OpenIsThere(init, last.continuation);
      if init != [] && last.continuation {
        OpenIsMultiple(init);
      }
      LastLine(init, last);
      assert FitsCuts([]);
      hide Join, FitsCuts, StartsInside, AllFitCuts;
      var closed, open := ClosedLines(init, last.continuation), OpenLine(init, last.continuation);
      FitSnoc(closed, open);
      FitsAppend(open, last.text);
      FitSnoc(closed, open + last.text);
    }
  }

  lemma OpenIsThere(pieces: seq<Piece>, continuation: bool)
    requires Cuts(pieces)
    ensures continuation && pieces != [] ==> Join(pieces) == ClosedLines(pieces, true) + [OpenLine(pieces, true)]
    ensures continuation && pieces != [] && |pieces[|pieces| - 1].text| == RUNNER_LINE_MAX ==> OpenLine(pieces, true) != []
  {
    if pieces != [] {
      var init, last := pieces[..|pieces| - 1], pieces[|pieces| - 1];
      assert pieces == init + [last];
      EmitPart(init, last.text, last.continuation);
    }
  }

  /** The first piece, and whether the second goes on with its line. */
  lemma {:induction false} FirstTwo(pieces: seq<Piece>)
    requires |pieces| >= 2
    ensures Join(pieces) != []
    ensures if pieces[1].continuation then pieces[0].text + pieces[1].text <= Join(pieces)[0] else |Join(pieces)| >= 2
    decreases |pieces|
  {
    var init, last := pieces[..|pieces| - 1], pieces[|pieces| - 1];
    assert pieces == init + [last];
    JoinSnoc(init, last.text, last.continuation);
    if |pieces| == 2 {
      OnlyPiece(init[0]);
      hide Join;
      assert init == [init[0]] && pieces[1] == last;
      if last.continuation {
        assert Join(pieces)[0] == init[0].text + last.text;
      }
    } else {
      FirstTwo(init);
      hide Join;
    }
  }

  lemma OnlyPiece(p: Piece)
    ensures Join([p]) == [p.text]
  {
    JoinSnoc([], p.text, p.continuation);
    assert [] + [p] == [p] && Join([]) == [] && [] + p.text == p.text;
  }

  /**
   A line too long for one piece whose first cut falls inside a character never reaches the log
   unchanged, however it arrives.
   */
  lemma SplitCharacterIsReplaced(pieces: seq<Piece>, line: seq<byte>)
    requires Join(pieces) == [line] && Cuts(pieces) && Bounded(pieces, RUNNER_LINE_MAX + READ_SIZE - 1)
    requires |line| >= RUNNER_LINE_MAX + READ_SIZE && Continues(line[RUNNER_LINE_MAX])
    ensures Join(Decoded(pieces)) != [line]
  {
    assert Join([]) == [];
    if |pieces| == 1 {
      assert pieces == [pieces[0]];
      OnlyPiece(pieces[0]);
    }
    hide Join;
    assert |pieces| >= 2;
    FirstTwo(pieces);
    assert pieces[1].continuation;
    var first := pieces[0].text + pieces[1].text;
    assert first[RUNNER_LINE_MAX] == pieces[1].text[0] == line[RUNNER_LINE_MAX];
    assert StartsInside(pieces[1].text);
    NothingIsReplacedIff(pieces);
  }

  /** When the lines reach the log unchanged, for the given pieces and for any. */
  lemma WhatTheLogKeeps(pieces: seq<Piece>, size: nat)
    requires size > 0 && Cuts(pieces) && Bounded(pieces, RUNNER_LINE_MAX + size - 1)
    ensures var lines := Join(pieces);
            && (Join(Decoded(pieces)) == lines <==> AllUtf8(lines) && CleanCuts(pieces))
            && (AllUtf8(lines) && AllFitCuts(lines) ==> Join(Decoded(pieces)) == lines)
            && (size == 1 && Join(Decoded(pieces)) == lines ==> AllUtf8(lines) && AllFitCuts(lines))
  {
    hide *;
    NothingIsReplacedIff(pieces);
    if AllFitCuts(Join(pieces)) {
      FittingLinesAreCutCleanly(pieces);
    }
    if size == 1 && CleanCuts(pieces) {
      FinestCutsNeedFittingLines(pieces);
    }
  }

  class Forwarder {
    var carry: seq<byte>
    var continuation: bool
    var written: seq<Piece>
    /** The written pieces before they were decoded. */
    ghost var emitted: seq<Piece>

    /** The lines already finished in the log. */
    ghost function Closed(): (r: seq<seq<byte>>)
      reads this
    {
      ClosedLines(emitted, continuation)
    }

    /** The line under way: its part in the log, then the bytes still carried. */
    ghost function Open(): (r: seq<byte>)
      reads this
    {
      OpenLine(emitted, continuation) + carry
    }

    /** A pending continuation has a whole stretch before it and bytes after it. */
    ghost predicate Valid()
      reads this
    {
      && NEWLINE !in OpenLine(emitted, continuation)
      && (continuation ==> && emitted != [] && |emitted[|emitted| - 1].text| == RUNNER_LINE_MAX
                           && carry != [] && carry[0] != NEWLINE)
      && Cuts(emitted) && written == Decoded(emitted)
    }

    /** Between reads no complete line and no over-long piece is held back. */
    ghost predicate Flushed()
      reads this
    {
      Valid() && NEWLINE !in carry && |carry| <= RUNNER_LINE_MAX
    }

    constructor ()
      ensures Flushed() && emitted == [] && carry == []
    {
      carry, continuation, written, emitted := [], false, [], [];
    }

    /** A piece is decoded and written. */
    method EmitRunnerLine(text: seq<byte>)
      requires written == Decoded(emitted)
      modifies this`written, this`emitted
      ensures emitted == old(emitted) + [Piece(text, continuation)]
      ensures written == Decoded(emitted)
    {
      DecodedSnoc(emitted, Piece(text, continuation));
      hide Lossy;
      written := written + [Piece(Lossy(text), continuation)];
      emitted := emitted + [Piece(text, continuation)];
    }

    /** The first loop of flush_runner_carry: every complete line leaves the carry. */
    method FlushCompleteLines(ghost limit: nat)
      requires Valid() && Bounded(emitted, limit) && |carry| <= limit + 1
      modifies this
      ensures Valid() && Bounded(emitted, limit) && |carry| <= limit + 1
      ensures NEWLINE !in carry
      ensures Closed() == old(Closed()) + Lines(old(Open()))
      ensures Open() == Tail(old(Open()))
    {
      hide Lines, Tail, Join, OpenLine, ClosedLines, Decoded, Cuts;
      while NEWLINE in carry
        invariant Valid() && Bounded(emitted, limit) && |carry| <= limit + 1
        invariant Closed() + Lines(Open()) == old(Closed()) + Lines(old(Open()))
        invariant Tail(Open()) == Tail(old(Open()))
        decreases |carry|
      {
        var pos := IndexOf(carry, NEWLINE);
        var line, rest := carry[..pos], carry[pos + 1..];
        assert carry == line + [NEWLINE] + rest;
        CutsSnoc(emitted, Piece(line, continuation));
        EmitLine(emitted, line, continuation, rest);
        EmitRunnerLine(line);
        carry, continuation := rest, false;
        assert Open() == rest;
      }
      SplitPlain(Open());
    }

    /** The second loop: an over-long carry leaves in pieces of RUNNER_LINE_MAX bytes. */
    method FlushLongCarry(ghost limit: nat)
      requires Valid() && Bounded(emitted, limit) && RUNNER_LINE_MAX <= limit
      requires NEWLINE !in carry
      modifies this
      ensures Flushed() && Bounded(emitted, limit)
      ensures Closed() == old(Closed()) && Open() == old(Open())
    {
      hide Join, OpenLine, ClosedLines, Decoded, Cuts;
      while |carry| > RUNNER_LINE_MAX
        invariant Valid() && Bounded(emitted, limit) && NEWLINE !in carry
        invariant Closed() == old(Closed()) && Open() == old(Open())
        decreases |carry|
      {
        var part, rest := carry[..RUNNER_LINE_MAX], carry[RUNNER_LINE_MAX..];
        assert carry == part + rest;
        CutsSnoc(emitted, Piece(part, continuation));
        EmitPart(emitted, part, continuation);
        Assoc(OpenLine(emitted, continuation), part, rest);
        EmitRunnerLine(part);
        carry, continuation := rest, true;
      }
    }

    /** `limit` is any bound on the pieces so far that the carry cannot exceed. */
    method FlushRunnerCarry(ghost limit: nat)
      requires Valid() && Bounded(emitted, limit)
      requires RUNNER_LINE_MAX <= limit && |carry| <= limit + 1
      modifies this
      ensures Flushed() && Bounded(emitted, limit)
      ensures Closed() == old(Closed()) + Lines(old(Open()))
      ensures Open() == Tail(old(Open()))
    {
      FlushCompleteLines(limit);
      FlushLongCarry(limit);
    }

    /** One read of the loop: the bytes are appended and flushed. */
    method Receive(chunk: seq<byte>, ghost stream: seq<byte>, ghost size: nat)
      requires Flushed() && Bounded(emitted, RUNNER_LINE_MAX + size - 1)
      requires 0 < |chunk| <= size
      requires Closed() == Lines(stream) && Open() == Tail(stream)
      modifies this
      ensures Flushed() && Bounded(emitted, RUNNER_LINE_MAX + size - 1)
      ensures Closed() == Lines(stream + chunk) && Open() == Tail(stream + chunk)
    {
      hide Lines, Tail, Join, OpenLine, ClosedLines, Decoded, Cuts;
      SplitAppend(stream, chunk);
      Assoc(OpenLine(emitted, continuation), carry, chunk);
      carry := carry + chunk;
      FlushRunnerCarry(RUNNER_LINE_MAX + size - 1);
    }

    /**
     The whole read loop: end of stream emits what is left. `size` bounds the reads. Whatever the
     reads, the log has the stream's lines if these are UTF-8 and fit the cuts; single-byte reads
     show that nothing less will do.
     */
    method Forward(chunks: seq<seq<byte>>, ghost size: nat)
      requires Flushed() && emitted == [] && carry == []
      requires 0 < size <= READ_SIZE && forall i :: 0 <= i < |chunks| ==> 0 < |chunks[i]| <= size
      modifies this
      ensures Join(emitted) == StreamLines(Flatten(chunks)) && written == Decoded(emitted)
      ensures Bounded(emitted, RUNNER_LINE_MAX + size - 1) && Cuts(emitted)
      ensures var lines := StreamLines(Flatten(chunks));
              && (Join(written) == lines <==> AllUtf8(lines) && CleanCuts(emitted))
              && (AllUtf8(lines) && AllFitCuts(lines) ==> Join(written) == lines)
              && (size == 1 && Join(written) == lines ==> AllUtf8(lines) && AllFitCuts(lines))
    {
      ReadLoop(chunks, size);
      hide Lines, Tail, Join, OpenLine, ClosedLines, Flatten, AllUtf8, AllFitCuts, CleanCuts, Decoded, Cuts, Bounded;
      EmitLeftover(RUNNER_LINE_MAX + size - 1);
      WhatTheLogKeeps(emitted, size);
    }

    /** At the end of the stream a non-empty carry is emitted. */
    method EmitLeftover(ghost limit: nat)
      requires Flushed() && Bounded(emitted, limit) && RUNNER_LINE_MAX <= limit
      modifies this
      ensures Join(emitted) == old(Closed()) + (if old(Open()) == [] then [] else [old(Open())])
      ensures Bounded(emitted, limit) && Cuts(emitted) && written == Decoded(emitted)
    {
      hide Join, OpenLine, ClosedLines, Decoded, Cuts;
      FinalJoin(emitted, continuation, carry);
      if carry != [] {
        CutsSnoc(emitted, Piece(carry, continuation));
        EmitRunnerLine(carry);
      }
    }

    /** The reads up to the end of the stream. */
    method ReadLoop(chunks: seq<seq<byte>>, ghost size: nat)
      requires Flushed() && emitted == [] && carry == []
      requires 0 < size <= READ_SIZE && forall i :: 0 <= i < |chunks| ==> 0 < |chunks[i]| <= size
      modifies this
      ensures Flushed() && Bounded(emitted, RUNNER_LINE_MAX + size - 1)
      ensures Closed() == Lines(Flatten(chunks)) && Open() == Tail(Flatten(chunks))
    {
      assert chunks[..0] == [] && Flatten(chunks[..0]) == [];
      assert Closed() == Lines([]) && Open() == Tail([]);
      hide Lines, Tail, Join, OpenLine, ClosedLines, Flatten, Decoded, Cuts;
      for n := 0 to |chunks|
        invariant Flushed() && Bounded(emitted, RUNNER_LINE_MAX + size - 1)
        invariant Closed() == Lines(Flatten(chunks[..n])) && Open() == Tail(Flatten(chunks[..n]))
      {
        FlattenSnoc(chunks, n);
        Receive(chunks[n], Flatten(chunks[..n]), size);
      }
      assert chunks[..|chunks|] == chunks;
    }
  }
}
