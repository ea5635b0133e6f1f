/**
 The bounded request reader of ro-sessiond (crates/ro-sessiond/src/protocol.rs).

 Bytes arrive in segments. Within a segment every read returns any non-empty stretch of what
 is there; between two segments a read fails, because it would block or for another reason.
 */
module LineReader {
  import opened Basics
  import opened ByteLines
  import opened Utf8

  const MAX_MESSAGE_BYTES: nat := 1_048_576
  const CHUNK: nat := 4096

  /** Why a read failed. */
  datatype ReadError = WouldBlock | OtherError(code: int)

  datatype Outcome = Line(text: seq<byte>) | TooLong | BadEncoding | EndOfInput | Unread(error: ReadError)

  // ---------------------------------------------------------------- the simple reading

  function Classify(line: seq<byte>): (o: Outcome)
  {
    if |line| > MAX_MESSAGE_BYTES then TooLong
    else if IsUtf8(line) then Line(line)
    else BadEncoding
  }

  /** One outcome per non-empty line. */
  function ClassifyAll(lines: seq<seq<byte>>): (r: seq<Outcome>)
  {
    if lines == [] then []
    else (if lines[0] == [] then [] else [Classify(lines[0])]) + ClassifyAll(lines[1..])
  }

  /** What a stream means: its non-empty lines, and an error for an over-long unterminated tail. */
  function Meaning(s: seq<byte>): (r: seq<Outcome>)
  {
    ClassifyAll(Lines(s)) + if |Tail(s)| > MAX_MESSAGE_BYTES then [TooLong] else []
  }

  // ---------------------------------------------------------------- one call on what is there

  /** `s` without its leading newlines, that is, without empty lines. */
  function Skip(s: seq<byte>): (t: seq<byte>)
    ensures |t| <= |s|
    ensures t != [] ==> t[0] != NEWLINE
  {
    if s != [] && s[0] == NEWLINE then Skip(s[1..]) else s
  }

  /** The next outcome when nothing follows `s`, and what remains. */
  function Next(s: seq<byte>): (r: (Outcome, seq<byte>))
    ensures !r.0.Unread?
    ensures NEWLINE in Skip(s) ==> |r.1| < |s| && r.0 != EndOfInput
  {
    var t := Skip(s);
    var p := IndexOf(t, NEWLINE);
    if p < |t| then (Classify(t[..p]), t[p + 1..])
    else if |t| > MAX_MESSAGE_BYTES then (TooLong, [])
    else (EndOfInput, t)
  }

  /**
   The outcomes a caller collects when `avail` is there and `later` arrives segment by segment.
   The last case but one is the state lost when a read fails inside an over-long line.
   */
  function Collected(avail: seq<byte>, later: seq<seq<byte>>): (r: seq<Outcome>)
    decreases |later|, |avail|
  {
    var t := Skip(avail);
    if NEWLINE in t then [Next(avail).0] + Collected(Next(avail).1, later)
    else if later == [] then if |t| > MAX_MESSAGE_BYTES then [TooLong] else []
    else if |t| > MAX_MESSAGE_BYTES then Collected(later[0], later[1..])
    else Collected(t + later[0], later[1..])
  }

  /** How many over-long lines end up without their error. */
  function Losses(avail: seq<byte>, later: seq<seq<byte>>): (n: nat)
    decreases |later|, |avail|
  {
    var t := Skip(avail);
    if NEWLINE in t then Losses(Next(avail).1, later)
    else if later == [] then 0
    else if |t| > MAX_MESSAGE_BYTES then
      (if IndexOf(Flatten(later), NEWLINE) > MAX_MESSAGE_BYTES then 0 else 1) + Losses(later[0], later[1..])
    else Losses(t + later[0], later[1..])
  }

  /** One call of the reader is one step of the collection. */
  lemma CollectedStep(avail: seq<byte>, later: seq<seq<byte>>)
    ensures NEWLINE in Skip(avail) || later == [] ==>
              Collected(avail, later) ==
              if Next(avail).0 == EndOfInput then [] else [Next(avail).0] + Collected(Next(avail).1, later)
    ensures NEWLINE !in Skip(avail) && later != [] ==>
              Collected(avail, later)
              == Collected((if |Skip(avail)| > MAX_MESSAGE_BYTES then [] else Skip(avail)) + later[0], later[1..])
  {
    if NEWLINE !in Skip(avail) {
      assert Skip([]) == [] && Collected([], []) == [];
      if later != [] {
        assert [] + later[0] == later[0];
      }
    }
  }

  function Errors(os: seq<Outcome>): (n: nat)
  {
    if os == [] then 0 else (if os[0] == TooLong then 1 else 0) + Errors(os[1..])
  }

  // ---------------------------------------------------------------- facts about the simple reading

  lemma {:induction false} ErrorsAppend(a: seq<Outcome>, b: seq<Outcome>)
    ensures Errors(a + b) == Errors(a) + Errors(b)
  {
    if a == [] {
      assert a + b == b;
    } else {
      assert (a + b)[1..] == a[1..] + b;
      ErrorsAppend(a[1..], b);
    }
  }

  lemma ErrorsCons(o: Outcome, os: seq<Outcome>)
    ensures Errors([o] + os) == (if o == TooLong then 1 else 0) + Errors(os)
  {
    assert ([o] + os)[1..] == os;
  }

  /** A stream that starts with line `x` means that line and then the rest. */
  lemma MeaningFirst(x: seq<byte>, y: seq<byte>)
    requires NEWLINE !in x
    ensures Meaning(x + [NEWLINE] + y) == (if x == [] then [] else [Classify(x)]) + Meaning(y)
  {
    SplitFirst(x, y);
    hide Lines, Tail, Classify;
    assert ([x] + Lines(y))[1..] == Lines(y);
    var head := if x == [] then [] else [Classify(x)];
    assert ClassifyAll([x] + Lines(y)) == head + ClassifyAll(Lines(y));
  }

  lemma MeaningPlain(x: seq<byte>)
    requires NEWLINE !in x
    ensures Meaning(x) == if |x| > MAX_MESSAGE_BYTES then [TooLong] else []
  {
    SplitPlain(x);
  }

  /** Empty lines in front mean nothing. */
  lemma {:induction false} MeaningSkip(s: seq<byte>, rest: seq<byte>)
    ensures Meaning(s + rest) == Meaning(Skip(s) + rest)
  {
    if s != [] && s[0] == NEWLINE {
      hide Meaning;
      MeaningSkip(s[1..], rest);
      assert s + rest == [] + [NEWLINE] + (s[1..] + rest);
      MeaningFirst([], s[1..] + rest);
    }
  }

  /** While a complete line is there, the next outcome does not depend on what follows. */
  lemma MeaningNext(avail: seq<byte>, rest: seq<byte>)
    requires NEWLINE in Skip(avail)
    ensures Meaning(avail + rest) == [Next(avail).0] + Meaning(Next(avail).1 + rest)
  {
    hide Meaning, Skip, IsUtf8, Classify;
    var t := Skip(avail);
    var p := IndexOf(t, NEWLINE);
    MeaningSkip(avail, rest);
    MeaningFirst(t[..p], t[p + 1..] + rest);
    assert t + rest == t[..p] + [NEWLINE] + (t[p + 1..] + rest);
    assert p > 0;
  }

  /** An over-long start swallows the rest of its line, whatever that is. */
  lemma MeaningOverlong(t: seq<byte>, rest: seq<byte>)
    requires NEWLINE !in t && |t| > MAX_MESSAGE_BYTES
    ensures var p := IndexOf(rest, NEWLINE);
            Meaning(t + rest) == [TooLong] + if p < |rest| then Meaning(rest[p + 1..]) else []
  {
    hide Meaning;
    var p := IndexOf(rest, NEWLINE);
    if p < |rest| {
      MeaningFirst(t + rest[..p], rest[p + 1..]);
      assert t + rest == (t + rest[..p]) + [NEWLINE] + rest[p + 1..];
    } else {
      MeaningPlain(t + rest);
    }
  }

  /** The remainder of a cut line, read on its own, costs one error unless it is over-long itself. */
  lemma RemainderAlone(t: seq<byte>, rest: seq<byte>)
    requires NEWLINE !in t && |t| > MAX_MESSAGE_BYTES
    ensures IndexOf(rest, NEWLINE) > MAX_MESSAGE_BYTES ==> Meaning(t + rest) == Meaning(rest)
    ensures IndexOf(rest, NEWLINE) <= MAX_MESSAGE_BYTES ==> Errors(Meaning(t + rest)) == Errors(Meaning(rest)) + 1
  {
    hide Meaning, Errors, IsUtf8;
    var p := IndexOf(rest, NEWLINE);
    MeaningOverlong(t, rest);
    if p < |rest| {
      var line, after := rest[..p], Meaning(rest[p + 1..]);
      assert Meaning(t + rest) == [TooLong] + after;
      ErrorsCons(TooLong, after);
      assert rest == line + [NEWLINE] + rest[p + 1..];
      MeaningFirst(line, rest[p + 1..]);
      ErrorsCons(Classify(line), after);
      assert line == [] ==> Meaning(rest) == after;
    } else {
      assert Meaning(t + rest) == [TooLong];
      MeaningPlain(rest);
      ErrorsCons(TooLong, []);
    }
  }

  /** Every over-long line is reported once, or lost; without losses the reading is exact. */
  lemma {:induction false} Accounting(avail: seq<byte>, later: seq<seq<byte>>)
    ensures Errors(Collected(avail, later)) + Losses(avail, later) == Errors(Meaning(avail + Flatten(later)))
    ensures Losses(avail, later) == 0 ==> Collected(avail, later) == Meaning(avail + Flatten(later))
    decreases |later|, |avail|
  {
    hide Meaning, Errors, Next, Skip;
    var t := Skip(avail);
    var rest := Flatten(later);
    if NEWLINE in t {
      var (o, r) := Next(avail);
      MeaningNext(avail, rest);
      Accounting(r, later);
      ErrorsCons(o, Collected(r, later));
      ErrorsCons(o, Meaning(r + rest));
    } else {
      MeaningSkip(avail, rest);
      if later == [] {
        assert t + rest == t;
        MeaningPlain(t);
      } else if |t| > MAX_MESSAGE_BYTES {
        Accounting(later[0], later[1..]);
        RemainderAlone(t, rest);
      } else {
        Accounting(t + later[0], later[1..]);
        Assoc(t, later[0], Flatten(later[1..]));
      }
    }
  }

  /**
   However the stream is cut into segments and reads, the collected outcomes are the meaning of
   the stream exactly when no gap is lossy: at a lossy gap more than a message's bytes of a line
   are held back, counted from its start or from the last gap that dropped some, while the rest
   of the line fits a message.
   */
  lemma ReadingIsExactIffLossless(avail: seq<byte>, later: seq<seq<byte>>)
    ensures Collected(avail, later) == Meaning(avail + Flatten(later)) <==> Losses(avail, later) == 0
  {
    Accounting(avail, later);
  }

  lemma ReadOneByteLine()
    ensures var rest: seq<byte> := [98, NEWLINE];
            IndexOf(rest, NEWLINE) == 1 && NEWLINE in Skip(rest) && Next(rest) == (Line([98]), [])
  {
    var rest: seq<byte> := [98, NEWLINE];
    IndexOfUnique(rest, NEWLINE, 1);
    assert Skip(rest) == rest && rest[..1] == [98] && rest[2..] == [];
    assert CharLength([98]) == 1 && [98 as byte][1..] == [];
  }

  lemma CollectOneByteLine()
    ensures Collected([98, NEWLINE], []) == [Line([98])] && Losses([98, NEWLINE], []) == 0
  {
    hide Next, IsUtf8;
    ReadOneByteLine();
    assert Skip([]) == [] && Collected([], []) == [] && Losses([], []) == 0;
  }

  lemma CutDiscard(long: seq<byte>, rest: seq<byte>)
    requires NEWLINE !in long && |long| > MAX_MESSAGE_BYTES
    ensures Collected(long, [rest]) == Collected(rest, [])
    ensures Losses(long, [rest]) == (if IndexOf(Flatten([rest]), NEWLINE) > MAX_MESSAGE_BYTES then 0 else 1) + Losses(rest, [])
  {
    assert Skip(long) == long;
    assert [rest][1..] == [];
    hide Skip, Next, Flatten, IndexOf;
  }

  /** A cut inside an over-long line: its error is lost and its remainder is taken for a request. */
  lemma BlockedDiscardExample()
    ensures var long := seq(MAX_MESSAGE_BYTES + 1, _ => 97 as byte);
            && Collected(long, [[98, NEWLINE]]) == [Line([98])]
            && Meaning(long + Flatten([[98, NEWLINE]])) == [TooLong]
            && Losses(long, [[98, NEWLINE]]) == 1
  {
    var long := seq(MAX_MESSAGE_BYTES + 1, _ => 97 as byte);
    var rest: seq<byte> := [98, NEWLINE];
    assert Flatten([rest]) == rest + Flatten([]) == rest;
    hide Collected, Losses, Meaning, Next, Skip, IndexOf;
    MeaningOverlong(long, rest);
    ReadOneByteLine();
    MeaningPlain([]);
    assert rest[2..] == [];
    CutDiscard(long, rest);
    CollectOneByteLine();
  }

  ghost predicate AllFit(lines: seq<seq<byte>>)
  {
    forall i :: 0 <= i < |lines| ==> |lines[i]| <= MAX_MESSAGE_BYTES
  }

  lemma {:induction false} NoErrorsWhenAllFit(lines: seq<seq<byte>>)
    requires AllFit(lines)
    ensures Errors(ClassifyAll(lines)) == 0
  {
    hide IsUtf8;
    if lines != [] {
      NoErrorsWhenAllFit(lines[1..]);
      var head := if lines[0] == [] then [] else [Classify(lines[0])];
      ErrorsAppend(head, ClassifyAll(lines[1..]));
    }
  }

  /** A stream whose lines all fit is read exactly, however it is cut. */
  lemma FittingStreamIsReadExactly(avail: seq<byte>, later: seq<seq<byte>>)
    requires var s := avail + Flatten(later); AllFit(Lines(s)) && |Tail(s)| <= MAX_MESSAGE_BYTES
    ensures Collected(avail, later) == Meaning(avail + Flatten(later))
  {
    var s := avail + Flatten(later);
    Accounting(avail, later);
    NoErrorsWhenAllFit(Lines(s));
    assert Meaning(s) == ClassifyAll(Lines(s));
  }

  // ---------------------------------------------------------------- the reader

  /** What follows the first newline. */
  function AfterLine(s: seq<byte>): (r: seq<byte>)
  {
    if NEWLINE in s then s[IndexOf(s, NEWLINE) + 1..] else []
  }

  lemma AfterAppend(a: seq<byte>, b: seq<byte>)
    ensures NEWLINE in a ==> AfterLine(a + b) == a[IndexOf(a, NEWLINE) + 1..] + b
    ensures NEWLINE !in a ==> AfterLine(a + b) == AfterLine(b)
    ensures AfterLine([]) == []
  {
    IndexOfAppend(a, b, NEWLINE);
  }

  datatype ReadResult = Bytes(chunk: seq<byte>) | End | Stopped(error: ReadError)

  lemma EmptyIsUtf8()
    ensures IsUtf8([])
  {
  }

  lemma CutInside(a: seq<byte>, b: seq<byte>, pos: nat)
    requires pos < |a|
    ensures (a + b)[..pos] == a[..pos] && (a + b)[pos + 1..] == a[pos + 1..] + b
  {
  }

  class ByteSource {
    var ready: seq<byte>
    var later: seq<seq<byte>>
    var errors: seq<ReadError>

    constructor (first: seq<byte>, others: seq<seq<byte>>, errors: seq<ReadError>)
      ensures ready == first && later == others && this.errors == errors
    {
      ready, later, this.errors := first, others, errors;
    }

    /** What the read at the next gap reports. */
    function NextError(): (e: ReadError)
      reads this
    {
      if errors == [] then WouldBlock else errors[0]
    }

    /** A read returns any non-empty stretch of at most `max` bytes of what is ready. */
    method Read(max: nat) returns (r: ReadResult)
      requires 0 < max
      modifies this
      ensures match r
              case Bytes(c) => 0 < |c| <= max && old(ready) == c + ready && later == old(later) && errors == old(errors)
              case End => old(ready) == [] && ready == [] && old(later) == [] && later == []
              case Stopped(e) =>
                && old(ready) == [] && old(later) != [] && ready == old(later)[0] && later == old(later)[1..]
                && e == old(NextError())
    {
      if ready != [] {
        var n: nat :| 0 < n <= max && n <= |ready|;
        r := Bytes(ready[..n]);
        ready := ready[n..];
      } else if later == [] {
        r := End;
      } else {
        r := Stopped(NextError());
        ready, later := later[0], later[1..];
        errors := if errors == [] then [] else errors[1..];
      }
    }
  }

  class BoundedLineReader {
    const source: ByteSource
    var buf: seq<byte>

    constructor (source: ByteSource)
      ensures this.source == source && buf == [] && Valid()
    {
      this.source := source;
      buf := [];
    }

    /** The buffer never holds more than one over-long message's start. */
    ghost predicate Valid()
      reads this
    {
      |buf| <= MAX_MESSAGE_BYTES + 1
    }

    ghost function Avail(): (s: seq<byte>)
      reads this, source
    {
      buf + source.ready
    }

    method HasBufferedLine() returns (b: bool)
      ensures b == (Lines(buf) != [])
    {
      b := NEWLINE in buf;
      if b {
        var p := IndexOf(buf, NEWLINE);
        SplitFirst(buf[..p], buf[p + 1..]);
        assert buf == buf[..p] + [NEWLINE] + buf[p + 1..];
      } else {
        SplitPlain(buf);
      }
    }

    /** Drops up to and including the next newline, or everything when the input ends first. */
    method DiscardOversizedLine() returns (stopped: Option<ReadError>)
      requires Valid()
      modifies this`buf, source
      ensures Valid()
      ensures var cur, later := old(Avail()), old(source.later);
              if NEWLINE in cur || later == [] then
                stopped == None && Avail() == AfterLine(cur) && source.later == later
              else
                stopped == Some(old(source.NextError())) && buf == [] && source.ready == later[0] && source.later == later[1..]
    {
      hide AfterLine;
      ghost var cur := Avail();
      while true
        invariant Valid()
        invariant AfterLine(Avail()) == AfterLine(cur)
        invariant NEWLINE in Avail() <==> NEWLINE in cur
        invariant source.later == old(source.later) && source.errors == old(source.errors)
        decreases |source.ready|
      {
        AfterAppend(buf, source.ready);
        if NEWLINE in buf {
          var pos := IndexOf(buf, NEWLINE);
          buf := buf[pos + 1..];
          return None;
        }
        buf := [];
        var r := source.Read(CHUNK);
        match r
        case End =>
          AfterAppend([], []);
          return None;
        case Stopped(error) =>
          return Some(error);
        case Bytes(chunk) =>
          AfterAppend(chunk, source.ready);
          if NEWLINE in chunk {
            var pos := IndexOf(chunk, NEWLINE);
            buf := chunk[pos + 1..];
            return None;
          }
          assert Avail() == source.ready;
      }
    }

    /**
     One call. The outcome and everything left behind depend only on the bytes that have
     arrived, not on how the reads cut them. The tests at lines 95, 105 and 134 of the source
     cannot succeed: the assertions mark where they stand.
     */
    method ReadLine() returns (r: Outcome)
      requires Valid()
      modifies this`buf, source
      ensures Valid()
      ensures var cur, later := old(Avail()), old(source.later);
              var t := Skip(cur);
              if NEWLINE in t || later == [] then
                (r, Avail()) == Next(cur) && source.later == later
              else
                && r == Unread(old(source.NextError()))
                && source.ready == later[0] && source.later == later[1..]
                && buf == if |t| > MAX_MESSAGE_BYTES then [] else t
    {
      EmptyIsUtf8();
      hide IsUtf8, IndexOf;
      while true
        invariant Valid()
        invariant Skip(Avail()) == Skip(old(Avail()))
        invariant source.later == old(source.later) && source.errors == old(source.errors)
        decreases 2 * |source.ready| + |buf|
      {
        if NEWLINE in buf {
          var pos := IndexOf(buf, NEWLINE);
          IndexOfAppend(buf, source.ready, NEWLINE);
          var line := buf[..pos];
          CutInside(buf, source.ready, pos);
          buf := buf[pos + 1..];
          if !IsUtf8(line) {
            return BadEncoding;
          }
          if line == [] {
            continue;
          }
          assert |line| <= MAX_MESSAGE_BYTES;
          return Line(line);
        }

        var maxBuf := MAX_MESSAGE_BYTES + 1;
        assert |buf| <= maxBuf;
        var room := maxBuf - |buf|;
        if room == 0 {
          assert Skip(Avail()) == Avail();
          var stopped := DiscardOversizedLine();
          return if stopped.Some? then Unread(stopped.value) else TooLong;
        }
        var readLen := if CHUNK < room then CHUNK else room;
        var result := source.Read(readLen);
        match result
        case Stopped(error) =>
          return Unread(error);
        case End =>
          return EndOfInput;
        case Bytes(chunk) =>
          Assoc(buf, chunk, source.ready);
          buf := buf + chunk;
          assert |buf| <= maxBuf;
      }
    }

    /** The session's use of the reader: call again after every outcome until end of input. */
    method ReadAll() returns (outcomes: seq<Outcome>)
      requires Valid()
      modifies this`buf, source
      ensures outcomes == Collected(old(Avail()), old(source.later))
    {
      outcomes := [];
      while true
        invariant Valid()
        invariant outcomes + Collected(Avail(), source.later) == Collected(old(Avail()), old(source.later))
        decreases |source.later|, |Avail()|
      {
        ghost var before, later := Avail(), source.later;
        var r := ReadLine();
        CollectedStep(before, later);
        if r == EndOfInput {
          assert outcomes + [] == outcomes;
          return;
        }
        if !r.Unread? {
          Assoc(outcomes, [r], Collected(Avail(), source.later));
          outcomes := outcomes + [r];
        }
      }
    }
  }
}
