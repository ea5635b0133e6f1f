/** The plain reading of a byte stream as newline-terminated lines and an unterminated tail. */
module ByteLines {
  import opened Basics

  const NEWLINE: byte := 10

  /** The newline-terminated lines of `s`, without their newlines. */
  function Lines(s: seq<byte>): (r: seq<seq<byte>>)
  {
    if s == [] then []
    else
      var init, last := s[..|s| - 1], s[|s| - 1];
      if last == NEWLINE then Lines(init) + [Tail(init)] else Lines(init)
  }

  /** What follows the last newline of `s`. */
  function Tail(s: seq<byte>): (r: seq<byte>)
    ensures |r| <= |s|
    ensures NEWLINE !in r
  {
    if s == [] then []
    else
      var init, last := s[..|s| - 1], s[|s| - 1];
      if last == NEWLINE then [] else Tail(init) + [last]
  }

  /** Lines each followed by its newline, then the tail. */
  function Unlines(lines: seq<seq<byte>>, tail: seq<byte>): (r: seq<byte>)
  {
    if lines == [] then tail
    else Unlines(lines[..|lines| - 1], lines[|lines| - 1] + [NEWLINE] + tail)
  }

  lemma {:induction false} UnlinesAppend(lines: seq<seq<byte>>, a: seq<byte>, b: seq<byte>)
    ensures Unlines(lines, a + b) == Unlines(lines, a) + b
  {
    if lines != [] {
      var init, last := lines[..|lines| - 1], lines[|lines| - 1];
      assert last + [NEWLINE] + (a + b) == (last + [NEWLINE] + a) + b;
      UnlinesAppend(init, last + [NEWLINE] + a, b);
    }
  }

  /** Splitting loses and invents nothing, and no line contains a newline. */
  lemma {:induction false} SplitRoundTrip(s: seq<byte>)
    ensures Unlines(Lines(s), Tail(s)) == s
    ensures forall i :: 0 <= i < |Lines(s)| ==> NEWLINE !in Lines(s)[i]
  {
    if s != [] {
      var init, last := s[..|s| - 1], s[|s| - 1];
      SplitRoundTrip(init);
      UnlinesAppend(Lines(init), Tail(init), [last]);
      if last == NEWLINE {
        assert (Lines(init) + [Tail(init)])[..|Lines(init)|] == Lines(init);
        assert Tail(init) + [NEWLINE] + [] == Tail(init) + [NEWLINE];
      }
      assert init + [last] == s;
    }
  }

  /** A stretch without newline is all tail. */
  lemma {:induction false} SplitPlain(s: seq<byte>)
    requires NEWLINE !in s
    ensures Lines(s) == [] && Tail(s) == s
  {
    if s != [] {
      SplitPlain(s[..|s| - 1]);
    }
  }

  lemma SplitSnoc(s: seq<byte>, c: byte)
    ensures Lines(s + [c]) == if c == NEWLINE then Lines(s) + [Tail(s)] else Lines(s)
    ensures Tail(s + [c]) == if c == NEWLINE then [] else Tail(s) + [c]
  {
    assert (s + [c])[..|s|] == s;
  }

  /** Splitting can be resumed from the tail of what was split so far. */
  lemma {:induction false} SplitAppend(a: seq<byte>, b: seq<byte>)
    ensures Lines(a + b) == Lines(a) + Lines(Tail(a) + b)
    ensures Tail(a + b) == Tail(Tail(a) + b)
  {
    if b == [] {
      assert a + b == a && Tail(a) + b == Tail(a);
      SplitPlain(Tail(a));
    } else {
      var init, last := b[..|b| - 1], b[|b| - 1];
      assert b == init + [last];
      Assoc(a, init, [last]);
      Assoc(Tail(a), init, [last]);
      SplitAppend(a, init);
      SplitSnoc(a + init, last);
      SplitSnoc(Tail(a) + init, last);
    }
  }

  /** The first line of `x`, newline, `y`, where `x` has no newline, is `x`. */
  lemma SplitFirst(x: seq<byte>, y: seq<byte>)
    requires NEWLINE !in x
    ensures Lines(x + [NEWLINE] + y) == [x] + Lines(y)
    ensures Tail(x + [NEWLINE] + y) == Tail(y)
  {
    SplitPlain(x);
    assert (x + [NEWLINE])[..|x|] == x;
    SplitAppend(x + [NEWLINE], y);
    assert [] + y == y;
  }
}
