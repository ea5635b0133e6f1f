/**
 Executable name patterns: the two copies of glob_match
 (crates/ro-tools-core/src/domain.rs, crates/ro-tools-core/src/presence.rs).
 */
module Glob {
  import opened Basics

  const STAR := '*'

  // ---------------------------------------------------------------- what a pattern means

  /** `*` stands for any stretch of text, every other character for itself. */
  predicate Matches(p: string, t: string)
    decreases |p| + |t|
  {
    if p == [] then t == []
    else if p[0] == STAR then Matches(p[1..], t) || (t != [] && Matches(p, t[1..]))
    else t != [] && t[0] == p[0] && Matches(p[1..], t[1..])
  }

  /** A literal start must be there, and the rest of the pattern matches the rest of the text. */
  lemma {:induction false} LiteralFirst(lit: string, q: string, t: string)
    requires STAR !in lit
    ensures Matches(lit + q, t) <==> lit <= t && Matches(q, t[|lit|..])
  {
    if lit == [] {
      assert lit + q == q && t[0..] == t;
    } else {
      assert (lit + q)[1..] == lit[1..] + q;
      if t != [] && t[0] == lit[0] {
        LiteralFirst(lit[1..], q, t[1..]);
        assert lit <= t <==> lit[1..] <= t[1..];
        if lit <= t {
          assert t[1..][|lit| - 1..] == t[|lit|..];
        }
      }
    }
  }

  /** A leading star skips any number of characters. */
  lemma {:induction false} StarSkips(q: string, t: string)
    ensures Matches([STAR] + q, t) <==> exists k :: 0 <= k <= |t| && Matches(q, t[k..])
  {
    assert ([STAR] + q)[1..] == q;
    assert t[0..] == t;
    if t != [] {
      StarSkips(q, t[1..]);
      if Matches([STAR] + q, t[1..]) {
        var k :| 0 <= k <= |t[1..]| && Matches(q, t[1..][k..]);
        assert t[1..][k..] == t[k + 1..];
      }
      if k :| 0 <= k <= |t| && Matches(q, t[k..]) {
        if k > 0 {
          assert t[k..] == t[1..][k - 1..];
        }
      }
    }
  }

  /** Under a leading star, more text in front does no harm. */
  lemma StarWidens(q: string, t: string, k: nat)
    requires k <= |t| && Matches([STAR] + q, t[k..])
    ensures Matches([STAR] + q, t)
  {
    StarSkips(q, t[k..]);
    StarSkips(q, t);
    var j :| 0 <= j <= |t[k..]| && Matches(q, t[k..][j..]);
    assert t[k..][j..] == t[k + j..];
  }

  lemma DoubleStar(q: string, t: string)
    ensures Matches([STAR] + ([STAR] + q), t) <==> Matches([STAR] + q, t)
  {
    StarSkips([STAR] + q, t);
    if Matches([STAR] + q, t) {
      assert t[0..] == t;
    }
    if k :| 0 <= k <= |t| && Matches([STAR] + q, t[k..]) {
      StarWidens(q, t, k);
    }
  }

  lemma LoneStar(t: string)
    ensures Matches([STAR], t)
  {
    StarSkips([], t);
    assert t[|t|..] == [] && [STAR] + [] == [STAR];
  }

  predicate EndsWith(t: string, lit: string)
  {
    |lit| <= |t| && t[|t| - |lit|..] == lit
  }

  /** A star before a final literal means a text that ends with it. */
  lemma StarThenEnd(lit: string, t: string)
    requires STAR !in lit
    ensures Matches([STAR] + lit, t) <==> EndsWith(t, lit)
  {
    StarSkips(lit, t);
    assert lit + [] == lit;
    if k :| 0 <= k <= |t| && Matches(lit, t[k..]) {
      LiteralFirst(lit, [], t[k..]);
      assert t[k..][|lit|..] == [];
      assert t[k..] == lit;
    }
    if EndsWith(t, lit) {
      LiteralFirst(lit, [], t[|t| - |lit|..]);
    }
  }

  // ---------------------------------------------------------------- the leftmost place of a literal

  /** The first place where `part` starts in `t`, or None. */
  function Find(t: string, part: string): (r: Option<nat>)
    ensures r.Some? ==> r.value + |part| <= |t| && part <= t[r.value..]
    ensures r.Some? ==> forall j :: 0 <= j < r.value ==> !(part <= t[j..])
    ensures r.None? ==> forall j :: 0 <= j <= |t| ==> !(part <= t[j..])
  {
    if part <= t then assert t[0..] == t; Some(0)
    else if t == [] then None
    else
      var r := Find(t[1..], part);
      assert forall j :: 1 <= j <= |t| ==> t[j..] == t[1..][j - 1..];
      if r.Some? then Some(r.value + 1) else None
  }

  /** Between two stars the leftmost place is as good as any: the greedy choice loses nothing. */
  lemma GreedyIsEnough(lit: string, q: string, t: string)
    requires STAR !in lit
    ensures Matches([STAR] + (lit + ([STAR] + q)), t) <==>
            Find(t, lit).Some? && Matches([STAR] + q, t[Find(t, lit).value + |lit|..])
  {
    hide Matches, Find;
    var rest := [STAR] + q;
    StarSkips(lit + rest, t);
    if k :| 0 <= k <= |t| && Matches(lit + rest, t[k..]) {
      LiteralFirst(lit, rest, t[k..]);
      var first := Find(t, lit).value + |lit|;
      assert t[k..][|lit|..] == t[first..][k + |lit| - first..];
      StarWidens(q, t[first..], k + |lit| - first);
    }
    if Find(t, lit).Some? && Matches(rest, t[Find(t, lit).value + |lit|..]) {
      var k := Find(t, lit).value;
      assert t[k..][|lit|..] == t[k + |lit|..];
      LiteralFirst(lit, rest, t[k..]);
    }
  }

  // ---------------------------------------------------------------- splitting a pattern at its stars

  function Parts(p: string): (r: seq<string>)
    ensures |r| >= 1
    ensures forall i :: 0 <= i < |r| ==> STAR !in r[i]
    decreases |p|
  {
    var i := IndexOf(p, STAR);
    if i == |p| then [p] else [p[..i]] + Parts(p[i + 1..])
  }

  function Glue(parts: seq<string>): (p: string)
    requires parts != []
  {
    if |parts| == 1 then parts[0] else parts[0] + ([STAR] + Glue(parts[1..]))
  }

  lemma PartsUnfold(p: string)
    ensures var i := IndexOf(p, STAR);
            Parts(p) == if i == |p| then [p] else [p[..i]] + Parts(p[i + 1..])
  {
  }

  lemma GlueCons(part: string, parts: seq<string>)
    requires parts != []
    ensures Glue([part] + parts) == part + ([STAR] + Glue(parts))
  {
    assert ([part] + parts)[1..] == parts;
  }

  lemma Cut(p: string, i: nat)
    requires i < |p| && p[i] == STAR
    ensures p == p[..i] + ([STAR] + p[i + 1..])
  {
  }

  lemma {:induction false} GluePartsIsPattern(p: string)
    ensures Glue(Parts(p)) == p
    ensures (|Parts(p)| == 1 <==> STAR !in p)
    decreases |p|
  {
    hide Parts;
    PartsUnfold(p);
    var i := IndexOf(p, STAR);
    if i < |p| {
      hide Glue;
      GluePartsIsPattern(p[i + 1..]);
      GlueCons(p[..i], Parts(p[i + 1..]));
      Cut(p, i);
    }
  }

  /** What is left of the pattern before part `i`. */
  function Remaining(parts: seq<string>, i: nat): (p: string)
    requires i <= |parts| && parts != []
  {
    if i == 0 then Glue(parts) else if i < |parts| then [STAR] + Glue(parts[i..]) else [STAR]
  }

  lemma RemainingUnfolds(parts: seq<string>, i: nat)
    requires i < |parts|
    ensures i + 1 < |parts| ==>
              Remaining(parts, i) == (if i == 0 then [] else [STAR]) + (parts[i] + Remaining(parts, i + 1))
    ensures i + 1 == |parts| ==> Remaining(parts, i) == (if i == 0 then [] else [STAR]) + parts[i]
  {
    assert parts[0..] == parts;
    assert parts[i..][0] == parts[i] && parts[i..][1..] == parts[i + 1..];
    assert Glue(parts[i..]) == if i + 1 == |parts| then parts[i] else parts[i] + ([STAR] + Glue(parts[i + 1..]));
  }

  lemma RemainingStart(parts: seq<string>)
    requires parts != []
    ensures Remaining(parts, 0) == Glue(parts)
    ensures Remaining(parts, |parts|) == [STAR]
  {
  }

  /** Skipping an empty part changes nothing. */
  lemma EmptyPart(parts: seq<string>, i: nat, t: string)
    requires i < |parts| && |parts| > 1 && parts[i] == []
    ensures Matches(Remaining(parts, i), t) <==> Matches(Remaining(parts, i + 1), t)
  {
    RemainingUnfolds(parts, i);
    if i + 1 < |parts| {
      assert [] + Remaining(parts, i + 1) == Remaining(parts, i + 1);
      DoubleStar(Glue(parts[i + 1..]), t);
    } else {
      assert [STAR] + [] == [STAR];
    }
  }

  /** The first part, when the pattern does not start with a star. */
  lemma FirstPart(parts: seq<string>, t: string)
    requires |parts| > 1 && STAR !in parts[0]
    ensures Matches(Remaining(parts, 0), t) <==>
            parts[0] <= t && Matches(Remaining(parts, 1), t[|parts[0]|..])
  {
    RemainingUnfolds(parts, 0);
    assert [] + (parts[0] + Remaining(parts, 1)) == parts[0] + Remaining(parts, 1);
    LiteralFirst(parts[0], Remaining(parts, 1), t);
  }

  /** The last part, when the pattern does not end with a star. */
  lemma LastPart(parts: seq<string>, t: string)
    requires |parts| > 1 && STAR !in parts[|parts| - 1]
    ensures Matches(Remaining(parts, |parts| - 1), t) <==> EndsWith(t, parts[|parts| - 1])
  {
    RemainingUnfolds(parts, |parts| - 1);
    StarThenEnd(parts[|parts| - 1], t);
  }

  lemma MiddlePart(parts: seq<string>, i: nat, t: string)
    requires 0 < i < |parts| - 1 && STAR !in parts[i]
    ensures Matches(Remaining(parts, i), t) <==>
            Find(t, parts[i]).Some? && Matches(Remaining(parts, i + 1), t[Find(t, parts[i]).value + |parts[i]|..])
  {
    hide Matches, Find, Glue;
    RemainingUnfolds(parts, i);
    GreedyIsEnough(parts[i], Glue(parts[i + 1..]), t);
  }

  // ---------------------------------------------------------------- the two copies

  function Lower(s: string): (r: string)
    ensures |r| == |s|
    ensures forall i :: 0 <= i < |s| ==> r[i] == LowerChar(s[i])
  {
    seq(|s|, i requires 0 <= i < |s| => LowerChar(s[i]))
  }

  predicate IsLower(s: string)
  {
    Lower(s) == s
  }

  lemma WithoutStar(pattern: string, text: string)
    requires STAR !in pattern
    ensures Matches(pattern, text) <==> pattern == text
  {
    LiteralFirst(pattern, [], text);
    assert pattern + [] == pattern;
  }

  /** The copy in presence.rs. */
  method PresenceGlobMatch(pattern: string, text: string) returns (r: bool)
    ensures r <==> Matches(pattern, text)
  {
    hide Matches, Parts, Glue, Remaining, Find, EndsWith;
    if STAR !in pattern {
      WithoutStar(pattern, text);
      return pattern == text;
    }
    GluePartsIsPattern(pattern);
    var parts := Parts(pattern);
    var rest := text;
    RemainingStart(parts);
    for i := 0 to |parts|
      invariant Matches(pattern, text) <==> Matches(Remaining(parts, i), rest)
    {
      var part := parts[i];
      if part == [] {
        EmptyPart(parts, i, rest);
        continue;
      }
      // A non-empty first part means that the pattern does not start with a star, a non-empty
      // last one that it does not end with a star.
      if i == 0 {
        FirstPart(parts, rest);
        if !(part <= rest) {
          return false;
        }
        rest := rest[|part|..];
        continue;
      }
      if i == |parts| - 1 {
        LastPart(parts, rest);
        return EndsWith(rest, part);
      }
      MiddlePart(parts, i, rest);
      var position := Find(rest, part);
      if position.None? {
        return false;
      }
      rest := rest[position.value + |part|..];
    }
    LoneStar(rest);
    return true;
  }

  lemma LowerSlice(s: string, i: nat, j: nat)
    requires i <= j <= |s|
    ensures Lower(s)[i..j] == Lower(s[i..j])
  {
  }

  lemma LowerAppend(a: string, b: string)
    ensures Lower(a + b) == Lower(a) + Lower(b)
  {
  }

  lemma LowerKeepsStars(s: string)
    ensures STAR in Lower(s) <==> STAR in s
  {
    if STAR in s {
      var i :| 0 <= i < |s| && s[i] == STAR;
      assert Lower(s)[i] == STAR;
    }
  }

  lemma LowerTwice(s: string)
    ensures IsLower(Lower(s))
  {
  }

  // ---------------------------------------------------------------- the copy in domain.rs

  /** Up to the first star, and after the last one. */
  function First(pattern: string): (s: string)
  {
    Parts(pattern)[0]
  }

  function Last(pattern: string): (s: string)
  {
    Parts(pattern)[|Parts(pattern)| - 1]
  }

  /** The middle parts with all their stars. */
  function Starred(ms: seq<string>): (p: string)
  {
    if ms == [] then [STAR] else [STAR] + (ms[0] + Starred(ms[1..]))
  }

  /**
   What the copy in domain.rs accepts: without stars, equality up to case; otherwise the exact
   text before the first star and after the last one, and between them what the middle of the
   pattern matches up to case.
   */
  ghost predicate DomainMatches(pattern: string, text: string)
  {
    if STAR !in pattern then Lower(pattern) == Lower(text)
    else
      && First(pattern) <= text
      && Tailing(Starred(Middle(pattern)), Last(pattern), text[|First(pattern)|..])
  }

  function Middle(pattern: string): (ms: seq<string>)
  {
    if |Parts(pattern)| < 2 then [] else Parts(pattern)[1..|Parts(pattern)| - 1]
  }

  /** The text ends with `last`, and before it `middle` matches up to case. */
  ghost predicate Tailing(middle: string, last: string, t: string)
  {
    EndsWith(t, last) && Matches(Lower(middle), Lower(t[..|t| - |last|]))
  }

  lemma LowerStarred(m: string, q: string)
    ensures Lower([STAR] + (m + q)) == [STAR] + (Lower(m) + Lower(q))
  {
    LowerAppend([STAR], m + q);
    LowerAppend(m, q);
    assert Lower([STAR]) == [STAR];
  }

  lemma StarredStartsWithStar(ms: seq<string>)
    ensures Starred(ms) == [STAR] + Starred(ms)[1..] && Lower(Starred(ms)) == [STAR] + Lower(Starred(ms))[1..]
  {
  }

  /** An empty middle part adds a star to a star. */
  lemma EmptyMiddle(ms: seq<string>, last: string, t: string)
    requires ms != [] && ms[0] == []
    ensures Tailing(Starred(ms), last, t) <==> Tailing(Starred(ms[1..]), last, t)
  {
    if EndsWith(t, last) {
      LowerStarred([], Starred(ms[1..]));
      StarredStartsWithStar(ms[1..]);
      var q := Lower(Starred(ms[1..]));
      assert Lower([]) + q == q;
      DoubleStar(q[1..], Lower(t[..|t| - |last|]));
    }
  }

  /** In front of a suffix that is left alone, the leftmost place of a part is as good as any. */
  lemma NextMiddle(ms: seq<string>, last: string, t: string)
    requires ms != [] && STAR !in ms[0]
    ensures Tailing(Starred(ms), last, t) <==>
            FindFolded(t, ms[0]).Some? && Tailing(Starred(ms[1..]), last, t[FindFolded(t, ms[0]).value + |ms[0]|..])
  {
    hide Matches, Find, Lower, Starred;
    var lit := Lower(ms[0]);
    var found := FindFolded(t, ms[0]);
    if EndsWith(t, last) {
      var body := t[..|t| - |last|];
      NextInBody(ms, body);
      LowerSlice(t, 0, |body|);
      assert t[0..|body|] == body && Lower(t)[0..|body|] == Lower(t)[..|body|];
      FindInFront(Lower(t), lit, |body|);
      if found.Some? && found.value + |lit| <= |body| {
        TailOfTail(t, last, found.value + |lit|);
      }
    } else if found.Some? {
      NoEnd(t, found.value + |lit|, last);
    }
  }

  lemma NextInBody(ms: seq<string>, body: string)
    requires ms != [] && STAR !in ms[0]
    ensures var found := Find(Lower(body), Lower(ms[0]));
            Matches(Lower(Starred(ms)), Lower(body)) <==>
            found.Some? && Matches(Lower(Starred(ms[1..])), Lower(body[found.value + |ms[0]|..]))
  {
    hide *;
    LowerKeepsStars(ms[0]);
    LowerOfStarred(ms);
    var found := Find(Lower(body), Lower(ms[0]));
    GreedyIsEnough(Lower(ms[0]), Lower(Starred(ms[1..]))[1..], Lower(body));
    if found.Some? {
      LowerSuffix(body, found.value + |ms[0]|);
    }
  }

  lemma LowerSuffix(s: string, k: nat)
    requires k <= |s|
    ensures Lower(s)[k..] == Lower(s[k..])
  {
  }

  lemma LowerOfStarred(ms: seq<string>)
    requires ms != []
    ensures |Lower(Starred(ms[1..]))| > 0
    ensures Lower(Starred(ms[1..])) == [STAR] + Lower(Starred(ms[1..]))[1..]
    ensures Lower(Starred(ms)) == [STAR] + (Lower(ms[0]) + Lower(Starred(ms[1..])))
  {
    LowerStarred(ms[0], Starred(ms[1..]));
    StarredStartsWithStar(ms[1..]);
  }

  lemma TailOfTail(t: string, last: string, k: nat)
    requires EndsWith(t, last) && k + |last| <= |t|
    ensures EndsWith(t[k..], last) && t[k..][..|t| - k - |last|] == t[..|t| - |last|][k..]
  {
    assert t[k..][|t| - k - |last|..] == t[|t| - |last|..];
  }

  lemma NoEnd(t: string, k: nat, last: string)
    requires k <= |t| && !EndsWith(t, last)
    ensures !EndsWith(t[k..], last)
  {
    if |last| <= |t[k..]| {
      assert t[k..][|t[k..]| - |last|..] == t[|t| - |last|..];
    }
  }

  /** The leftmost place in the whole text is the leftmost in front, if it lies there; otherwise there is none in front. */
  lemma FindInFront(t: string, lit: string, n: nat)
    requires n <= |t|
    ensures Find(t[..n], lit) == if Find(t, lit).Some? && Find(t, lit).value + |lit| <= n then Find(t, lit) else None
  {
    hide Find;
    var whole, front := Find(t, lit), Find(t[..n], lit);
    if whole.Some? && whole.value + |lit| <= n {
      PrefixInFront(t, lit, n, whole.value);
      FoundBy(t[..n], lit, whole.value);
    }
    if front.Some? {
      PrefixInFront(t, lit, n, front.value);
      FoundBy(t, lit, front.value);
    }
  }

  lemma FoundBy(t: string, lit: string, k: nat)
    requires k <= |t| && lit <= t[k..]
    ensures Find(t, lit).Some? && Find(t, lit).value <= k
  {
    hide Find;
  }

  lemma PrefixInFront(t: string, lit: string, n: nat, k: nat)
    requires n <= |t| && k <= n
    ensures lit <= t[..n][k..] <==> k + |lit| <= n && lit <= t[k..]
  {
    if k + |lit| <= n {
      assert t[..n][k..][..|lit|] == t[k..][..|lit|];
    }
  }

  function FindFolded(t: string, part: string): (r: Option<nat>)
    ensures r.Some? ==> r.value + |part| <= |t|
  {
    Find(Lower(t), Lower(part))
  }

  lemma NoMiddle(last: string, t: string)
    ensures Tailing(Starred([]), last, t) <==> EndsWith(t, last)
  {
    if EndsWith(t, last) {
      assert Lower([STAR]) == [STAR];
      LoneStar(Lower(t[..|t| - |last|]));
    }
  }

  /** The copy in domain.rs. */
  method DomainGlobMatch(pattern: string, text: string) returns (r: bool)
    ensures r <==> DomainMatches(pattern, text)
  {
    if STAR !in pattern {
      return Lower(pattern) == Lower(text);
    }
    hide Matches, Parts, Starred, Tailing, Lower, FindFolded, EndsWith;
    GluePartsIsPattern(pattern);
    var parts := Parts(pattern);
    var n := |parts| - 1;
    var rest := text;
    if parts[0] != [] {
      if !(parts[0] <= rest) {
        return false;
      }
      rest := rest[|parts[0]|..];
    }
    assert parts[1..n] == Middle(pattern) && text[0..] == text;
    r := DomainMatchRest(parts, rest);
  }

  /** The loop over the parts after the first. */
  method DomainMatchRest(parts: seq<string>, text: string) returns (r: bool)
    requires |parts| >= 2 && forall i :: 0 <= i < |parts| ==> STAR !in parts[i]
    ensures r <==> Tailing(Starred(parts[1..|parts| - 1]), parts[|parts| - 1], text)
  {
    hide Matches, Starred, Tailing, Lower, FindFolded, EndsWith;
    var n := |parts| - 1;
    var rest := text;
    for i := 1 to |parts|
      invariant i <= n ==> (Tailing(Starred(parts[1..n]), parts[n], text) <==> Tailing(Starred(parts[i..n]), parts[n], rest))
      invariant i > n ==> Tailing(Starred(parts[1..n]), parts[n], text)
    {
      var part := parts[i];
      if i == n {
        assert parts[n..n] == [];
        NoMiddle(part, rest);
        if part == [] {
          AnyEnd(rest);
          continue;
        }
        return EndsWith(rest, part);
      }
      assert parts[i..n][0] == part && parts[i..n][1..] == parts[i + 1..n];
      if part == [] {
        EmptyMiddle(parts[i..n], parts[n], rest);
        continue;
      }
      NextMiddle(parts[i..n], parts[n], rest);
      var position := FindFolded(rest, part);
      if position.None? {
        return false;
      }
      rest := rest[position.value + |part|..];
    }
    return true;
  }

  lemma AnyEnd(t: string)
    ensures EndsWith(t, [])
  {
  }

  // ---------------------------------------------------------------- the two copies agree on lower case

  lemma {:induction false} LiteralLast(q: string, lit: string, t: string)
    requires STAR !in lit
    ensures Matches(q + lit, t) <==> EndsWith(t, lit) && Matches(q, t[..|t| - |lit|])
    decreases |q| + |t|
  {
    if q == [] {
      assert q + lit == lit;
      WithoutStar(lit, t);
    } else {
      assert (q + lit)[1..] == q[1..] + lit && (q + lit)[0] == q[0];
      if q[0] == STAR {
        LiteralLast(q[1..], lit, t);
        if t != [] {
          LiteralLast(q, lit, t[1..]);
          OneShorter(t, lit);
        }
      } else if t != [] {
        LiteralLast(q[1..], lit, t[1..]);
        OneShorter(t, lit);
      }
    }
  }

  lemma OneShorter(t: string, lit: string)
    requires t != []
    ensures |lit| < |t| ==> (EndsWith(t[1..], lit) <==> EndsWith(t, lit))
    ensures |lit| < |t| ==> t[1..][..|t| - 1 - |lit|] == t[..|t| - |lit|][1..] && t[..|t| - |lit|][0] == t[0]
    ensures |lit| >= |t| ==> !EndsWith(t[1..], lit) && (EndsWith(t, lit) ==> t[..|t| - |lit|] == [])
  {
    if |lit| < |t| {
      assert t[1..][|t| - 1 - |lit|..] == t[|t| - |lit|..];
    }
  }

  /** A pattern with a star is its first part, its starred middle and its last part. */
  lemma {:induction false} GlueIsStarred(parts: seq<string>)
    requires |parts| >= 2
    ensures Glue(parts) == parts[0] + (Starred(parts[1..|parts| - 1]) + parts[|parts| - 1])
    decreases |parts|
  {
    var n := |parts| - 1;
    if n == 1 {
      assert parts[1..1] == [] && parts[1..][0] == parts[1];
      assert Glue(parts[1..]) == parts[1];
    } else {
      var rest := parts[1..];
      GlueIsStarred(rest);
      assert rest[1..|rest| - 1] == parts[1..n][1..] && parts[1..n][0] == parts[1] && rest[|rest| - 1] == parts[n];
      var m, x := Starred(parts[1..n][1..]), parts[n];
      assert [STAR] + (parts[1] + (m + x)) == [STAR] + (parts[1] + m) + x;
    }
  }

  lemma LowerParts(s: string, a: string, b: string)
    requires IsLower(s) && s == a + b
    ensures IsLower(a) && IsLower(b)
  {
    LowerAppend(a, b);
    assert a == s[..|a|] && b == s[|a|..];
    assert Lower(a) == Lower(s)[..|a|] && Lower(b) == Lower(s)[|a|..];
  }

  /** On lower-case inputs the copy in domain.rs accepts what the pattern means. */
  lemma DomainMatchesLower(pattern: string, text: string)
    requires IsLower(pattern) && IsLower(text)
    ensures DomainMatches(pattern, text) <==> Matches(pattern, text)
  {
    hide Matches, Parts, Starred, Lower, Glue, First, Middle, Last, Tailing, IsLower;
    if STAR !in pattern {
      WithoutStar(pattern, text);
      LowerEqual(pattern, text);
    } else {
      var first, middle, last := First(pattern), Starred(Middle(pattern)), Last(pattern);
      PatternIsStarred(pattern);
      LowerParts(pattern, first, middle + last);
      LowerParts(middle + last, middle, last);
      LiteralFirst(first, middle + last, text);
      if first <= text {
        LowerAfter(text, first);
        LowerTailing(middle, last, text[|first|..]);
      }
    }
  }

  lemma LowerEqual(a: string, b: string)
    requires IsLower(a) && IsLower(b)
    ensures Lower(a) == Lower(b) <==> a == b
  {
  }

  lemma LowerAfter(t: string, first: string)
    requires IsLower(t) && first <= t
    ensures IsLower(t[|first|..])
  {
    assert t == first + t[|first|..];
    LowerParts(t, first, t[|first|..]);
  }

  lemma PatternIsStarred(pattern: string)
    requires STAR in pattern
    ensures pattern == First(pattern) + (Starred(Middle(pattern)) + Last(pattern))
    ensures STAR !in First(pattern) && STAR !in Last(pattern)
  {
    hide Starred, Glue, Parts;
    GluePartsIsPattern(pattern);
    GlueIsStarred(Parts(pattern));
  }

  lemma LowerTailing(middle: string, last: string, t: string)
    requires IsLower(middle) && IsLower(t) && STAR !in last
    ensures Tailing(middle, last, t) <==> Matches(middle + last, t)
  {
    hide Matches, Lower;
    LiteralLast(middle, last, t);
    if EndsWith(t, last) {
      var body := t[..|t| - |last|];
      assert t == body + last;
      LowerParts(t, body, last);
    }
  }

  /** Some pattern of the list, in lower case, matches the name in lower case. */
  ghost predicate SomeMatches(patterns: seq<string>, exe: string)
  {
    exists i :: 0 <= i < |patterns| && Matches(Lower(patterns[i]), Lower(exe))
  }

  /** ClientProfile::matches_exe. */
  method ClientMatchesExe(patterns: seq<string>, exe: string) returns (r: bool)
    ensures r <==> SomeMatches(patterns, exe)
  {
    hide Matches, Lower, DomainMatches;
    var exeLower := Lower(exe);
    LowerTwice(exe);
    for n := 0 to |patterns|
      invariant forall i :: 0 <= i < n ==> !Matches(Lower(patterns[i]), exeLower)
    {
      var pat := Lower(patterns[n]);
      LowerTwice(patterns[n]);
      var found;
      if STAR in pat {
        found := DomainGlobMatch(pat, exeLower);
        DomainMatchesLower(pat, exeLower);
      } else {
        WithoutStar(pat, exeLower);
        found := pat == exeLower;
      }
      if found {
        return true;
      }
    }
    return false;
  }

  /** PresenceMemoryProfile::matches_exe: the same names as the client profile's test. */
  method PresenceMatchesExe(patterns: seq<string>, exe: string) returns (r: bool)
    ensures r <==> SomeMatches(patterns, exe)
  {
    hide Matches, Lower;
    var exeLower := Lower(exe);
    for n := 0 to |patterns|
      invariant forall i :: 0 <= i < n ==> !Matches(Lower(patterns[i]), exeLower)
    {
      var pat := Lower(patterns[n]);
      var found;
      if STAR in pat {
        found := PresenceGlobMatch(pat, exeLower);
      } else {
        WithoutStar(pat, exeLower);
        found := pat == exeLower;
      }
      if found {
        return true;
      }
    }
    return false;
  }
}
