/**
 The canonical identity of a Wine prefix that may not exist yet
 (canonicalize_prefix_path in crates/ro-session-protocol/src/lib.rs).
 */
module PrefixIdentity {
  import opened Basics
  import opened FileTree

  /** The identity of an absolute path: the nearest existing ancestor's place, then the missing names. */
  function Identity(t: Tree, path: Path): (r: Option<Place>)
    decreases |path|
  {
    match Canonicalize(t, path)
    case Ok(place) => if place in t && t[place] == Directory then Some(place) else None
    case Err(failure) =>
      if failure != NotFound || Exists(t, path) || path == [] || path[|path| - 1].Up? then None
      else
        var ancestor := Identity(t, path[..|path| - 1]);
        if ancestor.None? then None else Some(ancestor.value + [path[|path| - 1].name])
  }

  function Reversed(s: seq<Name>): (r: seq<Name>)
  {
    if s == [] then [] else Reversed(s[1..]) + [s[0]]
  }

  lemma {:induction false} ReversedSnoc(s: seq<Name>, x: Name)
    ensures Reversed(s + [x]) == [x] + Reversed(s)
  {
    if s == [] {
      assert s + [x] == [x] && [x][1..] == [];
    } else {
      assert (s + [x])[1..] == s[1..] + [x];
      ReversedSnoc(s[1..], x);
    }
  }

  lemma NothingMissing()
    ensures Reversed([]) == []
  {
  }

  /** The missing names, collected from the last one up, are pushed back in order. */
  method PushMissing(place: Place, missing: seq<Name>) returns (canonical: Place)
    ensures canonical == place + Reversed(missing)
  {
    canonical := place;
    var i := |missing|;
    assert missing[..i] == missing;
    while i > 0
      invariant 0 <= i <= |missing|
      invariant canonical + Reversed(missing[..i]) == place + Reversed(missing)
    {
      i := i - 1;
      assert missing[..i + 1] == missing[..i] + [missing[i]];
      ReversedSnoc(missing[..i], missing[i]);
      Assoc(canonical, [missing[i]], Reversed(missing[..i]));
      canonical := canonical + [missing[i]];
    }
    assert missing[..0] == [] && canonical + [] == canonical;
  }

  /** The loop over ancestors; a relative path has no identity. */
  method CanonicalizePrefixPath(t: Tree, absolute: bool, path: Path) returns (r: Option<Place>)
    ensures r == if absolute then Identity(t, path) else None
  {
    if !absolute {
      return None;
    }
    hide Canonicalize, Exists, Reversed;
    NothingMissing();
    var ancestor := path;
    var missing: seq<Name> := [];
    while true
      invariant Identity(t, path).Some? <==> Identity(t, ancestor).Some?
      invariant Identity(t, path).Some? ==>
                  Identity(t, path).value == Identity(t, ancestor).value + Reversed(missing)
      decreases |ancestor|
    {
      match Canonicalize(t, ancestor)
      case Ok(place) =>
        if !(place in t && t[place] == Directory) {
          return None;
        }
        var canonical := PushMissing(place, missing);
        return Some(canonical);
      case Err(failure) =>
        if failure != NotFound || Exists(t, ancestor) || ancestor == [] || ancestor[|ancestor| - 1].Up? {
          return None;
        }
        var name := ancestor[|ancestor| - 1].name;
        ReversedSnoc(missing, name);
        if Identity(t, path).Some? {
          Assoc(Identity(t, ancestor[..|ancestor| - 1]).value, [name], Reversed(missing));
        }
        missing := missing + [name];
        ancestor := ancestor[..|ancestor| - 1];
    }
  }

  // ---------------------------------------------------------------- what an identity is

  /** An identity that had to skip missing names is not there yet. */
  lemma {:induction false} MissingIsMissing(t: Tree, path: Path)
    requires WellFormed(t) && Identity(t, path).Some? && Canonicalize(t, path).Err?
    ensures Identity(t, path).value !in t
    decreases |path|
  {
    var init, name := path[..|path| - 1], path[|path| - 1].name;
    var d := Identity(t, init).value;
    if Canonicalize(t, init).Err? {
      MissingIsMissing(t, init);
      hide Identity, Canonicalize, Exists;
      assert Parent(d + [name]) == d;
      if d + [name] in t {
        ParentIsDirectory(t, d + [name]);
      }
    }
  }

  /** One more name below a directory that a path leads to. */
  lemma OneMore(t: Tree, init: Path, name: Name, d: Place)
    requires Canonicalize(t, init) == Ok(d) && IsDirectory(t, d)
    ensures Exists(t, init + [Down(name)]) <==> d + [name] in t
    ensures d + [name] !in t ==> Canonicalize(t, init + [Down(name)]) == Err(NotFound)
    ensures IsDirectory(t, d + [name]) ==> Canonicalize(t, init + [Down(name)]) == Ok(d + [name])
  {
    var path := init + [Down(name)];
    assert path[..|path| - 1] == init;
    ResolveAppend(t, [], init, [Down(name)], MAX_LINKS);
    assert [Down(name)][1..] == [];
    if IsDirectory(t, d + [name]) {
      assert Resolve(t, d + [name], [], Left(t, [], init, MAX_LINKS)) == Ok(d + [name]);
    }
  }

  /** Below a path that is not there, nothing is there. */
  lemma BelowNothing(t: Tree, init: Path, name: Name)
    requires Canonicalize(t, init) == Err(NotFound)
    ensures Canonicalize(t, init + [Down(name)]) == Err(NotFound) && !Exists(t, init + [Down(name)])
  {
    var path := init + [Down(name)];
    assert path[..|path| - 1] == init;
    ResolveAppend(t, [], init, [Down(name)], MAX_LINKS);
  }

  lemma IdentitySnoc(t: Tree, init: Path, name: Name)
    requires Canonicalize(t, init + [Down(name)]) == Err(NotFound) && !Exists(t, init + [Down(name)])
    ensures Identity(t, init + [Down(name)])
            == if Identity(t, init).None? then None else Some(Identity(t, init).value + [name])
  {
    var path := init + [Down(name)];
    assert path[..|path| - 1] == init;
  }

  /**
   Creating directories, however many and wherever, never changes the identity of a path that
   has one: not its own missing parents, not the prefix itself.
   */
  lemma {:induction false} IdentityIsStable(t: Tree, t': Tree, path: Path)
    requires WellFormed(t) && WellFormed(t') && ExtendedByDirectories(t, t')
    requires Identity(t, path).Some?
    ensures Identity(t', path) == Identity(t, path)
    decreases |path|
  {
    hide Identity, Resolve, ExtendedByDirectories;
    if Canonicalize(t, path).Ok? {
      StablePresent(t, t', path);
    } else {
      var init, name := MissingName(t, path);
      var d := Identity(t, init).value;
      MissingIsMissing(t, path);
      IdentityIsStable(t, t', init);
      StableStep(t, t', init, name, d);
    }
  }

  lemma StablePresent(t: Tree, t': Tree, path: Path)
    requires WellFormed(t) && WellFormed(t') && ExtendedByDirectories(t, t')
    requires Identity(t, path).Some? && Canonicalize(t, path).Ok?
    ensures Identity(t', path) == Identity(t, path)
  {
    ResolveIsStable(t, t', [], path, MAX_LINKS);
  }

  /** An identity of something missing ends with the last name of the path. */
  lemma MissingName(t: Tree, path: Path) returns (init: Path, name: Name)
    requires Identity(t, path).Some? && Canonicalize(t, path).Err?
    ensures path == init + [Down(name)] && Identity(t, init).Some?
    ensures Identity(t, path) == Some(Identity(t, init).value + [name])
  {
    init, name := path[..|path| - 1], path[|path| - 1].name;
    hide Resolve;
  }

  lemma StableStep(t: Tree, t': Tree, init: Path, name: Name, d: Place)
    requires ExtendedByDirectories(t, t') && Identity(t', init) == Some(d) && d + [name] !in t
    ensures Identity(t', init + [Down(name)]) == Some(d + [name])
  {
    if Canonicalize(t', init).Ok? {
      OneMore(t', init, name, d);
      if d + [name] !in t' {
        IdentitySnoc(t', init, name);
      }
    } else {
      BelowNothing(t', init, name);
      IdentitySnoc(t', init, name);
    }
  }

  /** Once the identity exists as a directory, the path leads to it. */
  lemma IdentityIsWhereItWillBe(t: Tree, t': Tree, path: Path)
    requires WellFormed(t) && WellFormed(t') && ExtendedByDirectories(t, t')
    requires Identity(t, path).Some? && Identity(t, path).value in t'
    ensures Canonicalize(t', path) == Ok(Identity(t, path).value)
  {
    IdentityIsStable(t, t', path);
    if Canonicalize(t', path).Err? {
      MissingIsMissing(t', path);
    }
  }

  /** Two paths with one identity lead to one directory as soon as it exists, and never to two. */
  lemma SameIdentitySameDirectory(t: Tree, t': Tree, p: Path, q: Path)
    requires WellFormed(t) && WellFormed(t') && ExtendedByDirectories(t, t')
    requires Identity(t, p).Some? && Identity(t, q).Some?
    requires Identity(t, p).value in t' && Identity(t, q).value in t'
    ensures Identity(t, p) == Identity(t, q) <==> Canonicalize(t', p) == Canonicalize(t', q)
  {
    IdentityIsWhereItWillBe(t, t', p);
    IdentityIsWhereItWillBe(t, t', q);
  }

  ghost predicate OutOfLinks(t: Tree, path: Path)
  {
    Canonicalize(t, path) == Err(TooManyLinks)
  }

  /**
   Two spellings of one directory, by whatever links, give one identity, or none, to everything
   below it, unless one of them runs out of links; that one then has none.
   */
  lemma SpellingsAgree(t: Tree, p: Path, q: Path, d: Place, rest: Path)
    requires Canonicalize(t, p) == Ok(d) && Canonicalize(t, q) == Ok(d) && IsDirectory(t, d)
    ensures !OutOfLinks(t, p + rest) && !OutOfLinks(t, q + rest) ==> Identity(t, p + rest) == Identity(t, q + rest)
    ensures OutOfLinks(t, p + rest) ==> Identity(t, p + rest) == None
    ensures OutOfLinks(t, q + rest) ==> Identity(t, q + rest) == None
  {
    if !OutOfLinks(t, p + rest) && !OutOfLinks(t, q + rest) {
      hide Identity, Canonicalize;
      SpellingsShareIdentity(t, p, q, d, rest);
    }
  }

  lemma {:induction false} SpellingsShareIdentity(t: Tree, p: Path, q: Path, d: Place, rest: Path)
    requires Canonicalize(t, p) == Ok(d) && Canonicalize(t, q) == Ok(d) && IsDirectory(t, d)
    requires !OutOfLinks(t, p + rest) && !OutOfLinks(t, q + rest)
    ensures Identity(t, p + rest) == Identity(t, q + rest)
    decreases |rest|
  {
    if rest == [] {
      assert p + rest == p && q + rest == q;
    } else {
      hide Resolve, Identity, Canonicalize, Exists, OutOfLinks;
      SpellingsResolveAlike(t, p, q, d, rest);
      var init, last := rest[..|rest| - 1], rest[|rest| - 1];
      assert rest == init + [last];
      Assoc(p, init, [last]);
      Assoc(q, init, [last]);
      FewerLinks(t, p + init, last);
      FewerLinks(t, q + init, last);
      SpellingsResolveAlike(t, p, q, d, init);
      SpellingsShareIdentity(t, p, q, d, init);
      SameStep(t, p + init, q + init, last);
    }
  }

  lemma SameStep(t: Tree, a: Path, b: Path, last: Component)
    requires Canonicalize(t, a) == Canonicalize(t, b) && Identity(t, a) == Identity(t, b)
    requires Canonicalize(t, a + [last]) == Canonicalize(t, b + [last])
    ensures Identity(t, a + [last]) == Identity(t, b + [last])
  {
    hide Canonicalize;
    assert (a + [last])[..|a|] == a && (b + [last])[..|b|] == b;
  }

  lemma FewerLinks(t: Tree, path: Path, last: Component)
    requires !OutOfLinks(t, path + [last])
    ensures !OutOfLinks(t, path)
  {
    ResolveAppend(t, [], path, [last], MAX_LINKS);
  }

  lemma SpellingsResolveAlike(t: Tree, p: Path, q: Path, d: Place, rest: Path)
    requires Canonicalize(t, p) == Ok(d) && Canonicalize(t, q) == Ok(d) && IsDirectory(t, d)
    requires !OutOfLinks(t, p + rest) && !OutOfLinks(t, q + rest)
    ensures Canonicalize(t, p + rest) == Canonicalize(t, q + rest)
  {
    ResolveAppend(t, [], p, rest, MAX_LINKS);
    ResolveAppend(t, [], q, rest, MAX_LINKS);
    var a, b := Left(t, [], p, MAX_LINKS), Left(t, [], q, MAX_LINKS);
    hide Resolve, Left;
    if a <= b {
      MoreLinks(t, d, rest, a, b);
    } else {
      MoreLinks(t, d, rest, b, a);
    }
  }

  /** A name that does not exist below a directory: both spellings have an identity, the same one. */
  lemma {:induction false} MissingBelowBothSpellings(t: Tree, p: Path, d: Place, name: Name, more: seq<Name>)
    requires Canonicalize(t, p) == Ok(d) && IsDirectory(t, d) && d + [name] !in t
    ensures Identity(t, p + [Down(name)] + Spelling(more)) == Some(d + [name] + more)
    ensures Canonicalize(t, p + [Down(name)] + Spelling(more)) == Err(NotFound)
    decreases |more|
  {
    if more == [] {
      OneMore(t, p, name, d);
      IdentitySnoc(t, p, name);
      assert p + [Down(name)] + Spelling(more) == p + [Down(name)];
      assert d + [name] + more == d + [name];
    } else {
      var init, last := more[..|more| - 1], more[|more| - 1];
      MissingBelowBothSpellings(t, p, d, name, init);
      var path := p + [Down(name)] + Spelling(init);
      assert p + [Down(name)] + Spelling(more) == path + [Down(last)];
      hide Identity, Canonicalize, Exists, Spelling;
      BelowNothing(t, path, last);
      IdentitySnoc(t, path, last);
      assert d + [name] + more == d + [name] + init + [last];
    }
  }

  /** An identity, spelled out, is its own identity. */
  lemma {:induction false} IdentityIsFixed(t: Tree, path: Path)
    requires WellFormed(t) && Identity(t, path).Some?
    ensures Identity(t, Spelling(Identity(t, path).value)) == Identity(t, path)
    decreases |path|
  {
    if Canonicalize(t, path).Ok? {
      SpellingResolves(t, Identity(t, path).value, MAX_LINKS);
    } else {
      var init, name := path[..|path| - 1], path[|path| - 1].name;
      var d := Identity(t, init).value;
      MissingIsMissing(t, path);
      IdentityIsFixed(t, init);
      StableStep(t, t, Spelling(d), name, d);
      assert Spelling(d + [name]) == Spelling(d) + [Down(name)];
    }
  }
}
