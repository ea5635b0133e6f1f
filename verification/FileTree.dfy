/**
 A file system as the path code sees it: directories, files and symbolic links, and the
 resolution of a path to the place it physically names.
 */
module FileTree {
  import opened Basics

  type Name = string

  /** A physical place: the names from the root, none of them a link. */
  type Place = seq<Name>

  /** The components of a path; `.` and repeated separators are already gone. */
  datatype Component = Down(name: Name) | Up

  type Path = seq<Component>

  datatype Node = Directory | File | Link(absolute: bool, target: Path)

  type Tree = map<Place, Node>

  datatype Failure = NotFound | NotADirectory | TooManyLinks

  /** How many links a resolution may follow. */
  const MAX_LINKS: nat := 40

  function Parent(p: Place): (d: Place)
  {
    if p == [] then [] else p[..|p| - 1]
  }

  ghost predicate WellFormed(t: Tree)
  {
    && [] in t && t[[]] == Directory
    && forall p :: p in t && p != [] ==> Parent(p) in t && t[Parent(p)] == Directory
  }

  ghost predicate IsDirectory(t: Tree, p: Place)
  {
    p in t && t[p] == Directory
  }

  /** Walks `path` from the directory `at`, following at most `links` links. */
  function Resolve(t: Tree, at: Place, path: Path, links: nat): (r: Result<Place, Failure>)
    decreases links, |path|
  {
    if path == [] then Ok(at)
    else
      match path[0]
      case Up => Resolve(t, Parent(at), path[1..], links)
      case Down(name) =>
        var p := at + [name];
        if p !in t then Err(NotFound)
        else
          match t[p]
          case Directory => Resolve(t, p, path[1..], links)
          case File => if path[1..] == [] then Ok(p) else Err(NotADirectory)
          case Link(absolute, target) =>
            if links == 0 then Err(TooManyLinks)
            else Resolve(t, if absolute then [] else at, target + path[1..], links - 1)
  }

  /** The physical place of an absolute path. */
  function Canonicalize(t: Tree, path: Path): (r: Result<Place, Failure>)
  {
    Resolve(t, [], path, MAX_LINKS)
  }

  /** Whether the path names an entry, a dangling link included. */
  function Exists(t: Tree, path: Path): (r: bool)
  {
    if path == [] then true
    else
      var d := Canonicalize(t, path[..|path| - 1]);
      && d.Ok? && d.value in t && t[d.value] == Directory
      && (path[|path| - 1].Up? || d.value + [path[|path| - 1].name] in t)
  }

  /** How many links are left after a walk that succeeded. */
  ghost function Left(t: Tree, at: Place, path: Path, links: nat): (n: nat)
    ensures n <= links
    decreases links, |path|
  {
    if path == [] then links
    else
      match path[0]
      case Up => Left(t, Parent(at), path[1..], links)
      case Down(name) =>
        var p := at + [name];
        if p !in t then links
        else
          match t[p]
          case Directory => Left(t, p, path[1..], links)
          case File => links
          case Link(absolute, target) =>
            if links == 0 then 0
            else Left(t, if absolute then [] else at, target + path[1..], links - 1)
  }

  /** A walk can be cut at any directory it passes. */
  lemma {:induction false} ResolveAppend(t: Tree, at: Place, p: Path, q: Path, links: nat)
    ensures var r := Resolve(t, at, p, links);
            && (r.Ok? && (IsDirectory(t, r.value) || p == []) ==>
                  Resolve(t, at, p + q, links) == Resolve(t, r.value, q, Left(t, at, p, links)))
            && (r.Err? ==> Resolve(t, at, p + q, links) == r)
    decreases links, |p|
  {
    if p == [] {
      assert p + q == q;
    } else {
      assert (p + q)[1..] == p[1..] + q;
      match p[0]
      case Up => ResolveAppend(t, Parent(at), p[1..], q, links);
      case Down(name) =>
        var place := at + [name];
        if place in t {
          match t[place]
          case Directory => ResolveAppend(t, place, p[1..], q, links);
          case File =>
          case Link(absolute, target) =>
            if links > 0 {
              Assoc(target, p[1..], q);
              ResolveAppend(t, if absolute then [] else at, target + p[1..], q, links - 1);
            }
        }
    }
  }

  lemma ParentIsDirectory(t: Tree, p: Place)
    requires WellFormed(t) && p in t
    ensures IsDirectory(t, Parent(p))
  {
  }

  lemma {:induction false} ResolvedExists(t: Tree, at: Place, path: Path, links: nat)
    requires WellFormed(t) && IsDirectory(t, at) && Resolve(t, at, path, links).Ok?
    ensures Resolve(t, at, path, links).value in t
    decreases links, |path|
  {
    if path != [] {
      match path[0]
      case Up =>
        ParentIsDirectory(t, at);
        ResolvedExists(t, Parent(at), path[1..], links);
      case Down(name) =>
        var p := at + [name];
        match t[p]
        case Directory => ResolvedExists(t, p, path[1..], links);
        case File =>
        case Link(absolute, target) =>
          hide Resolve;
          LinkStep(t, at, path, links);
          ResolvedExists(t, if absolute then [] else at, target + path[1..], links - 1);
    }
  }

  lemma LinkStep(t: Tree, at: Place, path: Path, links: nat)
    requires path != [] && path[0].Down? && at + [path[0].name] in t && t[at + [path[0].name]].Link?
    ensures var l := t[at + [path[0].name]];
            Resolve(t, at, path, links)
            == if links == 0 then Err(TooManyLinks)
               else Resolve(t, if l.absolute then [] else at, l.target + path[1..], links - 1)
  {
  }

  /** More links allowed change nothing for a walk that had enough. */
  lemma {:induction false} MoreLinks(t: Tree, at: Place, path: Path, links: nat, more: nat)
    requires links <= more && Resolve(t, at, path, links) != Err(TooManyLinks)
    ensures Resolve(t, at, path, more) == Resolve(t, at, path, links)
    decreases links, |path|
  {
    if path != [] {
      match path[0]
      case Up => MoreLinks(t, Parent(at), path[1..], links, more);
      case Down(name) =>
        var p := at + [name];
        if p in t {
          match t[p]
          case Directory => MoreLinks(t, p, path[1..], links, more);
          case File =>
          case Link(absolute, target) =>
            MoreLinks(t, if absolute then [] else at, target + path[1..], links - 1, more - 1);
        }
    }
  }

  /** `t'` has everything `t` has, and beyond it only directories. */
  ghost predicate ExtendedByDirectories(t: Tree, t': Tree)
  {
    && (forall p :: p in t ==> p in t' && t'[p] == t[p])
    && (forall p :: p in t' && p !in t ==> t'[p] == Directory)
  }

  /** New directories do not disturb a walk that succeeded without them. */
  lemma {:induction false} ResolveIsStable(t: Tree, t': Tree, at: Place, path: Path, links: nat)
    requires ExtendedByDirectories(t, t') && Resolve(t, at, path, links).Ok?
    ensures Resolve(t', at, path, links) == Resolve(t, at, path, links)
    decreases links, |path|
  {
    if path != [] {
      match path[0]
      case Up => ResolveIsStable(t, t', Parent(at), path[1..], links);
      case Down(name) =>
        var p := at + [name];
        match t[p]
        case Directory => ResolveIsStable(t, t', p, path[1..], links);
        case File =>
        case Link(absolute, target) =>
          ResolveIsStable(t, t', if absolute then [] else at, target + path[1..], links - 1);
    }
  }

  /** The path that spells a place from the root. */
  function Spelling(p: Place): (path: Path)
    ensures |path| == |p|
    ensures forall i :: 0 <= i < |p| ==> path[i] == Down(p[i])
  {
    seq(|p|, i requires 0 <= i < |p| => Down(p[i]))
  }

  /** The spelling of an existing directory leads to it without any link. */
  lemma {:induction false} SpellingResolves(t: Tree, p: Place, links: nat)
    requires WellFormed(t) && IsDirectory(t, p)
    ensures Resolve(t, [], Spelling(p), links) == Ok(p)
    ensures Left(t, [], Spelling(p), links) == links
  {
    if p != [] {
      var d := Parent(p);
      var last := p[|p| - 1];
      SpellingResolves(t, d, links);
      assert Spelling(p) == Spelling(d) + [Down(last)];
      ResolveAppend(t, [], Spelling(d), [Down(last)], links);
      LeftAppend(t, [], Spelling(d), [Down(last)], links);
      assert d + [last] == p;
      assert [Down(last)][1..] == [];
      assert Resolve(t, d, [Down(last)], links) == Resolve(t, p, [], links);
      assert Left(t, d, [Down(last)], links) == Left(t, p, [], links);
    }
  }

  lemma {:induction false} LeftAppend(t: Tree, at: Place, p: Path, q: Path, links: nat)
    requires Resolve(t, at, p, links).Ok? && (IsDirectory(t, Resolve(t, at, p, links).value) || p == [])
    ensures Left(t, at, p + q, links) == Left(t, Resolve(t, at, p, links).value, q, Left(t, at, p, links))
    decreases links, |p|
  {
    if p == [] {
      assert p + q == q;
    } else {
      assert (p + q)[1..] == p[1..] + q;
      match p[0]
      case Up => LeftAppend(t, Parent(at), p[1..], q, links);
      case Down(name) =>
        var place := at + [name];
        match t[place]
        case Directory => LeftAppend(t, place, p[1..], q, links);
        case Link(absolute, target) =>
          Assoc(target, p[1..], q);
          LeftAppend(t, if absolute then [] else at, target + p[1..], q, links - 1);
        case File =>
    }
  }
}
