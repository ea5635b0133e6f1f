/**
 Translation of an executable's path to a DOS path through the drive links of a Wine prefix
 (proton_executable_dos_path in src-tauri/src/utils/runner.rs).
 */
module DosPath {
  import opened Basics
  import opened FileTree

  datatype DosError =
    | BadInput | BadDosPath | BadComponent | NoDriveLink | NoExecutable | LeavesDrive
    | NotAbsolute | NoDrives | NoDriveContains | Changed

  // ---------------------------------------------------------------- splitting and joining

  /** The parts of `s` between separators; always at least one. */
  function Split(s: string, separators: set<char>): (r: seq<string>)
    ensures |r| >= 1
  {
    if s == [] then [[]]
    else
      var init, last := Split(s[..|s| - 1], separators), s[|s| - 1];
      if last in separators then init + [[]]
      else init[..|init| - 1] + [init[|init| - 1] + [last]]
  }

  function JoinDos(components: seq<string>): (s: string)
  {
    if components == [] then []
    else if |components| == 1 then components[0]
    else JoinDos(components[..|components| - 1]) + "\\" + components[|components| - 1]
  }

  ghost predicate Plain(s: string, separators: set<char>)
  {
    forall i :: 0 <= i < |s| ==> s[i] !in separators
  }

  lemma {:induction false} SplitPlain(s: string, separators: set<char>)
    requires Plain(s, separators)
    ensures Split(s, separators) == [s]
  {
    if s != [] {
      SplitPlain(s[..|s| - 1], separators);
      assert s[..|s| - 1] + [s[|s| - 1]] == s;
    }
  }

  lemma {:induction false} SplitLast(a: string, sep: char, c: string, separators: set<char>)
    requires sep in separators && Plain(c, separators)
    ensures Split(a + [sep] + c, separators) == Split(a, separators) + [c]
  {
    var s := a + [sep] + c;
    if c == [] {
      assert s == a + [sep] && s[..|s| - 1] == a;
    } else {
      var init := c[..|c| - 1];
      SplitLast(a, sep, init, separators);
      assert s[..|s| - 1] == a + [sep] + init;
      var parts := Split(a, separators) + [init];
      assert parts[..|parts| - 1] == Split(a, separators);
      assert init + [c[|c| - 1]] == c;
    }
  }

  /** Joined components split back into themselves. */
  lemma {:induction false} SplitJoin(components: seq<string>, separators: set<char>)
    requires components != [] && '\\' in separators
    requires forall i :: 0 <= i < |components| ==> Plain(components[i], separators)
    ensures Split(JoinDos(components), separators) == components
  {
    if |components| == 1 {
      SplitPlain(components[0], separators);
    } else {
      var init, last := components[..|components| - 1], components[|components| - 1];
      SplitJoin(init, separators);
      SplitLast(JoinDos(init), '\\', last, separators);
      assert init + [last] == components;
    }
  }

  // ---------------------------------------------------------------- components and drives

  const FORBIDDEN: set<char> := {'\\', '/', ':', '"', '<', '>', '|', '?', '*'}

  predicate ValidComponent(c: string)
  {
    && c != [] && c != "." && c != ".."
    && c[|c| - 1] != '.' && c[|c| - 1] != ' '
    && forall i :: 0 <= i < |c| ==> c[i] >= ' ' && c[i] !in FORBIDDEN
  }

  predicate AllValid(components: seq<string>)
  {
    forall i :: 0 <= i < |components| ==> ValidComponent(components[i])
  }

  predicate IsDriveLetter(c: char) { 'a' <= c <= 'z' }

  function Upper(c: char): (r: char)
  {
    if 'a' <= c <= 'z' then c - 32 as char else c
  }

  /** Where the link of a drive leads, if it is a link to a directory. */
  function DriveRoot(t: Tree, prefix: Path, drive: char): (r: Result<Place, DosError>)
  {
    var mapping := prefix + [Down("dosdevices"), Down([drive, ':'])];
    var holder := Canonicalize(t, mapping[..|mapping| - 1]);
    if !(holder.Ok? && holder.value + [[drive, ':']] in t && t[holder.value + [[drive, ':']]].Link?) then
      Err(NoDriveLink)
    else
      var root := Canonicalize(t, mapping);
      if root.Ok? && root.value in t && t[root.value] == Directory then Ok(root.value) else Err(NoDriveLink)
  }

  function CanonicalExecutable(t: Tree, path: Path): (r: Result<Place, DosError>)
  {
    var c := Canonicalize(t, path);
    if c.Ok? && c.value in t && t[c.value] == File then Ok(c.value) else Err(NoExecutable)
  }

  function Written(drive: char, components: seq<string>): (s: string)
  {
    [Upper(drive)] + ":\\" + JoinDos(components)
  }

  // ---------------------------------------------------------------- the two branches

  predicate IsDosInput(exe: string)
  {
    |exe| > 1 && exe[1] == ':'
  }

  const DOS_SEPARATORS: set<char> := {'\\', '/'}

  /** A path that is already DOS: the normalised path and the file it names. */
  function FromDos(t: Tree, prefix: Path, exe: string): (r: Result<(string, Place), DosError>)
    requires IsDosInput(exe)
  {
    if !IsLetter(exe[0]) || |exe| < 3 || exe[2] !in DOS_SEPARATORS then Err(BadDosPath)
    else
      var drive := LowerChar(exe[0]);
      var components := Split(exe[3..], DOS_SEPARATORS);
      if !AllValid(components) then Err(BadComponent)
      else
        var root := DriveRoot(t, prefix, drive);
        if root.Err? then Err(root.error)
        else
          var canonical := CanonicalExecutable(t, Spelling(root.value + components));
          if canonical.Err? then Err(canonical.error)
          else if !(root.value <= canonical.value) then Err(LeavesDrive)
          else Ok((Written(drive, components), canonical.value))
  }

  /** The components of an absolute Unix path. */
  function UnixPath(s: string): (p: Path)
  {
    ToPath(Split(s, {'/'}))
  }

  function ToPath(parts: seq<string>): (p: Path)
  {
    if parts == [] then []
    else
      (if parts[0] == [] || parts[0] == "." then [] else if parts[0] == ".." then [Up] else [Down(parts[0])])
      + ToPath(parts[1..])
  }

  datatype Candidate = Candidate(root: Place, drive: char)

  /** The drives of a directory listing whose root contains the file, in listing order. */
  function Candidates(t: Tree, prefix: Path, canonical: Place, listing: seq<Name>): (r: seq<Candidate>)
  {
    if listing == [] then []
    else
      var rest := Candidates(t, prefix, canonical, listing[..|listing| - 1]);
      var name := listing[|listing| - 1];
      if |name| == 2 && IsDriveLetter(name[0]) && name[1] == ':' then
        var root := DriveRoot(t, prefix, name[0]);
        if root.Ok? && root.value <= canonical then rest + [Candidate(root.value, name[0])] else rest
      else rest
  }

  /** Deeper roots first, then letters in order. */
  predicate Before(a: Candidate, b: Candidate)
  {
    |a.root| > |b.root| || (|a.root| == |b.root| && a.drive < b.drive)
  }

  function InsertSorted(s: seq<Candidate>, c: Candidate): (r: seq<Candidate>)
    ensures forall x :: x in r <==> x in s || x == c
  {
    if s == [] then [c]
    else if Before(c, s[0]) then [c] + s
    else [s[0]] + InsertSorted(s[1..], c)
  }

  function Sorted(s: seq<Candidate>): (r: seq<Candidate>)
    ensures forall x :: x in r <==> x in s
  {
    if s == [] then []
    else
      assert s == s[..|s| - 1] + [s[|s| - 1]];
      InsertSorted(Sorted(s[..|s| - 1]), s[|s| - 1])
  }

  ghost predicate Ordered(s: seq<Candidate>)
  {
    forall i, j :: 0 <= i < j < |s| ==> !Before(s[j], s[i])
  }

  lemma {:induction false} InsertOrdered(s: seq<Candidate>, c: Candidate)
    requires Ordered(s)
    ensures Ordered(InsertSorted(s, c))
  {
    if s != [] && !Before(c, s[0]) {
      InsertOrdered(s[1..], c);
      var rest := InsertSorted(s[1..], c);
      assert forall i :: 0 <= i < |rest| ==> rest[i] in rest;
      assert forall x :: x in s[1..] ==> !Before(x, s[0]);
    }
  }

  lemma {:induction false} SortedIsOrdered(s: seq<Candidate>)
    ensures Ordered(Sorted(s))
  {
    if s != [] {
      SortedIsOrdered(s[..|s| - 1]);
      InsertOrdered(Sorted(s[..|s| - 1]), s[|s| - 1]);
    }
  }

  /**
   A Unix path: the DOS path and the file it names. `later` is the tree at the time of the
   final comparison, which may differ from the tree that was searched.
   */
  function FromUnix(t: Tree, later: Tree, prefix: Path, exe: string, listing: Option<seq<Name>>)
    : (r: Result<(string, Place), DosError>)
  {
    if exe == [] || exe[0] != '/' then Err(NotAbsolute)
    else
      var canonical := CanonicalExecutable(t, UnixPath(exe));
      if canonical.Err? then Err(canonical.error)
      else if listing.None? then Err(NoDrives)
      else
        var candidates := Sorted(Candidates(t, prefix, canonical.value, listing.value));
        if candidates == [] then Err(NoDriveContains)
        else
          var best := candidates[0];
          if !(best.root <= canonical.value) then Err(NoDriveContains)
          else
            var relative := canonical.value[|best.root|..];
            if !AllValid(relative) then Err(BadComponent)
            else
              var current := DriveRoot(later, prefix, best.drive);
              if current.Err? then Err(current.error)
              else
                var again := CanonicalExecutable(later, Spelling(current.value + relative));
                if current.value != best.root || again != canonical then Err(Changed)
                else Ok((Written(best.drive, relative), canonical.value))
  }

  function Translate(t: Tree, later: Tree, absolute: bool, prefix: Path, exe: string, listing: Option<seq<Name>>)
    : (r: Result<(string, Place), DosError>)
  {
    if !absolute || '\0' in exe then Err(BadInput)
    else if IsDosInput(exe) then FromDos(t, prefix, exe)
    else FromUnix(t, later, prefix, exe, listing)
  }

  // ---------------------------------------------------------------- the loops

  method CollectCandidates(t: Tree, prefix: Path, canonical: Place, listing: seq<Name>) returns (r: seq<Candidate>)
    ensures r == Candidates(t, prefix, canonical, listing)
  {
    r := [];
    assert listing[..0] == [];
    for n := 0 to |listing|
      invariant r == Candidates(t, prefix, canonical, listing[..n])
    {
      assert listing[..n + 1][..n] == listing[..n];
      var name := listing[n];
      if !(|name| == 2 && IsDriveLetter(name[0]) && name[1] == ':') {
        continue;
      }
      var root := DriveRoot(t, prefix, name[0]);
      if root.Err? {
        continue;
      }
      if root.value <= canonical {
        r := r + [Candidate(root.value, name[0])];
      }
    }
    assert listing[..|listing|] == listing;
  }

  method ValidateComponents(components: seq<string>) returns (ok: bool)
    ensures ok <==> AllValid(components)
  {
    for i := 0 to |components|
      invariant forall j :: 0 <= j < i ==> ValidComponent(components[j])
    {
      if !ValidComponent(components[i]) {
        return false;
      }
    }
    return true;
  }

  /** proton_executable_dos_path. */
  method ProtonExecutableDosPath(t: Tree, later: Tree, absolute: bool, prefix: Path, exe: string,
                                 listing: Option<seq<Name>>)
    returns (r: Result<string, DosError>)
    ensures var x := Translate(t, later, absolute, prefix, exe, listing);
            r == if x.Ok? then Ok(x.value.0) else Err(x.error)
  {
    hide DriveRoot, CanonicalExecutable, Candidates, Sorted, Split, UnixPath, AllValid;
    if !absolute || '\0' in exe {
      return Err(BadInput);
    }
    if IsDosInput(exe) {
      if !IsLetter(exe[0]) || |exe| < 3 || exe[2] !in DOS_SEPARATORS {
        return Err(BadDosPath);
      }
      var components := Split(exe[3..], DOS_SEPARATORS);
      var valid := ValidateComponents(components);
      if !valid {
        return Err(BadComponent);
      }
      var root := DriveRoot(t, prefix, LowerChar(exe[0]));
      if root.Err? {
        return Err(root.error);
      }
      var canonical := CanonicalExecutable(t, Spelling(root.value + components));
      if canonical.Err? {
        return Err(canonical.error);
      }
      if !(root.value <= canonical.value) {
        return Err(LeavesDrive);
      }
      return Ok(Written(LowerChar(exe[0]), components));
    }
    if exe == [] || exe[0] != '/' {
      return Err(NotAbsolute);
    }
    var canonical := CanonicalExecutable(t, UnixPath(exe));
    if canonical.Err? {
      return Err(canonical.error);
    }
    if listing.None? {
      return Err(NoDrives);
    }
    var candidates := CollectCandidates(t, prefix, canonical.value, listing.value);
    candidates := Sorted(candidates);
    if candidates == [] {
      return Err(NoDriveContains);
    }
    var best := candidates[0];
    ContainsFile(t, prefix, canonical.value, listing.value, best);
    var relative := canonical.value[|best.root|..];
    var valid := ValidateComponents(relative);
    if !valid {
      return Err(BadComponent);
    }
    var current := DriveRoot(later, prefix, best.drive);
    if current.Err? {
      return Err(current.error);
    }
    var again := CanonicalExecutable(later, Spelling(current.value + relative));
    if current.value != best.root {
      return Err(Changed);
    }
    if again != canonical {
      return Err(Changed);
    }
    return Ok(Written(best.drive, relative));
  }

  // ---------------------------------------------------------------- which drive is chosen

  /** A listed drive letter whose root contains the file. */
  ghost predicate Contains(t: Tree, prefix: Path, canonical: Place, listing: seq<Name>, c: Candidate)
  {
    && IsDriveLetter(c.drive) && [c.drive, ':'] in listing
    && DriveRoot(t, prefix, c.drive) == Ok(c.root) && c.root <= canonical
  }

  lemma {:induction false} CandidatesContain(t: Tree, prefix: Path, canonical: Place, listing: seq<Name>, c: Candidate)
    ensures c in Candidates(t, prefix, canonical, listing) <==> Contains(t, prefix, canonical, listing, c)
  {
    hide DriveRoot;
    if listing != [] {
      var init, name := listing[..|listing| - 1], listing[|listing| - 1];
      assert listing == init + [name];
      CandidatesContain(t, prefix, canonical, init, c);
      assert [c.drive, ':'] in listing <==> [c.drive, ':'] in init || name == [c.drive, ':'];
      if |name| == 2 {
        assert name == [name[0], name[1]];
      }
    }
  }

  lemma ContainsFile(t: Tree, prefix: Path, canonical: Place, listing: seq<Name>, c: Candidate)
    requires c in Candidates(t, prefix, canonical, listing)
    ensures c.root <= canonical && DriveRoot(t, prefix, c.drive) == Ok(c.root) && IsDriveLetter(c.drive)
  {
    CandidatesContain(t, prefix, canonical, listing, c);
  }

  /** The deepest containing root; among equally deep ones the first letter. */
  ghost predicate Best(t: Tree, prefix: Path, canonical: Place, listing: seq<Name>, c: Candidate)
  {
    && Contains(t, prefix, canonical, listing, c)
    && forall d :: Contains(t, prefix, canonical, listing, d) ==> d == c || Before(c, d)
  }

  /** The first candidate after sorting is the best, and there is none only if no drive contains the file. */
  lemma FirstIsBest(t: Tree, prefix: Path, canonical: Place, listing: seq<Name>)
    ensures var s := Sorted(Candidates(t, prefix, canonical, listing));
            if s == [] then forall c :: !Contains(t, prefix, canonical, listing, c)
            else Best(t, prefix, canonical, listing, s[0])
  {
    var s := Sorted(Candidates(t, prefix, canonical, listing));
    SortedIsOrdered(Candidates(t, prefix, canonical, listing));
    hide Candidates, Sorted, DriveRoot;
    forall d
      ensures Contains(t, prefix, canonical, listing, d) <==> d in s
    {
      CandidatesContain(t, prefix, canonical, listing, d);
    }
    if s != [] {
      assert s[0] in s;
      forall d | Contains(t, prefix, canonical, listing, d)
        ensures d == s[0] || Before(s[0], d)
      {
        assert d in s;
        assert !Before(d, s[0]);
      }
    }
  }

  lemma BestIsUnique(t: Tree, prefix: Path, canonical: Place, a: seq<Name>, b: seq<Name>, c: Candidate, d: Candidate)
    requires forall n :: n in a <==> n in b
    requires Best(t, prefix, canonical, a, c) && Best(t, prefix, canonical, b, d)
    ensures c == d
  {
    hide DriveRoot;
    assert Contains(t, prefix, canonical, a, d) && Contains(t, prefix, canonical, b, c);
  }

  /** The order in which the directory lists its entries does not matter. */
  lemma ListingOrderIsIrrelevant(t: Tree, later: Tree, prefix: Path, exe: string, a: seq<Name>, b: seq<Name>)
    requires forall n :: n in a <==> n in b
    ensures FromUnix(t, later, prefix, exe, Some(a)) == FromUnix(t, later, prefix, exe, Some(b))
  {
    hide DriveRoot, Candidates, Sorted, AllValid, UnixPath;
    var canonical := CanonicalExecutable(t, UnixPath(exe));
    if canonical.Ok? {
      FirstIsBest(t, prefix, canonical.value, a);
      FirstIsBest(t, prefix, canonical.value, b);
      var s := Sorted(Candidates(t, prefix, canonical.value, a));
      var s' := Sorted(Candidates(t, prefix, canonical.value, b));
      assert forall c :: Contains(t, prefix, canonical.value, a, c) <==> Contains(t, prefix, canonical.value, b, c);
      if s != [] && s' != [] {
        BestIsUnique(t, prefix, canonical.value, a, b, s[0], s'[0]);
      }
    }
  }

  // ---------------------------------------------------------------- round trips

  lemma WrittenShape(drive: char, components: seq<string>)
    requires IsDriveLetter(drive) && components != [] && AllValid(components)
    ensures var dos := Written(drive, components);
            && IsDosInput(dos) && |dos| >= 3 && dos[2] == '\\' && IsLetter(dos[0]) && LowerChar(dos[0]) == drive
            && dos[3..] == JoinDos(components)
            && Split(dos[3..], DOS_SEPARATORS) == components
  {
    var dos := Written(drive, components);
    assert dos[3..] == JoinDos(components);
    forall i | 0 <= i < |components|
      ensures Plain(components[i], DOS_SEPARATORS)
    {
      assert ValidComponent(components[i]);
    }
    SplitJoin(components, DOS_SEPARATORS);
  }

  lemma {:induction false} JoinHasNoNul(components: seq<string>)
    requires AllValid(components)
    ensures '\0' !in JoinDos(components)
  {
    if components != [] {
      var last := components[|components| - 1];
      assert ValidComponent(last);
      JoinHasNoNul(components[..|components| - 1]);
    }
  }

  lemma WrittenHasNoNul(drive: char, components: seq<string>)
    requires IsDriveLetter(drive) && AllValid(components)
    ensures '\0' !in Written(drive, components)
  {
    JoinHasNoNul(components);
  }

  /** A written path, read again in a tree where its parts resolve, names the same file. */
  lemma ReadBack(t: Tree, prefix: Path, drive: char, components: seq<string>, root: Place, place: Place)
    requires IsDriveLetter(drive) && components != [] && AllValid(components)
    requires DriveRoot(t, prefix, drive) == Ok(root) && root <= place
    requires CanonicalExecutable(t, Spelling(root + components)) == Ok(place)
    ensures IsDosInput(Written(drive, components))
    ensures FromDos(t, prefix, Written(drive, components)) == Ok((Written(drive, components), place))
    ensures '\0' !in Written(drive, components)
  {
    WrittenShape(drive, components);
    WrittenHasNoNul(drive, components);
    hide DriveRoot, CanonicalExecutable, Split, AllValid, Written;
  }

  lemma FromUnixReadsBack(t: Tree, later: Tree, prefix: Path, exe: string, listing: Option<seq<Name>>)
    requires FromUnix(t, later, prefix, exe, listing).Ok?
    ensures var (dos, place) := FromUnix(t, later, prefix, exe, listing).value;
            && CanonicalExecutable(t, UnixPath(exe)) == Ok(place)
            && '\0' !in dos && IsDosInput(dos) && FromDos(later, prefix, dos) == Ok((dos, place))
  {
    var (dos, place) := FromUnix(t, later, prefix, exe, listing).value;
    var best := Sorted(Candidates(t, prefix, place, listing.value))[0];
    ContainsFile(t, prefix, place, listing.value, best);
    var relative := place[|best.root|..];
    assert relative != [] by {
      assert t[best.root] == Directory && t[place] == File;
      assert relative == [] ==> best.root == place;
    }
    hide DriveRoot, CanonicalExecutable, Candidates, Sorted, AllValid, UnixPath, Written;
    ReadBack(later, prefix, best.drive, relative, best.root, place);
  }

  /** What starts with a slash is a Unix path, unless a colon follows: then it is a bad DOS path. */
  lemma SlashInput(t: Tree, later: Tree, prefix: Path, exe: string, listing: Option<seq<Name>>)
    requires exe != [] && exe[0] == '/' && '\0' !in exe
    ensures Translate(t, later, true, prefix, exe, listing)
            == if "/:" <= exe then Err(BadDosPath) else FromUnix(t, later, prefix, exe, listing)
  {
    hide FromUnix;
    assert IsDosInput(exe) <==> "/:" <= exe;
  }

  /** The path made from a Unix executable reads back, through the drive links, to the same file. */
  lemma UnixRoundTrip(t: Tree, later: Tree, prefix: Path, exe: string, listing: Option<seq<Name>>,
                      other: Tree, relisted: Option<seq<Name>>)
    requires exe != [] && exe[0] == '/'
    requires Translate(t, later, true, prefix, exe, listing).Ok?
    ensures var (dos, place) := Translate(t, later, true, prefix, exe, listing).value;
            && CanonicalExecutable(t, UnixPath(exe)) == Ok(place)
            && '\0' !in dos && IsDosInput(dos)
            && Translate(later, other, true, prefix, dos, relisted) == Ok((dos, place))
  {
    SlashInput(t, later, prefix, exe, listing);
    hide FromUnix, FromDos, UnixPath, CanonicalExecutable;
    FromUnixReadsBack(t, later, prefix, exe, listing);
  }

  /** Every translated path is a fixed point of the translation, and names the same file. */
  lemma TranslationIsIdempotent(t: Tree, prefix: Path, exe: string, listing: Option<seq<Name>>,
                                other: Tree, relisted: Option<seq<Name>>)
    requires Translate(t, t, true, prefix, exe, listing).Ok?
    ensures var (dos, place) := Translate(t, t, true, prefix, exe, listing).value;
            Translate(t, other, true, prefix, dos, relisted) == Ok((dos, place))
  {
    if IsDosInput(exe) {
      var drive, components := LowerChar(exe[0]), Split(exe[3..], DOS_SEPARATORS);
      var root := DriveRoot(t, prefix, drive).value;
      var place := FromDos(t, prefix, exe).value.1;
      hide DriveRoot, CanonicalExecutable, Split, AllValid, Written;
      ReadBack(t, prefix, drive, components, root, place);
    } else {
      FromUnixReadsBack(t, t, prefix, exe, listing);
    }
  }

  lemma SpellingResolvesFile(t: Tree, p: Place)
    requires WellFormed(t) && p in t && t[p] == File
    ensures Canonicalize(t, Spelling(p)) == Ok(p)
  {
    var d, last := Parent(p), p[|p| - 1];
    ParentIsDirectory(t, p);
    SpellingResolves(t, d, MAX_LINKS);
    assert Spelling(p) == Spelling(d) + [Down(last)] && d + [last] == p;
    ResolveAppend(t, [], Spelling(d), [Down(last)], MAX_LINKS);
    assert [Down(last)][1..] == [];
  }

  /** While nothing changes, the final comparison of the Unix branch cannot fail. */
  lemma ComparisonOnlyCatchesChanges(t: Tree, prefix: Path, exe: string, listing: Option<seq<Name>>)
    requires WellFormed(t)
    ensures FromUnix(t, t, prefix, exe, listing) != Err(Changed)
  {
    var canonical := CanonicalExecutable(t, UnixPath(exe));
    if canonical.Ok? && listing.Some? {
      var place := canonical.value;
      var s := Sorted(Candidates(t, prefix, place, listing.value));
      if s != [] {
        assert s[0] in s;
        ContainsFile(t, prefix, place, listing.value, s[0]);
        SpellingResolvesFile(t, place);
        assert s[0].root + place[|s[0].root|..] == place;
      }
    }
  }

  /** The drive by which a file is named, and the components below it. */
  ghost predicate NamedBy(t: Tree, prefix: Path, place: Place, listing: seq<Name>, c: Candidate)
  {
    Best(t, prefix, place, listing, c) && AllValid(place[|c.root|..])
  }

  lemma FromUnixOutcome(t: Tree, prefix: Path, exe: string, listing: Option<seq<Name>>)
    requires WellFormed(t) && exe != [] && exe[0] == '/'
    ensures var canonical, r := CanonicalExecutable(t, UnixPath(exe)), FromUnix(t, t, prefix, exe, listing);
            && (r.Ok? ==> canonical.Ok? && listing.Some?)
            && (canonical.Ok? && listing.Some? ==>
                  var s := Sorted(Candidates(t, prefix, canonical.value, listing.value));
                  && (r.Ok? <==> s != [] && s[0].root <= canonical.value && AllValid(canonical.value[|s[0].root|..]))
                  && (r.Ok? ==> r.value == (Written(s[0].drive, canonical.value[|s[0].root|..]), canonical.value)))
  {
    ComparisonOnlyCatchesChanges(t, prefix, exe, listing);
    var canonical := CanonicalExecutable(t, UnixPath(exe));
    if canonical.Ok? && listing.Some? {
      var s := Sorted(Candidates(t, prefix, canonical.value, listing.value));
      if s != [] {
        assert s[0] in s;
        ContainsFile(t, prefix, canonical.value, listing.value, s[0]);
      }
    }
    hide DriveRoot, CanonicalExecutable, Candidates, Sorted, AllValid, UnixPath, Written;
  }

  /**
   On a tree that does not change, an absolute Unix path is translated exactly if it does not
   start with "/:", its executable resolves, the drives can be listed, and the components below
   the best drive are valid; the result names that drive and those components.
   */
  lemma UnixTranslatesIff(t: Tree, prefix: Path, exe: string, listing: Option<seq<Name>>)
    requires WellFormed(t) && exe != [] && exe[0] == '/' && '\0' !in exe
    ensures var canonical, r := CanonicalExecutable(t, UnixPath(exe)), Translate(t, t, true, prefix, exe, listing);
            && (r.Ok? <==> && !("/:" <= exe) && canonical.Ok? && listing.Some?
                           && exists c :: NamedBy(t, prefix, canonical.value, listing.value, c))
            && (r.Ok? ==> forall c :: NamedBy(t, prefix, canonical.value, listing.value, c) ==>
                  r.value == (Written(c.drive, canonical.value[|c.root|..]), canonical.value))
  {
    SlashInput(t, t, prefix, exe, listing);
    FromUnixOutcome(t, prefix, exe, listing);
    hide FromUnix, UnixPath, CanonicalExecutable, Translate, Candidates, Sorted, AllValid, Written, Best, Contains, WellFormed;
    var canonical := CanonicalExecutable(t, UnixPath(exe));
    if canonical.Ok? && listing.Some? {
      FirstIsBestNamed(t, prefix, canonical.value, listing.value);
      var s := Sorted(Candidates(t, prefix, canonical.value, listing.value));
      if s != [] {
        assert NamedBy(t, prefix, canonical.value, listing.value, s[0]) <==> AllValid(canonical.value[|s[0].root|..]);
      }
    }
  }

  lemma FirstIsBestNamed(t: Tree, prefix: Path, place: Place, listing: seq<Name>)
    ensures var s := Sorted(Candidates(t, prefix, place, listing));
            && (s == [] ==> forall c :: !Best(t, prefix, place, listing, c))
            && (s != [] ==> s[0].root <= place && forall c :: Best(t, prefix, place, listing, c) <==> c == s[0])
  {
    FirstIsBest(t, prefix, place, listing);
    var s := Sorted(Candidates(t, prefix, place, listing));
    hide Candidates, Sorted, DriveRoot;
    if s != [] {
      forall c | Best(t, prefix, place, listing, c)
        ensures c == s[0]
      {
        BestIsUnique(t, prefix, place, listing, listing, c, s[0]);
      }
    }
  }

  // ---------------------------------------------------------------- reading either kind of path

  /** A separator separates, whatever stands before and after it. */
  lemma {:induction false} SplitAt(a: string, sep: char, b: string, separators: set<char>)
    requires sep in separators
    ensures Split(a + [sep] + b, separators) == Split(a, separators) + Split(b, separators)
  {
    SplitNothing(separators);
    hide Split;
    var s := a + [sep] + b;
    SplitSnoc(s, separators);
    if b == [] {
      assert s[..|s| - 1] == a && s[|s| - 1] == sep;
    } else {
      var init, last := b[..|b| - 1], b[|b| - 1];
      SplitAt(a, sep, init, separators);
      assert s[..|s| - 1] == a + [sep] + init && s[|s| - 1] == last;
      SplitSnoc(b, separators);
      GrowLast(Split(a, separators), Split(init, separators), last);
    }
  }

  lemma SplitNothing(separators: set<char>)
    ensures Split([], separators) == [[]]
  {
  }

  lemma GrowLast(x: seq<string>, y: seq<string>, c: char)
    requires y != []
    ensures (x + y)[..|x + y| - 1] + [(x + y)[|x + y| - 1] + [c]] == x + (y[..|y| - 1] + [y[|y| - 1] + [c]])
    ensures (x + y) + [[]] == x + (y + [[]])
  {
  }

  lemma SplitSnoc(s: string, separators: set<char>)
    requires s != []
    ensures var init, last := Split(s[..|s| - 1], separators), s[|s| - 1];
            Split(s, separators) == if last in separators then init + [[]] else init[..|init| - 1] + [init[|init| - 1] + [last]]
  {
  }

  lemma {:induction false} ToPathAppend(a: seq<string>, b: seq<string>)
    ensures ToPath(a + b) == ToPath(a) + ToPath(b)
  {
    if a == [] {
      assert a + b == b;
    } else {
      assert (a + b)[1..] == a[1..] + b;
      ToPathAppend(a[1..], b);
    }
  }

  /** A Unix path is read component by component; empty ones and single dots count for nothing. */
  lemma UnixPathJoins(a: string, b: string)
    ensures UnixPath(a + "/" + b) == UnixPath(a) + UnixPath(b)
  {
    SplitAt(a, '/', b, {'/'});
    hide Split;
    ToPathAppend(Split(a, {'/'}), Split(b, {'/'}));
  }

  lemma UnixComponent(name: string)
    requires '/' !in name
    ensures UnixPath(name) ==
            if name == [] || name == "." then [] else if name == ".." then [Up] else [Down(name)]
  {
    SplitPlain(name, {'/'});
    assert [name][1..] == [] && ToPath([]) == [];
  }

  function PrintComponent(c: Component): (s: string)
  {
    match c
    case Up => ".."
    case Down(name) => name
  }

  /** An absolute path as it is written. */
  function PrintUnix(path: Path): (s: string)
  {
    if path == [] then [] else PrintUnix(path[..|path| - 1]) + "/" + PrintComponent(path[|path| - 1])
  }

  ghost predicate Writable(path: Path)
  {
    forall i :: 0 <= i < |path| && path[i].Down? ==>
      path[i].name != [] && path[i].name != "." && path[i].name != ".." && '/' !in path[i].name
  }

  /** A written Unix path reads back. */
  lemma {:induction false} UnixPathReadsBack(path: Path)
    requires Writable(path)
    ensures UnixPath(PrintUnix(path)) == path
  {
    hide UnixPath, PrintComponent;
    if path == [] {
      UnixComponent([]);
    } else {
      var init, last := path[..|path| - 1], path[|path| - 1];
      UnixPathReadsBack(init);
      UnixPathJoins(PrintUnix(init), PrintComponent(last));
      ComponentReadsBack(last);
      assert path == init + [last];
    }
  }

  lemma ComponentReadsBack(c: Component)
    requires Writable([c])
    ensures UnixPath(PrintComponent(c)) == [c]
  {
    hide UnixPath;
    assert c == [c][0];
    UnixComponent(PrintComponent(c));
  }

  /** Components with a separator of either kind between each two. */
  function Spelled(components: seq<string>, separators: seq<char>): (s: string)
    requires components != [] && |separators| == |components| - 1
  {
    if |components| == 1 then components[0]
    else
      var n := |components| - 1;
      Spelled(components[..n], separators[..n - 1]) + [separators[n - 1]] + components[n]
  }

  ghost predicate SpelledAs(s: string, components: seq<string>)
  {
    exists separators: seq<char> ::
      && components != [] && |separators| == |components| - 1
      && (forall i :: 0 <= i < |separators| ==> separators[i] in DOS_SEPARATORS)
      && Spelled(components, separators) == s
  }

  lemma {:induction false} SplitSpelled(components: seq<string>, separators: seq<char>)
    requires components != [] && |separators| == |components| - 1
    requires forall i :: 0 <= i < |separators| ==> separators[i] in DOS_SEPARATORS
    requires forall i :: 0 <= i < |components| ==> Plain(components[i], DOS_SEPARATORS)
    ensures Split(Spelled(components, separators), DOS_SEPARATORS) == components
  {
    if |components| == 1 {
      SplitPlain(components[0], DOS_SEPARATORS);
    } else {
      var n := |components| - 1;
      SplitSpelled(components[..n], separators[..n - 1]);
      SplitLast(Spelled(components[..n], separators[..n - 1]), separators[n - 1], components[n], DOS_SEPARATORS);
      assert components[..n] + [components[n]] == components;
    }
  }

  lemma {:induction false} SplitIsSpelled(s: string) returns (separators: seq<char>)
    ensures |separators| == |Split(s, DOS_SEPARATORS)| - 1
    ensures forall i :: 0 <= i < |separators| ==> separators[i] in DOS_SEPARATORS
    ensures Spelled(Split(s, DOS_SEPARATORS), separators) == s
  {
    if s == [] {
      separators := [];
    } else {
      var init, last := s[..|s| - 1], s[|s| - 1];
      var before := SplitIsSpelled(init);
      var parts := Split(init, DOS_SEPARATORS);
      var n := |parts|;
      SplitSnoc(s, DOS_SEPARATORS);
      assert s == init + [last];
      hide Split;
      if last in DOS_SEPARATORS {
        separators := before + [last];
        assert (parts + [[]])[..n] == parts && separators[..n - 1] == before;
      } else {
        separators := before;
        LastGrows(parts, before, last);
      }
    }
  }

  lemma LastGrows(parts: seq<string>, separators: seq<char>, c: char)
    requires parts != [] && |separators| == |parts| - 1
    ensures var n := |parts| - 1;
            Spelled(parts[..n] + [parts[n] + [c]], separators) == Spelled(parts, separators) + [c]
  {
    var n := |parts| - 1;
    var grown := parts[..n] + [parts[n] + [c]];
    if n > 0 {
      assert grown[..n] == parts[..n];
    }
  }

  /** A string is cut into valid components exactly as they are spelled in it. */
  lemma CutIffSpelled(s: string, components: seq<string>)
    requires AllValid(components)
    ensures Split(s, DOS_SEPARATORS) == components <==> SpelledAs(s, components)
  {
    forall i | 0 <= i < |components|
      ensures Plain(components[i], DOS_SEPARATORS)
    {
      assert ValidComponent(components[i]);
    }
    hide Split, Spelled, ValidComponent;
    if Split(s, DOS_SEPARATORS) == components {
      var separators := SplitIsSpelled(s);
    }
    if SpelledAs(s, components) {
      var separators: seq<char> :|
        && components != [] && |separators| == |components| - 1
        && (forall i :: 0 <= i < |separators| ==> separators[i] in DOS_SEPARATORS)
        && Spelled(components, separators) == s;
      SplitSpelled(components, separators);
    }
  }

  /** A drive leads to the directory that its link in the prefix resolves to. */
  lemma DriveLeadsIff(t: Tree, prefix: Path, drive: char, root: Place)
    ensures DriveRoot(t, prefix, drive) == Ok(root) <==>
            var holder := Canonicalize(t, prefix + [Down("dosdevices")]);
            && holder.Ok? && holder.value + [[drive, ':']] in t && t[holder.value + [[drive, ':']]].Link?
            && Canonicalize(t, prefix + [Down("dosdevices"), Down([drive, ':'])]) == Ok(root) && IsDirectory(t, root)
  {
    var mapping := prefix + [Down("dosdevices"), Down([drive, ':'])];
    assert mapping[..|mapping| - 1] == prefix + [Down("dosdevices")];
    hide Canonicalize;
  }

  /** The file that a drive's components name, inside the drive. */
  ghost predicate OnDrive(t: Tree, prefix: Path, drive: char, components: seq<string>, place: Place)
  {
    exists root :: DriveRoot(t, prefix, drive) == Ok(root) && root <= place
                   && CanonicalExecutable(t, Spelling(root + components)) == Ok(place)
  }

  /** A letter, a colon and a separator, then valid components separated by either separator. */
  ghost predicate SpellsDos(exe: string, components: seq<string>)
  {
    && |exe| >= 3 && IsLetter(exe[0]) && exe[1] == ':' && exe[2] in DOS_SEPARATORS
    && AllValid(components) && SpelledAs(exe[3..], components)
  }

  /**
   DOS input is translated exactly if it spells components that name an executable inside its
   drive; the result writes the drive and these components in the one canonical way.
   */
  lemma DosTranslatesIff(t: Tree, later: Tree, prefix: Path, exe: string, listing: Option<seq<Name>>, dos: string, place: Place)
    requires IsDosInput(exe) && '\0' !in exe
    ensures Translate(t, later, true, prefix, exe, listing) == Ok((dos, place)) <==>
            exists components :: SpellsDos(exe, components) && dos == Written(LowerChar(exe[0]), components)
                                 && OnDrive(t, prefix, LowerChar(exe[0]), components, place)
  {
    hide DriveRoot, CanonicalExecutable, Split, AllValid, Written, FromUnix, SpelledAs, LowerChar;
    if Translate(t, later, true, prefix, exe, listing) == Ok((dos, place)) {
      var components := Split(exe[3..], DOS_SEPARATORS);
      CutIffSpelled(exe[3..], components);
      assert SpellsDos(exe, components);
    }
    if components :| SpellsDos(exe, components) && dos == Written(LowerChar(exe[0]), components)
                     && OnDrive(t, prefix, LowerChar(exe[0]), components, place) {
      CutIffSpelled(exe[3..], components);
    }
  }

  /** Drive letters are case-blind and nothing else is. */
  lemma LowerIsCaseBlind(a: char, b: char)
    requires IsLetter(a)
    ensures IsDriveLetter(LowerChar(a)) && (IsDriveLetter(a) ==> LowerChar(a) == a && LowerChar(Upper(a)) == a)
    ensures LowerChar(a) == LowerChar(b) ==> a == b || a == Upper(b) || b == Upper(a)
  {
  }
}
