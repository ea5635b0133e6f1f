/**
 The directory that holds a JSON file, its backup, its temporary files and its quarantined copies,
 as a disk that can lose power.

 A directory entry remembers every value it had since the directory was last synced, and a file
 whether its text was synced since it was last written. Losing power brings each entry back to any
 one of the remembered values, independently of the others, and replaces the text of every
 unsynced file by anything at all. The death of the process alone loses nothing.
 */
module CrashDisk {
  import opened Basics

  type Inode = nat

  datatype Name = Primary | Backup | Temp(tag: nat) | Quarantine(tag: nat)

  /** Temporary files become the primary; backups and quarantined copies are written in place. */
  datatype Role = Data | Spare | Evidence

  function RoleOf(n: Name): (r: Role)
  {
    match n
    case Primary => Data
    case Temp(_) => Data
    case Backup => Spare
    case Quarantine(_) => Evidence
  }

  datatype File = File(text: string, synced: bool, role: Role)

  datatype RawDisk = Disk(entries: map<Name, seq<Option<Inode>>>, files: seq<File>)

  ghost predicate Valid(d: RawDisk)
  {
    && (forall n :: n in d.entries ==> |d.entries[n]| > 0)
    && (forall n, k :: n in d.entries && 0 <= k < |d.entries[n]| && d.entries[n][k].Some? ==>
          d.entries[n][k].value < |d.files| && d.files[d.entries[n][k].value].role == RoleOf(n))
  }

  type Disk = d: RawDisk | Valid(d) witness Disk(map[], [])

  /** The values an entry may have after a power loss; the last one is the current one. */
  function Versions(d: Disk, n: Name): (r: seq<Option<Inode>>)
    ensures |r| > 0
    ensures forall k :: 0 <= k < |r| && r[k].Some? ==>
              r[k].value < |d.files| && d.files[r[k].value].role == RoleOf(n)
  {
    if n in d.entries then d.entries[n] else [None]
  }

  function Entry(d: Disk, n: Name): (r: Option<Inode>)
    ensures r.Some? ==> r.value < |d.files| && d.files[r.value].role == RoleOf(n)
  {
    Versions(d, n)[|Versions(d, n)| - 1]
  }

  predicate Present(d: Disk, n: Name)
  {
    Entry(d, n).Some?
  }

  function Text(d: Disk, n: Name): (text: string)
    requires Present(d, n)
  {
    d.files[Entry(d, n).value].text
  }

  /** What becomes of one file operation: an error or a death may leave a partial text behind. */
  datatype Fate = Works | Fails(left: Option<string>) | Dies(left: Option<string>)

  datatype Reply = Done | Failed | Dead

  datatype After<+R> = After(disk: Disk, reply: R)

  function ReplyTo(fate: Fate): (r: Reply)
  {
    match fate
    case Works => Done
    case Fails(_) => Failed
    case Dies(_) => Dead
  }

  function Left(fate: Fate, text: string): (r: Option<string>)
  {
    if fate.Works? then Some(text) else fate.left
  }

  // ---------------------------------------------------------------- file operations

  function Link(d: Disk, n: Name, to: Option<Inode>): (d': Disk)
    requires to.Some? ==> to.value < |d.files| && d.files[to.value].role == RoleOf(n)
  {
    d.(entries := d.entries[n := Versions(d, n) + [to]])
  }

  function NewFile(d: Disk, n: Name, text: string): (d': Disk)
  {
    Link(d.(files := d.files + [File(text, false, RoleOf(n))]), n, Some(|d.files|))
  }

  function Overwrite(d: Disk, n: Name, text: string): (d': Disk)
    requires Present(d, n)
  {
    d.(files := d.files[Entry(d, n).value := File(text, false, RoleOf(n))])
  }

  /** Open with O_CREAT and O_EXCL. */
  function Make(d: Disk, n: Name, fate: Fate): (a: After<Reply>)
  {
    if !fate.Works? then After(d, ReplyTo(fate))
    else if Present(d, n) then After(d, Failed)
    else After(NewFile(d, n, ""), Done)
  }

  function Put(d: Disk, n: Name, text: string, fate: Fate): (a: After<Reply>)
    requires Present(d, n)
  {
    var left := Left(fate, text);
    After(if left.None? then d else Overwrite(d, n, left.value), ReplyTo(fate))
  }

  /** fsync of a file. */
  function Flush(d: Disk, n: Name, fate: Fate): (a: After<Reply>)
    requires Present(d, n)
  {
    var i := Entry(d, n).value;
    After(if fate.Works? then d.(files := d.files[i := d.files[i].(synced := true)]) else d, ReplyTo(fate))
  }

  /** Copies the text of one file onto another, in place when that one exists. */
  function Copy(d: Disk, source: Name, destination: Name, fate: Fate): (a: After<Reply>)
    requires Present(d, source)
    ensures a.reply == Done ==> Present(a.disk, destination)
  {
    var left := Left(fate, Text(d, source));
    After(
      if left.None? then d
      else if Present(d, destination) then Overwrite(d, destination, left.value)
      else NewFile(d, destination, left.value),
      ReplyTo(fate))
  }

  function Move(d: Disk, from: Name, to: Name, fate: Fate): (a: After<Reply>)
    requires Present(d, from) && RoleOf(from) == RoleOf(to)
  {
    After(if fate.Works? then Link(Link(d, to, Entry(d, from)), from, None) else d, ReplyTo(fate))
  }

  function Unlink(d: Disk, n: Name, fate: Fate): (a: After<Reply>)
  {
    if !fate.Works? then After(d, ReplyTo(fate))
    else if !Present(d, n) then After(d, Failed)
    else After(Link(d, n, None), Done)
  }

  function Settled(d: Disk): (d': Disk)
  {
    d.(entries := map n | n in d.entries :: [d.entries[n][|d.entries[n]| - 1]])
  }

  /** fsync of the directory. */
  function SyncDirectory(d: Disk, fate: Fate): (a: After<Reply>)
  {
    After(if fate.Works? then Settled(d) else d, ReplyTo(fate))
  }

  /** The disk as it is found after a power loss. */
  function PowerLoss(d: Disk, pick: Name -> nat, garbage: Inode -> string): (d': Disk)
  {
    var files := seq(|d.files|, i requires 0 <= i < |d.files| =>
      if d.files[i].synced then d.files[i] else d.files[i].(text := garbage(i), synced := true));
    assert forall i :: 0 <= i < |files| ==> files[i].role == d.files[i].role;
    Disk(map n | n in d.entries :: [d.entries[n][pick(n) % |d.entries[n]|]], files)
  }

  // ---------------------------------------------------------------- what operations leave alone

  /** Neither the entry nor any text it may come back to has changed. */
  ghost predicate Untouched(d: Disk, d': Disk, n: Name)
  {
    && Versions(d', n) == Versions(d, n)
    && |d'.files| >= |d.files|
    && forall v :: v in Versions(d, n) && v.Some? ==> d'.files[v.value] == d.files[v.value]
  }

  lemma NewFileElsewhere(d: Disk, n: Name, text: string, m: Name)
    requires m != n
    ensures Untouched(d, NewFile(d, n, text), m)
    ensures Entry(NewFile(d, n, text), n) == Some(|d.files|)
  {
  }

  lemma OverwriteElsewhere(d: Disk, n: Name, text: string, m: Name)
    requires Present(d, n) && RoleOf(m) != RoleOf(n)
    ensures Untouched(d, Overwrite(d, n, text), m)
  {
  }

  lemma CopyElsewhere(d: Disk, source: Name, destination: Name, fate: Fate, m: Name)
    requires Present(d, source) && RoleOf(m) != RoleOf(destination)
    ensures Untouched(d, Copy(d, source, destination, fate).disk, m)
  {
    var left := Left(fate, Text(d, source));
    if left.Some? {
      if Present(d, destination) {
        OverwriteElsewhere(d, destination, left.value, m);
      } else {
        NewFileElsewhere(d, destination, left.value, m);
      }
    }
  }

  lemma FlushElsewhere(d: Disk, n: Name, fate: Fate, m: Name)
    requires Present(d, n) && RoleOf(m) != RoleOf(n)
    ensures Untouched(d, Flush(d, n, fate).disk, m)
  {
  }

  /** Entry `m` can never come back to the file that `n` now names. */
  ghost predicate Apart(d: Disk, n: Name, m: Name)
  {
    Present(d, n) && Entry(d, n) !in Versions(d, m)
  }

  lemma MakeIsApart(d: Disk, n: Name, fate: Fate, m: Name)
    requires m != n
    ensures var a := Make(d, n, fate);
            Untouched(d, a.disk, m) && (a.reply == Done ==> Apart(a.disk, n, m))
  {
    if fate.Works? && !Present(d, n) {
      NewFileElsewhere(d, n, "", m);
      hide NewFile, Entry, Valid;
      assert forall v :: v in Versions(d, m) && v.Some? ==> v.value < |d.files|;
    }
  }

  lemma PutApart(d: Disk, n: Name, text: string, fate: Fate, m: Name)
    requires Apart(d, n, m)
    ensures var a := Put(d, n, text, fate);
            && Untouched(d, a.disk, m) && Apart(a.disk, n, m)
            && (a.reply == Done ==> Text(a.disk, n) == text)
  {
  }

  lemma FlushApart(d: Disk, n: Name, fate: Fate, m: Name)
    requires Apart(d, n, m)
    ensures var a := Flush(d, n, fate);
            && Untouched(d, a.disk, m) && Present(a.disk, n) && Text(a.disk, n) == Text(d, n)
            && (a.reply == Done ==> a.disk.files[Entry(a.disk, n).value].synced)
  {
  }

  lemma UntouchedTransitive(a: Disk, b: Disk, c: Disk, n: Name)
    requires Untouched(a, b, n) && Untouched(b, c, n)
    ensures Untouched(a, c, n)
  {
    hide Versions;
  }

  /** The entry is the same, it can come back to no more than before, and those texts are the same. */
  ghost predicate Kept(d: Disk, d': Disk, n: Name)
  {
    && Entry(d', n) == Entry(d, n)
    && |d'.files| >= |d.files|
    && (forall v :: v in Versions(d', n) ==> v in Versions(d, n) && (v.Some? ==> d'.files[v.value] == d.files[v.value]))
  }

  lemma UntouchedIsKept(d: Disk, d': Disk, n: Name)
    requires Untouched(d, d', n)
    ensures Kept(d, d', n)
  {
  }

  lemma KeptTransitive(a: Disk, b: Disk, c: Disk, n: Name)
    requires Kept(a, b, n) && Kept(b, c, n)
    ensures Kept(a, c, n)
  {
    hide Versions, Entry;
  }

  lemma SettledKeeps(d: Disk, n: Name)
    ensures Kept(d, Settled(d), n) && Versions(Settled(d), n) == [Entry(d, n)]
  {
    SettledVersions(d, n);
    hide Settled, Versions, Valid;
  }

  lemma SettledVersions(d: Disk, n: Name)
    ensures Settled(d).files == d.files && Versions(Settled(d), n) == [Entry(d, n)]
  {
    hide Valid;
  }

  /** After a power loss every entry names one of its versions, and synced texts are intact. */
  lemma PowerLossPicks(d: Disk, pick: Name -> nat, garbage: Inode -> string, n: Name)
    ensures var d' := PowerLoss(d, pick, garbage);
            && |d'.files| == |d.files|
            && Versions(d', n) == [Entry(d', n)] && Entry(d', n) in Versions(d, n)
            && Entry(d', n) == Versions(d, n)[pick(n) % |Versions(d, n)|]
            && forall v :: v in Versions(d, n) && v.Some? && d.files[v.value].synced ==> d'.files[v.value] == d.files[v.value]
  {
  }
}
