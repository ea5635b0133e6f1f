/**
 The crash-safe JSON store (src-tauri/src/utils/json.rs): temporary file, rotated backup, rename,
 migration to the canonical form, and recovery from the backup.
 */
module JsonStore {
  import opened Basics
  import opened CrashDisk

  /** The serialisation of one type of value, and what its owner accepts. */
  datatype Codec<!T, !J> = Codec(
    parse: string -> Option<J>,
    decode: J -> Option<T>,
    validate: T -> bool,
    encode: T -> J,
    show: J -> string,
    initial: T)

  /** Printing then parsing gives the document, and a value's own document decodes to the value. */
  ghost predicate Lawful<T(!new), J(!new)>(c: Codec<T, J>)
  {
    && (forall j :: c.parse(c.show(j)) == Some(j))
    && (forall v :: c.decode(c.encode(v)) == Some(v))
  }

  function Printed<T, J>(c: Codec<T, J>, v: T): (text: string)
  {
    c.show(c.encode(v))
  }

  /** What a file is to the store. */
  datatype View<+T> = Absent | Loads(value: T, canonical: bool) | Damaged

  /** read_validated: a document that parses, decodes and is accepted. */
  function ViewOf<T, J(==)>(c: Codec<T, J>, text: string): (r: View<T>)
  {
    var original := c.parse(text);
    if original.None? then Damaged else
    var value := c.decode(original.value);
    if value.None? || !c.validate(value.value) then Damaged else
    Loads(value.value, original.value == c.encode(value.value))
  }

  function Look<T, J(==)>(c: Codec<T, J>, d: Disk, v: Option<Inode>): (r: View<T>)
    requires v.Some? ==> v.value < |d.files|
  {
    if v.None? then Absent else ViewOf(c, d.files[v.value].text)
  }

  function Now<T, J(==)>(c: Codec<T, J>, d: Disk, n: Name): (r: View<T>)
  {
    Look(c, d, Entry(d, n))
  }

  // ---------------------------------------------------------------- writing

  /** The fate of every file operation of one write. */
  datatype WriteFates = WriteFates(
    make: Fate, put: Fate, flush: Fate, look: Fate, copy: Fate, copyFlush: Fate, move: Fate, settle: Fate, unlink: Fate)

  function WriteAndSync(d: Disk, n: Name, text: string, f: WriteFates): (a: After<Reply>)
  {
    var made := Make(d, n, f.make);
    if made.reply != Done then made else
    var put := Put(made.disk, n, text, f.put);
    if put.reply != Done then put else
    Flush(put.disk, n, f.flush)
  }

  function CopyAndSync(d: Disk, source: Name, destination: Name, copy: Fate, flush: Fate): (a: After<Reply>)
    requires Present(d, source)
  {
    var copied := Copy(d, source, destination, copy);
    if copied.reply != Done then copied else Flush(copied.disk, destination, flush)
  }

  /** The existence test: a failing one answers no, like the missing file. */
  predicate Seen(d: Disk, look: Fate)
  {
    look.Works? && Present(d, Primary)
  }

  /** Everything before the rename. */
  function Prepare(d: Disk, text: string, rotate: bool, tag: nat, f: WriteFates): (a: After<Reply>)
  {
    var written := WriteAndSync(d, Temp(tag), text, f);
    if written.reply != Done then written
    else if rotate && f.look.Dies? then After(written.disk, Dead)
    else if rotate && Seen(written.disk, f.look) then
      CopyAndSync(written.disk, Primary, Backup, f.copy, f.copyFlush)
    else written
  }

  function Commit(d: Disk, tag: nat, f: WriteFates): (a: After<Reply>)
    requires Present(d, Temp(tag))
  {
    var moved := Move(d, Temp(tag), Primary, f.move);
    if moved.reply != Done then moved else SyncDirectory(moved.disk, f.settle)
  }

  /** A failed write tries to remove its temporary file; a death removes nothing. */
  function CleanUp(a: After<Reply>, tag: nat, f: WriteFates): (r: After<Reply>)
  {
    if a.reply != Failed then a else
    After(Unlink(a.disk, Temp(tag), f.unlink).disk, if f.unlink.Dies? then Dead else Failed)
  }

  function Write(d: Disk, text: string, rotate: bool, tag: nat, f: WriteFates): (a: After<Reply>)
  {
    var prepared := Prepare(d, text, rotate, tag, f);
    PrepareMakesTemp(d, text, rotate, tag, f);
    CleanUp(if prepared.reply != Done then prepared else Commit(prepared.disk, tag, f), tag, f)
  }

  /** The rename was reached and made. */
  predicate TookEffect(d: Disk, text: string, rotate: bool, tag: nat, f: WriteFates)
  {
    Prepare(d, text, rotate, tag, f).reply == Done && f.move.Works?
  }

  /** The temporary file is there, holds the whole text, and that text is on the disk. */
  ghost predicate Staged(d: Disk, n: Name, text: string)
  {
    Present(d, n) && d.files[Entry(d, n).value] == File(text, true, RoleOf(n))
  }

  lemma WrittenIsStaged(d: Disk, tag: nat, text: string, f: WriteFates, m: Name)
    requires m != Temp(tag)
    ensures var a := WriteAndSync(d, Temp(tag), text, f);
            Untouched(d, a.disk, m) && (a.reply == Done ==> Staged(a.disk, Temp(tag), text))
  {
    var n := Temp(tag);
    MakeIsApart(d, n, f.make, m);
    var made := Make(d, n, f.make);
    hide Make, Put, Flush, Entry, Versions, Untouched, Valid;
    if made.reply == Done {
      PutApart(made.disk, n, text, f.put, m);
      var put := Put(made.disk, n, text, f.put);
      UntouchedTransitive(d, made.disk, put.disk, m);
      if put.reply == Done {
        FlushApart(put.disk, n, f.flush, m);
        UntouchedTransitive(d, put.disk, Flush(put.disk, n, f.flush).disk, m);
      }
    }
  }

  lemma CopyKeeps(d: Disk, source: Name, destination: Name, copy: Fate, flush: Fate, m: Name)
    requires Present(d, source) && RoleOf(m) != RoleOf(destination)
    ensures Untouched(d, CopyAndSync(d, source, destination, copy, flush).disk, m)
  {
    CopyElsewhere(d, source, destination, copy, m);
    var copied := Copy(d, source, destination, copy);
    if copied.reply == Done {
      FlushElsewhere(copied.disk, destination, flush, m);
    }
  }

  lemma UntouchedIsStaged(d: Disk, d': Disk, n: Name, text: string)
    requires Staged(d, n, text) && Untouched(d, d', n)
    ensures Staged(d', n, text)
  {
    assert Entry(d, n) in Versions(d, n);
  }

  lemma PrepareMakesTemp(d: Disk, text: string, rotate: bool, tag: nat, f: WriteFates)
    ensures var a := Prepare(d, text, rotate, tag, f);
            a.reply == Done ==> Staged(a.disk, Temp(tag), text)
  {
    hide WriteAndSync, CopyAndSync, Valid, Untouched, Staged, Versions;
    WrittenIsStaged(d, tag, text, f, Primary);
    var written := WriteAndSync(d, Temp(tag), text, f);
    if written.reply == Done && rotate && Seen(written.disk, f.look) {
      CopyKeeps(written.disk, Primary, Backup, f.copy, f.copyFlush, Temp(tag));
      UntouchedIsStaged(written.disk, CopyAndSync(written.disk, Primary, Backup, f.copy, f.copyFlush).disk, Temp(tag), text);
    }
  }

  /** Until the rename the primary cannot change; without rotation neither can anything else. */
  lemma PrepareKeeps(d: Disk, text: string, rotate: bool, tag: nat, f: WriteFates, m: Name)
    requires m == Primary || (m != Temp(tag) && !rotate)
    ensures Untouched(d, Prepare(d, text, rotate, tag, f).disk, m)
  {
    hide WriteAndSync, CopyAndSync, Valid;
    WrittenIsStaged(d, tag, text, f, m);
    var written := WriteAndSync(d, Temp(tag), text, f);
    if written.reply == Done && rotate && Seen(written.disk, f.look) {
      CopyKeeps(written.disk, Primary, Backup, f.copy, f.copyFlush, m);
    }
  }

  /** The primary now is a file with this text; the entry may come back to earlier versions unless `durable`. */
  ghost predicate Replaced(d: Disk, d': Disk, text: string, durable: bool)
  {
    && Staged(d', Primary, text)
    && |d'.files| >= |d.files|
    && (forall v :: v in Versions(d', Primary) ==>
          v == Entry(d', Primary) ||
          (!durable && v in Versions(d, Primary) && (v.Some? ==> d'.files[v.value] == d.files[v.value])))
  }

  lemma MoveReplaces(d: Disk, tag: nat, text: string)
    requires Staged(d, Temp(tag), text)
    ensures Replaced(d, Move(d, Temp(tag), Primary, Works).disk, text, false)
  {
  }

  lemma MoveElsewhere(d: Disk, tag: nat, m: Name)
    requires Present(d, Temp(tag)) && RoleOf(m) != Data
    ensures Untouched(d, Move(d, Temp(tag), Primary, Works).disk, m)
  {
  }

  lemma SettledReplaced(d: Disk, d': Disk, text: string)
    requires Replaced(d, d', text, false)
    ensures Replaced(d, Settled(d'), text, true)
  {
    SettledKeeps(d', Primary);
  }

  lemma CommitEffect(d: Disk, text: string, tag: nat, f: WriteFates)
    requires Staged(d, Temp(tag), text)
    ensures var a := Commit(d, tag, f);
            if f.move.Works? then Replaced(d, a.disk, text, a.reply == Done) else a.disk == d && a.reply != Done
  {
    if f.move.Works? {
      MoveReplaces(d, tag, text);
      hide *;
      SettledReplaced(d, Move(d, Temp(tag), Primary, f.move).disk, text);
      MovedThenSynced(d, tag, f);
    }
  }

  lemma CommitKeeps(d: Disk, tag: nat, f: WriteFates, m: Name)
    requires Present(d, Temp(tag)) && RoleOf(m) != Data
    ensures Kept(d, Commit(d, tag, f).disk, m)
  {
    ItselfKept(d, m);
    if f.move.Works? {
      MoveElsewhere(d, tag, m);
      hide *;
      var moved := Move(d, Temp(tag), Primary, f.move).disk;
      UntouchedIsKept(d, moved, m);
      SettledKeeps(moved, m);
      KeptTransitive(d, moved, Settled(moved), m);
      MovedThenSynced(d, tag, f);
    }
  }

  lemma MovedThenSynced(d: Disk, tag: nat, f: WriteFates)
    requires Present(d, Temp(tag)) && f.move.Works?
    ensures var moved := Move(d, Temp(tag), Primary, f.move).disk;
            Commit(d, tag, f) == After(if f.settle.Works? then Settled(moved) else moved, ReplyTo(f.settle))
    ensures ReplyTo(f.settle) == Done <==> f.settle.Works?
  {
    hide Settled, Link, Entry, Versions;
  }

  lemma CleanUpKeeps(a: After<Reply>, tag: nat, f: WriteFates, m: Name)
    requires m != Temp(tag)
    ensures Untouched(a.disk, CleanUp(a, tag, f).disk, m)
    ensures a.reply == Done <==> CleanUp(a, tag, f).reply == Done
  {
  }

  lemma ReplacedUntouched(d: Disk, d': Disk, d'': Disk, text: string, durable: bool)
    requires Replaced(d, d', text, durable) && Untouched(d', d'', Primary)
    ensures Replaced(d, d'', text, durable)
  {
    UntouchedIsStaged(d', d'', Primary, text);
  }

  lemma UntouchedReplaced(d: Disk, d': Disk, d'': Disk, text: string, durable: bool)
    requires Untouched(d, d', Primary) && Replaced(d', d'', text, durable)
    ensures Replaced(d, d'', text, durable)
  {
  }

  /** A write replaces the primary if its rename is made, and otherwise leaves it alone. */
  lemma WriteEffect(d: Disk, text: string, rotate: bool, tag: nat, f: WriteFates)
    ensures var a := Write(d, text, rotate, tag, f);
            && (if TookEffect(d, text, rotate, tag, f) then Replaced(d, a.disk, text, a.reply == Done)
                else Untouched(d, a.disk, Primary) && a.reply != Done)
            && (!rotate ==> Kept(d, a.disk, Backup))
  {
    var prepared := Prepare(d, text, rotate, tag, f);
    PrepareKeeps(d, text, rotate, tag, f, Primary);
    PrepareMakesTemp(d, text, rotate, tag, f);
    hide Prepare, Commit, Untouched, Replaced, Kept, CleanUp, Valid;
    var inner := if prepared.reply != Done then prepared else Commit(prepared.disk, tag, f);
    var a := Write(d, text, rotate, tag, f);
    assert a == CleanUp(inner, tag, f);
    CleanUpKeeps(inner, tag, f, Primary);
    if prepared.reply == Done {
      CommitEffect(prepared.disk, text, tag, f);
    }
    if TookEffect(d, text, rotate, tag, f) {
      UntouchedReplaced(d, prepared.disk, inner.disk, text, inner.reply == Done);
      ReplacedUntouched(d, inner.disk, a.disk, text, inner.reply == Done);
    } else {
      UntouchedTransitive(d, inner.disk, a.disk, Primary);
    }
    if !rotate {
      UnrotatedKeeps(d, text, tag, f, Backup);
    }
  }

  lemma ItselfKept(d: Disk, m: Name)
    ensures Kept(d, d, m)
  {
  }

  /** What a write has prepared, it keeps until its end. */
  lemma WrittenKeeps(d: Disk, text: string, rotate: bool, tag: nat, f: WriteFates, m: Name)
    requires RoleOf(m) != Data
    ensures Kept(Prepare(d, text, rotate, tag, f).disk, Write(d, text, rotate, tag, f).disk, m)
  {
    var prepared := Prepare(d, text, rotate, tag, f);
    PrepareMakesTemp(d, text, rotate, tag, f);
    hide Prepare, Commit, Untouched, Kept, CleanUp, Valid;
    ItselfKept(prepared.disk, m);
    var inner := if prepared.reply != Done then prepared else Commit(prepared.disk, tag, f);
    var a := Write(d, text, rotate, tag, f);
    assert a == CleanUp(inner, tag, f);
    if prepared.reply == Done {
      CommitKeeps(prepared.disk, tag, f, m);
    }
    CleanUpKeeps(inner, tag, f, m);
    UntouchedIsKept(inner.disk, a.disk, m);
    KeptTransitive(prepared.disk, inner.disk, a.disk, m);
  }

  lemma UnrotatedKeeps(d: Disk, text: string, tag: nat, f: WriteFates, m: Name)
    requires RoleOf(m) != Data
    ensures Kept(d, Write(d, text, false, tag, f).disk, m)
  {
    var prepared := Prepare(d, text, false, tag, f).disk;
    PrepareKeeps(d, text, false, tag, f, m);
    hide *;
    UntouchedIsKept(d, prepared, m);
    WrittenKeeps(d, text, false, tag, f, m);
    KeptTransitive(d, prepared, Write(d, text, false, tag, f).disk, m);
  }

  // ---------------------------------------------------------------- loading

  datatype Status = Unchanged | Migrated | Recovered

  datatype Answer<+T> = Value(value: T, status: Status) | Error | Interrupted

  /** The fate of every file operation of one load. */
  datatype LoadFates = LoadFates(
    look: Fate, read: Fate, readBackup: Fate, copy: Fate, copyFlush: Fate, quarantine: nat, tag: nat, write: WriteFates)

  function Report<T>(reply: Reply, value: T, status: Status): (r: Answer<T>)
  {
    match reply
    case Done => Value(value, status)
    case Failed => Error
    case Dead => Interrupted
  }

  function Recover<T, J(==)>(c: Codec<T, J>, d: Disk, f: LoadFates): (a: After<Answer<T>>)
    requires Present(d, Primary)
  {
    if f.readBackup.Dies? then After(d, Interrupted) else
    var backup := if f.readBackup.Works? then Now(c, d, Backup) else Damaged;
    if !backup.Loads? then After(d, Error) else
    var preserved := CopyAndSync(d, Primary, Quarantine(f.quarantine), f.copy, f.copyFlush);
    if preserved.reply != Done then After(preserved.disk, Report(preserved.reply, backup.value, Recovered)) else
    var w := Write(preserved.disk, Printed(c, backup.value), false, f.tag, f.write);
    After(w.disk, Report(w.reply, backup.value, Recovered))
  }

  function Load<T, J(==)>(c: Codec<T, J>, d: Disk, f: LoadFates): (a: After<Answer<T>>)
  {
    if f.look.Dies? then After(d, Interrupted)
    else if !Seen(d, f.look) then After(d, Value(c.initial, Unchanged))
    else if f.read.Dies? then After(d, Interrupted)
    else
      var primary := if f.read.Works? then Now(c, d, Primary) else Damaged;
      if !primary.Loads? then Recover(c, d, f)
      else if primary.canonical then After(d, Value(primary.value, Unchanged))
      else
        var w := Write(d, Printed(c, primary.value), true, f.tag, f.write);
        After(w.disk, Report(w.reply, primary.value, Migrated))
  }

  // ---------------------------------------------------------------- what the store holds now

  lemma KeptView<T, J>(c: Codec<T, J>, d: Disk, d': Disk, n: Name)
    requires Kept(d, d', n)
    ensures Now(c, d', n) == Now(c, d, n) && (Present(d', n) <==> Present(d, n))
  {
    assert Entry(d', n) in Versions(d', n);
  }

  lemma PrintedLoads<T(!new), J(!new)>(c: Codec<T, J>, v: T)
    requires Lawful(c) && c.validate(v)
    ensures ViewOf(c, Printed(c, v)) == Loads(v, true)
  {
  }

  lemma ReplacedView<T(!new), J(!new)>(c: Codec<T, J>, d: Disk, d': Disk, v: T, durable: bool)
    requires Lawful(c) && c.validate(v) && Replaced(d, d', Printed(c, v), durable)
    ensures Now(c, d', Primary) == Loads(v, true)
  {
    PrintedLoads(c, v);
  }

  lemma AcceptedView<T, J>(c: Codec<T, J>, d: Disk, n: Name)
    requires Now(c, d, n).Loads?
    ensures c.validate(Now(c, d, n).value)
  {
  }

  /** The value a view stands for: a missing file stands for the initial value. */
  function Meaning<T, J>(c: Codec<T, J>, view: View<T>): (v: T)
  {
    if view.Loads? then view.value else c.initial
  }

  function Current<T, J(==)>(c: Codec<T, J>, d: Disk): (v: T)
  {
    Meaning(c, Now(c, d, Primary))
  }

  /** Whatever the primary was, a save takes effect at its rename or not at all. */
  lemma SaveTakesEffectOrNot<T(!new), J(!new)>(c: Codec<T, J>, d: Disk, v: T, rotate: bool, tag: nat, f: WriteFates)
    requires Lawful(c) && c.validate(v)
    ensures var text := Printed(c, v);
            var a := Write(d, text, rotate, tag, f);
            && Now(c, a.disk, Primary) == (if TookEffect(d, text, rotate, tag, f) then Loads(v, true) else Now(c, d, Primary))
            && (a.reply == Done ==> TookEffect(d, text, rotate, tag, f))
  {
    hide *;
    var text := Printed(c, v);
    var a := Write(d, text, rotate, tag, f);
    WriteEffect(d, text, rotate, tag, f);
    if TookEffect(d, text, rotate, tag, f) {
      ReplacedView(c, d, a.disk, v, a.reply == Done);
    } else {
      UntouchedIsKept(d, a.disk, Primary);
      KeptView(c, d, a.disk, Primary);
    }
  }

  /** A recovery keeps the backup, and leaves the primary alone or replaces it by the backup's value. */
  lemma RecoverEffect<T, J>(c: Codec<T, J>, d: Disk, f: LoadFates)
    requires Present(d, Primary)
    ensures var a, backup := Recover(c, d, f), Now(c, d, Backup);
            && Kept(d, a.disk, Backup)
            && (Kept(d, a.disk, Primary) || (backup.Loads? && Replaced(d, a.disk, Printed(c, backup.value), false)))
            && (a.reply.Value? ==> backup.Loads? && a.reply == Value(backup.value, Recovered)
                                   && Replaced(d, a.disk, Printed(c, backup.value), true))
  {
    ItselfKept(d, Primary);
    ItselfKept(d, Backup);
    hide Write, CopyAndSync, Valid, ViewOf, Printed, Kept, Untouched, Replaced, Now;
    if f.readBackup.Works? && Now(c, d, Backup).Loads? {
      PreservedKeeps(d, f);
      var preserved := CopyAndSync(d, Primary, Quarantine(f.quarantine), f.copy, f.copyFlush);
      if preserved.reply == Done {
        ReplacedKeeps(d, preserved.disk, Printed(c, Now(c, d, Backup).value), f.tag, f.write);
      }
    }
  }

  lemma PreservedKeeps(d: Disk, f: LoadFates)
    requires Present(d, Primary)
    ensures var q := CopyAndSync(d, Primary, Quarantine(f.quarantine), f.copy, f.copyFlush);
            && Untouched(d, q.disk, Primary) && Kept(d, q.disk, Primary) && Kept(d, q.disk, Backup)
  {
    hide *;
    RolesDiffer(f.quarantine);
    var q := CopyAndSync(d, Primary, Quarantine(f.quarantine), f.copy, f.copyFlush);
    CopyKeeps(d, Primary, Quarantine(f.quarantine), f.copy, f.copyFlush, Primary);
    CopyKeeps(d, Primary, Quarantine(f.quarantine), f.copy, f.copyFlush, Backup);
    UntouchedIsKept(d, q.disk, Primary);
    UntouchedIsKept(d, q.disk, Backup);
  }

  lemma RolesDiffer(tag: nat)
    ensures RoleOf(Primary) != RoleOf(Quarantine(tag)) && RoleOf(Backup) != RoleOf(Quarantine(tag))
  {
  }

  /** An unrotated write on top of a disk that kept the primary and the backup of `d`. */
  lemma ReplacedKeeps(d: Disk, q: Disk, text: string, tag: nat, f: WriteFates)
    requires Untouched(d, q, Primary) && Kept(d, q, Primary) && Kept(d, q, Backup)
    ensures var w := Write(q, text, false, tag, f);
            && Kept(d, w.disk, Backup)
            && (Kept(d, w.disk, Primary) || Replaced(d, w.disk, text, false))
            && (w.reply == Done ==> Replaced(d, w.disk, text, true))
  {
    hide *;
    var w := Write(q, text, false, tag, f);
    WriteEffect(q, text, false, tag, f);
    KeptTransitive(d, q, w.disk, Backup);
    if TookEffect(q, text, false, tag, f) {
      UntouchedReplaced(d, q, w.disk, text, w.reply == Done);
      DurableIsReplaced(d, w.disk, text, w.reply == Done);
    } else {
      UntouchedIsKept(q, w.disk, Primary);
      KeptTransitive(d, q, w.disk, Primary);
    }
  }

  lemma DurableIsReplaced(d: Disk, d': Disk, text: string, durable: bool)
    requires Replaced(d, d', text, durable)
    ensures Replaced(d, d', text, false)
  {
  }

  // ---------------------------------------------------------------- loads of a good primary

  /**
   Failures of the system that a load can bear: a primary that cannot be seen is taken for a
   missing one, and one that cannot be read for a damaged one.
   */
  ghost predicate Bearable<T, J>(c: Codec<T, J>, d: Disk, look: Fate, read: Fate)
  {
    && (look.Fails? ==> Current(c, d) == c.initial)
    && (Seen(d, look) && read.Fails? && Now(c, d, Backup).Loads? ==> Now(c, d, Backup).value == Current(c, d))
  }

  ghost predicate Migrates<T, J>(c: Codec<T, J>, d: Disk, f: LoadFates)
  {
    f.look.Works? && f.read.Works? && Now(c, d, Primary).Loads? && !Now(c, d, Primary).canonical
  }

  ghost predicate Rereads(d: Disk, f: LoadFates)
  {
    Seen(d, f.look) && f.read.Fails?
  }

  /** The three courses of a load of a good primary. */
  lemma LoadOfGood<T, J>(c: Codec<T, J>, d: Disk, f: LoadFates)
    requires !Now(c, d, Primary).Damaged?
    ensures var v, a := Current(c, d), Load(c, d, f);
            if Rereads(d, f) then a == Recover(c, d, f)
            else if Migrates(c, d, f) then
              var w := Write(d, Printed(c, v), true, f.tag, f.write);
              && c.validate(v) && a.disk == w.disk && (a.reply.Value? <==> w.reply == Done)
              && (a.reply.Value? ==> a.reply == Value(v, Migrated))
            else
              a.disk == d && (a.reply.Value? ==> a.reply == Value(if f.look.Fails? then c.initial else v, Unchanged))
  {
    hide Write, Printed, Recover;
  }

  /** A load answers with the value of a good primary or not at all, and keeps that value. */
  lemma LoadReadsCurrent<T(!new), J(!new)>(c: Codec<T, J>, d: Disk, f: LoadFates)
    requires Lawful(c) && !Now(c, d, Primary).Damaged? && Bearable(c, d, f.look, f.read)
    ensures var a := Load(c, d, f);
            && !Now(c, a.disk, Primary).Damaged? && Current(c, a.disk) == Current(c, d)
            && (a.reply.Value? ==> a.reply.value == Current(c, d))
  {
    LoadOfGood(c, d, f);
    hide Write, Printed, Recover, Load, Now, TookEffect, Kept, Replaced;
    if Rereads(d, f) {
      RecoverEffect(c, d, f);
      if Kept(d, Recover(c, d, f).disk, Primary) {
        KeptView(c, d, Recover(c, d, f).disk, Primary);
      } else {
        AcceptedView(c, d, Backup);
        ReplacedView(c, d, Recover(c, d, f).disk, Current(c, d), false);
      }
    } else if Migrates(c, d, f) {
      SaveTakesEffectOrNot(c, d, Current(c, d), true, f.tag, f.write);
    }
  }

  // ---------------------------------------------------------------- the register

  ghost predicate Holds<T, J>(c: Codec<T, J>, d: Disk, v: Option<Inode>, values: set<T>)
    requires v.Some? ==> v.value < |d.files|
  {
    && (v.Some? ==> d.files[v.value].synced)
    && !Look(c, d, v).Damaged?
    && Meaning(c, Look(c, d, v)) in values
  }

  /** Whatever the primary may come back to is absent or loads, as one of these values. */
  ghost predicate Register<T, J>(c: Codec<T, J>, d: Disk, values: set<T>)
  {
    forall v :: v in Versions(d, Primary) ==> Holds(c, d, v, values)
  }

  lemma KeptRegister<T, J>(c: Codec<T, J>, d: Disk, d': Disk, values: set<T>)
    requires Register(c, d, values) && Kept(d, d', Primary)
    ensures Register(c, d', values) && Current(c, d') == Current(c, d)
  {
    assert Entry(d', Primary) in Versions(d', Primary);
  }

  lemma ReplacedRegister<T(!new), J(!new)>(c: Codec<T, J>, d: Disk, d': Disk, values: set<T>, v: T, durable: bool)
    requires Lawful(c) && c.validate(v)
    requires (durable || Register(c, d, values)) && Replaced(d, d', Printed(c, v), durable)
    ensures Register(c, d', if durable then {v} else values + {v}) && Current(c, d') == v
  {
    PrintedLoads(c, v);
    hide ViewOf, Printed;
    var after := if durable then {v} else values + {v};
    forall w | w in Versions(d', Primary)
      ensures Holds(c, d', w, after)
    {
      if w != Entry(d', Primary) {
        assert Holds(c, d, w, values);
      }
    }
  }

  /** A save that reports success is durable, whatever was there before. */
  lemma SuccessIsDurable<T(!new), J(!new)>(c: Codec<T, J>, d: Disk, v: T, rotate: bool, tag: nat, f: WriteFates)
    requires Lawful(c) && c.validate(v) && Write(d, Printed(c, v), rotate, tag, f).reply == Done
    ensures Register(c, Write(d, Printed(c, v), rotate, tag, f).disk, {v})
  {
    hide *;
    WriteEffect(d, Printed(c, v), rotate, tag, f);
    ReplacedRegister(c, d, Write(d, Printed(c, v), rotate, tag, f).disk, {}, v, true);
  }

  /** A save takes effect at its rename or not at all; a save that reports success did, for good. */
  lemma SaveIsAtomic<T(!new), J(!new)>(
    c: Codec<T, J>, d: Disk, values: set<T>, v: T, rotate: bool, tag: nat, f: WriteFates)
    requires Lawful(c) && c.validate(v) && Register(c, d, values)
    ensures var text := Printed(c, v);
            var a := Write(d, text, rotate, tag, f);
            && Register(c, a.disk, if a.reply == Done then {v} else values + {v})
            && Current(c, a.disk) == (if TookEffect(d, text, rotate, tag, f) then v else Current(c, d))
            && (a.reply == Done ==> TookEffect(d, text, rotate, tag, f))
  {
    var text := Printed(c, v);
    var a := Write(d, text, rotate, tag, f);
    WriteEffect(d, text, rotate, tag, f);
    hide Write, TookEffect, Replaced, Untouched, Current, Printed;
    if TookEffect(d, text, rotate, tag, f) {
      ReplacedRegister(c, d, a.disk, values, v, a.reply == Done);
    } else {
      UntouchedIsKept(d, a.disk, Primary);
      KeptRegister(c, d, a.disk, values);
      Widen(c, a.disk, values, values + {v});
    }
  }

  lemma Widen<T, J>(c: Codec<T, J>, d: Disk, few: set<T>, many: set<T>)
    requires Register(c, d, few) && few <= many
    ensures Register(c, d, many)
  {
  }

  lemma CurrentIsPossible<T, J>(c: Codec<T, J>, d: Disk, values: set<T>)
    requires Register(c, d, values)
    ensures Current(c, d) in values && !Now(c, d, Primary).Damaged?
  {
    assert Entry(d, Primary) in Versions(d, Primary);
  }

  /** A load keeps the register: whatever it may come back to after a crash, it could before. */
  lemma LoadReadsRegister<T(!new), J(!new)>(c: Codec<T, J>, d: Disk, values: set<T>, f: LoadFates)
    requires Lawful(c) && Register(c, d, values) && Bearable(c, d, f.look, f.read)
    ensures var a := Load(c, d, f);
            && Register(c, a.disk, values) && Current(c, a.disk) == Current(c, d)
            && (a.reply.Value? ==> a.reply.value == Current(c, d))
            && (a.reply.Value? && a.reply.status != Unchanged ==> Register(c, a.disk, {Current(c, d)}))
  {
    hide *;
    CurrentIsPossible(c, d, values);
    LoadReadsCurrent(c, d, f);
    LoadOfGood(c, d, f);
    if Rereads(d, f) {
      RereadAgrees(c, d, f);
      RecoveryReadsRegister(c, d, values, f);
    } else if Migrates(c, d, f) {
      MigrationReadsRegister(c, d, values, Current(c, d), f.tag, f.write);
    }
  }

  lemma RereadAgrees<T, J>(c: Codec<T, J>, d: Disk, f: LoadFates)
    requires Bearable(c, d, f.look, f.read) && Rereads(d, f)
    ensures Present(d, Primary) && (Now(c, d, Backup).Loads? ==> Now(c, d, Backup).value == Current(c, d))
  {
    hide Now, Current;
  }

  lemma MigrationReadsRegister<T(!new), J(!new)>(
    c: Codec<T, J>, d: Disk, values: set<T>, v: T, tag: nat, f: WriteFates)
    requires Lawful(c) && c.validate(v) && Register(c, d, values) && v in values
    ensures var w := Write(d, Printed(c, v), true, tag, f);
            Register(c, w.disk, values) && (w.reply == Done ==> Register(c, w.disk, {v}))
  {
    hide *;
    SaveIsAtomic(c, d, values, v, true, tag, f);
    assert values + {v} == values;
    Widen2(c, Write(d, Printed(c, v), true, tag, f).disk, v, values);
  }

  lemma RecoveryReadsRegister<T(!new), J(!new)>(c: Codec<T, J>, d: Disk, values: set<T>, f: LoadFates)
    requires Lawful(c) && Register(c, d, values) && Present(d, Primary)
    requires Now(c, d, Backup).Loads? ==> Now(c, d, Backup).value == Current(c, d)
    ensures Register(c, Recover(c, d, f).disk, values)
    ensures Recover(c, d, f).reply.Value? ==> Register(c, Recover(c, d, f).disk, {Current(c, d)})
  {
    hide Recover, Now, Kept, Replaced, Register, Current, Printed;
    CurrentIsPossible(c, d, values);
    RecoverEffect(c, d, f);
    var v, d' := Current(c, d), Recover(c, d, f).disk;
    assert values + {v} == values;
    if Kept(d, d', Primary) {
      KeptRegister(c, d, d', values);
    } else {
      AcceptedView(c, d, Backup);
      ReplacedRegister(c, d, d', values, v, false);
    }
    if Recover(c, d, f).reply.Value? {
      AcceptedView(c, d, Backup);
      ReplacedRegister(c, d, d', values, v, true);
    }
  }

  lemma Widen2<T, J>(c: Codec<T, J>, d: Disk, v: T, values: set<T>)
    requires v in values
    ensures Register(c, d, {v}) ==> Register(c, d, values)
  {
  }

  /** A power loss brings back one of the possible values. */
  lemma PowerLossKeepsRegister<T, J>(
    c: Codec<T, J>, d: Disk, values: set<T>, pick: Name -> nat, garbage: Inode -> string)
    requires Register(c, d, values)
    ensures Register(c, PowerLoss(d, pick, garbage), values)
  {
    PowerLossPicks(d, pick, garbage, Primary);
    hide PowerLoss, Versions, Entry;
    var d' := PowerLoss(d, pick, garbage);
    var v := Entry(d', Primary);
    assert Holds(c, d, v, values);
  }
}
