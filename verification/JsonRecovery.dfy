/**
 Recovery from the backup: loads that may fail or die at every file operation, repeated in any
 way, and power losses.
 */
module JsonRecovery {
  import opened Basics
  import opened CrashDisk
  import opened JsonStore
  import opened JsonRuns

  /** The backup loads from `text`; the primary is damaged, or already replaced by the backup's value. */
  ghost predicate Restorable<T, J>(c: Codec<T, J>, d: Disk, text: string)
  {
    && ViewOf(c, text).Loads?
    && Present(d, Backup) && Text(d, Backup) == text
    && Present(d, Primary)
    && (Now(c, d, Primary).Damaged? || Text(d, Primary) == Printed(c, ViewOf(c, text).value))
  }

  /** A damaged primary and a good backup are all it takes. */
  lemma DamagedIsRestorable<T, J>(c: Codec<T, J>, d: Disk)
    requires Now(c, d, Primary).Damaged? && Now(c, d, Backup).Loads?
    ensures Restorable(c, d, Text(d, Backup))
    ensures ViewOf(c, Text(d, Backup)).value == Now(c, d, Backup).value
  {
  }

  /** The test for the primary does not fail, unless its answer would be right by chance. */
  ghost predicate Sees<T, J>(c: Codec<T, J>, text: string, look: Fate)
    requires ViewOf(c, text).Loads?
  {
    look.Fails? ==> ViewOf(c, text).value == c.initial
  }

  lemma KeptText(d: Disk, d': Disk, n: Name)
    requires Kept(d, d', n) && Present(d, n)
    ensures Present(d', n) && Text(d', n) == Text(d, n)
  {
    assert Entry(d', n) in Versions(d', n);
  }

  lemma RecoverRestores<T, J>(c: Codec<T, J>, d: Disk, text: string, f: LoadFates)
    requires Restorable(c, d, text)
    ensures var a := Recover(c, d, f);
            && Restorable(c, a.disk, text) && Kept(d, a.disk, Backup)
            && (a.reply.Value? ==> a.reply.value == ViewOf(c, text).value)
  {
    var d' := Recover(c, d, f).disk;
    assert Now(c, d, Backup) == ViewOf(c, text);
    RecoverEffect(c, d, f);
    hide Recover, ViewOf, Printed;
    KeptText(d, d', Backup);
    if Kept(d, d', Primary) {
      KeptText(d, d', Primary);
      KeptView(c, d, d', Primary);
    }
  }

  /** The courses of a load of a restorable store. */
  lemma LoadOfRestorable<T(!new), J(!new)>(c: Codec<T, J>, d: Disk, text: string, f: LoadFates)
    requires Lawful(c) && Restorable(c, d, text) && Sees(c, text, f.look)
    ensures var a := Load(c, d, f);
            a == Recover(c, d, f) || (a.disk == d && (a.reply.Value? ==> a.reply.value == ViewOf(c, text).value))
  {
    assert c.validate(ViewOf(c, text).value);
    PrintedLoads(c, ViewOf(c, text).value);
    hide Recover, Write, Printed, ViewOf;
  }

  /** A load never alters the backup, and if it answers it answers with the backup's value. */
  lemma LoadRecovers<T(!new), J(!new)>(c: Codec<T, J>, d: Disk, text: string, f: LoadFates)
    requires Lawful(c) && Restorable(c, d, text) && Sees(c, text, f.look)
    ensures var a := Load(c, d, f);
            && Restorable(c, a.disk, text) && Kept(d, a.disk, Backup)
            && (a.reply.Value? ==> a.reply.value == ViewOf(c, text).value)
  {
    LoadOfRestorable(c, d, text, f);
    RecoverRestores(c, d, text, f);
    ItselfKept(d, Backup);
    hide Restorable, Load, Recover, Kept, ViewOf;
  }

  /** Loads crashed and repeated in any way keep the backup and answer only with its value. */
  lemma {:induction false} RecoveryIsStable<T(!new), J(!new)>(
    c: Codec<T, J>, d: Disk, text: string, ops: seq<Op<T>>, f: LoadFates)
    requires Lawful(c) && Restorable(c, d, text) && Sees(c, text, f.look)
    requires forall op :: op in ops ==> op.Fetch? && Sees(c, text, op.loading.look)
    ensures var d' := DoAll(c, d, ops);
            var answer := Load(c, d', f).reply;
            && Restorable(c, d', text)
            && (answer.Value? ==> answer.value == ViewOf(c, text).value)
    decreases |ops|
  {
    assert ViewOf(c, text).Loads?;
    hide Restorable, Load, ViewOf, Sees;
    if ops == [] {
      LoadRecovers(c, d, text, f);
    } else {
      LoadRecovers(c, d, text, ops[0].loading);
      RecoveryIsStable(c, Do(c, d, ops[0]), text, ops[1..], f);
    }
  }

  /** A load that reports a recovery has made the backup's value durable: from here on it is a register. */
  lemma RecoveryIsDurable<T(!new), J(!new)>(c: Codec<T, J>, d: Disk, f: LoadFates)
    requires Lawful(c) && Load(c, d, f).reply.Value? && Load(c, d, f).reply.status == Recovered
    ensures Now(c, d, Backup).Loads? && Load(c, d, f).reply.value == Now(c, d, Backup).value
    ensures Register(c, Load(c, d, f).disk, {Now(c, d, Backup).value})
  {
    RecoveredRecovers(c, d, f);
    hide Load, Recover, Now, Printed, Register, Replaced;
    RecoverEffect(c, d, f);
    AcceptedView(c, d, Backup);
    ReplacedRegister(c, d, Load(c, d, f).disk, {}, Now(c, d, Backup).value, true);
  }

  lemma RecoveredRecovers<T, J>(c: Codec<T, J>, d: Disk, f: LoadFates)
    requires Load(c, d, f).reply.Value? && Load(c, d, f).reply.status == Recovered
    ensures Present(d, Primary) && Load(c, d, f) == Recover(c, d, f)
  {
    hide Write, Recover, Printed, ViewOf;
  }

  // ---------------------------------------------------------------- with power losses

  ghost predicate Good(d: Disk, v: Option<Inode>)
  {
    v.Some? && v.value < |d.files| && d.files[v.value].synced
  }

  /** The same of every version that a power loss may bring back. */
  ghost predicate Recovering<T, J>(c: Codec<T, J>, d: Disk, text: string)
  {
    && ViewOf(c, text).Loads?
    && (forall v :: v in Versions(d, Backup) ==> Good(d, v) && d.files[v.value].text == text)
    && (forall v :: v in Versions(d, Primary) ==>
          && Good(d, v)
          && (d.files[v.value].text == Printed(c, ViewOf(c, text).value) || ViewOf(c, d.files[v.value].text).Damaged?))
  }

  lemma KeptRecovering<T, J>(c: Codec<T, J>, d: Disk, d': Disk, text: string)
    requires Recovering(c, d, text) && Kept(d, d', Primary) && Kept(d, d', Backup)
    ensures Recovering(c, d', text)
  {
    hide ViewOf, Printed, Versions, Entry;
  }

  lemma ReplacedRecovering<T, J>(c: Codec<T, J>, d: Disk, d': Disk, text: string, durable: bool)
    requires Recovering(c, d, text) && Kept(d, d', Backup)
    requires Replaced(d, d', Printed(c, ViewOf(c, text).value), durable)
    ensures Recovering(c, d', text)
  {
    hide ViewOf, Printed, Versions, Entry;
  }

  lemma RecoveringIsRestorable<T, J>(c: Codec<T, J>, d: Disk, text: string)
    requires Recovering(c, d, text)
    ensures Restorable(c, d, text) && Now(c, d, Backup) == ViewOf(c, text)
  {
    hide ViewOf, Printed, Valid;
    var p, b := Entry(d, Primary), Entry(d, Backup);
    assert p in Versions(d, Primary) && b in Versions(d, Backup);
    assert Good(d, p) && Good(d, b) && d.files[b.value].text == text;
    assert Present(d, Primary) && Text(d, Primary) == d.files[p.value].text;
  }

  lemma LoadKeepsRecovering<T(!new), J(!new)>(c: Codec<T, J>, d: Disk, text: string, f: LoadFates)
    requires Lawful(c) && Recovering(c, d, text) && ViewOf(c, text).Loads? && Sees(c, text, f.look)
    ensures var a := Load(c, d, f);
            && Recovering(c, a.disk, text)
            && (a.reply.Value? ==> a.reply.value == ViewOf(c, text).value)
  {
    RecoveringIsRestorable(c, d, text);
    assert Present(d, Primary);
    hide Restorable, Load, Recover, Kept, ViewOf, Recovering, Replaced, Printed, Sees;
    LoadOfRestorable(c, d, text, f);
    LoadRecovers(c, d, text, f);
    RecoverEffect(c, d, f);
    var d' := Recover(c, d, f).disk;
    if Kept(d, d', Primary) {
      KeptRecovering(c, d, d', text);
    } else {
      ReplacedRecovering(c, d, d', text, false);
    }
  }

  lemma LossRecovers<T, J>(c: Codec<T, J>, d: Disk, text: string, pick: Name -> nat, garbage: Inode -> string)
    requires Recovering(c, d, text)
    ensures Recovering(c, PowerLoss(d, pick, garbage), text)
  {
    PowerLossPicks(d, pick, garbage, Primary);
    PowerLossPicks(d, pick, garbage, Backup);
    hide PowerLoss, ViewOf, Printed, Versions, Entry;
  }

  /** Through power losses as well, from states in which damage and backup are on the disk. */
  lemma {:induction false} RecoverySurvivesPowerLoss<T(!new), J(!new)>(
    c: Codec<T, J>, d: Disk, text: string, ops: seq<Op<T>>, f: LoadFates)
    requires Lawful(c) && Recovering(c, d, text) && Sees(c, text, f.look)
    requires forall op :: op in ops ==> !op.Save? && (op.Fetch? ==> Sees(c, text, op.loading.look))
    ensures var d' := DoAll(c, d, ops);
            var answer := Load(c, d', f).reply;
            && Recovering(c, d', text)
            && (answer.Value? ==> answer.value == ViewOf(c, text).value)
    decreases |ops|
  {
    assert ViewOf(c, text).Loads?;
    hide Recovering, Load, PowerLoss, ViewOf, Write, Sees;
    if ops == [] {
      LoadKeepsRecovering(c, d, text, f);
    } else {
      match ops[0] {
        case Save(_, _, _, _) =>
        case Fetch(loading) => LoadKeepsRecovering(c, d, text, loading);
        case Loss(pick, garbage) => LossRecovers(c, d, text, pick, garbage);
      }
      RecoverySurvivesPowerLoss(c, Do(c, d, ops[0]), text, ops[1..], f);
    }
  }

  // ---------------------------------------------------------------- operations that nothing disturbs

  const CLEAN := WriteFates(Works, Works, Works, Works, Works, Works, Works, Works, Works)

  function CleanLoad(read: Fate, quarantine: nat, tag: nat): (f: LoadFates)
  {
    LoadFates(Works, read, Works, Works, Works, quarantine, tag, CLEAN)
  }

  lemma CopyCopies(d: Disk, source: Name, destination: Name, f: WriteFates)
    requires Present(d, source) && f.copy.Works? && f.copyFlush.Works?
    ensures var a := CopyAndSync(d, source, destination, f.copy, f.copyFlush);
            a.reply == Done && Present(a.disk, destination) && Text(a.disk, destination) == Text(d, source)
  {
    var copied := Copy(d, source, destination, f.copy).disk;
    assert Text(copied, destination) == Text(d, source);
    FlushKeepsText(copied, destination, f.copyFlush);
    hide Copy, Flush, Text, Present;
  }

  lemma FlushKeepsText(d: Disk, n: Name, fate: Fate)
    requires Present(d, n)
    ensures Present(Flush(d, n, fate).disk, n) && Text(Flush(d, n, fate).disk, n) == Text(d, n)
    ensures fate.Works? ==> Flush(d, n, fate).reply == Done
  {
  }

  lemma CleanWriteAndSync(d: Disk, n: Name, text: string, f: WriteFates)
    requires !Present(d, n) && f.make.Works? && f.put.Works? && f.flush.Works?
    ensures WriteAndSync(d, n, text, f).reply == Done
  {
  }

  lemma CleanPrepare(d: Disk, text: string, rotate: bool, tag: nat, f: WriteFates)
    requires !Present(d, Temp(tag))
    requires f.make.Works? && f.put.Works? && f.flush.Works? && f.look.Works? && f.copy.Works? && f.copyFlush.Works?
    ensures var a := Prepare(d, text, rotate, tag, f);
            && a.reply == Done
            && (rotate && Present(d, Primary) ==> Present(a.disk, Backup) && Text(a.disk, Backup) == Text(d, Primary))
  {
    CleanWriteAndSync(d, Temp(tag), text, f);
    WrittenIsStaged(d, tag, text, f, Primary);
    var written := WriteAndSync(d, Temp(tag), text, f).disk;
    assert Entry(d, Primary) in Versions(d, Primary);
    assert Present(written, Primary) <==> Present(d, Primary);
    assert Present(d, Primary) ==> Text(written, Primary) == Text(d, Primary);
    hide WriteAndSync, CopyAndSync, Present, Text, Untouched;
    if rotate && Present(written, Primary) {
      CopyCopies(written, Primary, Backup, f);
    }
  }

  lemma CleanWrite(d: Disk, text: string, rotate: bool, tag: nat)
    requires !Present(d, Temp(tag))
    ensures Write(d, text, rotate, tag, CLEAN).reply == Done
  {
    CleanPrepare(d, text, rotate, tag, CLEAN);
    PrepareMakesTemp(d, text, rotate, tag, CLEAN);
    hide Prepare;
    MovedThenSynced(Prepare(d, text, rotate, tag, CLEAN).disk, tag, CLEAN);
    hide Commit;
  }

  lemma {:induction false} FreshTag(names: set<Name>) returns (tag: nat)
    ensures forall n :: n in names && n.Temp? ==> n.tag < tag
  {
    if names == {} {
      tag := 0;
    } else {
      var n :| n in names;
      tag := FreshTag(names - {n});
      if n.Temp? && n.tag >= tag {
        tag := n.tag + 1;
      }
    }
  }

  lemma FreeTag(d: Disk) returns (tag: nat)
    ensures !Present(d, Temp(tag))
  {
    tag := FreshTag(d.entries.Keys);
  }

  lemma CleanRecover<T(!new), J(!new)>(c: Codec<T, J>, d: Disk, read: Fate, quarantine: nat, tag: nat)
    requires Lawful(c) && Present(d, Primary) && Now(c, d, Backup).Loads? && !Present(d, Temp(tag))
    ensures var v, a := Now(c, d, Backup).value, Recover(c, d, CleanLoad(read, quarantine, tag));
            a.reply == Value(v, Recovered) && Now(c, a.disk, Primary) == Loads(v, true)
  {
    var f, v := CleanLoad(read, quarantine, tag), Now(c, d, Backup).value;
    AcceptedView(c, d, Backup);
    hide *;
    var preserved := Quarantined(c, d, read, quarantine, tag);
    CleanWrite(preserved, Printed(c, v), false, tag);
    WriteEffect(preserved, Printed(c, v), false, tag, CLEAN);
    ReplacedView(c, preserved, Write(preserved, Printed(c, v), false, tag, CLEAN).disk, v, true);
  }

  lemma Quarantined<T, J>(c: Codec<T, J>, d: Disk, read: Fate, quarantine: nat, tag: nat) returns (preserved: Disk)
    requires Present(d, Primary) && Now(c, d, Backup).Loads? && !Present(d, Temp(tag))
    ensures !Present(preserved, Temp(tag))
    ensures var w := Write(preserved, Printed(c, Now(c, d, Backup).value), false, tag, CLEAN);
            Recover(c, d, CleanLoad(read, quarantine, tag))
              == After(w.disk, Report(w.reply, Now(c, d, Backup).value, Recovered))
    ensures Report(Done, Now(c, d, Backup).value, Recovered) == Value(Now(c, d, Backup).value, Recovered)
  {
    hide CopyAndSync, Write, Printed, Present, Now, Kept, Untouched, Valid, Text;
    CopyCopies(d, Primary, Quarantine(quarantine), CLEAN);
    CopyKeeps(d, Primary, Quarantine(quarantine), Works, Works, Temp(tag));
    preserved := CopyAndSync(d, Primary, Quarantine(quarantine), Works, Works).disk;
    UntouchedIsKept(d, preserved, Temp(tag));
    KeptView(c, d, preserved, Temp(tag));
  }

  /** A load that nothing disturbs recovers the backup's value, for good. */
  lemma UndisturbedLoadRecovers<T(!new), J(!new)>(c: Codec<T, J>, d: Disk, quarantine: nat, tag: nat)
    requires Lawful(c) && Now(c, d, Primary).Damaged? && Now(c, d, Backup).Loads? && !Present(d, Temp(tag))
    ensures var v, a := Now(c, d, Backup).value, Load(c, d, CleanLoad(Works, quarantine, tag));
            a.reply == Value(v, Recovered) && Now(c, a.disk, Primary) == Loads(v, true) && Register(c, a.disk, {v})
  {
    assert Present(d, Primary);
    CleanRecover(c, d, Works, quarantine, tag);
    assert Load(c, d, CleanLoad(Works, quarantine, tag)) == Recover(c, d, CleanLoad(Works, quarantine, tag));
    hide Load, Recover, Now, Register;
    RecoveryIsDurable(c, d, CleanLoad(Works, quarantine, tag));
  }

  /** A rotating save that reports success has left the previous text in the backup, unless it could not see it. */
  lemma RotationKeepsPrevious(d: Disk, text: string, tag: nat, f: WriteFates)
    requires Write(d, text, true, tag, f).reply == Done && Present(d, Primary)
    ensures var w := Write(d, text, true, tag, f).disk;
            if f.look.Works? then Present(w, Backup) && Text(w, Backup) == Text(d, Primary)
            else Kept(d, w, Backup)
  {
    WriteEffect(d, text, true, tag, f);
    DonePrepared(d, text, true, tag, f);
    WrittenKeeps(d, text, true, tag, f, Backup);
    hide Write, Kept, Text, Present, Replaced, Untouched, WriteAndSync, CopyAndSync;
    var prepared := Prepare(d, text, true, tag, f).disk;
    if f.look.Works? {
      CleanPrepare(d, text, true, tag, f);
      KeptText(prepared, Write(d, text, true, tag, f).disk, Backup);
    } else {
      WrittenIsStaged(d, tag, text, f, Backup);
      UntouchedIsKept(d, prepared, Backup);
      KeptTransitive(d, prepared, Write(d, text, true, tag, f).disk, Backup);
    }
  }

  lemma DonePrepared(d: Disk, text: string, rotate: bool, tag: nat, f: WriteFates)
    requires Prepare(d, text, rotate, tag, f).reply == Done
    ensures !Present(d, Temp(tag)) && f.make.Works? && f.put.Works? && f.flush.Works?
    ensures rotate ==> !f.look.Dies?
    ensures rotate && Seen(d, f.look) ==> f.copy.Works? && f.copyFlush.Works?
  {
    hide WriteAndSync, CopyAndSync, Present, Valid;
    DoneWritten(d, Temp(tag), text, f);
    WrittenIsStaged(d, tag, text, f, Primary);
    var written := WriteAndSync(d, Temp(tag), text, f).disk;
    SamePresence(d, written, Primary);
    if rotate && Seen(written, f.look) {
      DoneCopied(written, f);
    }
  }

  lemma DoneWritten(d: Disk, n: Name, text: string, f: WriteFates)
    requires WriteAndSync(d, n, text, f).reply == Done
    ensures !Present(d, n) && f.make.Works? && f.put.Works? && f.flush.Works?
  {
    hide Valid, NewFile, Overwrite;
  }

  lemma DoneCopied(d: Disk, f: WriteFates)
    requires Present(d, Primary) && CopyAndSync(d, Primary, Backup, f.copy, f.copyFlush).reply == Done
    ensures f.copy.Works? && f.copyFlush.Works?
  {
    hide Valid, NewFile, Overwrite;
  }

  lemma SamePresence(d: Disk, d': Disk, n: Name)
    requires Untouched(d, d', n)
    ensures Present(d', n) <==> Present(d, n)
  {
  }

  /** A recovery has set the damaged text aside before replacing it. */
  lemma RecoveryKeepsTheDamage<T, J>(c: Codec<T, J>, d: Disk, f: LoadFates)
    requires Present(d, Primary) && Recover(c, d, f).reply.Value?
    ensures var q := Quarantine(f.quarantine);
            Present(Recover(c, d, f).disk, q) && Text(Recover(c, d, f).disk, q) == Text(d, Primary)
  {
    hide Valid, Now, Write, CopyAndSync, Text, Present, Printed;
    var q := Quarantine(f.quarantine);
    var preserved := CopyAndSync(d, Primary, q, f.copy, f.copyFlush);
    CopiedText(d, q, f);
    var v := Now(c, d, Backup).value;
    UnrotatedKeeps(preserved.disk, Printed(c, v), f.tag, f.write, q);
    KeptText(preserved.disk, Write(preserved.disk, Printed(c, v), false, f.tag, f.write).disk, q);
  }

  lemma CopiedText(d: Disk, q: Name, f: LoadFates)
    requires Present(d, Primary) && CopyAndSync(d, Primary, q, f.copy, f.copyFlush).reply == Done
    ensures var a := CopyAndSync(d, Primary, q, f.copy, f.copyFlush).disk;
            Present(a, q) && Text(a, q) == Text(d, Primary)
  {
    assert f.copy.Works? && f.copyFlush.Works?;
    CopyCopies(d, Primary, q, CLEAN);
  }

  /** A write that succeeds, or fails and can clean up, leaves no temporary file. */
  lemma NoTemporaryFileStays(d: Disk, text: string, rotate: bool, tag: nat, f: WriteFates)
    requires var r := Write(d, text, rotate, tag, f).reply; r == Done || (r == Failed && f.unlink.Works?)
    ensures !Present(Write(d, text, rotate, tag, f).disk, Temp(tag))
  {
    var prepared := Prepare(d, text, rotate, tag, f);
    PrepareMakesTemp(d, text, rotate, tag, f);
    hide Prepare, Commit, Valid, Present, CleanUp;
    var inner := if prepared.reply != Done then prepared else Commit(prepared.disk, tag, f);
    assert Write(d, text, rotate, tag, f) == CleanUp(inner, tag, f);
    CleanUpRemoves(inner, tag, f);
    if inner.reply == Done {
      CommitMovesTemp(prepared.disk, tag, f);
    }
  }

  lemma CleanUpRemoves(a: After<Reply>, tag: nat, f: WriteFates)
    ensures a.reply != Failed ==> CleanUp(a, tag, f) == a
    ensures a.reply == Failed && f.unlink.Works? ==> !Present(CleanUp(a, tag, f).disk, Temp(tag))
    ensures CleanUp(a, tag, f).reply == Done ==> a.reply == Done
  {
  }

  lemma CommitMovesTemp(d: Disk, tag: nat, f: WriteFates)
    requires Present(d, Temp(tag)) && Commit(d, tag, f).reply == Done
    ensures !Present(Commit(d, tag, f).disk, Temp(tag))
  {
    MovedThenSynced(d, tag, f);
    var moved := Move(d, Temp(tag), Primary, f.move).disk;
    assert Entry(moved, Temp(tag)) == None;
    SettledKeeps(moved, Temp(tag));
  }
}
