/** Where the store stops being an atomic, durable register, with the exact conditions. */
module JsonLimits {
  import opened Basics
  import opened CrashDisk
  import opened JsonStore
  import opened JsonRuns
  import opened JsonRecovery

  /** What a load that nothing disturbs would answer. */
  ghost function Recoverable<T, J>(c: Codec<T, J>, d: Disk): Option<T>
  {
    match Now(c, d, Primary)
    case Absent => Some(c.initial)
    case Loads(v, _) => Some(v)
    case Damaged => if Now(c, d, Backup).Loads? then Some(Now(c, d, Backup).value) else None
  }

  lemma SaveOverGood<T(!new), J(!new)>(c: Codec<T, J>, d: Disk, v: T, tag: nat, f: WriteFates)
    requires Lawful(c) && c.validate(v) && !Now(c, d, Primary).Damaged?
    ensures Recoverable(c, Write(d, Printed(c, v), true, tag, f).disk) in {Recoverable(c, d), Some(v)}
  {
    hide Now, Write, Printed, TookEffect, Replaced, Untouched;
    var w := Write(d, Printed(c, v), true, tag, f);
    WriteEffect(d, Printed(c, v), true, tag, f);
    if TookEffect(d, Printed(c, v), true, tag, f) {
      ReplacedView(c, d, w.disk, v, w.reply == Done);
    } else {
      UntouchedIsKept(d, w.disk, Primary);
      KeptView(c, d, w.disk, Primary);
    }
  }

  lemma SaveOverDamage<T(!new), J(!new)>(c: Codec<T, J>, d: Disk, v: T, tag: nat)
    requires Now(c, d, Primary).Damaged? && !Present(d, Temp(tag))
    ensures Recoverable(c, Write(d, Printed(c, v), true, tag, CLEAN.(move := Dies(None))).disk) == None
  {
    hide Prepare, Kept, Untouched, Valid, Staged, Printed, ViewOf, Versions;
    var f := CLEAN.(move := Dies(None));
    var text := Printed(c, v);
    var prepared := Prepare(d, text, true, tag, f).disk;
    CleanPrepare(d, text, true, tag, f);
    PrepareKeeps(d, text, true, tag, f, Primary);
    UntouchedIsKept(d, prepared, Primary);
    KeptView(c, d, prepared, Primary);
    DeadBeforeRename(d, text, tag, f);
    assert Now(c, prepared, Backup) == ViewOf(c, Text(d, Primary));
  }

  lemma DeadBeforeRename(d: Disk, text: string, tag: nat, f: WriteFates)
    requires f.move.Dies? && Prepare(d, text, true, tag, f).reply == Done
    ensures Write(d, text, true, tag, f).disk == Prepare(d, text, true, tag, f).disk
  {
    hide Prepare;
    PrepareMakesTemp(d, text, true, tag, f);
  }

  /**
   A save that may die anywhere leaves the old or the new value to be loaded exactly when the
   primary is absent or loads. Over a damaged primary the rotation copies the damage onto the
   good backup, and a death before the rename then leaves nothing to load.
   */
  lemma SaveIsSafeIffPrimaryLoads<T(!new), J(!new)>(c: Codec<T, J>, d: Disk, v: T)
    requires Lawful(c) && c.validate(v) && Recoverable(c, d).Some?
    ensures (forall tag, f :: Recoverable(c, Write(d, Printed(c, v), true, tag, f).disk) in {Recoverable(c, d), Some(v)})
            <==> !Now(c, d, Primary).Damaged?
  {
    hide Recoverable, Now, Write, Printed;
    if Now(c, d, Primary).Damaged? {
      var tag := FreeTag(d);
      SaveOverDamage(c, d, v, tag);
    } else {
      forall tag, f
        ensures Recoverable(c, Write(d, Printed(c, v), true, tag, f).disk) in {Recoverable(c, d), Some(v)}
      {
        SaveOverGood(c, d, v, tag, f);
      }
    }
  }

  // ---------------------------------------------------------------- failures that a load can bear

  /** Such a load, whatever happens to it later, keeps the value and answers with nothing else. */
  ghost predicate Reads<T, J>(c: Codec<T, J>, d: Disk, f: LoadFates)
  {
    var a := Load(c, d, f);
    Current(c, a.disk) == Current(c, d) && (a.reply.Value? ==> a.reply.value == Current(c, d))
  }

  lemma FailedReadRollsBack<T(!new), J(!new)>(c: Codec<T, J>, d: Disk, read: Fate, tag: nat)
    requires Lawful(c) && Present(d, Primary) && Now(c, d, Backup).Loads? && !Present(d, Temp(tag)) && read.Fails?
    ensures Current(c, Load(c, d, CleanLoad(read, 0, tag)).disk) == Now(c, d, Backup).value
  {
    assert Load(c, d, CleanLoad(read, 0, tag)) == Recover(c, d, CleanLoad(read, 0, tag));
    hide Recover, Load, Now, Present;
    CleanRecover(c, d, read, 0, tag);
  }

  lemma FailedLookAnswersInitial<T, J>(c: Codec<T, J>, d: Disk, f: LoadFates)
    requires f.look.Fails?
    ensures Load(c, d, f) == After(d, Value(c.initial, Unchanged))
  {
  }

  /**
   From a good primary, loads that see and read it with these outcomes keep its value and answer
   with nothing else exactly when the outcomes are bearable: a primary that cannot be seen holds
   the initial value, and one that cannot be read has no backup with another value.
   */
  lemma LoadsReadIffBearable<T(!new), J(!new)>(c: Codec<T, J>, d: Disk, look: Fate, read: Fate)
    requires Lawful(c) && !Now(c, d, Primary).Damaged?
    ensures (forall f: LoadFates :: f.look == look && f.read == read ==> Reads(c, d, f)) <==> Bearable(c, d, look, read)
  {
    if Bearable(c, d, look, read) {
      forall f: LoadFates | f.look == look && f.read == read
        ensures Reads(c, d, f)
      {
        hide Now, Load, Bearable, Current;
        LoadReadsCurrent(c, d, f);
      }
    } else {
      var tag := FreeTag(d);
      var f := CleanLoad(read, 0, tag).(look := look);
      if look.Fails? {
        FailedLookAnswersInitial(c, d, f);
      } else {
        assert f == CleanLoad(read, 0, tag);
        FailedReadRollsBack(c, d, read, tag);
      }
      assert !Reads(c, d, f) by {
        hide Load, Now;
      }
    }
  }

  /** Loads keep a good primary's value, whatever fails, exactly when it is absent or the backup has no other value. */
  lemma LoadsKeepValueIffBackupAgrees<T(!new), J(!new)>(c: Codec<T, J>, d: Disk)
    requires Lawful(c) && !Now(c, d, Primary).Damaged?
    ensures (forall f :: Current(c, Load(c, d, f).disk) == Current(c, d))
            <==> !Present(d, Primary) || (Now(c, d, Backup).Loads? ==> Now(c, d, Backup).value == Current(c, d))
  {
    hide Current, Now, Load, Recover, Present;
    if !Present(d, Primary) || (Now(c, d, Backup).Loads? ==> Now(c, d, Backup).value == Current(c, d)) {
      forall f
        ensures Current(c, Load(c, d, f).disk) == Current(c, d)
      {
        if f.look.Fails? {
          FailedLookAnswersInitial(c, d, f);
        } else {
          LoadReadsCurrent(c, d, f);
        }
      }
    } else {
      var tag := FreeTag(d);
      FailedReadRollsBack(c, d, Fails(None), tag);
    }
  }

  // ---------------------------------------------------------------- what a power loss can take

  /** Another value among the versions comes back when the power fails at the right moment. */
  lemma VersionComesBack<T, J>(
    c: Codec<T, J>, d: Disk, values: set<T>, k: nat, pick: Name -> nat, garbage: Inode -> string)
    requires Register(c, d, values) && k < |Versions(d, Primary)| && pick(Primary) == k
    ensures Current(c, PowerLoss(d, pick, garbage)) == Meaning(c, Look(c, d, Versions(d, Primary)[k]))
  {
    hide PowerLoss, ViewOf, Versions, Valid;
    PowerLossPicks(d, pick, garbage, Primary);
    var v := Versions(d, Primary)[k];
    assert k % |Versions(d, Primary)| == k;
    assert v in Versions(d, Primary) && Holds(c, d, v, values);
  }

  /** The current value survives every power loss exactly when the primary can come back to no other. */
  lemma SurvivesPowerLossIff<T(!new), J(!new)>(c: Codec<T, J>, d: Disk, values: set<T>)
    requires Register(c, d, values)
    ensures (forall pick, garbage :: Current(c, PowerLoss(d, pick, garbage)) == Current(c, d))
            <==> Register(c, d, {Current(c, d)})
  {
    hide Current, PowerLoss;
    if Register(c, d, {Current(c, d)}) {
      forall pick, garbage
        ensures Current(c, PowerLoss(d, pick, garbage)) == Current(c, d)
      {
        PowerLossKeepsRegister(c, d, {Current(c, d)}, pick, garbage);
        hide Register;
        CurrentIsPossible(c, PowerLoss(d, pick, garbage), {Current(c, d)});
      }
    } else {
      var v :| v in Versions(d, Primary) && !Holds(c, d, v, {Current(c, d)});
      assert Holds(c, d, v, values);
      var k: nat :| k < |Versions(d, Primary)| && Versions(d, Primary)[k] == v;
      var pick: Name -> nat := n => k;
      var garbage: Inode -> string := i => "";
      VersionComesBack(c, d, values, k, pick, garbage);
    }
  }

  /** A save that took effect without reporting success has only added a version. */
  lemma UnacknowledgedGrows(d: Disk, text: string, rotate: bool, tag: nat, f: WriteFates)
    requires TookEffect(d, text, rotate, tag, f) && Write(d, text, rotate, tag, f).reply != Done
    ensures Grows(d, Write(d, text, rotate, tag, f).disk)
  {
    hide Prepare, Link, Valid, CleanUp, Commit, Move;
    var prepared := Prepare(d, text, rotate, tag, f).disk;
    PrepareMakesTemp(d, text, rotate, tag, f);
    PrepareKeeps(d, text, rotate, tag, f, Primary);
    MovedThenSynced(prepared, tag, f);
    MoveGrows(prepared, tag);
    var inner := Commit(prepared, tag, f);
    CleanUpKeeps(inner, tag, f, Primary);
  }

  lemma GrownRegister<T, J>(c: Codec<T, J>, d: Disk, d': Disk, values: set<T>)
    requires Grows(d, d') && Register(c, d', values)
    ensures Register(c, d, values)
  {
    hide ViewOf;
    forall v | v in Versions(d, Primary)
      ensures Holds(c, d, v, values)
    {
      assert v in Versions(d', Primary) && Holds(c, d', v, values);
    }
  }

  /** The value of a save that took effect survives every power loss exactly when the save reported success, or every version held it already. */
  lemma SavedValueSurvivesIff<T(!new), J(!new)>(
    c: Codec<T, J>, d: Disk, values: set<T>, v: T, rotate: bool, tag: nat, f: WriteFates)
    requires Lawful(c) && c.validate(v) && Register(c, d, values) && TookEffect(d, Printed(c, v), rotate, tag, f)
    ensures var saved := Write(d, Printed(c, v), rotate, tag, f);
            (forall pick, garbage :: Current(c, PowerLoss(saved.disk, pick, garbage)) == v)
            <==> saved.reply == Done || Register(c, d, {v})
  {
    hide Current, PowerLoss, Register, TookEffect, Write, Printed, Grows;
    var saved := Write(d, Printed(c, v), rotate, tag, f);
    SaveIsAtomic(c, d, values, v, rotate, tag, f);
    var after := if saved.reply == Done then {v} else values + {v};
    SurvivesPowerLossIff(c, saved.disk, after);
    if saved.reply != Done {
      UnacknowledgedGrows(d, Printed(c, v), rotate, tag, f);
      if Register(c, saved.disk, {v}) {
        GrownRegister(c, d, saved.disk, {v});
      }
      if Register(c, d, {v}) {
        SaveIsAtomic(c, d, {v}, v, rotate, tag, f);
        assert {v} + {v} == {v};
      }
    }
  }

  /**
   A save that fails only at the last sync can be read and then lost: without its report of
   success a value that a load has already given may vanish with the power.
   */
  lemma UnacknowledgedSaveCanBeReadAndLost<T(!new), J(!new)>(c: Codec<T, J>, d: Disk, v: T, values: set<T>, tag: nat)
    requires Lawful(c) && c.validate(v) && Register(c, d, values) && !Present(d, Temp(tag)) && !Register(c, d, {v})
    ensures var saved := Write(d, Printed(c, v), true, tag, CLEAN.(settle := Fails(None)));
            && saved.reply == Failed && Current(c, saved.disk) == v
            && exists pick, garbage :: Current(c, PowerLoss(saved.disk, pick, garbage)) != v
  {
    hide Register, Current, Write, Printed, Prepare, PowerLoss, Present;
    var f := CLEAN.(settle := Fails(None));
    CleanPrepare(d, Printed(c, v), true, tag, f);
    FailedAtTheEnd(d, Printed(c, v), tag, f);
    SaveIsAtomic(c, d, values, v, true, tag, f);
    SavedValueSurvivesIff(c, d, values, v, true, tag, f);
  }

  ghost predicate Grows(d: Disk, d': Disk)
  {
    && Versions(d', Primary) == Versions(d, Primary) + [Entry(d', Primary)]
    && |d'.files| >= |d.files|
    && forall v :: v in Versions(d, Primary) && v.Some? ==> d'.files[v.value] == d.files[v.value]
  }

  lemma FailedAtTheEnd(d: Disk, text: string, tag: nat, f: WriteFates)
    requires Prepare(d, text, true, tag, f).reply == Done && f.move.Works? && f.settle.Fails? && !f.unlink.Dies?
    ensures TookEffect(d, text, true, tag, f) && Write(d, text, true, tag, f).reply == Failed
  {
    hide Prepare, Link, Valid, CleanUp, Commit, Move;
    var prepared := Prepare(d, text, true, tag, f).disk;
    PrepareMakesTemp(d, text, true, tag, f);
    MovedThenSynced(prepared, tag, f);
    CleanUpFails(Commit(prepared, tag, f), tag, f);
  }

  lemma MoveGrows(d: Disk, tag: nat)
    requires Present(d, Temp(tag))
    ensures Grows(d, Move(d, Temp(tag), Primary, Works).disk)
  {
  }

  lemma CleanUpFails(a: After<Reply>, tag: nat, f: WriteFates)
    requires a.reply == Failed && !f.unlink.Dies?
    ensures CleanUp(a, tag, f).reply == Failed
  {
  }
}
