/** The operations of src-tauri/src/utils/json.rs, file operation by file operation. */
module JsonFile {
  import opened CrashDisk
  import opened JsonStore

  class RecoveringFile<T, J(==)> {
    const codec: Codec<T, J>
    var disk: Disk

    constructor (codec: Codec<T, J>, disk: Disk)
      ensures this.codec == codec && this.disk == disk
    {
      this.codec := codec;
      this.disk := disk;
    }

    method StoreText(n: Name, text: string, f: WriteFates) returns (r: Reply)
      modifies this
      ensures After(disk, r) == WriteAndSync(old(disk), n, text, f)
    {
      hide Valid;
      var made := Make(disk, n, f.make);
      disk := made.disk;
      if made.reply != Done {
        return made.reply;
      }
      var put := Put(disk, n, text, f.put);
      disk := put.disk;
      if put.reply != Done {
        return put.reply;
      }
      var flushed := Flush(disk, n, f.flush);
      disk := flushed.disk;
      r := flushed.reply;
    }

    method CopySynced(source: Name, destination: Name, copy: Fate, flush: Fate) returns (r: Reply)
      requires Present(disk, source)
      modifies this
      ensures After(disk, r) == CopyAndSync(old(disk), source, destination, copy, flush)
    {
      hide Copy, Flush, Valid;
      var copied := Copy(disk, source, destination, copy);
      disk := copied.disk;
      if copied.reply != Done {
        return copied.reply;
      }
      var flushed := Flush(disk, destination, flush);
      disk := flushed.disk;
      r := flushed.reply;
    }

    method PrepareWrite(text: string, rotate: bool, tag: nat, f: WriteFates) returns (r: Reply)
      modifies this
      ensures After(disk, r) == Prepare(old(disk), text, rotate, tag, f)
    {
      hide WriteAndSync, CopyAndSync, Present, Valid;
      r := StoreText(Temp(tag), text, f);
      if r == Done && rotate {
        if f.look.Dies? {
          return Dead;
        }
        if Seen(disk, f.look) {
          r := CopySynced(Primary, Backup, f.copy, f.copyFlush);
        }
      }
    }

    method CommitWrite(tag: nat, f: WriteFates) returns (r: Reply)
      requires Present(disk, Temp(tag))
      modifies this
      ensures After(disk, r) == Commit(old(disk), tag, f)
    {
      hide Move, SyncDirectory, Present, Valid;
      var moved := Move(disk, Temp(tag), Primary, f.move);
      disk := moved.disk;
      if moved.reply != Done {
        return moved.reply;
      }
      var synced := SyncDirectory(disk, f.settle);
      disk := synced.disk;
      r := synced.reply;
    }

    /** Writes a value: the old primary stays whole until the rename replaces it. */
    method WriteJson(value: T, rotate: bool, tag: nat, f: WriteFates) returns (r: Reply)
      modifies this
      ensures After(disk, r) == Write(old(disk), Printed(codec, value), rotate, tag, f)
      ensures !TookEffect(old(disk), Printed(codec, value), rotate, tag, f) ==>
                r != Done && Untouched(old(disk), disk, Primary)
      ensures r == Done ==> Replaced(old(disk), disk, Printed(codec, value), true)
      ensures !rotate ==> Kept(old(disk), disk, Backup)
    {
      var text := Printed(codec, value);
      WriteEffect(disk, text, rotate, tag, f);
      PrepareMakesTemp(disk, text, rotate, tag, f);
      hide Prepare, Commit, Unlink, Present, Valid, Untouched, Replaced, Kept, TookEffect, Printed;
      r := PrepareWrite(text, rotate, tag, f);
      if r == Done {
        r := CommitWrite(tag, f);
      }
      if r == Failed {
        disk := Unlink(disk, Temp(tag), f.unlink).disk;
        if f.unlink.Dies? {
          r := Dead;
        }
      }
    }

    method RecoverFromBackup(f: LoadFates) returns (r: Answer<T>)
      requires Present(disk, Primary)
      modifies this
      ensures After(disk, r) == Recover(codec, old(disk), f)
    {
      hide CopyAndSync, Write, Now, Printed, Valid;
      if f.readBackup.Dies? {
        return Interrupted;
      }
      var backup := if f.readBackup.Works? then Now(codec, disk, Backup) else Damaged;
      if !backup.Loads? {
        return Error;
      }
      var preserved := CopySynced(Primary, Quarantine(f.quarantine), f.copy, f.copyFlush);
      if preserved != Done {
        return Report(preserved, backup.value, Recovered);
      }
      var replaced := WriteJson(backup.value, false, f.tag, f.write);
      r := Report(replaced, backup.value, Recovered);
    }

    method LoadRecovering(f: LoadFates) returns (r: Answer<T>)
      modifies this
      ensures After(disk, r) == Load(codec, old(disk), f)
      ensures !Present(old(disk), Primary) && !f.look.Dies? ==> r == Value(codec.initial, Unchanged) && disk == old(disk)
      ensures var primary := Now(codec, old(disk), Primary);
              primary.Loads? && primary.canonical && f.look.Works? && f.read.Works? ==>
                r == Value(primary.value, Unchanged) && disk == old(disk)
      ensures Now(codec, old(disk), Primary).Damaged? && !Now(codec, old(disk), Backup).Loads? ==>
                disk == old(disk) && (r.Value? ==> f.look.Fails? && r == Value(codec.initial, Unchanged))
    {
      hide Recover, Write, ViewOf, Printed, Valid;
      if f.look.Dies? {
        return Interrupted;
      }
      if !Seen(disk, f.look) {
        return Value(codec.initial, Unchanged);
      }
      if f.read.Dies? {
        return Interrupted;
      }
      var primary := if f.read.Works? then Now(codec, disk, Primary) else Damaged;
      if !primary.Loads? {
        RecoverNeedsBackup(codec, disk, f);
        r := RecoverFromBackup(f);
      } else if primary.canonical {
        r := Value(primary.value, Unchanged);
      } else {
        var migrated := WriteJson(primary.value, true, f.tag, f.write);
        r := Report(migrated, primary.value, Migrated);
      }
    }
  }

  lemma RecoverNeedsBackup<T, J>(c: Codec<T, J>, d: Disk, f: LoadFates)
    requires Present(d, Primary)
    ensures !Now(c, d, Backup).Loads? ==> Recover(c, d, f).disk == d && !Recover(c, d, f).reply.Value?
  {
  }
}
