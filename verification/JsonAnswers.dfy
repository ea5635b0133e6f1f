/** What a load that nothing disturbs answers, for every text of the primary and after every run. */
module JsonAnswers {
  import opened Basics
  import opened CrashDisk
  import opened JsonStore
  import opened JsonRuns
  import opened JsonRecovery

  /** The text is a document that decodes to an acceptable value. */
  ghost predicate Says<T, J>(c: Codec<T, J>, text: string, j: J, v: T)
  {
    c.parse(text) == Some(j) && c.decode(j) == Some(v) && c.validate(v)
  }

  /** What reading makes of a text: its value if it says one, and nothing else. */
  lemma ReadValidated<T(!new), J(!new)>(c: Codec<T, J>, text: string)
    ensures forall j, v :: Says(c, text, j, v) ==> ViewOf(c, text) == Loads(v, j == c.encode(v))
    ensures ViewOf(c, text).Loads? <==> exists j, v :: Says(c, text, j, v)
    ensures !ViewOf(c, text).Absent?
  {
    if ViewOf(c, text).Loads? {
      assert Says(c, text, c.parse(text).value, ViewOf(c, text).value);
    }
  }

  /** A missing primary is the initial value; nothing is written. */
  lemma MissingIsInitial<T, J>(c: Codec<T, J>, d: Disk, f: LoadFates)
    requires !Present(d, Primary) && !f.look.Dies?
    ensures Load(c, d, f) == After(d, Value(c.initial, Unchanged))
  {
  }

  /** A primary in canonical form is answered with its value, and nothing is written. */
  lemma CanonicalIsUnchanged<T, J>(c: Codec<T, J>, d: Disk, f: LoadFates, v: T)
    requires Present(d, Primary) && Says(c, Text(d, Primary), c.encode(v), v)
    requires f.look.Works? && f.read.Works?
    ensures Load(c, d, f) == After(d, Value(v, Unchanged))
  {
    hide Write, Recover;
  }

  /** A primary in another form is answered with its value and rewritten in canonical form; the old text is in the backup. */
  lemma OtherFormIsMigrated<T(!new), J(!new)>(c: Codec<T, J>, d: Disk, quarantine: nat, tag: nat, j: J, v: T)
    requires Lawful(c) && Present(d, Primary) && !Present(d, Temp(tag))
    requires Says(c, Text(d, Primary), j, v) && j != c.encode(v)
    ensures var a := Load(c, d, CleanLoad(Works, quarantine, tag));
            && a.reply == Value(v, Migrated)
            && Present(a.disk, Primary) && Text(a.disk, Primary) == Printed(c, v) && Register(c, a.disk, {v})
            && Present(a.disk, Backup) && Text(a.disk, Backup) == Text(d, Primary)
  {
    MigratesByWriting(c, d, quarantine, tag, j, v);
    hide *;
    CleanWrite(d, Printed(c, v), true, tag);
    assert CLEAN.look.Works?;
    SuccessIsDurable(c, d, v, true, tag, CLEAN);
    RotationKeepsPrevious(d, Printed(c, v), tag, CLEAN);
    WriteEffect(d, Printed(c, v), true, tag, CLEAN);
    ReplacedText(d, Write(d, Printed(c, v), true, tag, CLEAN).disk, Printed(c, v));
  }

  lemma MigratesByWriting<T, J>(c: Codec<T, J>, d: Disk, quarantine: nat, tag: nat, j: J, v: T)
    requires Present(d, Primary) && Says(c, Text(d, Primary), j, v) && j != c.encode(v)
    ensures c.validate(v)
    ensures var w := Write(d, Printed(c, v), true, tag, CLEAN);
            var a := Load(c, d, CleanLoad(Works, quarantine, tag));
            a.disk == w.disk && (w.reply == Done ==> a.reply == Value(v, Migrated))
  {
    hide Write, Recover, Printed;
  }

  lemma ReplacedText(d: Disk, d': Disk, text: string)
    requires Replaced(d, d', text, true)
    ensures Present(d', Primary) && Text(d', Primary) == text
  {
  }

  /** With neither file to load, a load reports an error and writes nothing. */
  lemma NothingToLoadIsAnError<T, J>(c: Codec<T, J>, d: Disk, f: LoadFates)
    requires Now(c, d, Primary).Damaged? && !Now(c, d, Backup).Loads?
    requires f.look.Works? && !f.read.Dies? && !f.readBackup.Dies?
    ensures Load(c, d, f) == After(d, Error)
  {
    hide Write, Printed, ViewOf;
  }

  /** From a primary that is absent or loads, a load that nothing disturbs answers with its value. */
  lemma UndisturbedLoadAnswers<T(!new), J(!new)>(c: Codec<T, J>, d: Disk, quarantine: nat, tag: nat)
    requires Lawful(c) && !Now(c, d, Primary).Damaged? && !Present(d, Temp(tag))
    ensures var a := Load(c, d, CleanLoad(Works, quarantine, tag));
            && a.reply.Value? && a.reply.value == Current(c, d) && Current(c, a.disk) == Current(c, d)
            && (a.reply.status == Unchanged ==> a.disk == d)
            && a.reply.status != Recovered
  {
    LoadReadsCurrent(c, d, CleanLoad(Works, quarantine, tag));
    LoadOfGood(c, d, CleanLoad(Works, quarantine, tag));
    CleanWrite(d, Printed(c, Current(c, d)), true, tag);
    CleanCourse(c, d, quarantine, tag);
    hide Load, Write, Recover, Now, Current, Printed;
  }

  lemma CleanCourse<T, J>(c: Codec<T, J>, d: Disk, quarantine: nat, tag: nat)
    requires !Now(c, d, Primary).Damaged?
    ensures var f := CleanLoad(Works, quarantine, tag);
            !Rereads(d, f) && (!Migrates(c, d, f) ==> Load(c, d, f).reply.Value?)
  {
    hide Write, Recover, Printed;
  }

  // ---------------------------------------------------------------- after every run

  /** What was written last. */
  ghost function LastWritten<T>(value: T, acts: seq<Act<T>>): (v: T)
  {
    if acts == [] then value
    else LastWritten(if acts[0].Wrote? then acts[0].value else value, acts[1..])
  }

  lemma {:induction false} RunHoldsLastWritten<T(!new), J(!new)>(c: Codec<T, J>, d: Disk, ops: seq<Op<T>>)
    requires Lawful(c) && !Now(c, d, Primary).Damaged? && AllSane(c, d, ops)
    requires forall op :: op in ops ==> !op.Loss?
    ensures !Now(c, DoAll(c, d, ops), Primary).Damaged?
    ensures Current(c, DoAll(c, d, ops)) == LastWritten(Current(c, d), Trace(c, d, ops))
    decreases |ops|
  {
    hide Now, Current, ActOf, Do, Sane;
    if ops != [] {
      DoActs(c, d, ops[0]);
      var d' := Do(c, d, ops[0]);
      RunHoldsLastWritten(c, d', ops[1..]);
      assert Trace(c, d, ops)[1..] == Trace(c, d', ops[1..]);
    }
  }

  /** After every run of saves, loads and deaths, a load that nothing disturbs answers with what was written last. */
  lemma RegisterAnswers<T(!new), J(!new)>(c: Codec<T, J>, d: Disk, ops: seq<Op<T>>, quarantine: nat, tag: nat)
    requires Lawful(c) && !Now(c, d, Primary).Damaged? && AllSane(c, d, ops)
    requires forall op :: op in ops ==> !op.Loss?
    requires !Present(DoAll(c, d, ops), Temp(tag))
    ensures var answer := Load(c, DoAll(c, d, ops), CleanLoad(Works, quarantine, tag)).reply;
            answer.Value? && answer.value == LastWritten(Current(c, d), Trace(c, d, ops))
  {
    hide Now, Current, Load, DoAll, Trace, LastWritten, Present;
    RunHoldsLastWritten(c, d, ops);
    UndisturbedLoadAnswers(c, DoAll(c, d, ops), quarantine, tag);
  }

  /** With power losses as well it answers, with one of the possible values. */
  lemma DurableRegisterAnswers<T(!new), J(!new)>(
    c: Codec<T, J>, d: Disk, values: set<T>, ops: seq<Op<T>>, quarantine: nat, tag: nat)
    requires Lawful(c) && Register(c, d, values) && AllSane(c, d, ops)
    requires !Present(DoAll(c, d, ops), Temp(tag))
    ensures var answer := Load(c, DoAll(c, d, ops), CleanLoad(Works, quarantine, tag)).reply;
            answer.Value? && answer.value in PossibleAfter(c, d, ops, values)
  {
    var d' := DoAll(c, d, ops);
    assert Bearable(c, d', Works, Works);
    hide Now, Current, Load, DoAll, PossibleAfter, Present, Register, Bearable;
    DurableRegister(c, d, values, ops, CleanLoad(Works, quarantine, tag));
    CurrentIsPossible(c, d', PossibleAfter(c, d, ops, values));
    UndisturbedLoadAnswers(c, d', quarantine, tag);
  }

  /** A save that nothing disturbs reports success, and then the next undisturbed load answers with its value. */
  lemma SaveThenLoad<T(!new), J(!new)>(c: Codec<T, J>, d: Disk, v: T, rotate: bool, tag: nat, quarantine: nat, next: nat)
    requires Lawful(c) && c.validate(v) && !Present(d, Temp(tag))
    requires !Present(Write(d, Printed(c, v), rotate, tag, CLEAN).disk, Temp(next))
    ensures var w := Write(d, Printed(c, v), rotate, tag, CLEAN);
            w.reply == Done && Load(c, w.disk, CleanLoad(Works, quarantine, next)) == After(w.disk, Value(v, Unchanged))
  {
    var w := Write(d, Printed(c, v), rotate, tag, CLEAN);
    PrintedSays(c, v);
    hide *;
    CleanWrite(d, Printed(c, v), rotate, tag);
    WriteEffect(d, Printed(c, v), rotate, tag, CLEAN);
    ReplacedText(d, w.disk, Printed(c, v));
    CleanSees(quarantine, next);
    CanonicalIsUnchanged(c, w.disk, CleanLoad(Works, quarantine, next), v);
  }

  lemma PrintedSays<T(!new), J(!new)>(c: Codec<T, J>, v: T)
    requires Lawful(c) && c.validate(v)
    ensures Says(c, Printed(c, v), c.encode(v), v)
  {
  }

  lemma CleanSees(quarantine: nat, tag: nat)
    ensures var f := CleanLoad(Works, quarantine, tag); f.look.Works? && f.read.Works?
  {
  }
}
