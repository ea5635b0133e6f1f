/**
 Runs of the JSON store: saves and loads that may fail or die at every file operation, and power
 losses. From a good primary the store is an atomic register; from a damaged primary and a good
 backup every load gives the backup's value.
 */
module JsonRuns {
  import opened Basics
  import opened CrashDisk
  import opened JsonStore

  datatype Op<+T> =
    | Save(value: T, rotate: bool, tag: nat, saving: WriteFates)
    | Fetch(loading: LoadFates)
    | Loss(pick: Name -> nat, garbage: Inode -> string)

  function Do<T, J(==)>(c: Codec<T, J>, d: Disk, op: Op<T>): (d': Disk)
  {
    match op
    case Save(value, rotate, tag, saving) => Write(d, Printed(c, value), rotate, tag, saving).disk
    case Fetch(loading) => Load(c, d, loading).disk
    case Loss(pick, garbage) => PowerLoss(d, pick, garbage)
  }

  function DoAll<T, J(==)>(c: Codec<T, J>, d: Disk, ops: seq<Op<T>>): (d': Disk)
    decreases |ops|
  {
    if ops == [] then d else DoAll(c, Do(c, d, ops[0]), ops[1..])
  }

  /** What an operation means to a register: an assignment, an observed value, or nothing. */
  datatype Act<+T> = Wrote(value: T) | Read(value: T) | Nothing

  function ActOf<T, J(==)>(c: Codec<T, J>, d: Disk, op: Op<T>): (a: Act<T>)
  {
    match op
    case Save(value, rotate, tag, saving) =>
      if TookEffect(d, Printed(c, value), rotate, tag, saving) then Wrote(value) else Nothing
    case Fetch(loading) =>
      var answer := Load(c, d, loading).reply;
      if answer.Value? then Read(answer.value) else Nothing
    case Loss(_, _) => Nothing
  }

  function Trace<T, J(==)>(c: Codec<T, J>, d: Disk, ops: seq<Op<T>>): (r: seq<Act<T>>)
    decreases |ops|
  {
    if ops == [] then [] else [ActOf(c, d, ops[0])] + Trace(c, Do(c, d, ops[0]), ops[1..])
  }

  /** The behaviour of one variable: every read gives what was written last. */
  ghost predicate IsRegister<T>(value: T, acts: seq<Act<T>>)
  {
    acts == [] ||
    match acts[0]
    case Wrote(v) => IsRegister(v, acts[1..])
    case Read(v) => v == value && IsRegister(value, acts[1..])
    case Nothing => IsRegister(value, acts[1..])
  }

  /** A valid value is saved; a load meets no failure that it cannot bear at that point. */
  ghost predicate Sane<T, J>(c: Codec<T, J>, d: Disk, op: Op<T>)
  {
    && (op.Save? ==> c.validate(op.value))
    && (op.Fetch? ==> Bearable(c, d, op.loading.look, op.loading.read))
  }

  ghost predicate AllSane<T, J>(c: Codec<T, J>, d: Disk, ops: seq<Op<T>>)
    decreases |ops|
  {
    ops == [] || (Sane(c, d, ops[0]) && AllSane(c, Do(c, d, ops[0]), ops[1..]))
  }

  // ---------------------------------------------------------------- deaths of the process

  /** One operation on a good primary is one act on a variable. */
  lemma DoActs<T(!new), J(!new)>(c: Codec<T, J>, d: Disk, op: Op<T>)
    requires Lawful(c) && !Now(c, d, Primary).Damaged? && Sane(c, d, op) && !op.Loss?
    ensures var act, d' := ActOf(c, d, op), Do(c, d, op);
            && !Now(c, d', Primary).Damaged?
            && (act.Read? ==> act.value == Current(c, d))
            && Current(c, d') == if act.Wrote? then act.value else Current(c, d)
  {
    hide Write, Load, Now, TookEffect, Printed;
    match op
    case Save(value, rotate, tag, saving) => SaveTakesEffectOrNot(c, d, value, rotate, tag, saving);
    case Fetch(loading) => LoadReadsCurrent(c, d, loading);
  }

  /**
   From a primary that is absent or loads, whatever else is on the disk, saves, loads and deaths
   at any point behave as one variable.
   */
  lemma {:induction false} AtomicRegister<T(!new), J(!new)>(c: Codec<T, J>, d: Disk, ops: seq<Op<T>>)
    requires Lawful(c) && !Now(c, d, Primary).Damaged? && AllSane(c, d, ops)
    requires forall op :: op in ops ==> !op.Loss?
    ensures IsRegister(Current(c, d), Trace(c, d, ops))
    decreases |ops|
  {
    hide Now, Current, ActOf, Do, Sane;
    if ops != [] {
      DoActs(c, d, ops[0]);
      var d' := Do(c, d, ops[0]);
      AtomicRegister(c, d', ops[1..]);
      assert Trace(c, d, ops)[1..] == Trace(c, d', ops[1..]);
    }
  }

  // ---------------------------------------------------------------- power losses

  /** What the primary may be found to hold after a run. */
  ghost function Possible<T, J>(c: Codec<T, J>, d: Disk, op: Op<T>, values: set<T>): set<T>
  {
    match op
    case Save(value, rotate, tag, saving) =>
      if Write(d, Printed(c, value), rotate, tag, saving).reply == Done then {value} else values + {value}
    case Fetch(_) => values
    case Loss(_, _) => values
  }

  lemma DoKeepsRegister<T(!new), J(!new)>(c: Codec<T, J>, d: Disk, op: Op<T>, values: set<T>)
    requires Lawful(c) && Register(c, d, values) && Sane(c, d, op)
    ensures Register(c, Do(c, d, op), Possible(c, d, op, values))
  {
    hide Write, Load, PowerLoss, Register, Current, TookEffect, Printed;
    match op
    case Save(value, rotate, tag, saving) => SaveIsAtomic(c, d, values, value, rotate, tag, saving);
    case Fetch(loading) => LoadReadsRegister(c, d, values, loading);
    case Loss(pick, garbage) => PowerLossKeepsRegister(c, d, values, pick, garbage);
  }

  ghost function PossibleAfter<T, J>(c: Codec<T, J>, d: Disk, ops: seq<Op<T>>, values: set<T>): set<T>
    decreases |ops|
  {
    if ops == [] then values
    else PossibleAfter(c, Do(c, d, ops[0]), ops[1..], Possible(c, d, ops[0], values))
  }

  /** With power losses, a load answers with the last acknowledged value or one saved, or tried, since. */
  lemma {:induction false} DurableRegister<T(!new), J(!new)>(
    c: Codec<T, J>, d: Disk, values: set<T>, ops: seq<Op<T>>, loading: LoadFates)
    requires Lawful(c) && Register(c, d, values) && AllSane(c, d, ops)
    requires Bearable(c, DoAll(c, d, ops), loading.look, loading.read)
    ensures var d' := DoAll(c, d, ops);
            var answer := Load(c, d', loading).reply;
            && Register(c, d', PossibleAfter(c, d, ops, values))
            && (answer.Value? ==> answer.value in PossibleAfter(c, d, ops, values))
    decreases |ops|
  {
    hide Register, Current, Do, Possible, Load, Sane, Bearable;
    if ops == [] {
      LoadReadsRegister(c, d, values, loading);
      CurrentIsPossible(c, d, values);
    } else {
      DoKeepsRegister(c, d, ops[0], values);
      DurableRegister(c, Do(c, d, ops[0]), Possible(c, d, ops[0], values), ops[1..], loading);
    }
  }

  lemma {:induction false} NothingNewIsPossible<T, J>(c: Codec<T, J>, d: Disk, ops: seq<Op<T>>, values: set<T>)
    requires forall op :: op in ops ==> !op.Save?
    ensures PossibleAfter(c, d, ops, values) == values
    decreases |ops|
  {
    hide Do;
    if ops != [] {
      NothingNewIsPossible(c, Do(c, d, ops[0]), ops[1..], values);
    }
  }

  /** A save that reported success is what every later load gives, through any deaths and power losses. */
  lemma AcknowledgedSaveSurvives<T(!new), J(!new)>(
    c: Codec<T, J>, d: Disk, save: Op<T>, ops: seq<Op<T>>, loading: LoadFates)
    requires Lawful(c) && save.Save? && c.validate(save.value)
    requires Write(d, Printed(c, save.value), save.rotate, save.tag, save.saving).reply == Done
    requires AllSane(c, Do(c, d, save), ops) && forall op :: op in ops ==> !op.Save?
    requires Bearable(c, DoAll(c, Do(c, d, save), ops), loading.look, loading.read)
    ensures var answer := Load(c, DoAll(c, Do(c, d, save), ops), loading).reply;
            answer.Value? ==> answer.value == save.value
  {
    SuccessIsDurable(c, d, save.value, save.rotate, save.tag, save.saving);
    assert Register(c, Do(c, d, save), {save.value});
    hide Register, Current, Do, DoAll, Load, Write, Printed, PossibleAfter, AllSane, Bearable;
    DurableRegister(c, Do(c, d, save), {save.value}, ops, loading);
    NothingNewIsPossible(c, Do(c, d, save), ops, {save.value});
  }
}
