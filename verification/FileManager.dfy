/**
 The manager of file descriptors: owners lock and unlock their files by compare-and-swap, while any store that needs a
 descriptor closes files that nobody uses (stores/filestore.go).
 */
module FileManager {
  import opened Basics

  datatype FileState = Opened | InUse | Closing | Closed | Removed

  /** Where the store that owns a file is: each store makes one call at a time on a file. */
  datatype Owner = Idle | Locked | WantOpen | Holding | WantClose

  /** `open` says that the file has a handle, `managed` that the manager lists it. */
  datatype File = File(state: FileState, open: bool, managed: bool, owner: Owner)

  /** The manager's lock: free, or held to open a file or to create one. */
  datatype Lock = Free | Opening(f: nat) | Creating(f: nat)

  /** `closing` is the file that the holder of the lock has just taken, to close it. */
  datatype State = State(files: map<nat, File>, openedFDs: int, lock: Lock, closing: Option<nat>, panicked: bool)

  const INITIAL := State(map[], 0, Free, None, false)

  datatype Step =
    | Create(f: nat) | FinishCreate(ok: bool)
    | LockFile(f: nat) | LockIfOpened(f: nat) | AcquireOpen(f: nat) | FinishOpen(ok: bool)
    | SweepTake(f: nat) | SweepClose
    | Unlock(f: nat)
    | CloseLocked(f: nat) | CloseIfOpened(f: nat) | FinishClose(f: nat)
    | Remove(f: nat)

  /** Which step can be made: by the owner of a file, or by the holder of the lock. */
  predicate Enabled(st: State, step: Step) {
    match step
    case Create(f) => st.lock == Free && f !in st.files
    case FinishCreate(_) => st.lock.Creating? && st.closing == None
    case LockFile(f) => f in st.files && st.files[f].owner == Idle
    case LockIfOpened(f) => f in st.files && st.files[f].owner == Idle
    case AcquireOpen(f) => f in st.files && st.files[f].owner == WantOpen && st.lock == Free
    case FinishOpen(_) => st.lock.Opening? && st.lock.f in st.files && st.closing == None
    case SweepTake(f) => st.lock != Free && st.closing == None && f in st.files && st.files[f].managed && st.lock.f != f
    case SweepClose => st.closing.Some? && st.closing.value in st.files
    case Unlock(f) => f in st.files && st.files[f].owner == Locked
    case CloseLocked(f) => f in st.files && st.files[f].owner == Locked
    case CloseIfOpened(f) => f in st.files && st.files[f].owner == Idle
    case FinishClose(f) => f in st.files && st.files[f].owner == WantClose && st.lock == Free
    case Remove(f) => f in st.files && st.files[f].owner == Idle && st.lock == Free
  }

  function With(st: State, f: nat, file: File): State {
    st.(files := st.files[f := file])
  }

  /** The handle is closed; the state says so and the descriptor is given back. */
  function DoClose(st: State, f: nat): State
    requires f in st.files
  {
    With(st, f, st.files[f].(open := false, state := Closed)).(openedFDs := st.openedFDs - 1)
  }

  /** One compare-and-swap, or one section under the lock; a panic is a state of its own. */
  function Next(st: State, step: Step): State
    requires Enabled(st, step)
  {
    match step
    case Create(f) => st.(lock := Creating(f))
    case FinishCreate(ok) =>
      if ok then With(st, st.lock.f, File(InUse, true, true, Locked)).(lock := Free, openedFDs := st.openedFDs + 1)
      else st.(lock := Free)
    case LockFile(f) =>
      if st.files[f].state == Opened then With(st, f, st.files[f].(state := InUse, owner := Locked))
      else With(st, f, st.files[f].(owner := WantOpen))
    case LockIfOpened(f) =>
      if st.files[f].state == Opened then With(st, f, st.files[f].(state := InUse, owner := Locked)) else st
    case AcquireOpen(f) =>
      if st.files[f].state == Removed then With(st, f, st.files[f].(owner := Idle))
      else if st.files[f].state != Closed || st.files[f].open then st.(panicked := true)
      else With(st, f, st.files[f].(owner := Holding)).(lock := Opening(f))
    case FinishOpen(ok) =>
      var f := st.lock.f;
      if ok then With(st, f, st.files[f].(open := true, state := InUse, owner := Locked)).(lock := Free,
          openedFDs := st.openedFDs + 1)
      else With(st, f, st.files[f].(owner := Idle)).(lock := Free)
    case SweepTake(f) =>
      if st.files[f].state == Opened then With(st, f, st.files[f].(state := Closing)).(closing := Some(f)) else st
    case SweepClose => DoClose(st, st.closing.value).(closing := None)
    case Unlock(f) =>
      if st.files[f].state == InUse then With(st, f, st.files[f].(state := Opened, owner := Idle))
        else st.(panicked := true)
    case CloseLocked(f) =>
      if st.files[f].state == InUse then With(st, f, st.files[f].(state := Closing, owner := WantClose))
        else st.(panicked := true)
    case CloseIfOpened(f) =>
      if st.files[f].state == Opened then With(st, f, st.files[f].(state := Closing, owner := WantClose)) else st
    case FinishClose(f) =>
      var r := DoClose(st, f);
      With(r, f, r.files[f].(owner := Idle))
    case Remove(f) =>
      if st.files[f].state == Opened
        then With(st, f, st.files[f].(state := Removed, managed := false)).(openedFDs := st.openedFDs - 1)
      else if st.files[f].state == Closed then With(st, f, st.files[f].(state := Removed, managed := false))
      else st
  }

  // ---------- The invariant ----------

  /** What the state word of a file says about its handle and about who is at work on it. */
  predicate FileOk(st: State, f: nat) {
    f in st.files &&
    var x := st.files[f];
    && (x.owner == Holding <==> st.lock == Opening(f))
    && match x.state
       case Opened => x.open && x.managed && x.owner == Idle
       case InUse => x.open && x.managed && x.owner == Locked
       case Closing => x.open && x.managed && if st.closing == Some(f) then x.owner == Idle || x.owner == WantOpen
         else x.owner == WantClose
       case Closed => !x.open && x.managed && x.owner != Locked && x.owner != WantClose
       case Removed => !x.managed && x.owner != Locked && x.owner != WantClose && x.owner != Holding
  }

  ghost function OpenFiles(files: map<nat, File>): set<nat> {
    set f | f in files && files[f].managed && files[f].open
  }

  ghost predicate Inv(st: State) {
    && !st.panicked
    && (forall f :: f in st.files ==> FileOk(st, f))
    && st.openedFDs == |OpenFiles(st.files)|
    && (st.lock.Creating? ==> st.lock.f !in st.files) && (st.lock.Opening? ==> st.lock.f in st.files)
    && (st.closing.Some? ==>
        st.lock != Free && st.closing.value in st.files && st.files[st.closing.value].state == Closing)
  }

  lemma OpenFilesAfter(files: map<nat, File>, f: nat, file: File)
    ensures var n := |OpenFiles(files)| - if f in OpenFiles(files) then 1 else 0;
            |OpenFiles(files[f := file])| == n + if file.managed && file.open then 1 else 0
  {
    var a, b := OpenFiles(files), OpenFiles(files[f := file]);
    var rest := a - {f};
    assert f !in a ==> rest == a;
    if file.managed && file.open {
      assert b == rest + {f};
    } else {
      assert b == rest;
    }
  }

  /** The file that a step is about. */
  function FileOf(st: State, step: Step): nat
    requires Enabled(st, step)
  {
    match step
    case Create(f) => f
    case FinishCreate(_) => st.lock.f
    case LockFile(f) => f
    case LockIfOpened(f) => f
    case AcquireOpen(f) => f
    case FinishOpen(_) => st.lock.f
    case SweepTake(f) => f
    case SweepClose => st.closing.value
    case Unlock(f) => f
    case CloseLocked(f) => f
    case CloseIfOpened(f) => f
    case FinishClose(f) => f
    case Remove(f) => f
  }

  /** A step changes one file. */
  lemma OneFile(st: State, step: Step)
    requires Enabled(st, step)
    ensures var f, r := FileOf(st, step), Next(st, step);
            r.files == st.files || (f in r.files && r.files == st.files[f := r.files[f]])
  {
  }

  lemma OtherFile(st: State, step: Step, g: nat)
    requires Inv(st) && Enabled(st, step) && g in st.files && g != FileOf(st, step)
    ensures FileOk(Next(st, step), g)
  {
    assert FileOk(st, g);
    assert FileOf(st, step) in st.files ==> FileOk(st, FileOf(st, step));
  }

  lemma ThisFile(st: State, step: Step)
    requires Inv(st) && Enabled(st, step)
    ensures FileOf(st, step) in Next(st, step).files ==> FileOk(Next(st, step), FileOf(st, step))
    ensures !Next(st, step).panicked
  {
    assert FileOf(st, step) in st.files ==> FileOk(st, FileOf(st, step));
  }

  lemma Counted(st: State, step: Step)
    requires Inv(st) && Enabled(st, step)
    ensures Next(st, step).openedFDs == |OpenFiles(Next(st, step).files)|
  {
    var f, r := FileOf(st, step), Next(st, step);
    assert f in st.files ==> FileOk(st, f);
    OneFile(st, step);
    if r.files != st.files {
      OpenFilesAfter(st.files, f, r.files[f]);
    }
  }

  lemma StepKeeps(st: State, step: Step)
    requires Inv(st) && Enabled(st, step)
    ensures Inv(Next(st, step))
  {
    var r := Next(st, step);
    OneFile(st, step);
    ThisFile(st, step);
    Counted(st, step);
    forall g | g in r.files ensures FileOk(r, g) {
      if g != FileOf(st, step) {
        OtherFile(st, step, g);
      }
    }
    assert FileOf(st, step) in st.files ==> FileOk(st, FileOf(st, step));
  }

  // ---------- Runs ----------

  predicate Run(st: State, steps: seq<Step>)
    decreases |steps|
  {
    steps == [] || (Enabled(st, steps[0]) && Run(Next(st, steps[0]), steps[1..]))
  }

  function After(st: State, steps: seq<Step>): State
    requires Run(st, steps)
    decreases |steps|
  {
    if steps == [] then st else After(Next(st, steps[0]), steps[1..])
  }

  lemma {:induction false} RunKeeps(st: State, steps: seq<Step>)
    requires Inv(st) && Run(st, steps)
    ensures Inv(After(st, steps))
    decreases |steps|
  {
    if steps != [] {
      StepKeeps(st, steps[0]);
      RunKeeps(Next(st, steps[0]), steps[1..]);
    }
  }

  /**
   In every interleaving: the count of descriptors is the number of managed files with a handle, a file that its owner
   has locked keeps its handle and is never the one being closed, and no call finds a file in a state that it panics on.
   */
  lemma EveryInterleaving(steps: seq<Step>)
    requires Run(INITIAL, steps)
    ensures var st := After(INITIAL, steps);
            && !st.panicked && st.openedFDs == |OpenFiles(st.files)|
            && forall f :: f in st.files && st.files[f].owner == Locked ==>
                st.files[f].state == InUse && st.files[f].open && st.closing != Some(f)
  {
    assert Inv(INITIAL);
    RunKeeps(INITIAL, steps);
    var st := After(INITIAL, steps);
    forall f | f in st.files && st.files[f].owner == Locked
      ensures st.files[f].state == InUse && st.files[f].open && st.closing != Some(f)
    {
      assert FileOk(st, f);
    }
  }
}
