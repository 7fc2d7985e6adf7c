/** Any number of worker threads inside `ManagedFileWriter.write` at once, interleaved with
    the user's own edits: the guarded lock table, the per-path locks, the temporary file that
    is filled piece by piece, and the rename. One action is one step of one thread. */
module WriterProtocol {
  import opened NotesText
  import opened Wrappers
  import opened ManagedFileWriter

  type Thread = nat
  type LockId = nat

  /** Where a thread stands in `write`. The first block runs in `_lock_for` under the table's
      guard, the last one under the path's lock. */
  datatype Point =
    | WantGuard
    | LookUp
    | Insert
    | Fetch
    | DropGuard(lock: LockId)
    | WantLock(lock: LockId)
    | CheckExists(lock: LockId)
    | ReadFile(lock: LockId)
    | Compare(lock: LockId, existing: Option<string>)
    | FillTemp(lock: LockId, full: string, done: nat)
    | Rename(lock: LockId, full: string)
    | Release(lock: LockId, changed: bool)
  {
    predicate Guarded() {
      LookUp? || Insert? || Fetch? || DropGuard?
    }
    predicate Critical() {
      CheckExists? || ReadFile? || Compare? || FillTemp? || Rename? || Release?
    }
    predicate KnowsLock() {
      DropGuard? || WantLock? || Critical()
    }
  }

  datatype Call = Call(path: Path, body: string, at: Point)

  datatype State = State(
    files: map<Path, string>,
    table: map<Path, LockId>,
    nextLock: LockId,
    guard: Option<Thread>,
    owner: map<LockId, Thread>,
    calls: map<Thread, Call>)

  datatype Action =
    | Begin(t: Thread, path: Path, body: string)
    | Advance(t: Thread)
    | Raise(t: Thread)                      // an exception leaves `write`
    | UserEdit(path: Path, text: string)
    | UserDelete(path: Path)

  function TempOf(path: Path): Path {
    path + ".tmp"
  }

  /** The paths the daemon writes are never temporary files themselves. */
  predicate Managed(path: Path) {
    !(|path| >= 4 && path[|path| - 4..] == ".tmp")
  }

  function Get(files: map<Path, string>, path: Path): Option<string> {
    if path in files then Some(files[path]) else None
  }

  predicate Locked(s: State, path: Path) {
    path in s.table && s.table[path] in s.owner
  }

  predicate Enabled(s: State, a: Action) {
    match a
    case Begin(t, path, _) => t !in s.calls && Managed(path)
    case Advance(t) => t in s.calls && (match s.calls[t].at
      case WantGuard => s.guard.None?
      case WantLock(l) => l !in s.owner
      case _ => true)
    case Raise(t) => t in s.calls
    case UserEdit(path, _) => Managed(path) && !Locked(s, path)
    case UserDelete(path) => Managed(path) && !Locked(s, path)
  }

  function Apply(f: Format, s: State, a: Action): State
    requires Enabled(s, a)
  {
    match a
    case Begin(t, path, body) => s.(calls := s.calls[t := Call(path, body, WantGuard)])
    case Advance(t) => AdvanceThread(f, s, t)
    case Raise(t) => Unwind(s, t)
    case UserEdit(path, text) => s.(files := s.files[path := text])
    case UserDelete(path) => s.(files := s.files - {path})
  }

  /** Leaving both `with` blocks: whatever the thread holds is released. */
  function Unwind(s: State, t: Thread): State
    requires t in s.calls
  {
    var at := s.calls[t].at;
    s.(calls := s.calls - {t},
       guard := if at.Guarded() then None else s.guard,
       owner := if at.Critical() then s.owner - {at.lock} else s.owner)
  }

  function MoveTo(s: State, t: Thread, at: Point): State
    requires t in s.calls
  {
    s.(calls := s.calls[t := s.calls[t].(at := at)])
  }

  /** The steps of `_lock_for` and of taking the lock it returns. */
  function AdvanceLookup(s: State, t: Thread): State
    requires t in s.calls && !s.calls[t].at.Critical()
  {
    var c := s.calls[t];
    match c.at
    case WantGuard => MoveTo(s, t, LookUp).(guard := Some(t))
    case LookUp => MoveTo(s, t, if c.path in s.table then Fetch else Insert)
    case Insert => MoveTo(s, t, Fetch).(table := s.table[c.path := s.nextLock], nextLock := s.nextLock + 1)
    case Fetch => if c.path in s.table then MoveTo(s, t, DropGuard(s.table[c.path])) else s
    case DropGuard(l) => MoveTo(s, t, WantLock(l)).(guard := None)
    case WantLock(l) => MoveTo(s, t, CheckExists(l)).(owner := s.owner[l := t])
  }

  /** The steps of `write` under the path's lock. */
  function AdvanceRewrite(f: Format, s: State, t: Thread): State
    requires t in s.calls && s.calls[t].at.Critical()
  {
    var c := s.calls[t];
    match c.at
    case CheckExists(l) => MoveTo(s, t, if c.path in s.files then ReadFile(l) else Compare(l, None))
    case ReadFile(l) =>
      if c.path in s.files then MoveTo(s, t, Compare(l, Some(UniversalNewlines(s.files[c.path])))) else s
    case Compare(l, existing) =>
      var notes := if existing.Some? then NotesOf(f, existing.value) else f.placeholder;
      var full := FullContent(f, c.body, notes);
      if existing == Some(full) then MoveTo(s, t, Release(l, false))
      else MoveTo(s, t, FillTemp(l, full, 0)).(files := s.files[TempOf(c.path) := ""])
    case FillTemp(l, full, done) =>
      if done < |full|
      then MoveTo(s, t, FillTemp(l, full, done + 1)).(files := s.files[TempOf(c.path) := full[..done + 1]])
      else MoveTo(s, t, Rename(l, full))
    case Rename(l, full) =>
      var tmp := TempOf(c.path);
      if tmp in s.files
      then MoveTo(s, t, Release(l, true)).(files := (s.files - {tmp})[c.path := s.files[tmp]])
      else s
    case Release(l, _) => Unwind(s, t)
  }

  function AdvanceThread(f: Format, s: State, t: Thread): State
    requires Enabled(s, Advance(t))
  {
    if s.calls[t].at.Critical() then AdvanceRewrite(f, s, t) else AdvanceLookup(s, t)
  }

  // ----- the invariant

  /** What a thread under the path's lock has learnt is still true of the file. */
  ghost predicate CallOk(f: Format, s: State, t: Thread)
    requires t in s.calls
  {
    var c := s.calls[t];
    && Managed(c.path)
    && (c.at.Guarded() <==> s.guard == Some(t))
    && (c.at.KnowsLock() ==> c.path in s.table && s.table[c.path] == c.at.lock)
    && (c.at.Critical() ==> c.at.lock in s.owner && s.owner[c.at.lock] == t)
    && match c.at
       case Insert => c.path !in s.table
       case Fetch => c.path in s.table
       case ReadFile(_) => c.path in s.files
       case Compare(_, existing) =>
         existing == if c.path in s.files then Some(UniversalNewlines(s.files[c.path])) else None
       case FillTemp(_, full, done) =>
         && done <= |full| && Pending(f, s, c, full)
         && TempOf(c.path) in s.files && s.files[TempOf(c.path)] == full[..done]
       case Rename(_, full) =>
         && Pending(f, s, c, full)
         && TempOf(c.path) in s.files && s.files[TempOf(c.path)] == full
       case _ => true
  }

  /** The text about to replace the file is the one a sequential write would produce now. */
  ghost predicate Pending(f: Format, s: State, c: Call, full: string) {
    WriteFile(f, Get(s.files, c.path), c.body) == (Some(full), true)
  }

  ghost predicate Inv(f: Format, s: State) {
    && (s.guard.Some? ==> s.guard.value in s.calls)
    && (forall p :: p in s.table ==> s.table[p] < s.nextLock)
    && (forall p, q :: p in s.table && q in s.table && p != q ==> s.table[p] != s.table[q])
    && (forall l :: l in s.owner ==>
         s.owner[l] in s.calls && s.calls[s.owner[l]].at.Critical() && s.calls[s.owner[l]].at.lock == l)
    && (forall t :: t in s.calls ==> CallOk(f, s, t))
  }

  function Initial(files: map<Path, string>): State {
    State(files, map[], 0, None, map[], map[])
  }

  lemma InitialInv(f: Format, files: map<Path, string>)
    ensures Inv(f, Initial(files))
  {
  }

  lemma TempNamesDoNotCollide(p: Path, q: Path)
    ensures !Managed(TempOf(p))
    ensures TempOf(p) == TempOf(q) ==> p == q
  {
    assert TempOf(p)[|TempOf(p)| - 4..] == ".tmp";
    assert TempOf(p)[..|p|] == p && TempOf(q)[..|q|] == q;
  }

  /** No two threads are ever past the lock of one path. */
  lemma MutualExclusion(f: Format, s: State, t: Thread, u: Thread)
    requires Inv(f, s) && t in s.calls && u in s.calls
    requires s.calls[t].at.Critical() && s.calls[u].at.Critical() && s.calls[t].path == s.calls[u].path
    ensures t == u
  {
    assert CallOk(f, s, t) && CallOk(f, s, u);
  }

  /** The footprint of one thread's step. */
  ghost predicate Footprint(s: State, s': State, t: Thread)
    requires t in s.calls
  {
    var c := s.calls[t];
    && (forall u :: u in s.calls && u != t ==> u in s'.calls && s'.calls[u] == s.calls[u])
    && (forall u :: u in s'.calls && u != t ==> u in s.calls)
    && (forall p :: p in s.table ==> p in s'.table && s'.table[p] == s.table[p])
    && (forall p :: p in s'.table && p !in s.table ==> c.at == Insert && p == c.path)
    && (s'.guard != s.guard ==> c.at.Guarded() || s.guard == None)
    && (s'.guard.Some? && s'.guard != s.guard ==> s'.guard == Some(t))
    && (forall l :: l in s.owner && s.owner[l] != t ==> l in s'.owner && s'.owner[l] == s.owner[l])
    && (forall p :: p != TempOf(c.path) && !(p == c.path && c.at.Critical()) ==> Get(s'.files, p) == Get(s.files, p))
    && (!c.at.Critical() ==> s'.files == s.files)
  }

  lemma LookupFootprint(f: Format, s: State, t: Thread)
    requires Inv(f, s) && Enabled(s, Advance(t)) && !s.calls[t].at.Critical()
    ensures Footprint(s, AdvanceLookup(s, t), t)
  {
    hide WriteFile, UniversalNewlines, FullContent, NotesOf, Managed, TempOf;
    assert CallOk(f, s, t);
  }

  lemma RewriteFiles(f: Format, s: State, t: Thread)
    requires t in s.calls && s.calls[t].at.Critical()
    ensures forall p :: p != TempOf(s.calls[t].path) && p != s.calls[t].path ==>
      Get(AdvanceRewrite(f, s, t).files, p) == Get(s.files, p)
  {
    hide UniversalNewlines, FullContent, NotesOf, TempOf;
  }

  lemma RewriteCalls(f: Format, s: State, t: Thread)
    requires t in s.calls && s.calls[t].at.Critical()
    ensures var s' := AdvanceRewrite(f, s, t);
      && (forall u :: u != t ==> (u in s'.calls <==> u in s.calls) && (u in s.calls ==> s'.calls[u] == s.calls[u]))
      && (t in s'.calls ==> s'.calls[t].path == s.calls[t].path && s'.calls[t].body == s.calls[t].body)
  {
    hide UniversalNewlines, FullContent, NotesOf, TempOf;
  }

  lemma RewriteTable(f: Format, s: State, t: Thread)
    requires t in s.calls && s.calls[t].at.Critical() && !s.calls[t].at.Release?
    ensures var s' := AdvanceRewrite(f, s, t);
      && s'.table == s.table && s'.nextLock == s.nextLock && s'.guard == s.guard && s'.owner == s.owner
      && t in s'.calls && s'.calls[t].at.Critical() && s'.calls[t].at.lock == s.calls[t].at.lock
  {
    hide UniversalNewlines, FullContent, NotesOf, TempOf;
  }

  lemma RewriteFootprint(f: Format, s: State, t: Thread)
    requires Inv(f, s) && Enabled(s, Advance(t)) && s.calls[t].at.Critical()
    ensures Footprint(s, AdvanceRewrite(f, s, t), t)
  {
    RewriteFiles(f, s, t);
    RewriteCalls(f, s, t);
    hide WriteFile, UniversalNewlines, FullContent, NotesOf, Managed, TempOf;
    assert CallOk(f, s, t);
    if s.calls[t].at.Release? {
      assert AdvanceRewrite(f, s, t) == Unwind(s, t);
    } else {
      RewriteTable(f, s, t);
      hide AdvanceRewrite;
    }
  }

  /** A step of one thread leaves what every other thread relies on alone. */
  lemma OthersUndisturbed(f: Format, s: State, s': State, t: Thread, u: Thread)
    requires Inv(f, s) && Enabled(s, Advance(t)) && Footprint(s, s', t)
    requires u in s.calls && u != t
    ensures u in s'.calls && CallOk(f, s', u)
  {
    hide WriteFile, UniversalNewlines, FullContent, NotesOf, Managed, TempOf;
    assert CallOk(f, s, t) && CallOk(f, s, u);
    var c, d := s.calls[t], s.calls[u];
    TempNamesDoNotCollide(c.path, d.path);
    TempNamesDoNotCollide(d.path, c.path);
    if d.at.Critical() {
      if c.at.Critical() && c.path == d.path {
        MutualExclusion(f, s, t, u);
      }
      assert Get(s'.files, d.path) == Get(s.files, d.path);
      assert Get(s'.files, TempOf(d.path)) == Get(s.files, TempOf(d.path));
    }
  }

  lemma LookupThreadOk(f: Format, s: State, t: Thread)
    requires Inv(f, s) && Enabled(s, Advance(t)) && !s.calls[t].at.Critical()
    ensures CallOk(f, AdvanceLookup(s, t), t)
  {
    hide WriteFile, UniversalNewlines, Managed, TempOf;
    assert CallOk(f, s, t);
  }

  lemma CompareThreadOk(f: Format, s: State, t: Thread)
    requires Inv(f, s) && t in s.calls && s.calls[t].at.Compare?
    ensures CallOk(f, AdvanceRewrite(f, s, t), t)
  {
    hide UniversalNewlines, FullContent, NotesOf, Managed, TempOf;
    assert CallOk(f, s, t);
    TempNamesDoNotCollide(s.calls[t].path, s.calls[t].path);
  }

  lemma FillTempThreadOk(f: Format, s: State, t: Thread)
    requires Inv(f, s) && t in s.calls && s.calls[t].at.FillTemp?
    ensures CallOk(f, AdvanceRewrite(f, s, t), t)
  {
    hide WriteFile, UniversalNewlines, FullContent, NotesOf, Managed, TempOf;
    assert CallOk(f, s, t);
    TempNamesDoNotCollide(s.calls[t].path, s.calls[t].path);
    assert s.calls[t].at.full[..|s.calls[t].at.full|] == s.calls[t].at.full;
  }

  lemma RewriteThreadOk(f: Format, s: State, t: Thread)
    requires Inv(f, s) && Enabled(s, Advance(t)) && s.calls[t].at.Critical() && !s.calls[t].at.Release?
    ensures CallOk(f, AdvanceRewrite(f, s, t), t)
  {
    hide WriteFile, UniversalNewlines, FullContent, NotesOf, Managed, TempOf;
    if s.calls[t].at.Compare? {
      CompareThreadOk(f, s, t);
    } else if s.calls[t].at.FillTemp? {
      FillTempThreadOk(f, s, t);
    } else {
      assert CallOk(f, s, t);
      TempNamesDoNotCollide(s.calls[t].path, s.calls[t].path);
    }
  }

  lemma UnwindInv(f: Format, s: State, t: Thread)
    requires Inv(f, s) && t in s.calls
    ensures Inv(f, Unwind(s, t))
  {
    hide WriteFile, UniversalNewlines, Managed, TempOf;
    var s' := Unwind(s, t);
    assert CallOk(f, s, t);
    forall u | u in s'.calls ensures CallOk(f, s', u) {
      assert CallOk(f, s, u);
    }
  }

  lemma LookupInv(f: Format, s: State, t: Thread)
    requires Inv(f, s) && Enabled(s, Advance(t)) && !s.calls[t].at.Critical()
    ensures Inv(f, AdvanceLookup(s, t))
  {
    hide CallOk;
    var s' := AdvanceLookup(s, t);
    LookupFootprint(f, s, t);
    forall u | u in s'.calls ensures CallOk(f, s', u) {
      if u == t { LookupThreadOk(f, s, t); } else { OthersUndisturbed(f, s, s', t, u); }
    }
    LookupTable(f, s, t);
  }

  lemma LookupTable(f: Format, s: State, t: Thread)
    requires Inv(f, s) && Enabled(s, Advance(t)) && !s.calls[t].at.Critical()
    ensures forall l :: l in AdvanceLookup(s, t).owner ==>
      && AdvanceLookup(s, t).owner[l] in AdvanceLookup(s, t).calls
      && AdvanceLookup(s, t).calls[AdvanceLookup(s, t).owner[l]].at.Critical()
      && AdvanceLookup(s, t).calls[AdvanceLookup(s, t).owner[l]].at.lock == l
  {
    hide WriteFile, UniversalNewlines, Managed, TempOf;
    assert CallOk(f, s, t);
  }

  lemma RewriteInv(f: Format, s: State, t: Thread)
    requires Inv(f, s) && Enabled(s, Advance(t)) && s.calls[t].at.Critical()
    ensures Inv(f, AdvanceRewrite(f, s, t))
  {
    hide CallOk, TempOf, UniversalNewlines, FullContent, NotesOf;
    if s.calls[t].at.Release? {
      UnwindInv(f, s, t);
    } else {
      RewriteTable(f, s, t);
      RewriteFootprint(f, s, t);
      hide AdvanceRewrite;
      var s' := AdvanceRewrite(f, s, t);
      forall u | u in s'.calls ensures CallOk(f, s', u) {
        if u == t { RewriteThreadOk(f, s, t); } else { OthersUndisturbed(f, s, s', t, u); }
      }
    }
  }

  lemma UserInv(f: Format, s: State, a: Action)
    requires Inv(f, s) && Enabled(s, a) && (a.UserEdit? || a.UserDelete?)
    ensures Inv(f, Apply(f, s, a))
  {
    hide WriteFile, UniversalNewlines, Managed, TempOf;
    var s' := Apply(f, s, a);
    forall t | t in s'.calls ensures CallOk(f, s', t) {
      assert CallOk(f, s, t);
      TempNamesDoNotCollide(s.calls[t].path, a.path);
    }
  }

  lemma StepInv(f: Format, s: State, a: Action)
    requires Inv(f, s) && Enabled(s, a)
    ensures Inv(f, Apply(f, s, a))
  {
    match a
    case Begin(t, path, body) =>
      hide WriteFile, UniversalNewlines, Managed, TempOf;
      var s' := Apply(f, s, a);
      forall u | u in s'.calls ensures CallOk(f, s', u) {
        assert u != t ==> CallOk(f, s, u);
      }
    case Advance(t) => if s.calls[t].at.Critical() { RewriteInv(f, s, t); } else { LookupInv(f, s, t); }
    case Raise(t) => UnwindInv(f, s, t);
    case _ => UserInv(f, s, a);
  }

  // ----- what a step does to the files

  predicate Touches(a: Action, p: Path) {
    (a.UserEdit? || a.UserDelete?) && a.path == p
  }

  /** Refinement: seen from outside, a daemon step either leaves a managed file alone or is
      one whole sequential `write` of that file, made by the thread's rename. */
  lemma StepIsAtomicWrite(f: Format, s: State, a: Action, p: Path)
    requires Inv(f, s) && Enabled(s, a) && Managed(p) && !Touches(a, p)
    ensures
      || Get(Apply(f, s, a).files, p) == Get(s.files, p)
      || (&& a.Advance? && s.calls[a.t].at.Rename? && s.calls[a.t].path == p
          && TempOf(p) !in Apply(f, s, a).files
          && a.t in Apply(f, s, a).calls && Apply(f, s, a).calls[a.t].at == Release(s.calls[a.t].at.lock, true)
          && WriteFile(f, Get(s.files, p), s.calls[a.t].body) == (Get(Apply(f, s, a).files, p), true))
  {
    hide WriteFile, UniversalNewlines, FullContent, NotesOf, TempOf;
    if a.Advance? {
      assert CallOk(f, s, a.t);
      TempNamesDoNotCollide(s.calls[a.t].path, p);
    }
  }

  /** The other outcome: a thread that will return False has seen the sequential write change nothing. */
  lemma SkipIsSequentialNoOp(f: Format, s: State, t: Thread)
    requires Inv(f, s) && t in s.calls && s.calls[t].at.Compare?
    ensures AdvanceThread(f, s, t).calls[t].at.Release? <==>
      !WriteFile(f, Get(s.files, s.calls[t].path), s.calls[t].body).1
  {
    hide UniversalNewlines, FullContent, NotesOf, TempOf;
    assert CallOk(f, s, t);
  }

  // ----- runs

  ghost predicate IsRun(f: Format, s: State, run: seq<Action>)
    decreases |run|
  {
    run == [] || (Enabled(s, run[0]) && IsRun(f, Apply(f, s, run[0]), run[1..]))
  }

  function After(f: Format, s: State, run: seq<Action>): State
    requires IsRun(f, s, run)
    decreases |run|
  {
    if run == [] then s else After(f, Apply(f, s, run[0]), run[1..])
  }

  /** No call that writes `p`, under way or still to come, has a sentinel in its body. */
  ghost predicate CleanBodies(f: Format, s: State, run: seq<Action>, p: Path) {
    && (forall t :: t in s.calls && s.calls[t].path == p ==> !Contains(s.calls[t].body, f.sentinel))
    && (forall k :: 0 <= k < |run| && run[k].Begin? && run[k].path == p ==> !Contains(run[k].body, f.sentinel))
  }

  lemma CleanBodiesStep(f: Format, s: State, run: seq<Action>, p: Path)
    requires IsRun(f, s, run) && run != [] && CleanBodies(f, s, run, p)
    ensures CleanBodies(f, Apply(f, s, run[0]), run[1..], p)
  {
    hide Apply, Contains;
    var s' := Apply(f, s, run[0]);
    forall t | t in s'.calls && s'.calls[t].path == p ensures !Contains(s'.calls[t].body, f.sentinel) {
      CallsComeFromBegin(f, s, run[0], t);
    }
  }

  /** Whatever the threads do, in whatever order, failing wherever they like: between two of
      the user's own edits of a file, the notes in it never change. */
  lemma {:induction false} NotesSurviveEveryRun(f: Format, s: State, run: seq<Action>, p: Path)
    requires f.Valid() && Inv(f, s) && IsRun(f, s, run) && CleanBodies(f, s, run, p) && Managed(p)
    requires forall k :: 0 <= k < |run| ==> !Touches(run[k], p)
    ensures VisibleNotes(f, Get(After(f, s, run).files, p)) == VisibleNotes(f, Get(s.files, p))
    decreases |run|
  {
    if run != [] {
      var s' := Apply(f, s, run[0]);
      hide WriteFile, VisibleNotes, TempOf, Contains, Managed, AdvanceThread, Inv;
      StepInv(f, s, run[0]);
      StepIsAtomicWrite(f, s, run[0], p);
      if Get(s'.files, p) != Get(s.files, p) {
        NotesPreservedIff(f, Get(s.files, p), s.calls[run[0].t].body);
      }
      CleanBodiesStep(f, s, run, p);
      NotesSurviveEveryRun(f, s', run[1..], p);
    }
  }

  /** The section of a managed file, character by character. */
  ghost predicate HoldsSection(f: Format, files: map<Path, string>, p: Path, section: string) {
    p in files && Contains(files[p], f.sentinel) && Section(f, files[p]) == section
  }

  /** The promise itself, over every run: a section without carriage returns that begins with
      exactly one line break stays as it is, character by character. */
  lemma {:induction false} SectionSurvivesEveryRun(f: Format, s: State, run: seq<Action>, p: Path, section: string)
    requires f.Valid() && Inv(f, s) && IsRun(f, s, run) && CleanBodies(f, s, run, p) && Managed(p)
    requires forall k :: 0 <= k < |run| ==> !Touches(run[k], p)
    requires HoldsSection(f, s.files, p, section) && Portable(section)
    ensures HoldsSection(f, After(f, s, run).files, p, section)
    decreases |run|
  {
    if run != [] {
      var s' := Apply(f, s, run[0]);
      hide WriteFile, TempOf, Contains, Section, Portable, Managed, AdvanceThread, Inv;
      StepInv(f, s, run[0]);
      StepIsAtomicWrite(f, s, run[0], p);
      if Get(s'.files, p) != Get(s.files, p) {
        SectionKeptIff(f, s.files[p]);
        assert KeepsSection(f, s.files[p], s.calls[run[0].t].body);
      }
      CleanBodiesStep(f, s, run, p);
      SectionSurvivesEveryRun(f, s', run[1..], p, section);
    }
  }

  // ----- where calls come from

  ghost predicate CallsKept(s: State, s': State) {
    forall t :: t in s'.calls ==>
      t in s.calls && s'.calls[t].path == s.calls[t].path && s'.calls[t].body == s.calls[t].body
  }

  lemma AdvanceKeepsCalls(f: Format, s: State, t: Thread)
    requires Enabled(s, Advance(t))
    ensures CallsKept(s, if s.calls[t].at.Critical() then AdvanceRewrite(f, s, t) else AdvanceLookup(s, t))
  {
    if s.calls[t].at.Critical() {
      RewriteCalls(f, s, t);
    }
    hide AdvanceRewrite;
  }

  lemma CallsComeFromBegin(f: Format, s: State, a: Action, t: Thread)
    requires Enabled(s, a) && t in Apply(f, s, a).calls
    ensures var c := Apply(f, s, a).calls[t];
      if t in s.calls then c.path == s.calls[t].path && c.body == s.calls[t].body else a == Begin(t, c.path, c.body)
  {
    hide TempOf, Managed, AdvanceRewrite, AdvanceLookup;
    if a.Advance? {
      AdvanceKeepsCalls(f, s, a.t);
    }
  }

  // ----- every run is a sequence of whole operations

  /** One operation on one file: an edit of the user's, or one whole `write` by a thread. */
  datatype Operation = Edit(text: string) | Delete | Write(t: Thread, body: string, changed: bool)

  /** The operation a step completes on a path, if any: the user's edits at once, a `write` with
      its rename or with the comparison that finds nothing to do. */
  function OperationOf(f: Format, s: State, a: Action, p: Path): Option<Operation>
    requires Enabled(s, a)
  {
    match a
    case UserEdit(path, text) => if path == p then Some(Edit(text)) else None
    case UserDelete(path) => if path == p then Some(Delete) else None
    case Advance(t) =>
      var c, next := s.calls[t], AdvanceThread(f, s, t);
      if c.path == p && !c.at.Release? && t in next.calls && next.calls[t].at.Release?
      then Some(Write(t, c.body, next.calls[t].at.changed)) else None
    case _ => None
  }

  /** The operations on a path, in the order in which a run completes them. */
  function History(f: Format, s: State, run: seq<Action>, p: Path): seq<Operation>
    requires IsRun(f, s, run)
    decreases |run|
  {
    if run == [] then []
    else
      var first := OperationOf(f, s, run[0], p);
      (if first.Some? then [first.value] else []) + History(f, Apply(f, s, run[0]), run[1..], p)
  }

  /** The file after one operation carried out alone, from the file before it. */
  function Perform(f: Format, file: Option<string>, op: Operation): Option<string> {
    match op
    case Edit(text) => Some(text)
    case Delete => None
    case Write(_, body, _) => WriteFile(f, file, body).0
  }

  /** The operations carried out one after the other on a single thread. */
  function Replay(f: Format, file: Option<string>, ops: seq<Operation>): Option<string>
    decreases |ops|
  {
    if ops == [] then file else Replay(f, Perform(f, file, ops[0]), ops[1..])
  }

  /** Every `write` among the operations returned what it returns when carried out alone. */
  ghost predicate ReturnsAgree(f: Format, file: Option<string>, ops: seq<Operation>)
    decreases |ops|
  {
    ops != [] ==>
      && (ops[0].Write? ==> ops[0].changed == WriteFile(f, file, ops[0].body).1)
      && ReturnsAgree(f, Perform(f, file, ops[0]), ops[1..])
  }

  lemma UserStep(f: Format, s: State, a: Action, p: Path)
    requires Enabled(s, a) && Touches(a, p)
    ensures OperationOf(f, s, a, p).Some?
    ensures Get(Apply(f, s, a).files, p) == Perform(f, Get(s.files, p), OperationOf(f, s, a, p).value)
    ensures !OperationOf(f, s, a, p).value.Write?
  {
    hide WriteFile;
  }

  /** A step into the last lines of `write` comes from the rename or from the comparison. */
  lemma CompletingStep(f: Format, s: State, t: Thread)
    requires Enabled(s, Advance(t)) && !s.calls[t].at.Release?
    ensures var next := AdvanceThread(f, s, t);
      t in next.calls && next.calls[t].at.Release? ==>
        && (s.calls[t].at.Rename? || s.calls[t].at.Compare?)
        && (next.calls[t].at.changed <==> s.calls[t].at.Rename?)
        && (s.calls[t].at.Compare? ==> next.files == s.files)
  {
    hide UniversalNewlines, FullContent, NotesOf, TempOf;
  }

  lemma WriteStep(f: Format, s: State, a: Action, p: Path)
    requires Inv(f, s) && Enabled(s, a) && Managed(p) && OperationOf(f, s, a, p).Some? && !Touches(a, p)
    ensures var op := OperationOf(f, s, a, p).value;
      && op.Write? && op.t in s.calls && s.calls[op.t].path == p && s.calls[op.t].body == op.body
      && WriteFile(f, Get(s.files, p), op.body) == (Get(Apply(f, s, a).files, p), op.changed)
  {
    hide WriteFile, AdvanceThread, Inv, Managed;
    var c := s.calls[a.t];
    CompletingStep(f, s, a.t);
    if c.at.Compare? {
      SkipIsSequentialNoOp(f, s, a.t);
      UnchangedMeansSame(f, Get(s.files, p), c.body);
    } else {
      RenameWrites(f, s, a.t);
    }
  }

  lemma UnchangedMeansSame(f: Format, file: Option<string>, body: string)
    ensures !WriteFile(f, file, body).1 ==> WriteFile(f, file, body).0 == file
  {
  }

  lemma RenameWrites(f: Format, s: State, t: Thread)
    requires Inv(f, s) && t in s.calls && s.calls[t].at.Rename?
    ensures var p := s.calls[t].path;
      WriteFile(f, Get(s.files, p), s.calls[t].body) == (Get(AdvanceThread(f, s, t).files, p), true)
  {
    hide WriteFile, UniversalNewlines, FullContent, NotesOf, TempOf;
    assert CallOk(f, s, t);
  }

  /** A step that completes no operation on a path leaves its file alone. */
  lemma SilentStep(f: Format, s: State, a: Action, p: Path)
    requires Inv(f, s) && Enabled(s, a) && Managed(p) && OperationOf(f, s, a, p).None?
    ensures Get(Apply(f, s, a).files, p) == Get(s.files, p)
  {
    hide WriteFile, AdvanceThread, Inv, Managed;
    StepIsAtomicWrite(f, s, a, p);
  }

  /** One step is one operation carried out alone, or nothing. */
  lemma StepIsOneOperation(f: Format, s: State, a: Action, p: Path)
    requires Inv(f, s) && Enabled(s, a) && Managed(p)
    ensures var op, before, after := OperationOf(f, s, a, p), Get(s.files, p), Get(Apply(f, s, a).files, p);
      && after == (if op.Some? then Perform(f, before, op.value) else before)
      && (op.Some? && op.value.Write? ==> op.value.changed == WriteFile(f, before, op.value.body).1)
  {
    hide WriteFile, Apply, OperationOf, Inv, Managed;
    if Touches(a, p) {
      UserStep(f, s, a, p);
    } else if OperationOf(f, s, a, p).Some? {
      WriteStep(f, s, a, p);
    } else {
      SilentStep(f, s, a, p);
    }
  }

  /** Linearisation: whatever the threads and the user do at the same time, what a path holds at
      the end, and what every `write` of it returned, is as if the same operations had been
      carried out one after the other, each at the moment it completed. */
  lemma {:induction false} RunIsSequential(f: Format, s: State, run: seq<Action>, p: Path)
    requires Inv(f, s) && IsRun(f, s, run) && Managed(p)
    ensures Get(After(f, s, run).files, p) == Replay(f, Get(s.files, p), History(f, s, run, p))
    ensures ReturnsAgree(f, Get(s.files, p), History(f, s, run, p))
    decreases |run|
  {
    if run != [] {
      hide Inv, Apply, Managed, Perform, WriteFile, OperationOf;
      StepInv(f, s, run[0]);
      StepIsOneOperation(f, s, run[0], p);
      RunIsSequential(f, Apply(f, s, run[0]), run[1..], p);
      var first, rest := OperationOf(f, s, run[0], p), History(f, Apply(f, s, run[0]), run[1..], p);
      if first.Some? {
        assert ([first.value] + rest)[1..] == rest;
      } else {
        assert [] + rest == rest;
      }
    }
  }

  function ByThread(ops: seq<Operation>, t: Thread): seq<Operation> {
    if ops == [] then []
    else (if ops[0].Write? && ops[0].t == t then [ops[0]] else []) + ByThread(ops[1..], t)
  }

  /** The thread stays inside the same call through the whole run. */
  ghost predicate StaysInCall(f: Format, s: State, run: seq<Action>, t: Thread)
    requires IsRun(f, s, run)
    decreases |run|
  {
    t in s.calls && (run == [] || StaysInCall(f, Apply(f, s, run[0]), run[1..], t))
  }

  lemma StepOfAnother(f: Format, s: State, a: Action, t: Thread)
    requires Enabled(s, a) && t in s.calls && t in Apply(f, s, a).calls && a != Advance(t)
    ensures Apply(f, s, a).calls[t] == s.calls[t]
    ensures forall p :: var op := OperationOf(f, s, a, p); op.Some? && op.value.Write? ==> op.value.t != t
  {
    hide AdvanceRewrite, AdvanceLookup;
    if a.Advance? {
      StepKeepsOthers(f, s, a.t);
    }
  }

  lemma StepKeepsOthers(f: Format, s: State, t: Thread)
    requires Enabled(s, Advance(t))
    ensures var next := AdvanceThread(f, s, t);
      forall u :: u in s.calls && u != t ==> u in next.calls && next.calls[u] == s.calls[u]
  {
    if s.calls[t].at.Critical() {
      RewriteCalls(f, s, t);
    }
    hide AdvanceRewrite;
  }

  /** What a thread inside a call has completed so far: nothing until it reaches the end of
      `write`, and then exactly one operation, with the value the call is about to return. */
  lemma {:induction false} OneOperationPerCall(f: Format, s: State, run: seq<Action>, t: Thread)
    requires IsRun(f, s, run) && StaysInCall(f, s, run, t)
    ensures t in After(f, s, run).calls
    ensures var c, d := s.calls[t], After(f, s, run).calls[t];
      && d.path == c.path && d.body == c.body
      && ByThread(History(f, s, run, c.path), t)
        == (if d.at.Release? && !c.at.Release? then [Write(t, c.body, d.at.changed)] else [])
      && (c.at.Release? ==> d.at == c.at)
    decreases |run|
  {
    if run != [] {
      var a, s' := run[0], Apply(f, s, run[0]);
      var p := s.calls[t].path;
      assert StaysInCall(f, s', run[1..], t) && t in s'.calls;
      OneOperationPerCall(f, s', run[1..], t);
      StepOfCall(f, s, a, t);
      hide OperationOf, Apply, StaysInCall;
      FirstByThread(OperationOf(f, s, a, p), History(f, s', run[1..], p), t);
    }
  }

  lemma FirstByThread(first: Option<Operation>, rest: seq<Operation>, t: Thread)
    ensures ByThread((if first.Some? then [first.value] else []) + rest, t)
      == (if first.Some? && first.value.Write? && first.value.t == t then [first.value] else []) + ByThread(rest, t)
  {
    if first.Some? {
      assert ([first.value] + rest)[1..] == rest;
    } else {
      assert [] + rest == rest;
    }
  }

  /** What one step means for a call that is under way before and after it. */
  lemma StepOfCall(f: Format, s: State, a: Action, t: Thread)
    requires Enabled(s, a) && t in s.calls && t in Apply(f, s, a).calls
    ensures var c, d, op := s.calls[t], Apply(f, s, a).calls[t], OperationOf(f, s, a, s.calls[t].path);
      && d.path == c.path && d.body == c.body
      && (c.at.Release? ==> d.at == c.at)
      && (if d.at.Release? && !c.at.Release? then op == Some(Write(t, c.body, d.at.changed))
          else op.Some? && op.value.Write? ==> op.value.t != t)
  {
    CallsComeFromBegin(f, s, a, t);
    if a == Advance(t) {
      assert s.calls[t].at.Release? ==> Apply(f, s, a) == Unwind(s, t);
      hide AdvanceThread;
    } else {
      StepOfAnother(f, s, a, t);
      hide OperationOf, Apply;
    }
  }

  /** The last operation on a path is by a call on that path: one under way at the start, or
      begun during the run. */
  ghost predicate CalledOn(s: State, run: seq<Action>, p: Path, body: string) {
    || (exists t :: t in s.calls && s.calls[t].path == p && s.calls[t].body == body)
    || (exists t :: Begin(t, p, body) in run)
  }

  lemma CalledOnBefore(f: Format, s: State, run: seq<Action>, n: nat, p: Path, body: string)
    requires run != [] && Enabled(s, run[0]) && n < |run|
    requires CalledOn(Apply(f, s, run[0]), run[1..][..n], p, body)
    ensures CalledOn(s, run[..n + 1], p, body)
  {
    var a, s' := run[0], Apply(f, s, run[0]);
    hide Apply;
    assert run[..n + 1] == [a] + run[1..][..n];
    if t :| t in s'.calls && s'.calls[t].path == p && s'.calls[t].body == body {
      CallsComeFromBegin(f, s, a, t);
    }
  }

  /** The step at position k of a run wrote `now` over `before`. */
  ghost predicate Wrote(
      f: Format, s: State, run: seq<Action>, k: nat, p: Path, before: Option<string>, now: Option<string>)
    requires k < |run|
  {
    || (run[k].UserEdit? && run[k].path == p && now == Some(run[k].text))
    || (run[k] == UserDelete(p) && now == None)
    || (exists body :: CalledOn(s, run[..k], p, body) && now == WriteFile(f, before, body).0)
  }

  lemma StepWrote(f: Format, s: State, run: seq<Action>, p: Path)
    requires Inv(f, s) && run != [] && Enabled(s, run[0]) && Managed(p)
    ensures var before, now := Get(s.files, p), Get(Apply(f, s, run[0]).files, p);
      now == before || Wrote(f, s, run, 0, p, before, now)
  {
    hide WriteFile, Inv, Managed, AdvanceThread;
    var a, now := run[0], Get(Apply(f, s, run[0]).files, p);
    StepIsOneOperation(f, s, a, p);
    if now != Get(s.files, p) && !Touches(a, p) {
      WriteStep(f, s, a, p);
      assert CalledOn(s, run[..0], p, s.calls[a.t].body);
    }
  }

  /** No reader sees a partial file: at the end of any run (hence at every moment of it) a path
      holds what it held at the start, or what one step made of what it held just before that
      step: the user's text, nothing after a deletion, or all of the text one sequential `write`
      makes of the earlier content, for the body of a call on that path. */
  lemma {:induction false} NoPartialFile(f: Format, s: State, run: seq<Action>, p: Path) returns (k: nat)
    requires Inv(f, s) && IsRun(f, s, run) && Managed(p)
    ensures k <= |run| && IsRun(f, s, run[..k])
    ensures var now := Get(After(f, s, run).files, p);
      if k == |run| then now == Get(s.files, p)
      else Wrote(f, s, run, k, p, Get(After(f, s, run[..k]).files, p), now)
    decreases |run|
  {
    if run == [] {
      k := 0;
    } else {
      var s' := Apply(f, s, run[0]);
      hide Apply, Inv, Managed, Wrote;
      StepInv(f, s, run[0]);
      var j := NoPartialFile(f, s', run[1..], p);
      if j < |run| - 1 {
        k := j + 1;
        assert run[..k][1..] == run[1..][..j];
        WroteBefore(f, s, run, j, p, Get(After(f, s', run[1..][..j]).files, p), Get(After(f, s, run).files, p));
      } else {
        StepWrote(f, s, run, p);
        if Get(s'.files, p) == Get(s.files, p) {
          k := |run|;
          assert run[..k] == run;
        } else {
          k := 0;
          assert run[..0] == [];
        }
      }
    }
  }

  lemma WroteBefore(f: Format, s: State, run: seq<Action>, j: nat, p: Path, before: Option<string>, now: Option<string>)
    requires run != [] && Enabled(s, run[0]) && j < |run| - 1
    requires Wrote(f, Apply(f, s, run[0]), run[1..], j, p, before, now)
    ensures Wrote(f, s, run, j + 1, p, before, now)
  {
    hide Apply, WriteFile, CalledOn;
    if body :| CalledOn(Apply(f, s, run[0]), run[1..][..j], p, body) && now == WriteFile(f, before, body).0 {
      CalledOnBefore(f, s, run, j, p, body);
    }
  }

  /** No deadlock: as long as some call is under way, some thread can take a step that gets it on. */
  lemma SomeThreadCanStep(f: Format, s: State) returns (t: Thread)
    requires Inv(f, s) && s.calls != map[]
    ensures Enabled(s, Advance(t))
    ensures Apply(f, s, Advance(t)) != s
  {
    assert s.calls.Keys != {};
    t :| t in s.calls;
    assert CallOk(f, s, t);
    if s.guard.Some? {
      t := s.guard.value;
    } else if s.calls[t].at.WantLock? && s.calls[t].at.lock in s.owner {
      t := s.owner[s.calls[t].at.lock];
    }
    assert CallOk(f, s, t);
    StepMoves(f, s, t);
  }

  lemma StepMoves(f: Format, s: State, t: Thread)
    requires Enabled(s, Advance(t)) && CallOk(f, s, t)
    ensures var next := AdvanceThread(f, s, t); t in next.calls ==> next.calls[t].at != s.calls[t].at
  {
    hide WriteFile, UniversalNewlines, FullContent, NotesOf, Managed, TempOf;
  }
}
