/** The write protocol as atomic file-system steps of any number of writers, the orphan sweep and
    process crashes, in any interleaving. */
module FileStore {
  import opened Options
  import opened Paths
  import Guards

  type Ino = nat

  // ----- The file system: names bound to inodes -----

  /** Directory entries and inode contents. An unlinked inode keeps its content for whoever has it open. */
  datatype Fs = Fs(dir: map<string, Ino>, data: map<Ino, string>, next: Ino) {

    function Content(path: string): Option<string> {
      if path in dir && dir[path] in data then Some(data[dir[path]]) else None
    }

    /** open(O_CREATE|O_TRUNC): an existing entry keeps its inode. */
    function OpenedIno(path: string): Ino {
      if path in dir then dir[path] else next
    }

    function OpenTrunc(path: string): Fs {
      if path in dir then this.(data := data[dir[path] := ""])
      else Fs(dir[path := next], data[next := ""], next + 1)
    }

    function Store(ino: Ino, content: string): Fs {
      this.(data := data[ino := content])
    }

    function Unlink(path: string): Fs {
      this.(dir := dir - {path})
    }

    /** rename(2): atomically replaces the target's entry. */
    function Rename(from: string, to: string): Fs
      requires from in dir
    {
      this.(dir := (dir - {from})[to := dir[from]])
    }

    /** Entries point at allocated inodes, and no other name shares the inode of a temp name. */
    ghost predicate WellFormed() {
      && (forall i :: i in data ==> i < next)
      && (forall p :: p in dir ==> dir[p] in data)
      && (forall p, q :: p in dir && q in dir && p != q && IsTemp(p) ==> dir[p] != dir[q])
    }
  }

  // ----- Writers, sweep, steps -----

  /** One invocation of WriteFile; chown says whether an owner or a group was configured. */
  datatype Call = Call(path: string, content: string, chown: bool)

  datatype Pc =
    | Named
    | Writing(ino: Ino, done: nat)
    | Written(ino: Ino)
    | Chowned(ino: Ino)
    | Discarding
    | Returned(ok: bool)

  datatype Writer = Writer(call: Call, temp: string, pc: Pc) {
    predicate Live() { !pc.Returned? }
    predicate Holds() { pc.Writing? || pc.Written? || pc.Chowned? }
  }

  /** calls records every WriteFile that passed its guards, over all process lifetimes. */
  datatype World = World(fs: Fs, writers: map<nat, Writer>, pending: set<string>, calls: set<Call>)

  /** Local is a step of one writer that leaves the disk alone: open(2) fails, the last byte is written,
      a write fails (the temp file stays behind), chown or rename succeeds or fails, removal fails. */
  datatype Action =
    | Begin(id: nat, call: Call, suffix: string)
    | Open(id: nat)
    | Append(id: nat, upTo: nat)
    | Local(id: nat, to: Pc)
    | Rename(id: nat)
    | Discard(id: nat)
    | SweepGlob(found: set<string>)
    | SweepRemove(file: string)
    | SweepSkip(file: string)
    | Crash
  {
    predicate OfWriter() { !SweepGlob? && !SweepRemove? && !SweepSkip? && !Crash? }
  }

  predicate CallAllowed(call: Call) {
    && |call.content| <= Guards.MAX_SECRET_SIZE
    && Guards.ValidatePath(call.path).PathOk?
    && !IsTemp(call.path)
  }

  predicate At(w: World, id: nat) {
    id in w.writers
  }

  predicate LocalAllowed(fs: Fs, writer: Writer, to: Pc) {
    match writer.pc
    case Named => to == Returned(false)
    case Writing(ino, done) => to == Returned(false) || (done == |writer.call.content| && to == Written(ino))
    case Written(ino) => to == Discarding || (writer.call.chown && writer.temp in fs.dir && to == Chowned(ino))
    case Chowned(_) => to == Discarding
    case Discarding => to == Returned(false)
    case Returned(_) => false
  }

  predicate ReadyToRename(writer: Writer) {
    writer.pc.Chowned? || (writer.pc.Written? && !writer.call.chown)
  }

  ghost predicate Enabled(w: World, a: Action) {
    match a
    case Begin(id, call, suffix) =>
      && (At(w, id) ==> !w.writers[id].Live())
      && CallAllowed(call) && '/' !in suffix
      && forall other :: At(w, other) && w.writers[other].Live() ==> w.writers[other].temp != TempName(call.path, suffix)
    case Open(id) => At(w, id) && w.writers[id].pc.Named?
    case Append(id, upTo) =>
      At(w, id) && w.writers[id].pc.Writing? && w.writers[id].pc.done <= upTo <= |w.writers[id].call.content|
    case Local(id, to) => At(w, id) && LocalAllowed(w.fs, w.writers[id], to)
    case Rename(id) => At(w, id) && ReadyToRename(w.writers[id]) && w.writers[id].temp in w.fs.dir
    case Discard(id) => At(w, id) && w.writers[id].pc.Discarding?
    case SweepGlob(found) => forall f :: f in found ==> f in w.fs.dir && IsTemp(f)
    case SweepRemove(file) => file in w.pending
    case SweepSkip(file) => file in w.pending
    case Crash => true
  }

  function Move(w: World, fs: Fs, id: nat, pc: Pc): World
    requires At(w, id)
  {
    w.(fs := fs, writers := w.writers[id := w.writers[id].(pc := pc)])
  }

  ghost function Apply(w: World, a: Action): World
    requires Enabled(w, a)
  {
    match a
    case Begin(id, call, suffix) =>
      w.(writers := w.writers[id := Writer(call, TempName(call.path, suffix), Named)], calls := w.calls + {call})
    case Open(id) =>
      var temp := w.writers[id].temp;
      Move(w, w.fs.OpenTrunc(temp), id, Writing(w.fs.OpenedIno(temp), 0))
    case Append(id, upTo) =>
      var ino := w.writers[id].pc.ino;
      Move(w, w.fs.Store(ino, w.writers[id].call.content[..upTo]), id, Writing(ino, upTo))
    case Local(id, to) => Move(w, w.fs, id, to)
    case Rename(id) => Move(w, w.fs.Rename(w.writers[id].temp, w.writers[id].call.path), id, Returned(true))
    case Discard(id) => Move(w, w.fs.Unlink(w.writers[id].temp), id, Returned(false))
    case SweepGlob(found) => w.(pending := w.pending + found)
    case SweepRemove(file) => w.(fs := w.fs.Unlink(file), pending := w.pending - {file})
    case SweepSkip(file) => w.(pending := w.pending - {file})
    case Crash => w.(writers := map[], pending := {})
  }

  // ----- Runs -----

  ghost predicate Run(w: World, steps: seq<Action>)
    decreases |steps|, 0
  {
    steps == [] ||
    (var before := steps[..|steps| - 1]; Run(w, before) && Enabled(Exec(w, before), steps[|steps| - 1]))
  }

  ghost function Exec(w: World, steps: seq<Action>): World
    requires Run(w, steps)
    decreases |steps|, 1
  {
    if steps == [] then w else Apply(Exec(w, steps[..|steps| - 1]), steps[|steps| - 1])
  }

  /** A process that has issued no write yet, on any disk: stale temp files included. */
  ghost predicate Initial(w: World) {
    w.fs.WellFormed() && w.writers == map[] && w.pending == {} && w.calls == {}
  }

  // ----- The invariant -----

  ghost predicate WriterOk(w: World, id: nat)
    requires At(w, id)
  {
    var writer := w.writers[id];
    && writer.call in w.calls
    && !IsTemp(writer.call.path) && IsTemp(writer.temp)
    && (writer.Holds() ==>
          && writer.pc.ino in w.fs.data
          && (writer.temp in w.fs.dir ==> w.fs.dir[writer.temp] == writer.pc.ino)
          && (forall p :: p in w.fs.dir && p != writer.temp ==> w.fs.dir[p] != writer.pc.ino))
    && (writer.pc.Writing? ==>
          writer.pc.done <= |writer.call.content| && w.fs.data[writer.pc.ino] == writer.call.content[..writer.pc.done])
    && (writer.pc.Written? || writer.pc.Chowned? ==> w.fs.data[writer.pc.ino] == writer.call.content)
  }

  /** Live writers use different temp names, and hold different inodes. */
  ghost predicate Apart(w: World) {
    forall a, b :: At(w, a) && At(w, b) && a != b && w.writers[a].Live() && w.writers[b].Live() ==>
      && w.writers[a].temp != w.writers[b].temp
      && (w.writers[a].Holds() && w.writers[b].Holds() ==> w.writers[a].pc.ino != w.writers[b].pc.ino)
  }

  ghost predicate Whole(original: Fs, w: World, path: string) {
    || w.fs.Content(path) == original.Content(path)
    || exists call :: call in w.calls && call.path == path && w.fs.Content(path) == Some(call.content)
  }

  ghost predicate Inv(original: Fs, w: World) {
    && w.fs.WellFormed()
    && (forall id :: At(w, id) ==> WriterOk(w, id))
    && Apart(w)
    && (forall f :: f in w.pending ==> IsTemp(f))
    && (forall path :: !IsTemp(path) ==> Whole(original, w, path))
  }

  /** The step renames the temp file of a write onto the path. */
  ghost predicate RenamesOnto(w: World, a: Action, path: string)
    requires Enabled(w, a)
  {
    a.Rename? && w.writers[a.id].call.path == path
  }

  /** What a successful rename publishes is the whole content of its call, owned as asked. */
  lemma RenamePublishes(original: Fs, w: World, id: nat)
    requires Inv(original, w) && Enabled(w, Rename(id))
    ensures w.writers[id].call in w.calls && (w.writers[id].call.chown ==> w.writers[id].pc.Chowned?)
    ensures Apply(w, Rename(id)).fs.Content(w.writers[id].call.path) == Some(w.writers[id].call.content)
  {
    assert WriterOk(w, id);
  }

  lemma OtherStepsSpare(original: Fs, w: World, a: Action, path: string)
    requires Inv(original, w) && Enabled(w, a) && !IsTemp(path) && !RenamesOnto(w, a, path)
    ensures Apply(w, a).fs.Content(path) == w.fs.Content(path)
  {
    hide IsTemp;
    if a.Append? || a.Open? || a.Rename? || a.Discard? { assert WriterOk(w, a.id); }
  }

  lemma StepKeepsWhole(original: Fs, w: World, a: Action)
    requires Inv(original, w) && Enabled(w, a)
    ensures forall path :: !IsTemp(path) ==> Whole(original, Apply(w, a), path)
  {
    hide IsTemp;
    var w' := Apply(w, a);
    assert w.calls <= w'.calls;
    forall path | !IsTemp(path) ensures Whole(original, w', path) {
      assert Whole(original, w, path);
      if RenamesOnto(w, a, path) {
        RenamePublishes(original, w, a.id);
      } else {
        OtherStepsSpare(original, w, a, path);
      }
    }
  }

  lemma OpenKeepsWellFormed(fs: Fs, temp: string)
    requires fs.WellFormed() && IsTemp(temp)
    ensures fs.OpenTrunc(temp).WellFormed()
  {
  }

  lemma StepKeepsWellFormed(original: Fs, w: World, a: Action)
    requires Inv(original, w) && Enabled(w, a)
    ensures Apply(w, a).fs.WellFormed()
  {
    match a
    case Open(id) => OpenKeepsWellFormed(w.fs, w.writers[id].temp); assert WriterOk(w, id);
    case Append(id, _) => assert WriterOk(w, id);
    case Rename(id) => assert WriterOk(w, id);
    case _ =>
  }

  /** A step disturbs no other writer: the inode and the entry a writer depends on stay as they were. */
  lemma StepKeepsOthers(original: Fs, w: World, a: Action, id: nat)
    requires Inv(original, w) && Enabled(w, a) && At(w, id)
    requires a.OfWriter() ==> a.id != id
    requires At(Apply(w, a), id)
    ensures WriterOk(Apply(w, a), id)
  {
    hide IsTemp;
    assert WriterOk(w, id);
    if a.Open? || a.Append? || a.Rename? || a.Discard? { assert WriterOk(w, a.id); }
  }

  lemma StepKeepsSelf(original: Fs, w: World, a: Action)
    requires Inv(original, w) && Enabled(w, a)
    requires a.OfWriter()
    ensures WriterOk(Apply(w, a), a.id)
  {
    if a.Begin? {
      TempNameIsSwept(a.call.path, a.suffix);
    } else {
      assert WriterOk(w, a.id);
    }
  }

  lemma MoveKeepsApart(w: World, fs: Fs, id: nat, pc: Pc)
    requires Apart(w) && At(w, id) && w.writers[id].Live()
    requires var to := Writer(w.writers[id].call, w.writers[id].temp, pc);
      to.Holds() ==>
        || (w.writers[id].Holds() && w.writers[id].pc.ino == pc.ino)
        || forall b :: At(w, b) && b != id && w.writers[b].Holds() ==> w.writers[b].pc.ino != pc.ino
    ensures Apart(Move(w, fs, id, pc))
  {
  }

  lemma OpenedInoIsFree(original: Fs, w: World, id: nat)
    requires Inv(original, w) && At(w, id) && w.writers[id].pc.Named?
    ensures forall b :: At(w, b) && b != id && w.writers[b].Holds() ==>
      w.writers[b].pc.ino != w.fs.OpenedIno(w.writers[id].temp)
  {
  }

  lemma BeginKeepsApart(w: World, a: Action)
    requires Apart(w) && Enabled(w, a) && a.Begin?
    ensures Apart(Apply(w, a))
  {
  }

  lemma OpenKeepsApart(original: Fs, w: World, id: nat)
    requires Inv(original, w) && Enabled(w, Open(id))
    ensures Apart(Apply(w, Open(id)))
  {
    OpenedInoIsFree(original, w, id);
    MoveKeepsApart(w, w.fs.OpenTrunc(w.writers[id].temp), id, Writing(w.fs.OpenedIno(w.writers[id].temp), 0));
  }

  lemma HeldStepKeepsApart(w: World, a: Action)
    requires Apart(w) && Enabled(w, a) && (a.Append? || a.Local?)
    ensures Apart(Apply(w, a))
  {
    MoveKeepsApart(w, Apply(w, a).fs, a.id, Apply(w, a).writers[a.id].pc);
  }

  lemma LastStepKeepsApart(w: World, a: Action)
    requires Apart(w) && Enabled(w, a) && (a.Rename? || a.Discard?)
    ensures Apart(Apply(w, a))
  {
    MoveKeepsApart(w, Apply(w, a).fs, a.id, Apply(w, a).writers[a.id].pc);
  }

  lemma StepKeepsApart(original: Fs, w: World, a: Action)
    requires Inv(original, w) && Enabled(w, a)
    ensures Apart(Apply(w, a))
  {
    hide Enabled, Apply, Apart;
    match a
    case Begin(_, _, _) => BeginKeepsApart(w, a);
    case Open(id) => OpenKeepsApart(original, w, id);
    case Append(_, _) => HeldStepKeepsApart(w, a);
    case Local(_, _) => HeldStepKeepsApart(w, a);
    case Rename(_) => LastStepKeepsApart(w, a);
    case Discard(_) => LastStepKeepsApart(w, a);
    case _ => SweepKeepsApart(w, a);
  }

  lemma SweepKeepsApart(w: World, a: Action)
    requires Apart(w) && Enabled(w, a) && !a.OfWriter()
    ensures Apart(Apply(w, a))
  {
  }

  lemma StepKeepsWriters(original: Fs, w: World, a: Action)
    requires Inv(original, w) && Enabled(w, a)
    ensures forall id :: At(Apply(w, a), id) ==> WriterOk(Apply(w, a), id)
  {
    var w' := Apply(w, a);
    forall id | At(w', id) ensures WriterOk(w', id) {
      if a.OfWriter() && a.id == id {
        StepKeepsSelf(original, w, a);
      } else {
        assert At(w, id);
        StepKeepsOthers(original, w, a, id);
      }
    }
  }

  lemma StepKeepsInv(original: Fs, w: World, a: Action)
    requires Inv(original, w) && Enabled(w, a)
    ensures Inv(original, Apply(w, a))
  {
    StepKeepsWellFormed(original, w, a);
    StepKeepsWriters(original, w, a);
    StepKeepsApart(original, w, a);
    StepKeepsWhole(original, w, a);
  }

  lemma {:induction false} RunKeepsInv(original: Fs, w: World, steps: seq<Action>)
    requires Inv(original, w) && Run(w, steps)
    ensures Inv(original, Exec(w, steps))
    decreases |steps|
  {
    if steps != [] {
      var before := steps[..|steps| - 1];
      RunKeepsInv(original, w, before);
      StepKeepsInv(original, Exec(w, before), steps[|steps| - 1]);
    }
  }

  /** The content of the write that was last renamed onto the path, or what the path held at first. */
  ghost function LastRenamed(w: World, steps: seq<Action>, path: string): Option<string>
    requires Run(w, steps)
    decreases |steps|
  {
    if steps == [] then w.fs.Content(path)
    else
      var before, last := steps[..|steps| - 1], steps[|steps| - 1];
      if RenamesOnto(Exec(w, before), last, path) then Some(Exec(w, before).writers[last.id].call.content)
      else LastRenamed(w, before, path)
  }

  lemma {:induction false} TargetIsLastRenamed(original: Fs, w: World, steps: seq<Action>, path: string)
    requires Inv(original, w) && Run(w, steps) && !IsTemp(path)
    ensures Exec(w, steps).fs.Content(path) == LastRenamed(w, steps, path)
    decreases |steps|
  {
    hide IsTemp, Apply, Enabled, Inv;
    if steps != [] {
      var before, last := steps[..|steps| - 1], steps[|steps| - 1];
      TargetIsLastRenamed(original, w, before, path);
      RunKeepsInv(original, w, before);
      if RenamesOnto(Exec(w, before), last, path) {
        RenamePublishes(original, Exec(w, before), last.id);
      } else {
        OtherStepsSpare(original, Exec(w, before), last, path);
      }
    }
  }

  /** In every interleaving, with crashes anywhere, a target holds the content of the WriteFile last renamed onto it, or
      what it held at first if there was none; so never a part, never a failed write, and never an earlier state again. */
  lemma TargetsAreNeverTorn(w: World, steps: seq<Action>, path: string)
    requires Initial(w) && Run(w, steps) && !IsTemp(path)
    ensures Exec(w, steps).fs.Content(path) == LastRenamed(w, steps, path)
    ensures Whole(w.fs, Exec(w, steps), path)
  {
    RunKeepsInv(w.fs, w, steps);
    TargetIsLastRenamed(w.fs, w, steps, path);
  }

  // ----- The sweep beside active writers -----

  predicate Takes(a: Action, file: string) {
    a.Begin? && TempName(a.call.path, a.suffix) == file
  }

  /** No writer uses the name. */
  ghost predicate Unused(w: World, file: string) {
    forall id :: At(w, id) ==> w.writers[id].temp != file
  }

  lemma StepKeepsUnused(w: World, a: Action, file: string)
    requires Enabled(w, a) && Unused(w, file) && !Takes(a, file)
    ensures Unused(Apply(w, a), file)
  {
  }

  lemma {:induction false} RunKeepsUnused(w: World, steps: seq<Action>, file: string)
    requires Run(w, steps) && Unused(w, file) && forall a :: a in steps ==> !Takes(a, file)
    ensures Unused(Exec(w, steps), file)
    decreases |steps|
  {
    hide Apply, Enabled, Unused, Takes;
    if steps != [] {
      RunKeepsUnused(w, steps[..|steps| - 1], file);
      StepKeepsUnused(Exec(w, steps[..|steps| - 1]), steps[|steps| - 1], file);
    }
  }

  /** The sweep has found the file, or it is gone. */
  ghost predicate Caught(w: World, file: string) {
    file in w.fs.dir ==> file in w.pending
  }

  lemma StepKeepsCaught(original: Fs, w: World, a: Action, file: string)
    requires Inv(original, w) && Enabled(w, a) && IsTemp(file) && Unused(w, file) && Caught(w, file)
    requires !a.Crash? && a != SweepSkip(file)
    ensures Caught(Apply(w, a), file)
  {
    hide IsTemp;
    if a.OfWriter() && !a.Begin? { assert WriterOk(w, a.id); }
  }

  /** Step g globs with the file still there, and so finds it. */
  ghost predicate FindsAt(w: World, steps: seq<Action>, g: int, file: string) {
    && 0 <= g < |steps| && steps[g].SweepGlob? && Run(w, steps[..g])
    && (file in Exec(w, steps[..g]).fs.dir ==> file in steps[g].found)
  }

  /** A found file stays found until it is removed, whatever the writers do meanwhile. */
  lemma {:induction false} FoundStaysCaught(original: Fs, w: World, steps: seq<Action>, g: nat, file: string)
    requires Inv(original, w) && Run(w, steps) && IsTemp(file) && Unused(w, file) && FindsAt(w, steps, g, file)
    requires forall a :: a in steps ==> !a.Crash? && !Takes(a, file) && a != SweepSkip(file)
    ensures Caught(Exec(w, steps), file)
    decreases |steps|
  {
    hide Enabled, Inv, IsTemp, Takes, Unused;
    var before, last := steps[..|steps| - 1], steps[|steps| - 1];
    if g < |before| {
      hide Apply, Caught;
      assert before[..g] == steps[..g] && forall a :: a in before ==> a in steps;
      FoundStaysCaught(original, w, before, g, file);
      RunKeepsInv(original, w, before);
      RunKeepsUnused(w, before, file);
      StepKeepsCaught(original, Exec(w, before), last, file);
    } else {
      assert before == steps[..g];
    }
  }

  // ----- Readers: a published inode is never written again -----

  ghost predicate Published(w: World, ino: Ino) {
    && ino in w.fs.data
    && (forall id :: At(w, id) && w.writers[id].Holds() ==> w.writers[id].pc.ino != ino)
    && (forall p :: p in w.fs.dir && IsTemp(p) ==> w.fs.dir[p] != ino)
  }

  lemma StepKeepsPublished(original: Fs, w: World, a: Action, ino: Ino)
    requires Inv(original, w) && Enabled(w, a) && Published(w, ino)
    ensures Published(Apply(w, a), ino) && Apply(w, a).fs.data[ino] == w.fs.data[ino]
  {
    if a.OfWriter() && !a.Begin? { assert WriterOk(w, a.id); }
  }

  lemma {:induction false} RunKeepsPublished(original: Fs, w: World, steps: seq<Action>, ino: Ino)
    requires Inv(original, w) && Run(w, steps) && Published(w, ino)
    ensures Published(Exec(w, steps), ino) && Exec(w, steps).fs.data[ino] == w.fs.data[ino]
    decreases |steps|
  {
    if steps != [] {
      var before := steps[..|steps| - 1];
      RunKeepsPublished(original, w, before, ino);
      RunKeepsInv(original, w, before);
      StepKeepsPublished(original, Exec(w, before), steps[|steps| - 1], ino);
    }
  }

  /** A reader that opened a target keeps seeing the same bytes, whatever is written, swept or crashes later. */
  lemma OpenTargetIsFrozen(w: World, earlier: seq<Action>, later: seq<Action>, path: string)
    requires Initial(w) && Run(w, earlier) && Run(Exec(w, earlier), later)
    requires !IsTemp(path) && path in Exec(w, earlier).fs.dir
    ensures var seen := Exec(w, earlier);
      var ino := seen.fs.dir[path];
      var after := Exec(seen, later).fs.data;
      ino in seen.fs.data && ino in after && after[ino] == seen.fs.data[ino]
  {
    var seen := Exec(w, earlier);
    RunKeepsInv(w.fs, w, earlier);
    forall id | At(seen, id) && seen.writers[id].Holds() ensures seen.writers[id].pc.ino != seen.fs.dir[path] {
      assert WriterOk(seen, id);
    }
    RunKeepsPublished(w.fs, seen, later, seen.fs.dir[path]);
  }

  // ----- A sweep that catches a live temp file makes that write fail -----

  ghost predicate Doomed(w: World, id: nat) {
    && At(w, id)
    && var writer := w.writers[id];
       (writer.Holds() && writer.temp !in w.fs.dir) || writer.pc.Discarding? || writer.pc == Returned(false)
  }

  lemma StepKeepsDoomed(original: Fs, w: World, a: Action, id: nat)
    requires Inv(original, w) && Enabled(w, a) && Doomed(w, id)
    requires !a.Crash? && !(a.Begin? && a.id == id)
    ensures Doomed(Apply(w, a), id)
  {
    assert WriterOk(w, id);
    if a.Rename? { assert WriterOk(w, a.id); }
  }

  /** Once its temp file is gone, a write can no longer report success. */
  lemma {:induction false} SweptWriteFails(original: Fs, w: World, steps: seq<Action>, id: nat)
    requires Inv(original, w) && Run(w, steps)
    requires At(w, id) && w.writers[id].Holds() && w.writers[id].temp !in w.fs.dir
    requires forall a :: a in steps ==> !a.Crash? && !(a.Begin? && a.id == id)
    ensures Doomed(Exec(w, steps), id) && Exec(w, steps).writers[id].pc != Returned(true)
    decreases |steps|
  {
    if steps != [] {
      var before := steps[..|steps| - 1];
      SweptWriteFails(original, w, before, id);
      RunKeepsInv(original, w, before);
      StepKeepsDoomed(original, Exec(w, before), steps[|steps| - 1], id);
    }
  }
}
