/** WriteFile and the orphan sweep as the statements one goroutine executes. Every effect on the disk is
    one of the steps of FileStore, so the theorems about interleavings apply to this code. */
module Disk {
  import opened Options
  import opened Paths
  import opened FileStore
  import Guards

  datatype FileConfig = FileConfig(path: string, mode: nat, owner: int, group: int) {
    predicate Chowns() { owner >= 0 || group >= 0 }
  }

  /** What the operating system answers during one WriteFile; written is where a failing write stops. */
  datatype WriteEnv = WriteEnv(kind: Guards.FileKind, dirOk: bool, suffix: string, openOk: bool,
                               written: nat, writeOk: bool, chownOk: bool, renameOk: bool, removeOk: bool)

  predicate PassesGuards(config: FileConfig, content: string, kind: Guards.FileKind) {
    && |content| <= Guards.MAX_SECRET_SIZE
    && Guards.ValidatePath(config.path).PathOk?
    && Guards.FileTypeAllowed(kind)
  }

  /** The write gets as far as creating its temp file. */
  predicate Creates(config: FileConfig, content: string, env: WriteEnv) {
    PassesGuards(config, content, env.kind) && env.dirOk && env.openOk
  }

  predicate Succeeds(config: FileConfig, content: string, env: WriteEnv) {
    Creates(config, content, env) && env.writeOk && (config.Chowns() ==> env.chownOk) && env.renameOk
  }

  /** When a write succeeds, in one condition on its inputs and on the answers of the system: an existing regular file
      or directory is no obstacle, anything else but an absent target is. */
  lemma WriteSucceedsIff(config: FileConfig, content: string, env: WriteEnv)
    ensures Succeeds(config, content, env) <==>
      && |content| <= 1048576
      && 0 < |config.path| <= 4096 && config.path[0] == '/'
      && (forall i :: 0 <= i < |config.path| - 1 ==> !(config.path[i] == '.' && config.path[i + 1] == '.'))
      && env.kind in {Guards.Absent, Guards.Regular, Guards.Directory}
      && env.dirOk && env.openOk && env.writeOk && env.renameOk
      && (config.owner >= 0 || config.group >= 0 ==> env.chownOk)
  {
    Guards.PathOkIff(config.path);
  }

  /** What reaches the temp file: everything, or the part before a failing write stopped. */
  function Filled(content: string, env: WriteEnv): string {
    if env.writeOk || env.written >= |content| then content else content[..env.written]
  }

  /** The disk after one WriteFile: a short write leaves the temp file, a failed chown or rename discards it. */
  ghost function AfterWrite(fs: Fs, config: FileConfig, content: string, env: WriteEnv): Fs
  {
    if !Creates(config, content, env) then fs
    else
      var temp := TempName(config.path, env.suffix);
      var emptied := fs.OpenTrunc(temp);
      var filled := emptied.Store(fs.OpenedIno(temp), Filled(content, env));
      if Succeeds(config, content, env) then filled.Rename(temp, config.path)
      else if env.writeOk && env.removeOk then filled.Unlink(temp)
      else filled
  }

  lemma FillTouchesOnlyTemp(fs: Fs, temp: string, content: string)
    requires fs.WellFormed() && IsTemp(temp)
    ensures var filled := fs.OpenTrunc(temp).Store(fs.OpenedIno(temp), content);
      && filled.WellFormed() && temp in filled.dir && filled.Content(temp) == Some(content)
      && forall p :: p != temp ==> filled.Content(p) == fs.Content(p)
  {
    OpenKeepsWellFormed(fs, temp);
  }

  lemma RenameMovesContent(fs: Fs, temp: string, path: string)
    requires fs.WellFormed() && IsTemp(temp) && temp in fs.dir && temp != path
    ensures var renamed := fs.Rename(temp, path);
      && renamed.WellFormed() && temp !in renamed.dir && renamed.Content(path) == fs.Content(temp)
      && forall p :: p != temp && p != path ==> renamed.Content(p) == fs.Content(p)
  {
    var renamed := fs.Rename(temp, path);
    forall p, q | p in renamed.dir && q in renamed.dir && p != q && IsTemp(p)
      ensures renamed.dir[p] != renamed.dir[q]
    {
      var p', q' := if p == path then temp else p, if q == path then temp else q;
      assert p' != q' && IsTemp(p') && renamed.dir[p] == fs.dir[p'] && renamed.dir[q] == fs.dir[q'];
    }
  }

  /** Only the target changes, and only on success. A temp file is left behind exactly when the write into it
      failed, or a failed chown or rename could not be cleaned up; it then holds what was written before the failure. */
  lemma WriteIsAllOrNothing(fs: Fs, config: FileConfig, content: string, env: WriteEnv)
    requires fs.WellFormed() && '/' !in env.suffix
    ensures var fs' := AfterWrite(fs, config, content, env);
      var temp := TempName(config.path, env.suffix);
      && fs'.WellFormed()
      && (Succeeds(config, content, env) ==> fs'.Content(config.path) == Some(content))
      && (forall p :: p != temp && (p == config.path ==> !Succeeds(config, content, env)) ==>
            fs'.Content(p) == fs.Content(p))
      && (temp in fs'.dir <==>
            if Creates(config, content, env) then !env.writeOk || (!Succeeds(config, content, env) && !env.removeOk)
            else temp in fs.dir)
      && (temp in fs'.dir && Creates(config, content, env) ==>
            fs'.Content(temp) == Some(if env.writeOk || env.written >= |content| then content else content[..env.written]))
  {
    if !Creates(config, content, env) { return; }
    var temp := TempName(config.path, env.suffix);
    TempNameIsSwept(config.path, env.suffix);
    assert |temp| > |config.path|;
    var filling := Filled(content, env);
    FillTouchesOnlyTemp(fs, temp, filling);
    if Succeeds(config, content, env) {
      RenameMovesContent(fs.OpenTrunc(temp).Store(fs.OpenedIno(temp), filling), temp, config.path);
    }
  }

  /** What the other targets and the target itself see of a write. */
  lemma WriteAsTargetsSeeIt(fs: Fs, config: FileConfig, content: string, env: WriteEnv)
    requires fs.WellFormed() && '/' !in env.suffix
    ensures var fs' := AfterWrite(fs, config, content, env);
      var ok := Succeeds(config, content, env);
      && fs'.WellFormed() && (ok ==> fs'.Content(config.path) == Some(content))
      && forall p :: !IsTemp(p) && (ok ==> p != config.path) ==> fs'.Content(p) == fs.Content(p)
  {
    WriteIsAllOrNothing(fs, config, content, env);
    TempNameIsSwept(config.path, env.suffix);
  }

  // ----- The same write as a run of FileStore -----

  ghost predicate Explains(from: Fs, steps: seq<Action>, to: World) {
    Run(World(from, map[], {}, {}), steps) && Exec(World(from, map[], {}, {}), steps) == to
  }

  lemma Extend(from: Fs, steps: seq<Action>, w: World, a: Action)
    requires Explains(from, steps, w) && Enabled(w, a)
    ensures Explains(from, steps + [a], Apply(w, a))
  {
  }

  /** A world with one writer and nothing else. */
  ghost function Lone(fs: Fs, call: Call, suffix: string, pc: Pc): World {
    World(fs, map[0 := Writer(call, TempName(call.path, suffix), pc)], {}, {call})
  }

  lemma ExtendLone(from: Fs, steps: seq<Action>, fs: Fs, call: Call, suffix: string, pc: Pc, a: Action, fs': Fs, pc': Pc)
    requires Explains(from, steps, Lone(fs, call, suffix, pc)) && a.OfWriter() && !a.Begin? && a.id == 0
    requires Enabled(Lone(fs, call, suffix, pc), a)
    requires Apply(Lone(fs, call, suffix, pc), a) == Move(Lone(fs, call, suffix, pc), fs', 0, pc')
    ensures Explains(from, steps + [a], Lone(fs', call, suffix, pc'))
  {
  }

  lemma ExplainFill(fs: Fs, call: Call, suffix: string, upTo: nat) returns (steps: seq<Action>)
    requires CallAllowed(call) && '/' !in suffix && upTo <= |call.content|
    ensures var temp := TempName(call.path, suffix);
      var ino := fs.OpenedIno(temp);
      Explains(fs, steps, Lone(fs.OpenTrunc(temp).Store(ino, call.content[..upTo]), call, suffix, Writing(ino, upTo)))
  {
    var temp := TempName(call.path, suffix);
    var ino := fs.OpenedIno(temp);
    var empty := World(fs, map[], {}, {});
    assert Explains(fs, [], empty);
    Extend(fs, [], empty, Begin(0, call, suffix));
    assert Apply(empty, Begin(0, call, suffix)) == Lone(fs, call, suffix, Named);
    steps := [] + [Begin(0, call, suffix)];
    ExtendLone(fs, steps, fs, call, suffix, Named, Open(0), fs.OpenTrunc(temp), Writing(ino, 0));
    steps := steps + [Open(0)];
    var filled := fs.OpenTrunc(temp).Store(ino, call.content[..upTo]);
    ExtendLone(fs, steps, fs.OpenTrunc(temp), call, suffix, Writing(ino, 0), Append(0, upTo), filled, Writing(ino, upTo));
    steps := steps + [Append(0, upTo)];
  }

  /** Every write of an accepted target is a run of the interleaving model, so its theorems cover WriteFile. */
  lemma WriteIsARun(fs: Fs, config: FileConfig, content: string, env: WriteEnv) returns (steps: seq<Action>, w: World)
    requires '/' !in env.suffix && !IsTemp(config.path)
    ensures Explains(fs, steps, w) && w.fs == AfterWrite(fs, config, content, env)
  {
    steps, w := [], World(fs, map[], {}, {});
    if !Creates(config, content, env) { return; }
    var call := Call(config.path, content, config.Chowns());
    var temp := TempName(config.path, env.suffix);
    var ino := fs.OpenedIno(temp);
    var upTo := |Filled(content, env)|;
    steps := ExplainFill(fs, call, env.suffix, upTo);
    assert content[..|content|] == content;
    var filled := fs.OpenTrunc(temp).Store(ino, content[..upTo]);
    w := Lone(filled, call, env.suffix, Writing(ino, upTo));
    if !env.writeOk { return; }
    ExtendLone(fs, steps, filled, call, env.suffix, Writing(ino, upTo), Local(0, Written(ino)), filled, Written(ino));
    steps := steps + [Local(0, Written(ino))];
    steps, w := ExplainPublish(fs, steps, filled, call, env, ino);
  }

  lemma ExplainPublish(from: Fs, earlier: seq<Action>, fs: Fs, call: Call, env: WriteEnv, ino: Ino)
    returns (steps: seq<Action>, w: World)
    requires Explains(from, earlier, Lone(fs, call, env.suffix, Written(ino)))
    requires TempName(call.path, env.suffix) in fs.dir
    ensures Explains(from, steps, w)
    ensures var temp := TempName(call.path, env.suffix);
      w.fs ==
        if (call.chown ==> env.chownOk) && env.renameOk then fs.Rename(temp, call.path)
        else if env.removeOk then fs.Unlink(temp)
        else fs
  {
    var temp := TempName(call.path, env.suffix);
    steps := earlier;
    var pc := Written(ino);
    if call.chown && env.chownOk {
      ExtendLone(from, steps, fs, call, env.suffix, pc, Local(0, Chowned(ino)), fs, Chowned(ino));
      steps, pc := steps + [Local(0, Chowned(ino))], Chowned(ino);
    }
    if (call.chown ==> env.chownOk) && env.renameOk {
      ExtendLone(from, steps, fs, call, env.suffix, pc, Rename(0), fs.Rename(temp, call.path), Returned(true));
      steps := steps + [Rename(0)];
      w := Lone(fs.Rename(temp, call.path), call, env.suffix, Returned(true));
    } else {
      ExtendLone(from, steps, fs, call, env.suffix, pc, Local(0, Discarding), fs, Discarding);
      steps := steps + [Local(0, Discarding)];
      var last := if env.removeOk then Discard(0) else Local(0, Returned(false));
      var left := if env.removeOk then fs.Unlink(temp) else fs;
      ExtendLone(from, steps, fs, call, env.suffix, Discarding, last, left, Returned(false));
      steps, w := steps + [last], Lone(left, call, env.suffix, Returned(false));
    }
  }

  const LETTERS := "abcdefghijklmnopqrstuvwxyz0123456789"

  /** The random part of a temp name, from random bytes or, when there are none, from the process id. */
  method RandomString(n: nat, random: Option<seq<char>>, pid: nat) returns (s: string)
    requires random.Some? ==> |random.value| == n && forall c :: c in random.value ==> c as int < 256
    ensures '/' !in s
    ensures random.Some? ==> |s| == n && forall i :: 0 <= i < n ==> s[i] == LETTERS[random.value[i] as int % 36]
    ensures random.None? ==> s == Guards.Numeral(pid, 10)
  {
    if random.None? {
      return Guards.Numeral(pid, 10);
    }
    var b := new char[n](i requires 0 <= i < n => random.value[i]);
    for i := 0 to n
      invariant forall k :: 0 <= k < i ==> b[k] == LETTERS[random.value[k] as int % 36]
      invariant forall k :: i <= k < n ==> b[k] == random.value[k]
    {
      b[i] := LETTERS[b[i] as int % 36];
    }
    s := b[..];
    assert forall k :: 0 <= k < n ==> s[k] in LETTERS;
  }

  class Store {
    var fs: Fs

    constructor (fs: Fs)
      ensures this.fs == fs
    {
      this.fs := fs;
    }

    /** Writes through a temp file. */
    method WriteFile(config: FileConfig, content: string, env: WriteEnv) returns (ok: bool)
        modifies this
      ensures fs == AfterWrite(old(fs), config, content, env)
      ensures ok <==> Succeeds(config, content, env)
    {
      if |content| > Guards.MAX_SECRET_SIZE || !Guards.ValidatePath(config.path).PathOk? {
        return false;
      }
      if !Guards.FileTypeAllowed(env.kind) || !env.dirOk {
        return false;
      }
      var temp := TempName(config.path, env.suffix);
      if !env.openOk {
        return false;
      }
      var ino := fs.OpenedIno(temp);
      fs := fs.OpenTrunc(temp);
      if !env.writeOk {
        fs := fs.Store(ino, Filled(content, env));
        return false;
      }
      fs := fs.Store(ino, content);
      if config.Chowns() && !env.chownOk {
        if env.removeOk { fs := fs.Unlink(temp); }
        return false;
      }
      if !env.renameOk {
        if env.removeOk { fs := fs.Unlink(temp); }
        return false;
      }
      fs := fs.Rename(temp, config.path);
      ok := true;
    }

    method RemoveFiles(files: set<string>, stuck: set<string>) returns (count: nat)
      modifies this
      ensures fs == Without(old(fs), files - stuck)
      ensures count == |files - stuck|
    {
      var rest := files;
      ghost var removed: set<string> := {};
      count := 0;
      while rest != {}
        invariant rest <= files && forall f :: f in removed <==> f in files && f !in rest && f !in stuck
        invariant fs == Without(old(fs), removed)
        invariant count == |removed|
      {
        var f :| f in rest;
        rest := rest - {f};
        if f !in stuck {
          UnlinkMore(old(fs), removed, f);
          fs := fs.Unlink(f);
          count := count + 1;
          removed := removed + {f};
        }
      }
      assert removed == files - stuck;
    }

    /** One directory: glob for the temp pattern, remove each match. The pattern is joined to the directory, which
        cleans it. */
    method SweepDirectory(dir: string, absent: set<string>, stuck: set<string>) returns (count: nat)
      requires dir in absent ==> forall f :: f in fs.dir ==> Dir(f) != Clean(dir)
      modifies this
      ensures fs == Without(old(fs), Orphans(old(fs), [dir], stuck))
      ensures count == |Orphans(old(fs), [dir], stuck)|
    {
      if dir == "" || dir in absent {
        NoOrphansIn(fs, dir, stuck);
        assert fs == Without(fs, {});
        return 0;
      }
      var matches := set f | f in fs.dir && Dir(f) == Clean(dir) && IsTemp(f);
      OneDirectory(dir);
      assert matches - stuck == Orphans(fs, [dir], stuck);
      count := RemoveFiles(matches, stuck);
    }

    /** Removes what matches the temp pattern in each listed directory; stuck files cannot be removed. */
    method CleanupOrphanedTempFiles(dirs: seq<string>, absent: set<string>, stuck: set<string>) returns (cleaned: nat)
      requires forall d :: d in dirs && d in absent ==> forall f :: f in fs.dir ==> Dir(f) != Clean(d)
      modifies this
      ensures fs == Swept(old(fs), dirs, stuck)
      ensures cleaned == |Orphans(old(fs), dirs, stuck)|
    {
      cleaned := 0;
      ghost var removed: set<string> := {};
      for k := 0 to |dirs|
        invariant removed == Orphans(old(fs), dirs[..k], stuck) && cleaned == |removed|
        invariant fs == Without(old(fs), removed)
      {
        assert fs.dir.Keys <= old(fs).dir.Keys;
        ghost var more := Orphans(fs, [dirs[k]], stuck);
        OrphansOfMore(old(fs), dirs, k, stuck);
        var count := SweepDirectory(dirs[k], absent, stuck);
        WithoutMore(old(fs), removed, more);
        cleaned, removed := cleaned + count, removed + more;
      }
      assert dirs[..|dirs|] == dirs;
    }
  }

  // ----- Recovery -----

  /** Some listed directory is the file's; the empty name is skipped. */
  ghost predicate Covers(dirs: seq<string>, f: string) {
    exists d :: d in dirs && d != "" && Dir(f) == Clean(d)
  }

  ghost function Orphans(fs: Fs, dirs: seq<string>, stuck: set<string>): set<string> {
    set f | f in fs.dir && Covers(dirs, f) && IsTemp(f) && f !in stuck
  }

  ghost function Swept(fs: Fs, dirs: seq<string>, stuck: set<string>): Fs {
    Without(fs, Orphans(fs, dirs, stuck))
  }

  ghost function Without(fs: Fs, gone: set<string>): Fs {
    fs.(dir := fs.dir - gone)
  }

  lemma UnlinkMore(fs: Fs, removed: set<string>, f: string)
    ensures Without(fs, removed).Unlink(f) == Without(fs, removed + {f})
  {
  }

  lemma WithoutMore(fs: Fs, removed: set<string>, more: set<string>)
    ensures Without(Without(fs, removed), more) == Without(fs, removed + more)
  {
  }

  lemma OrphansOfMore(fs: Fs, dirs: seq<string>, k: nat, stuck: set<string>)
    requires k < |dirs|
    ensures var first := Orphans(fs, dirs[..k], stuck);
      var more := Orphans(Without(fs, first), [dirs[k]], stuck);
      first !! more && Orphans(fs, dirs[..k + 1], stuck) == first + more
  {
    hide Dir, Clean, IsTemp;
    forall f ensures Covers(dirs[..k + 1], f) <==> Covers(dirs[..k], f) || Covers([dirs[k]], f) {
      assert dirs[..k + 1] == dirs[..k] + [dirs[k]];
      assert dirs[k] in [dirs[k]];
    }
  }

  lemma OneDirectory(dir: string)
    ensures forall f :: Covers([dir], f) <==> dir != "" && Dir(f) == Clean(dir)
  {
    assert dir in [dir];
  }

  lemma NoOrphansIn(fs: Fs, dir: string, stuck: set<string>)
    requires dir == "" || forall f :: f in fs.dir ==> Dir(f) != Clean(dir)
    ensures Orphans(fs, [dir], stuck) == {}
  {
    OneDirectory(dir);
  }

  ghost predicate ParentsOf(dirs: seq<string>, paths: seq<string>) {
    forall d :: d in dirs <==> exists p :: p in paths && p != "" && Dir(p) == d
  }

  /** Each parent directory of a non-empty path exactly once, in any order. */
  method GetOutputDirectories(paths: seq<string>) returns (dirs: seq<string>)
    ensures ParentsOf(dirs, paths)
    ensures forall i, j :: 0 <= i < j < |dirs| ==> dirs[i] != dirs[j]
  {
    var dirMap: set<string> := {};
    for i := 0 to |paths|
      invariant forall d :: d in dirMap <==> exists p :: p in paths[..i] && p != "" && Dir(p) == d
    {
      ghost var seen := paths[..i];
      assert paths[..i + 1] == seen + [paths[i]];
      if paths[i] != "" {
        dirMap := dirMap + {Dir(paths[i])};
      }
    }
    assert paths[..|paths|] == paths;
    dirs := [];
    var rest := dirMap;
    while rest != {}
      invariant rest !! (set d | d in dirs) && rest + (set d | d in dirs) == dirMap
      invariant forall i, j :: 0 <= i < j < |dirs| ==> dirs[i] != dirs[j]
    {
      var d :| d in rest;
      dirs := dirs + [d];
      rest := rest - {d};
    }
    assert forall d :: d in dirs <==> d in dirMap by {
      forall d ensures d in dirs <==> d in dirMap {
        assert d in dirs <==> d in (set e | e in dirs);
      }
    }
  }

  /** A file survives the sweep exactly when it does not look like a temp file, lies elsewhere, or cannot be removed. */
  lemma SweepSparesExactly(fs: Fs, dirs: seq<string>, stuck: set<string>, path: string)
    requires fs.Content(path).Some?
    ensures Swept(fs, dirs, stuck).Content(path) in [None, fs.Content(path)]
    ensures Swept(fs, dirs, stuck).Content(path) == fs.Content(path) <==> !(IsTemp(path) && Covers(dirs, path) && path !in stuck)
  {
  }

  lemma ParentIsCovered(dirs: seq<string>, path: string, f: string)
    requires Dir(path) in dirs && Dir(f) == Dir(path)
    ensures Covers(dirs, f)
  {
    CleanIdempotent(path[..LastSlash(path) + 1]);
    assert Clean(Dir(path)) == Dir(path) && Dir(path) != "";
  }

  lemma {:induction false} RemovesRest(from: Fs, earlier: seq<Action>, w: World, stuck: set<string>)
    returns (steps: seq<Action>, end: World)
    requires Explains(from, earlier, w)
    ensures Explains(from, steps, end) && end == w.(fs := Without(w.fs, w.pending - stuck), pending := {})
    decreases |w.pending|
  {
    if w.pending == {} {
      steps, end := earlier, w;
      assert Without(w.fs, w.pending - stuck) == w.fs;
    } else {
      var f :| f in w.pending;
      var a := if f in stuck then SweepSkip(f) else SweepRemove(f);
      Extend(from, earlier, w, a);
      var next := Apply(w, a);
      steps, end := RemovesRest(from, earlier + [a], next, stuck);
      if f in stuck {
        assert w.pending - {f} - stuck == w.pending - stuck;
      } else {
        UnlinkMore(w.fs, {}, f);
        assert Without(w.fs, {}) == w.fs && {} + {f} == {f};
        WithoutMore(w.fs, {f}, w.pending - {f} - stuck);
        assert {f} + (w.pending - {f} - stuck) == w.pending - stuck;
      }
    }
  }

  /** The sweep as code is a run of the interleaving model: it globs, then removes or skips each match. */
  lemma SweepIsARun(fs: Fs, dirs: seq<string>, stuck: set<string>) returns (steps: seq<Action>, w: World)
    ensures Explains(fs, steps, w) && w.fs == Swept(fs, dirs, stuck) && w.pending == {}
  {
    hide Covers, IsTemp;
    var empty := World(fs, map[], {}, {});
    assert Explains(fs, [], empty);
    var found := set f | f in fs.dir && Covers(dirs, f) && IsTemp(f);
    Extend(fs, [], empty, SweepGlob(found));
    var globbed := Apply(empty, SweepGlob(found));
    steps, w := RemovesRest(fs, [] + [SweepGlob(found)], globbed, stuck);
    assert globbed.pending == found;
    assert found - stuck == Orphans(fs, dirs, stuck);
  }

  /** Step g globs the directory. */
  ghost predicate GlobsAt(w: World, steps: seq<Action>, g: int, dir: string) {
    && 0 <= g < |steps| && steps[g].SweepGlob? && Run(w, steps[..g])
    && forall f :: f in Exec(w, steps[..g]).fs.dir && IsTemp(f) && Dir(f) == Clean(dir) ==> f in steps[g].found
  }

  /** No writer takes the name, and its removal does not fail. */
  ghost predicate Untouched(steps: seq<Action>, file: string) {
    forall a :: a in steps ==> !Takes(a, file) && a != SweepSkip(file)
  }

  /** Crash anywhere in any run and start again: writers are active while the parents of the configured paths are
      swept. Once the sweep is done with it, no temp file of a configured path is left, unless it could not be removed or
      its name was taken again, and every target is whole: as the crash left it until a new write is renamed onto it. */
  lemma CrashThenSweep(w: World, before: seq<Action>, after: seq<Action>, paths: seq<string>, dirs: seq<string>,
                       path: string, suffix: string)
    requires Initial(w) && Run(w, before) && Run(Apply(Exec(w, before), Crash), after)
    requires forall a :: a in after ==> !a.Crash?
    requires ParentsOf(dirs, paths) && '/' !in suffix
    requires forall d :: d in dirs ==> exists g :: GlobsAt(Apply(Exec(w, before), Crash), after, g, d)
    ensures var crashed := Apply(Exec(w, before), Crash);
      var end := Exec(crashed, after);
      var temp := TempName(path, suffix);
      && (path in paths && path != "" && temp !in end.pending && Untouched(after, temp) ==> temp !in end.fs.dir)
      && (!IsTemp(path) ==> end.fs.Content(path) == LastRenamed(crashed, after, path) && Whole(w.fs, end, path))
  {
    hide Dir, Clean, IsTemp, Takes, TempName, Run, Exec, Inv, Initial;
    var crashed := Apply(Exec(w, before), Crash);
    var temp := TempName(path, suffix);
    CrashKeepsInv(w, before);
    if path in paths && path != "" && Untouched(after, temp) {
      ParentIsListed(dirs, paths, path, suffix);
      var g :| GlobsAt(crashed, after, g, Dir(path));
      assert FindsAt(crashed, after, g, temp);
      FoundStaysCaught(w.fs, crashed, after, g, temp);
    }
    if !IsTemp(path) {
      TargetIsLastRenamed(w.fs, crashed, after, path);
      RunKeepsInv(w.fs, crashed, after);
      InvMeansWhole(w.fs, Exec(crashed, after), path);
    }
  }

  lemma InvMeansWhole(original: Fs, w: World, path: string)
    requires Inv(original, w) && !IsTemp(path)
    ensures Whole(original, w, path)
  {
  }

  lemma CrashKeepsInv(w: World, before: seq<Action>)
    requires Initial(w) && Run(w, before)
    ensures var crashed := Apply(Exec(w, before), Crash);
      Inv(w.fs, crashed) && crashed.writers == map[]
  {
    RunKeepsInv(w.fs, w, before);
    StepKeepsInv(w.fs, Exec(w, before), Crash);
  }

  lemma ParentIsListed(dirs: seq<string>, paths: seq<string>, path: string, suffix: string)
    requires ParentsOf(dirs, paths) && '/' !in suffix && path in paths && path != ""
    ensures var temp := TempName(path, suffix);
      Dir(path) in dirs && IsTemp(temp) && Dir(temp) == Clean(Dir(path))
  {
    TempNameIsSwept(path, suffix);
    CleanIdempotent(path[..LastSlash(path) + 1]);
  }
}
