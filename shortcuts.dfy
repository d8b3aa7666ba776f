/**
  The shortcut database of bin/index.js and what its actions do to it, as pure
  functions over the database value: resolving a name from a working directory
  (the run action), adding a shortcut, and removing one. The class in store.dfy
  performs the same steps in place and is proved against these functions.
 */
module Shortcuts {
  import opened Dict
  import opened Paths
  import opened Text

  type Name = string

  /**
    A stored shortcut: the list of commands the add action writes, or the bare
    single command string of older databases, which the listing still shows.
   */
  datatype Value = Commands(cmds: seq<string>) | Legacy(cmd: string)

  /** One scope's shortcuts: name to value. */
  type ShortcutSet = Entries<Name, Value>

  /** Directory path to that directory's own shortcuts. */
  type LocalShortcuts = Entries<Path, ShortcutSet>

  /** `db.data`: the global shortcuts and the per-directory local shortcuts. */
  datatype Database = Database(globalShortcuts: ShortcutSet, localShortcuts: LocalShortcuts)

  /** `defaultData`, what a missing database file starts as. */
  const EmptyDatabase := Database([], [])

  /** Every object in the document has distinct keys, as JSON objects read by JavaScript do. */
  ghost predicate WellFormed(db: Database) {
    DistinctKeys(db.globalShortcuts) && LocalsWellFormed(db.localShortcuts)
  }

  /** Distinct directory keys, and distinct names within each directory. */
  ghost predicate LocalsWellFormed(locals: LocalShortcuts) {
    DistinctKeys(locals) && forall i :: 0 <= i < |locals| ==> DistinctKeys(locals[i].1)
  }

  /** No directory entry is left without shortcuts (the state add and remove maintain). */
  ghost predicate NoEmptyDirectory(db: Database) {
    forall i :: 0 <= i < |db.localShortcuts| ==> |db.localShortcuts[i].1| > 0
  }

  /** `localShortcuts[dir] && localShortcuts[dir][name]`. */
  function LocalLookup(locals: LocalShortcuts, dir: Path, name: Name): Option<Value> {
    match Get(locals, dir)
    case Some(inDir) => Get(inDir, name)
    case None => None
  }

  // ---------------------------------------------------------------------------
  // Resolution (the run action)
  // ---------------------------------------------------------------------------

  /**
    The upward walk of the run action: while `dir` is not its own dirname, a
    directory whose local set has `name` ends the walk with that directory and
    value; otherwise the walk moves on to the parent.
   */
  function WalkLocal(locals: LocalShortcuts, name: Name, dir: Path): (r: Option<(Path, Value)>)
    ensures r.Some? ==> OnWalk(r.value.0, dir) && LocalLookup(locals, r.value.0, name) == Some(r.value.1)
    decreases |dir|
  {
    if dir == Dirname(dir) then None
    else match LocalLookup(locals, dir, name)
      case Some(v) => Some((dir, v))
      case None => WalkLocal(locals, name, Dirname(dir))
  }

  /** The walk from `cwd` visits exactly the directories `OnWalk(_, cwd)`, nearest first. */
  lemma {:induction false} WalkOnParent(dir: Path, cwd: Path)
    requires cwd != []
    ensures OnWalk(dir, Dirname(cwd)) <==> OnWalk(dir, cwd) && dir != cwd
  {
    var parent := Dirname(cwd);
    assert parent == cwd[..|cwd| - 1];
    if OnWalk(dir, cwd) && dir != cwd {
      assert |dir| < |cwd|;
      assert dir == parent[..|dir|];
    }
  }

  /**
    Nearest local wins: a hit is on the walk from `cwd`, holds the name, and no
    directory nearer to `cwd` holds it; no hit means no directory on the walk
    holds it. The root is not on the walk, so it is never consulted.
   */
  lemma {:induction false} WalkFindsNearest(locals: LocalShortcuts, name: Name, cwd: Path)
    ensures match WalkLocal(locals, name, cwd)
      case Some(hit) =>
        && OnWalk(hit.0, cwd)
        && LocalLookup(locals, hit.0, name) == Some(hit.1)
        && forall d :: OnWalk(d, cwd) && |hit.0| < |d| ==> LocalLookup(locals, d, name).None?
      case None =>
        forall d :: OnWalk(d, cwd) ==> LocalLookup(locals, d, name).None?
    decreases |cwd|
  {
    if cwd != [] {
      var parent := Dirname(cwd);
      WalkFindsNearest(locals, name, parent);
      assert OnWalk(cwd, cwd) by { assert cwd[..|cwd|] == cwd; }
      forall d ensures OnWalk(d, parent) <==> OnWalk(d, cwd) && d != cwd {
        WalkOnParent(d, cwd);
      }
    }
  }

  /** The same statement as an equivalence: the walk returns `(dir, v)` exactly when `dir` is the nearest holder. */
  lemma NearestLocalWins(locals: LocalShortcuts, name: Name, cwd: Path, dir: Path, v: Value)
    ensures WalkLocal(locals, name, cwd) == Some((dir, v)) <==>
              && OnWalk(dir, cwd)
              && LocalLookup(locals, dir, name) == Some(v)
              && forall d :: OnWalk(d, cwd) && |dir| < |d| ==> LocalLookup(locals, d, name).None?
  {
    WalkFindsNearest(locals, name, cwd);
    if && OnWalk(dir, cwd)
       && LocalLookup(locals, dir, name) == Some(v)
       && forall d :: OnWalk(d, cwd) && |dir| < |d| ==> LocalLookup(locals, d, name).None?
    {
      match WalkLocal(locals, name, cwd)
      case Some(hit) =>
        assert |hit.0| == |dir|;
      case None =>
    }
  }

  /** The walk reads only the directories on it: databases that agree there resolve alike. */
  lemma {:induction false} WalkReadsOnlyItsDirectories(l1: LocalShortcuts, l2: LocalShortcuts, name: Name, cwd: Path)
    requires forall d :: OnWalk(d, cwd) ==> LocalLookup(l1, d, name) == LocalLookup(l2, d, name)
    ensures WalkLocal(l1, name, cwd) == WalkLocal(l2, name, cwd)
    decreases |cwd|
  {
    if cwd != [] {
      assert OnWalk(cwd, cwd) by { assert cwd[..|cwd|] == cwd; }
      var parent := Dirname(cwd);
      forall d | OnWalk(d, parent) ensures LocalLookup(l1, d, name) == LocalLookup(l2, d, name) {
        WalkOnParent(d, cwd);
      }
      WalkReadsOnlyItsDirectories(l1, l2, name, parent);
    }
  }

  /**
    Root never consulted: whatever the root directory's local set holds, the
    walk gives the same answer, and it never answers with the root.
   */
  lemma RootNeverConsulted(locals: LocalShortcuts, name: Name, cwd: Path, atRoot: ShortcutSet)
    ensures WalkLocal(Put(locals, [], atRoot), name, cwd) == WalkLocal(locals, name, cwd)
    ensures WalkLocal(locals, name, cwd).Some? ==> WalkLocal(locals, name, cwd).value.0 != []
  {
    PutGet(locals, [], atRoot);
    WalkReadsOnlyItsDirectories(Put(locals, [], atRoot), locals, name, cwd);
    WalkFindsNearest(locals, name, cwd);
  }

  /** What a name resolves to: the nearest local definition, else the global one, else nothing. */
  datatype Resolution = LocalHit(dir: Path, value: Value) | GlobalHit(value: Value) | Unresolved

  function Resolved(db: Database, name: Name, cwd: Path): (r: Resolution)
    ensures r.LocalHit? ==> OnWalk(r.dir, cwd) && LocalLookup(db.localShortcuts, r.dir, name) == Some(r.value)
    ensures r.GlobalHit? ==> Get(db.globalShortcuts, name) == Some(r.value)
    ensures r.Unresolved? ==> !Has(db.globalShortcuts, name)
  {
    match WalkLocal(db.localShortcuts, name, cwd)
    case Some(hit) => LocalHit(hit.0, hit.1)
    case None =>
      match Get(db.globalShortcuts, name)
      case Some(v) => GlobalHit(v)
      case None => Unresolved
  }

  /** No directory on the walk from `cwd` defines `name` locally. */
  ghost predicate NoLocalOnWalk(db: Database, name: Name, cwd: Path) {
    forall d :: OnWalk(d, cwd) ==> LocalLookup(db.localShortcuts, d, name).None?
  }

  /**
    Local before global: a local definition anywhere on the walk wins (the
    nearest one); the global definition is used exactly when there is none;
    with neither, the name is unresolved.
   */
  lemma ResolvedMeaning(db: Database, name: Name, cwd: Path)
    ensures Resolved(db, name, cwd).LocalHit? <==> !NoLocalOnWalk(db, name, cwd)
    ensures Resolved(db, name, cwd).LocalHit? ==>
              var r := Resolved(db, name, cwd);
              && OnWalk(r.dir, cwd)
              && LocalLookup(db.localShortcuts, r.dir, name) == Some(r.value)
              && forall d :: OnWalk(d, cwd) && |r.dir| < |d| ==> LocalLookup(db.localShortcuts, d, name).None?
    ensures Resolved(db, name, cwd).GlobalHit? <==> NoLocalOnWalk(db, name, cwd) && Has(db.globalShortcuts, name)
    ensures Resolved(db, name, cwd).GlobalHit? ==> Get(db.globalShortcuts, name) == Some(Resolved(db, name, cwd).value)
    ensures Resolved(db, name, cwd).Unresolved? <==> NoLocalOnWalk(db, name, cwd) && !Has(db.globalShortcuts, name)
  {
    WalkFindsNearest(db.localShortcuts, name, cwd);
  }

  /** What the run action ends in. */
  datatype RunOutcome =
    | Help                          // no shortcut argument: the help text
    | NotFound                      // `Shortcut "<name>" not found!`, nothing executed
    | Execute(commandLine: string)  // the line handed to the shell
    | JoinTypeError                 // `commands.join` on a legacy string value throws

  /** The separator that chains the commands: each runs only if the previous one succeeded. */
  const AndThen := " && "

  function Launch(v: Value): (r: RunOutcome)
    ensures r == JoinTypeError <==> v.Legacy?
    ensures r.Execute? <==> v.Commands?
    ensures v.Commands? && |v.cmds| == 1 ==> r == Execute(v.cmds[0])
  {
    match v
    case Commands(cmds) => Execute(Join(cmds, AndThen))
    case Legacy(_) => JoinTypeError
  }

  /** The run action on `name` from working directory `cwd`. */
  function RunShortcut(db: Database, name: Name, cwd: Path): (o: RunOutcome)
    ensures o == Help <==> name == ""
    ensures o == NotFound <==> name != "" && NoLocalOnWalk(db, name, cwd) && !Has(db.globalShortcuts, name)
    ensures o.Execute? ==> exists cmds :: o.commandLine == Join(cmds, AndThen) && Commands(cmds) in ResolvedValues(db, name, cwd)
    ensures forall cmds :: name != "" && Commands(cmds) in ResolvedValues(db, name, cwd) ==> o == Execute(Join(cmds, AndThen))
    ensures o == JoinTypeError <==> name != "" && exists s :: Legacy(s) in ResolvedValues(db, name, cwd)
  {
    ResolvedMeaning(db, name, cwd);
    if name == "" then Help
    else match Resolved(db, name, cwd)
      case Unresolved => NotFound
      case LocalHit(_, v) => Launch(v)
      case GlobalHit(v) => Launch(v)
  }

  /** The value a resolution picked, if any. */
  function ResolvedValues(db: Database, name: Name, cwd: Path): set<Value> {
    match Resolved(db, name, cwd)
    case Unresolved => {}
    case LocalHit(_, v) => {v}
    case GlobalHit(v) => {v}
  }

  // ---------------------------------------------------------------------------
  // Add
  // ---------------------------------------------------------------------------

  datatype Scope = Global | Local

  datatype AddOutcome = Added | GlobalExists | LocalExists

  /** `localShortcuts[dir]`, after the add action's `if (!localShortcuts[dir]) localShortcuts[dir] = {}`. */
  function DirSet(locals: LocalShortcuts, dir: Path): ShortcutSet {
    match Get(locals, dir)
    case Some(inDir) => inDir
    case None => []
  }

  /** The add action once its prompts are answered; `cmds` are the answers to the command prompts, in order. */
  function AddTo(db: Database, scope: Scope, cwd: Path, name: Name, cmds: seq<string>): (r: (Database, AddOutcome))
    ensures r.1 != Added ==> r.0 == db
    ensures scope == Global ==> r.1 != LocalExists && (r.1 == Added <==> !Has(db.globalShortcuts, name))
    ensures scope == Local ==> r.1 != GlobalExists && (r.1 == Added <==> !Has(DirSet(db.localShortcuts, cwd), name))
    ensures r.0.globalShortcuts == db.globalShortcuts || r.0.localShortcuts == db.localShortcuts
  {
    match scope
    case Global =>
      if Has(db.globalShortcuts, name) then (db, GlobalExists)
      else (db.(globalShortcuts := Put(db.globalShortcuts, name, Commands(cmds))), Added)
    case Local =>
      var inDir := DirSet(db.localShortcuts, cwd);
      if Has(inDir, name) then (db, LocalExists)
      else (db.(localShortcuts := Put(db.localShortcuts, cwd, Put(inDir, name, Commands(cmds)))), Added)
  }

  /**
    Global add: a name already in the global set is rejected and nothing
    changes; otherwise the name is added last with exactly the given commands,
    and nothing else changes.
   */
  lemma AddGlobalEffect(db: Database, cwd: Path, name: Name, cmds: seq<string>)
    requires WellFormed(db)
    ensures var (db', o) := AddTo(db, Global, cwd, name, cmds);
      && (o == GlobalExists <==> Has(db.globalShortcuts, name))
      && (o == GlobalExists ==> db' == db)
      && (o == GlobalExists || o == Added)
      && (o == Added ==>
            && db'.localShortcuts == db.localShortcuts
            && db'.globalShortcuts == db.globalShortcuts + [(name, Commands(cmds))]
            && Get(db'.globalShortcuts, name) == Some(Commands(cmds)))
      && WellFormed(db')
  {
    PutGet(db.globalShortcuts, name, Commands(cmds));
    PutShape(db.globalShortcuts, name, Commands(cmds));
  }

  /**
    Local add: the duplicate check is against the exact working directory only;
    a duplicate is rejected and nothing changes; otherwise exactly that
    directory gains the name with the given commands, and every other
    (directory, name) pair, every other directory entry and the global set are
    unchanged.
   */
  lemma AddLocalEffect(db: Database, cwd: Path, name: Name, cmds: seq<string>)
    requires WellFormed(db)
    ensures var (db', o) := AddTo(db, Local, cwd, name, cmds);
      && (o == LocalExists <==> LocalLookup(db.localShortcuts, cwd, name).Some?)
      && (o == LocalExists ==> db' == db)
      && (o == LocalExists || o == Added)
      && (o == Added ==>
            && db'.globalShortcuts == db.globalShortcuts
            && LocalLookup(db'.localShortcuts, cwd, name) == Some(Commands(cmds))
            && (forall d, n :: d != cwd || n != name ==>
                  LocalLookup(db'.localShortcuts, d, n) == LocalLookup(db.localShortcuts, d, n))
            && (forall d :: d != cwd ==> Get(db'.localShortcuts, d) == Get(db.localShortcuts, d)))
      && WellFormed(db')
  {
    var locals := db.localShortcuts;
    var inDir := DirSet(locals, cwd);
    assert DistinctKeys(inDir) by {
      match IndexOf(locals, cwd)
      case Some(i) => assert inDir == locals[i].1;
      case None =>
    }
    var inDir' := Put(inDir, name, Commands(cmds));
    PutGet(inDir, name, Commands(cmds));
    PutShape(inDir, name, Commands(cmds));
    PutGet(locals, cwd, inDir');
    PutShape(locals, cwd, inDir');
  }

  /** Add never leaves a directory entry without shortcuts. */
  lemma AddKeepsDirectoriesNonEmpty(db: Database, scope: Scope, cwd: Path, name: Name, cmds: seq<string>)
    requires NoEmptyDirectory(db)
    ensures NoEmptyDirectory(AddTo(db, scope, cwd, name, cmds).0)
  {
    var inDir := DirSet(db.localShortcuts, cwd);
    var inDir' := Put(inDir, name, Commands(cmds));
    PutShape(inDir, name, Commands(cmds));
    PutShape(db.localShortcuts, cwd, inDir');
  }

  // ---------------------------------------------------------------------------
  // Remove
  // ---------------------------------------------------------------------------

  /** The position, in iteration order, of the first directory whose set has `name`. */
  function FirstDirWith(locals: LocalShortcuts, name: Name): (r: Option<nat>)
    ensures r.Some? ==> r.value < |locals| && Has(locals[r.value].1, name)
    ensures r.Some? ==> forall j :: 0 <= j < r.value ==> !Has(locals[j].1, name)
    ensures r.None? <==> forall j :: 0 <= j < |locals| ==> !Has(locals[j].1, name)
  {
    if |locals| == 0 then None
    else if Has(locals[0].1, name) then Some(0)
    else match FirstDirWith(locals[1..], name)
      case Some(i) => Some(i + 1)
      case None => None
  }

  /**
    Local removal: delete `name` from the first directory in iteration order
    that has it, and delete that directory's entry if its set is now empty.
    Also gives the directory, or None when no directory has the name.
   */
  function RemoveLocalIn(locals: LocalShortcuts, name: Name): (r: (LocalShortcuts, Option<Path>))
    ensures r.1.None? <==> forall j :: 0 <= j < |locals| ==> !Has(locals[j].1, name)
    ensures r.1.None? ==> r.0 == locals
    ensures r.1.Some? ==> IsFirstHolder(locals, name, r.1.value)
    ensures |r.0| <= |locals|
  {
    match FirstDirWith(locals, name)
    case None => (locals, None)
    case Some(i) =>
      var dir := locals[i].0;
      var rest := Delete(locals[i].1, name);
      (if |rest| == 0 then Delete(locals, dir) else Put(locals, dir, rest), Some(dir))
  }

  datatype RemoveOutcome = Cancelled | RemovedLocal(dir: Path) | LocalNotFound | RemovedGlobal | GlobalNotFound

  /** The remove action once its prompts are answered. */
  function RemoveFrom(db: Database, scope: Scope, name: Name, confirm: bool): (r: (Database, RemoveOutcome))
    ensures r.1 == Cancelled <==> !confirm
    ensures r.1.RemovedLocal? || r.1 == RemovedGlobal || r.0 == db
  {
    if !confirm then (db, Cancelled)
    else match scope
      case Local =>
        var (locals, dir) := RemoveLocalIn(db.localShortcuts, name);
        if dir.None? then (db, LocalNotFound)
        else (db.(localShortcuts := locals), RemovedLocal(dir.value))
      case Global =>
        if !Has(db.globalShortcuts, name) then (db, GlobalNotFound)
        else (db.(globalShortcuts := Delete(db.globalShortcuts, name)), RemovedGlobal)
  }

  /** Directory `dir` is the first, in iteration order, whose set has `name`. */
  ghost predicate IsFirstHolder(locals: LocalShortcuts, name: Name, dir: Path) {
    exists i :: 0 <= i < |locals| && locals[i].0 == dir && Has(locals[i].1, name)
                && forall j :: 0 <= j < i ==> !Has(locals[j].1, name)
  }

  /** Local removal that finds no directory holding the name: no directory defines it. */
  lemma RemoveLocalInNotFound(locals: LocalShortcuts, name: Name)
    requires FirstDirWith(locals, name).None?
    ensures forall d :: LocalLookup(locals, d, name).None?
  {
    forall d ensures LocalLookup(locals, d, name).None? {
      match IndexOf(locals, d)
      case Some(i) =>
      case None =>
    }
  }

  /** Local removal from the first holder `locals[i]`: its effect on every lookup. */
  lemma RemoveLocalInFound(locals: LocalShortcuts, name: Name, i: nat)
    requires LocalsWellFormed(locals)
    requires FirstDirWith(locals, name) == Some(i)
    ensures var (locals', dir) := RemoveLocalIn(locals, name);
      && dir == Some(locals[i].0)
      && LocalLookup(locals', locals[i].0, name).None?
      && (forall d, n :: d != locals[i].0 || n != name ==> LocalLookup(locals', d, n) == LocalLookup(locals, d, n))
      && (Has(locals', locals[i].0) <==> |locals[i].1| > 1)
      && (forall d :: d != locals[i].0 ==> Get(locals', d) == Get(locals, d))
  {
    var (dir, inner) := locals[i];
    assert IndexOf(locals, dir) == Some(i);
    var rest := Delete(inner, name);
    DeleteGet(inner, name);
    DeleteShape(inner, name);
    var locals' := RemoveLocalIn(locals, name).0;
    if |rest| == 0 {
      DeleteGet(locals, dir);
      assert locals' == Delete(locals, dir);
      forall n ensures LocalLookup(locals', dir, n).None? && (n != name ==> LocalLookup(locals, dir, n).None?) {
        assert n != name ==> Get(inner, n) == Get(rest, n);
      }
    } else {
      PutGet(locals, dir, rest);
      assert locals' == Put(locals, dir, rest);
      forall n | n != name ensures LocalLookup(locals', dir, n) == LocalLookup(locals, dir, n) {
        assert Get(rest, n) == Get(inner, n);
      }
    }
  }

  /**
    Remove local: when no directory has the name, nothing changes; otherwise
    the name goes from the first directory in iteration order that has it and
    from no other, that directory's entry stays exactly when it still holds
    other shortcuts, and every other directory and the global set are unchanged.
   */
  lemma RemoveLocalEffect(db: Database, name: Name)
    requires WellFormed(db)
    ensures var (db', o) := RemoveFrom(db, Local, name, true);
      && db'.globalShortcuts == db.globalShortcuts
      && (o == LocalNotFound <==> forall d :: LocalLookup(db.localShortcuts, d, name).None?)
      && (o == LocalNotFound ==> db' == db)
      && (o.RemovedLocal? ==>
            && IsFirstHolder(db.localShortcuts, name, o.dir)
            && LocalLookup(db'.localShortcuts, o.dir, name).None?
            && (forall d, n :: d != o.dir || n != name ==>
                  LocalLookup(db'.localShortcuts, d, n) == LocalLookup(db.localShortcuts, d, n))
            && (Has(db'.localShortcuts, o.dir) <==> |DirSet(db.localShortcuts, o.dir)| > 1)
            && (forall d :: d != o.dir ==> Get(db'.localShortcuts, d) == Get(db.localShortcuts, d)))
      && (o == LocalNotFound || o.RemovedLocal?)
  {
    var locals := db.localShortcuts;
    match FirstDirWith(locals, name)
    case None =>
      RemoveLocalInNotFound(locals, name);
    case Some(i) =>
      RemoveLocalInFound(locals, name, i);
      var dir := locals[i].0;
      assert IndexOf(locals, dir) == Some(i);
      assert DirSet(locals, dir) == locals[i].1;
      assert LocalLookup(locals, dir, name).Some?;
      assert IsFirstHolder(locals, name, dir);
  }

  /** Remove keeps the document well formed and never leaves an empty directory entry behind. */
  lemma RemoveKeepsInvariants(db: Database, scope: Scope, name: Name, confirm: bool)
    requires WellFormed(db)
    ensures WellFormed(RemoveFrom(db, scope, name, confirm).0)
    ensures NoEmptyDirectory(db) ==> NoEmptyDirectory(RemoveFrom(db, scope, name, confirm).0)
  {
    var locals := db.localShortcuts;
    DeleteShape(db.globalShortcuts, name);
    match FirstDirWith(locals, name) {
      case None =>
      case Some(i) =>
        var dir := locals[i].0;
        assert IndexOf(locals, dir) == Some(i);
        var rest := Delete(locals[i].1, name);
        DeleteShape(locals[i].1, name);
        if |rest| != 0 {
          var locals' := Put(locals, dir, rest);
          assert locals' == locals[i := (dir, rest)];
        } else {
          DeleteShape(locals, dir);
        }
    }
  }

  /** Remove global: the name goes from the global set and nothing else changes; an absent name changes nothing. */
  lemma RemoveGlobalEffect(db: Database, name: Name)
    requires WellFormed(db)
    ensures var (db', o) := RemoveFrom(db, Global, name, true);
      && db'.localShortcuts == db.localShortcuts
      && (o == GlobalNotFound <==> !Has(db.globalShortcuts, name))
      && (o == GlobalNotFound ==> db' == db)
      && (o == RemovedGlobal ==>
            && !Has(db'.globalShortcuts, name)
            && forall n :: n != name ==> Get(db'.globalShortcuts, n) == Get(db.globalShortcuts, n))
      && (o == GlobalNotFound || o == RemovedGlobal)
  {
    DeleteGet(db.globalShortcuts, name);
  }

  // ---------------------------------------------------------------------------
  // Properties that relate several actions
  // ---------------------------------------------------------------------------

  /**
    Add then resolve, locally: after adding `name` in `cwd`, resolving from any
    directory whose walk passes `cwd`, with no nearer directory defining the
    name, runs the new commands; resolving from a directory whose walk does not
    pass `cwd` (an unrelated one, or any directory when `cwd` is the root) is
    unaffected by the add.
   */
  lemma AddLocalThenResolve(db: Database, cwd: Path, name: Name, cmds: seq<string>, from: Path)
    requires WellFormed(db)
    requires AddTo(db, Local, cwd, name, cmds).1 == Added
    ensures var db' := AddTo(db, Local, cwd, name, cmds).0;
      (OnWalk(cwd, from) && forall d :: OnWalk(d, from) && |cwd| < |d| ==> LocalLookup(db.localShortcuts, d, name).None?)
        ==> Resolved(db', name, from) == LocalHit(cwd, Commands(cmds))
    ensures !OnWalk(cwd, from) ==> Resolved(AddTo(db, Local, cwd, name, cmds).0, name, from) == Resolved(db, name, from)
  {
    var db' := AddTo(db, Local, cwd, name, cmds).0;
    AddLocalEffect(db, cwd, name, cmds);
    if OnWalk(cwd, from) && forall d :: OnWalk(d, from) && |cwd| < |d| ==> LocalLookup(db.localShortcuts, d, name).None? {
      forall d | OnWalk(d, from) && |cwd| < |d| ensures LocalLookup(db'.localShortcuts, d, name).None? {
        assert d != cwd;
      }
      NearestLocalWins(db'.localShortcuts, name, from, cwd, Commands(cmds));
    }
    if !OnWalk(cwd, from) {
      WalkReadsOnlyItsDirectories(db'.localShortcuts, db.localShortcuts, name, from);
    }
  }

  /** A local shortcut added in the root directory can never be run: resolution is unchanged everywhere. */
  lemma AddAtRootNeverResolves(db: Database, name: Name, cmds: seq<string>, from: Path)
    requires WellFormed(db)
    ensures Resolved(AddTo(db, Local, [], name, cmds).0, name, from) == Resolved(db, name, from)
  {
    if AddTo(db, Local, [], name, cmds).1 == Added {
      AddLocalThenResolve(db, [], name, cmds, from);
    }
  }

  /** Add then resolve, globally: a new global shortcut runs from every directory whose walk holds no local one of that name. */
  lemma AddGlobalThenResolve(db: Database, cwd: Path, name: Name, cmds: seq<string>, from: Path)
    requires WellFormed(db)
    requires AddTo(db, Global, cwd, name, cmds).1 == Added
    ensures (Resolved(AddTo(db, Global, cwd, name, cmds).0, name, from) == GlobalHit(Commands(cmds)))
              <==> NoLocalOnWalk(db, name, from)
  {
    PutGet(db.globalShortcuts, name, Commands(cmds));
    ResolvedMeaning(AddTo(db, Global, cwd, name, cmds).0, name, from);
  }

  /** Adding a global shortcut and then removing it restores the database exactly. */
  lemma AddThenRemoveGlobal(db: Database, cwd: Path, name: Name, cmds: seq<string>)
    requires AddTo(db, Global, cwd, name, cmds).1 == Added
    ensures RemoveFrom(AddTo(db, Global, cwd, name, cmds).0, Global, name, true) == (db, RemovedGlobal)
  {
    var g' := Put(db.globalShortcuts, name, Commands(cmds));
    assert g' == db.globalShortcuts + [(name, Commands(cmds))];
    assert forall j :: 0 <= j < |db.globalShortcuts| ==> g'[j] == db.globalShortcuts[j];
    assert g'[|db.globalShortcuts|].0 == name;
    assert IndexOf(g', name) == Some(|db.globalShortcuts|);
    assert g'[..|db.globalShortcuts|] == db.globalShortcuts;
    assert Delete(g', name) == db.globalShortcuts;
  }

  /**
    Adding a local shortcut and then removing it restores the database exactly,
    provided no directory held that name before: otherwise removal takes it
    from the first directory in iteration order, which need not be `cwd`.
   */
  lemma AddThenRemoveLocal(db: Database, cwd: Path, name: Name, cmds: seq<string>)
    requires WellFormed(db) && NoEmptyDirectory(db)
    requires forall j :: 0 <= j < |db.localShortcuts| ==> !Has(db.localShortcuts[j].1, name)
    ensures RemoveFrom(AddTo(db, Local, cwd, name, cmds).0, Local, name, true) == (db, RemovedLocal(cwd))
  {
    var locals := db.localShortcuts;
    match IndexOf(locals, cwd)
    case Some(i) =>
      AddThenRemoveInExistingDir(locals, cwd, name, Commands(cmds), i);
    case None =>
      AddThenRemoveInNewDir(locals, cwd, name, Commands(cmds));
  }

  /** The directory already had an entry: the name was appended to its set, and removal takes it off again. */
  lemma AddThenRemoveInExistingDir(locals: LocalShortcuts, cwd: Path, name: Name, v: Value, i: nat)
    requires LocalsWellFormed(locals)
    requires forall j :: 0 <= j < |locals| ==> |locals[j].1| > 0 && !Has(locals[j].1, name)
    requires IndexOf(locals, cwd) == Some(i)
    ensures var locals' := Put(locals, cwd, Put(DirSet(locals, cwd), name, v));
      RemoveLocalIn(locals', name) == (locals, Some(cwd))
  {
    var inDir := locals[i].1;
    assert DirSet(locals, cwd) == inDir;
    var inDir' := Put(inDir, name, v);
    AppendThenDelete(inDir, name, v);
    var locals' := locals[i := (cwd, inDir')];
    assert Put(locals, cwd, inDir') == locals';
    FirstHolderReplaced(locals, i, (cwd, inDir'), name);
    ReplaceBack(locals, i, inDir');
  }

  /** Appending a new key and deleting it again gives back the entry list. */
  lemma AppendThenDelete<K, V>(e: Entries<K, V>, k: K, v: V)
    requires !Has(e, k)
    ensures Put(e, k, v) == e + [(k, v)]
    ensures Has(e + [(k, v)], k)
    ensures Delete(e + [(k, v)], k) == e
  {
    var r := e + [(k, v)];
    assert forall j :: 0 <= j < |e| ==> r[j] == e[j];
    assert r[|e|].0 == k;
    assert IndexOf(r, k) == Some(|e|);
    assert r[..|e|] == e;
  }

  /** When no directory held the name, the one directory now holding it is the first holder. */
  lemma FirstHolderReplaced(locals: LocalShortcuts, i: nat, entry: (Path, ShortcutSet), name: Name)
    requires i < |locals| && Has(entry.1, name)
    requires forall j :: 0 <= j < |locals| ==> !Has(locals[j].1, name)
    ensures FirstDirWith(locals[i := entry], name) == Some(i)
  {
    var r := locals[i := entry];
    assert forall j :: 0 <= j < |locals| && j != i ==> r[j] == locals[j];
    assert Has(r[i].1, name);
  }

  /** Writing a directory's original set back over its replacement restores the local shortcuts. */
  lemma ReplaceBack(locals: LocalShortcuts, i: nat, other: ShortcutSet)
    requires DistinctKeys(locals) && i < |locals|
    ensures Put(locals[i := (locals[i].0, other)], locals[i].0, locals[i].1) == locals
  {
    var dir := locals[i].0;
    var r := locals[i := (dir, other)];
    assert IndexOf(locals, dir) == Some(i);
    IndexOfSameKeys(locals, r, dir);
    assert r[i := (dir, locals[i].1)] == locals;
  }

  /** The directory had no entry: one was created holding just the name, and removal drops it again. */
  lemma AddThenRemoveInNewDir(locals: LocalShortcuts, cwd: Path, name: Name, v: Value)
    requires IndexOf(locals, cwd).None?
    requires forall j :: 0 <= j < |locals| ==> !Has(locals[j].1, name)
    ensures var locals' := Put(locals, cwd, Put(DirSet(locals, cwd), name, v));
      RemoveLocalIn(locals', name) == (locals, Some(cwd))
  {
    assert DirSet(locals, cwd) == [];
    AppendThenDelete([], name, v);
    var inDir' := [(name, v)];
    AppendThenDelete(locals, cwd, inDir');
    var locals' := locals + [(cwd, inDir')];
    FirstHolderAppended(locals, (cwd, inDir'), name);
  }

  /** When no directory held the name, a new last directory holding it is the first holder. */
  lemma FirstHolderAppended(locals: LocalShortcuts, entry: (Path, ShortcutSet), name: Name)
    requires Has(entry.1, name)
    requires forall j :: 0 <= j < |locals| ==> !Has(locals[j].1, name)
    ensures FirstDirWith(locals + [entry], name) == Some(|locals|)
  {
    var r := locals + [entry];
    assert forall j :: 0 <= j < |locals| ==> r[j] == locals[j];
    assert r[|locals|] == entry;
  }
}
