/**
  The in-memory database `db.data` as the actions of bin/index.js change it:
  its two objects are fields, each action is a method that performs the
  source's steps one by one (the upward walk of the run action, the entry loop
  of local removal), and each method is proved to end in the state and outcome
  the functions of the Shortcuts module give.
 */
module Store {
  import opened Dict
  import opened Paths
  import opened Text
  import opened Shortcuts

  /** The add action's name prompt accepts any non-empty answer. */
  predicate NameAccepted(name: Name) {
    name != ""
  }

  /** The add action's count prompt accepts a positive integer. */
  predicate CountAccepted(count: int) {
    count > 0
  }

  /** One question of an inquirer prompt list: the answer's key and the text shown. */
  datatype Question = Question(key: string, message: string)

  /** The question asking for command number `n` (counted from 1). */
  function CommandQuestion(n: nat): Question {
    Question("Command" + NatToString(n), "Enter command #" + NatToString(n) + ":")
  }

  /**
    The loop that builds the command prompts: `count` questions, the i-th
    asking for command number i + 1.
   */
  method CommandQuestions(count: int) returns (questions: seq<Question>)
    ensures |questions| == if count > 0 then count else 0
    ensures forall i :: 0 <= i < |questions| ==> questions[i] == CommandQuestion(i + 1)
  {
    questions := [];
    var i := 0;
    while i < count
      invariant 0 <= i && (count > 0 ==> i <= count) && (count <= 0 ==> i == 0)
      invariant |questions| == i
      invariant forall j :: 0 <= j < i ==> questions[j] == CommandQuestion(j + 1)
    {
      questions := questions + [CommandQuestion(i + 1)];
      i := i + 1;
    }
  }

  /**
    The answer keys are pairwise distinct, so the answers object has one entry
    per question and `Object.values` gives the commands in the order asked.
   */
  lemma CommandKeysDistinct(m: nat, n: nat)
    requires CommandQuestion(m).key == CommandQuestion(n).key
    ensures m == n
  {
    var prefix := "Command";
    assert NatToString(m) == CommandQuestion(m).key[|prefix|..];
    assert NatToString(n) == CommandQuestion(n).key[|prefix|..];
    NatToStringInjective(m, n);
  }

  class Db {
    var globalShortcuts: ShortcutSet
    var localShortcuts: LocalShortcuts

    /** The database this object holds, as a value. */
    function Snapshot(): Database
      reads this
    {
      Database(globalShortcuts, localShortcuts)
    }

    ghost predicate Valid()
      reads this
    {
      WellFormed(Snapshot())
    }

    /** The database as read from the file (or `defaultData` when there is none). */
    constructor (data: Database)
      requires WellFormed(data)
      ensures Valid() && Snapshot() == data
    {
      globalShortcuts := data.globalShortcuts;
      localShortcuts := data.localShortcuts;
    }

    /**
      Name resolution of the run action: walk up from `cwd` while the
      directory is not its own dirname, stop at the first directory whose
      local set has the name, and fall back to the global set when the walk
      found nothing.
     */
    method Resolve(name: Name, cwd: Path) returns (r: Resolution)
      ensures r == Resolved(Snapshot(), name, cwd)
    {
      var commands: Option<Value> := None;
      var localShortcutExists := false;
      var currentDir := cwd;
      while currentDir != Dirname(currentDir)
        invariant WalkLocal(localShortcuts, name, currentDir) == WalkLocal(localShortcuts, name, cwd)
        invariant !localShortcutExists && commands.None?
        decreases |currentDir|
      {
        var here := LocalLookup(localShortcuts, currentDir, name);
        if here.Some? {
          commands := here;
          localShortcutExists := true;
          break;
        }
        currentDir := Dirname(currentDir);
      }
      if Has(globalShortcuts, name) && !localShortcutExists {
        commands := Get(globalShortcuts, name);
      }
      if localShortcutExists {
        r := LocalHit(currentDir, commands.value);
      } else if commands.Some? {
        r := GlobalHit(commands.value);
      } else {
        r := Unresolved;
      }
    }

    /** The run action: help for no name, "not found", or the joined command line handed to the shell. */
    method Run(name: Name, cwd: Path) returns (o: RunOutcome)
      ensures o == RunShortcut(Snapshot(), name, cwd)
    {
      if name == "" {
        return Help;
      }
      var r := Resolve(name, cwd);
      match r {
        case Unresolved => o := NotFound;
        case LocalHit(_, v) => o := Launch(v);
        case GlobalHit(v) => o := Launch(v);
      }
    }

    /**
      The add action once its prompts are answered: `answers` are the
      commands, as many as the accepted count. A global duplicate is refused;
      a local add first makes sure the working directory has an entry, then
      refuses a duplicate in that directory, then stores the commands.
     */
    method Add(scope: Scope, cwd: Path, name: Name, count: int, answers: seq<string>) returns (o: AddOutcome)
      requires Valid()
      requires NameAccepted(name) && CountAccepted(count) && |answers| == count
      modifies this
      ensures Valid()
      ensures (Snapshot(), o) == AddTo(old(Snapshot()), scope, cwd, name, answers)
      ensures old(NoEmptyDirectory(Snapshot())) ==> NoEmptyDirectory(Snapshot())
    {
      ghost var before := Snapshot();
      if NoEmptyDirectory(before) {
        AddKeepsDirectoriesNonEmpty(before, scope, cwd, name, answers);
      }
      match scope {
        case Global =>
          AddGlobalEffect(before, cwd, name, answers);
          if Has(globalShortcuts, name) {
            return GlobalExists;
          }
          globalShortcuts := Put(globalShortcuts, name, Commands(answers));
        case Local =>
          AddLocalEffect(before, cwd, name, answers);
          if !Has(localShortcuts, cwd) {
            PutGet(localShortcuts, cwd, []);
            localShortcuts := Put(localShortcuts, cwd, []);
          }
          var inDir := Get(localShortcuts, cwd).value;
          assert inDir == DirSet(before.localShortcuts, cwd);
          if Has(inDir, name) {
            assert localShortcuts == before.localShortcuts;
            return LocalExists;
          }
          localShortcuts := Put(localShortcuts, cwd, Put(inDir, name, Commands(answers)));
          PutPut(before.localShortcuts, cwd, [], Put(inDir, name, Commands(answers)));
      }
      o := Added;
    }

    /**
      Local removal: go through the directory entries in iteration order;
      in the first whose set has `name`, delete the name, delete the entry
      too if its set is now empty, and stop. Gives the directory, or None
      when no entry has the name.
     */
    method RemoveFromFirstDirectory(name: Name) returns (dir: Option<Path>)
      modifies this
      ensures (localShortcuts, dir) == RemoveLocalIn(old(localShortcuts), name)
      ensures globalShortcuts == old(globalShortcuts)
    {
      var entries := localShortcuts;
      var found := false;
      var i := 0;
      while i < |entries|
        invariant 0 <= i <= |entries|
        invariant localShortcuts == entries && !found
        invariant forall j :: 0 <= j < i ==> !Has(entries[j].1, name)
      {
        var (d, shortcutsInDir) := entries[i];
        if Has(shortcutsInDir, name) {
          assert FirstDirWith(entries, name) == Some(i);
          found := true;
          var rest := Delete(shortcutsInDir, name);
          localShortcuts := Put(localShortcuts, d, rest);
          if |rest| == 0 {
            PutThenDelete(entries, d, rest);
            localShortcuts := Delete(localShortcuts, d);
          }
          dir := Some(d);
          break;
        }
        i := i + 1;
      }
      if !found {
        dir := None;
      }
    }

    /**
      The remove action once its prompts are answered: nothing happens unless
      confirmed; then the local or global shortcut is removed, or the action
      reports that it was not found and changes nothing.
     */
    method Remove(scope: Scope, name: Name, confirm: bool) returns (o: RemoveOutcome)
      requires Valid()
      modifies this
      ensures Valid()
      ensures (Snapshot(), o) == RemoveFrom(old(Snapshot()), scope, name, confirm)
      ensures old(NoEmptyDirectory(Snapshot())) ==> NoEmptyDirectory(Snapshot())
    {
      RemoveKeepsInvariants(Snapshot(), scope, name, confirm);
      if !confirm {
        return Cancelled;
      }
      match scope {
        case Local =>
          var dir := RemoveFromFirstDirectory(name);
          if dir.None? {
            return LocalNotFound;
          }
          o := RemovedLocal(dir.value);
        case Global =>
          if !Has(globalShortcuts, name) {
            return GlobalNotFound;
          }
          globalShortcuts := Delete(globalShortcuts, name);
          o := RemovedGlobal;
      }
    }
  }
}
