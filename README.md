# snapshell shortcut database, modelled in Dafny

snapshell is a command-line tool that stores named shortcuts for sequences of
shell commands. A shortcut is either global or local. A local shortcut belongs
to one absolute directory. The whole state is one document, `db.data`, with two
objects:

- `globalShortcuts` maps a name to its list of commands.
- `localShortcuts` maps a directory to that directory's name-to-commands object.

This project models the four actions of `bin/index.js` on that document, and
proves what they do:

- **run** (`snapshell <name>`): walk up from the working directory, stopping
  before the filesystem root. The nearest directory that defines the name
  locally wins. Without one, the global definition is used. The commands are
  joined with `" && "` and handed to the shell.
- **add**: store a new global shortcut, or a local one for exactly the working
  directory. A name that already exists in that scope is refused.
- **remove**: after confirmation, remove a global shortcut. For a local one,
  take the name out of the first directory, in iteration order, whose set has
  it, and drop that directory's entry when it becomes empty.
- **list**: print every shortcut, global ones first and then local ones
  grouped by directory, with each command list numbered from 1.

Modules, leaf first:

- `Dict` (dict.dfy): a JavaScript object as an ordered list of entries.
  Assigning a new key appends it. Assigning an existing key keeps its place.
  `delete` keeps the order of the other keys.
- `Text` (text.dfy): `Array.prototype.join` and the decimal printing of a number.
- `Paths` (paths.dfy): absolute paths as lists of components, with `path.dirname`.
- `Shortcuts` (shortcuts.dfy): the database value and each action as a pure
  function, with the lemmas about them.
- `Listing` (listing.dfy): the list action's output as lines, and the printing
  loops proved to produce it.
- `Store` (store.dfy): class `Db`, whose fields are the two objects. Its
  methods perform the source's steps in place: the `while` walk of the run
  action, the entry loop with `found` and `break` of local removal, and the
  create-entry-then-check order of local add. Each method is proved to end in
  the state and outcome that the `Shortcuts` functions give.

Three behaviours of the code that a reader might not expect, and that the model keeps:

- A legacy value (a single command string instead of a list) can be listed,
  but running it fails. The run action calls `commands.join` on it, which
  throws (`RunOutcome.JoinTypeError`). It is not treated as a one-command list.
- The upward walk never looks at the root directory itself. The loop stops
  as soon as the directory equals its own dirname. So a local shortcut added
  in `/` is stored and listed but never runs (`AddAtRootNeverResolves`).
- Local removal searches every recorded directory, not only the ancestors of
  the working directory, and takes the name from the first one in iteration
  order.

## Model

| member | source | states |
|---|---|---|
| Dict.Get | bin/index.js:177 | a lookup finds a value exactly when the key is present; in an object with distinct keys it is that key's value |
| Dict.Put | bin/index.js:92 | assignment grows the object by one entry exactly for a new key, and the object then holds the assigned pair |
| Dict.PutGet | bin/index.js:83 | after `obj[k] = v`, `k` maps to `v` and every other key maps to what it mapped to before |
| Dict.PutShape | bin/index.js:92 | assignment keeps every key in its place, grows the object only for a new key, and keeps keys distinct |
| Dict.Delete | bin/index.js:272 | `delete` shrinks the object by one entry exactly when the key is present, and changes nothing otherwise |
| Dict.DeleteGet | bin/index.js:272 | after `delete obj[k]`, `k` is absent and every other key keeps its value |
| Dict.DeleteShape | bin/index.js:249 | `delete` removes exactly one entry when the key is present, keeps only existing entries, and keeps keys distinct |
| Dict.PutPut | bin/index.js:85-92 | creating an empty directory object and then assigning the directory again is one assignment of the final object |
| Dict.PutThenDelete | bin/index.js:249-253 | emptying a directory's object and then deleting its entry is the same as deleting the original entry |
| Text.Join | bin/index.js:200 | joining no commands gives the empty line; joining one command gives that command unchanged |
| Text.JoinLength | bin/index.js:200 | the command line is exactly the commands plus one separator between each pair of neighbours |
| Text.JoinPlacesPart | bin/index.js:200 | every command appears unchanged, in order, at its offset in the joined command line |
| Text.JoinSeparatesParts | bin/index.js:200 | exactly one `" && "` stands between consecutive commands in the command line |
| Text.NatToString | bin/index.js:126 | a command number prints as a non-empty string of decimal digits without a leading zero |
| Text.NatToStringRoundTrip | bin/index.js:126 | reading back the printed digits gives the number |
| Text.NatToStringInjective | bin/index.js:126 | different numbers print differently |
| Paths.Dirname | bin/index.js:176 | a path is its own dirname exactly at the root; elsewhere dirname drops the last component |
| Shortcuts.WalkLocal | bin/index.js:175-184 | a hit of the walk is a directory on the walk from the working directory, and the value is that directory's definition of the name |
| Shortcuts.WalkFindsNearest | bin/index.js:175-184 | a hit is a directory on the walk that defines the name, with no nearer directory defining it; no hit means no directory on the walk defines it |
| Shortcuts.NearestLocalWins | bin/index.js:175-184 | the walk returns `(dir, v)` if and only if `dir` is the nearest directory on the walk defining the name, with value `v` |
| Shortcuts.WalkReadsOnlyItsDirectories | bin/index.js:176-177 | two databases that agree on the directories of the walk resolve the walk alike |
| Shortcuts.RootNeverConsulted | bin/index.js:176 | whatever the root directory holds, the walk gives the same answer, and it never answers with the root |
| Shortcuts.Resolved | bin/index.js:172-189 | a local hit is a directory on the walk with its definition; a global hit is the global definition; unresolved only when the global set lacks the name |
| Shortcuts.ResolvedMeaning | bin/index.js:185-189 | local wins exactly when some directory on the walk defines the name; global is used exactly when none does and the global set has it; otherwise unresolved |
| Shortcuts.Launch | bin/index.js:200 | `join` throws exactly for a legacy value; a command list always gives a command line, and a single command runs unchanged |
| Shortcuts.RunShortcut | bin/index.js:164-200 | help exactly for an empty name; "not found" exactly when neither a local definition on the walk nor a global one exists; a resolved command list always runs as its join, and the join throws exactly when a legacy value is resolved |
| Shortcuts.AddTo | bin/index.js:78-93 | add succeeds exactly when the name is new in the chosen scope (the working directory's set for a local add); a refusal changes nothing, and one add changes only one of the two objects |
| Shortcuts.AddGlobalEffect | bin/index.js:78-83 | a global add either is refused or adds; a duplicate is refused with nothing changed; otherwise the name is appended with exactly the given commands and nothing else changes |
| Shortcuts.AddLocalEffect | bin/index.js:84-92 | a local add either is refused or adds; the duplicate check looks at the exact working directory only; on success only that (directory, name) pair changes, to the given commands |
| Shortcuts.AddKeepsDirectoriesNonEmpty | bin/index.js:85-92 | add never leaves a directory entry without shortcuts |
| Shortcuts.FirstDirWith | bin/index.js:245-246 | the index found is the first directory, in iteration order, whose set has the name; none is found exactly when no set has it |
| Shortcuts.RemoveLocalIn | bin/index.js:242-258 | no directory is reported exactly when no directory's set has the name, and then nothing changes; a reported directory is the first holder in iteration order; the object never grows |
| Shortcuts.RemoveFrom | bin/index.js:236-239 | the action is cancelled exactly when not confirmed, and it changes the database only when it removes something |
| Shortcuts.RemoveLocalEffect | bin/index.js:241-263 | the name leaves the first holding directory only; that directory's entry remains exactly when it still holds other shortcuts; not found exactly when no directory defines it, and then nothing changes |
| Shortcuts.RemoveGlobalEffect | bin/index.js:265-273 | the name leaves the global set and every other name keeps its value; an absent name is reported and changes nothing |
| Shortcuts.RemoveKeepsInvariants | bin/index.js:249-253 | remove keeps keys distinct and never leaves an empty directory entry behind |
| Shortcuts.AddLocalThenResolve | bin/index.js:92 | after a local add, a walk passing the directory with no nearer definition runs the new commands; walks that do not pass it are unaffected |
| Shortcuts.AddAtRootNeverResolves | bin/index.js:176 | a local shortcut added in the root directory changes no resolution anywhere |
| Shortcuts.AddGlobalThenResolve | bin/index.js:185-188 | a new global shortcut is what runs from exactly the directories whose walk defines no local one of that name |
| Shortcuts.AddThenRemoveGlobal | bin/index.js:272 | adding a global shortcut and then removing it restores the database exactly |
| Shortcuts.AddThenRemoveLocal | bin/index.js:245-256 | adding a local shortcut whose name no directory held and then removing it restores the database exactly |
| Listing.NumberedLines | bin/index.js:125-127 | line `i` of a command list is the indent, the number `i + 1`, `". "` and command `i` |
| Listing.Render | bin/index.js:110-115 | the output is the "no shortcuts" line exactly when both scopes are empty; otherwise it starts with the heading |
| Listing.GlobalBodyAt | bin/index.js:118-119 | with any global shortcut, the global heading is line 1 and the global entries fill the lines up to the local block |
| Listing.LocalBodyAt | bin/index.js:136-138 | with any directory entry, the local heading follows the global block and the directory entries fill the rest of the output |
| Listing.GlobalShortcutListed | bin/index.js:120-132 | each global shortcut is listed before the local block: its name line, then exactly its value's lines |
| Listing.DirectoryListed | bin/index.js:138-139 | each directory entry is listed in the local block: its path line, then exactly its shortcuts' lines |
| Listing.DirectoryBody | bin/index.js:141 | a directory's shortcuts fill the lines between its path line and the next directory's |
| Listing.LocalShortcutListed | bin/index.js:141-152 | each local shortcut is listed under its directory: its indented name line, then exactly its value's lines |
| Listing.PrintValue | bin/index.js:123-131 | the forEach prints exactly the value's lines after what was already printed |
| Listing.PrintShortcuts | bin/index.js:120-132 | the entry loop prints exactly the set's listing after what was already printed |
| Listing.PrintDirectories | bin/index.js:138-154 | the directory loop prints exactly the local entries' listing after what was already printed |
| Listing.List | bin/index.js:103-156 | the list action prints exactly `Render` of the database |
| Store.CommandQuestions | bin/index.js:67-74 | the prompt loop asks `count` questions, the i-th for command number i + 1 |
| Store.CommandKeysDistinct | bin/index.js:71 | the answer keys are pairwise distinct, so every command answer is kept |
| Store.Db.constructor | bin/index.js:22 | the object holds the database read from the file |
| Store.Db.Resolve | bin/index.js:172-189 | the in-place walk with its break and the global fallback computes exactly `Resolved` |
| Store.Db.Run | bin/index.js:164-200 | the run action's outcome is exactly `RunShortcut` |
| Store.Db.Add | bin/index.js:78-93 | add keeps the database well formed and ends in exactly the state and outcome of `AddTo` |
| Store.Db.RemoveFromFirstDirectory | bin/index.js:242-258 | the entry loop with `found` and `break` ends in exactly the local objects and directory of `RemoveLocalIn` |
| Store.Db.Remove | bin/index.js:236-274 | remove keeps the database well formed and ends in exactly the state and outcome of `RemoveFrom` |

## Left out

- Prompts, colours and messages (inquirer, chalk, commander) are left out. The answers to the prompts are method parameters. The prompts' validators become preconditions of `Store.Db.Add`: a non-empty name, and a count that is a positive integer equal to the number of answers.
- Persistence through lowdb is left out. This covers reading and writing `shortcuts.json`, and the unconditional `db.write()` that `initializeDB` performs at the start of every action. So "no write on a failed removal" is not modelled, and the code does not provide it anyway.
- Running the shell is left out. `execSync` and the error it reports are not modelled. The run action ends in the command line it would hand to the shell.
- Paths are lists of components. Path string syntax, trailing separators, symbolic links and Windows drive roots are not modelled. A Windows root is also its own dirname, so the walk's stopping rule is the same.
- `Dict.Put`: a new key always goes last. JavaScript enumerates integer-like keys (a shortcut named `2`) first, in numeric order. For such names the model's listing order differs from the program's.
- `Shortcuts.Resolved`: every stored value counts as present. The source tests truthiness, so a legacy value that is the empty string would be skipped. The same holds for the duplicate checks in `Shortcuts.AddTo` and the presence tests in `Shortcuts.FirstDirWith` and `Shortcuts.RemoveFrom`.
- `Dict.Get`: only own keys are looked up. In JavaScript `obj[k]` also reads properties inherited from `Object.prototype`, so a shortcut named `constructor`, `toString`, `valueOf`, `hasOwnProperty` or `__proto__` behaves differently in the program: add refuses it as existing, run resolves it to the inherited property and fails at `join`, and remove reports it removed (from the first recorded directory, for a local removal) while nothing changes. The model treats these names like any other.
- `Listing.Render`: the lines carry no colour codes. Numbers and values are rendered as plain text.
- The `|| {}` fallbacks for a document without `globalShortcuts` or `localShortcuts` are not modelled. The database always has both objects. Line 27's `db.data ||= { shortcuts: {} }` never applies once the file preset supplies its default data.
- A count answer that is not a number (NaN, a fraction) is rejected by the prompt's validator before the action continues. The model takes the count as an integer.
