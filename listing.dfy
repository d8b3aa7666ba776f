/**
  The list action: the database rendered as the lines it prints, without the
  colours. Either the one "nothing found" line, or a heading, the global block,
  then the local block grouped by directory; every command list is numbered
  from 1, and a legacy single-string value is printed on its own line.
 */
module Listing {
  import opened Paths
  import opened Text
  import opened Shortcuts

  const NoShortcutsMessage := "No shortcuts found. Add some using the \"add\" command."
  const SavedHeader := "Saved shortcuts:"
  const GlobalHeader := "Global Shortcuts:"
  const LocalHeader := "Local Shortcuts:"

  /** The indentation of one block: before a shortcut's name, a numbered command, a legacy command. */
  datatype Layout = Layout(nameIndent: string, numberIndent: string, legacyIndent: string)

  const GlobalLayout := Layout("", "  ", " ")
  const LocalLayout := Layout("  ", "    ", "    ")

  /** Blocks of lines, one per item, in the order of the items. */
  function Concat<T>(items: seq<T>, render: T -> seq<string>): seq<string> {
    if items == [] then [] else render(items[0]) + Concat(items[1..], render)
  }

  /** Where the block of item `i` starts in `Concat(items, render)`. */
  function BlockStart<T>(items: seq<T>, render: T -> seq<string>, i: nat): nat
    requires i <= |items|
  {
    if i == 0 then 0 else BlockStart(items, render, i - 1) + |render(items[i - 1])|
  }

  lemma {:induction false} BlockStartOfTail<T>(items: seq<T>, render: T -> seq<string>, i: nat)
    requires 1 <= i <= |items|
    ensures BlockStart(items, render, i) == |render(items[0])| + BlockStart(items[1..], render, i - 1)
  {
    if i > 1 {
      BlockStartOfTail(items, render, i - 1);
    }
  }

  /** The block of item `i` stands, unchanged, between `BlockStart(i)` and `BlockStart(i + 1)`. */
  lemma {:induction false} ConcatAt<T>(items: seq<T>, render: T -> seq<string>, i: nat)
    requires i < |items|
    ensures BlockStart(items, render, i + 1) <= |Concat(items, render)|
    ensures Concat(items, render)[BlockStart(items, render, i)..BlockStart(items, render, i + 1)] == render(items[i])
  {
    var first := render(items[0]);
    var rest := Concat(items[1..], render);
    assert Concat(items, render) == first + rest;
    if i == 0 {
      assert (first + rest)[0..|first|] == first;
    } else {
      var x := BlockStart(items[1..], render, i - 1);
      var y := BlockStart(items[1..], render, i);
      ConcatAt(items[1..], render, i - 1);
      assert items[1..][i - 1] == items[i];
      assert rest[x..y] == render(items[i]);
      BlockStartOfTail(items, render, i);
      BlockStartOfTail(items, render, i + 1);
      SliceOfAppend(first, rest, x, y);
    }
  }

  /** `commands.forEach((command, index) => ...)`: one line per command, numbered from `first`. */
  function NumberedLines(cmds: seq<string>, indent: string, first: nat): (r: seq<string>)
    ensures |r| == |cmds|
    ensures forall i :: 0 <= i < |cmds| ==> r[i] == indent + NatToString(first + i) + ". " + cmds[i]
  {
    if cmds == [] then []
    else [indent + NatToString(first) + ". " + cmds[0]] + NumberedLines(cmds[1..], indent, first + 1)
  }

  /** The lines under a shortcut's name: its numbered commands, or its legacy single command. */
  function ValueLines(v: Value, layout: Layout): seq<string> {
    match v
    case Commands(cmds) => NumberedLines(cmds, layout.numberIndent, 1)
    case Legacy(cmd) => [layout.legacyIndent + cmd]
  }

  function ShortcutHeading(name: Name, layout: Layout): string {
    layout.nameIndent + name + " ->"
  }

  /** One shortcut: its name line, then its value's lines. */
  function EntryLines(layout: Layout): ((Name, Value)) -> seq<string> {
    (entry: (Name, Value)) => [ShortcutHeading(entry.0, layout)] + ValueLines(entry.1, layout)
  }

  function ShortcutLines(s: ShortcutSet, layout: Layout): seq<string> {
    Concat(s, EntryLines(layout))
  }

  function DirectoryHeading(dir: Path): string {
    Format(dir) + " ->"
  }

  /** One directory: its path line, then its shortcuts. */
  function DirectoryLines(entry: (Path, ShortcutSet)): seq<string> {
    [DirectoryHeading(entry.0)] + ShortcutLines(entry.1, LocalLayout)
  }

  function GlobalBlock(g: ShortcutSet): seq<string> {
    if g == [] then [] else [GlobalHeader] + ShortcutLines(g, GlobalLayout)
  }

  function LocalBlock(l: LocalShortcuts): seq<string> {
    if l == [] then [] else [LocalHeader] + Concat(l, DirectoryLines)
  }

  /** The list action's output. */
  function Render(db: Database): (lines: seq<string>)
    ensures lines == [NoShortcutsMessage] <==> db.globalShortcuts == [] && db.localShortcuts == []
    ensures lines != [NoShortcutsMessage] ==> |lines| > 1 && lines[0] == SavedHeader
  {
    if |db.globalShortcuts| == 0 && |db.localShortcuts| == 0 then [NoShortcutsMessage]
    else [SavedHeader] + GlobalBlock(db.globalShortcuts) + LocalBlock(db.localShortcuts)
  }

  /** The line that opens the local block, right after the whole global block. */
  function LocalHeaderAt(db: Database): nat {
    1 + |GlobalBlock(db.globalShortcuts)|
  }

  /** The line of global shortcut `i`'s name. */
  function GlobalEntryAt(db: Database, i: nat): nat
    requires i <= |db.globalShortcuts|
  {
    2 + BlockStart(db.globalShortcuts, EntryLines(GlobalLayout), i)
  }

  /** The line of directory entry `i`'s path. */
  function DirectoryAt(db: Database, i: nat): nat
    requires i <= |db.localShortcuts|
  {
    LocalHeaderAt(db) + 1 + BlockStart(db.localShortcuts, DirectoryLines, i)
  }

  /** The line of the name of shortcut `j` in directory entry `i`. */
  function LocalEntryAt(db: Database, i: nat, j: nat): nat
    requires i < |db.localShortcuts| && j <= |db.localShortcuts[i].1|
  {
    DirectoryAt(db, i) + 1 + BlockStart(db.localShortcuts[i].1, EntryLines(LocalLayout), j)
  }

  /** A run of lines that holds `Concat(items, render)` at `p` holds item `i`'s block at `p + BlockStart(i)`. */
  lemma SubBlock<T>(lines: seq<string>, p: nat, items: seq<T>, render: T -> seq<string>, i: nat)
    requires i < |items|
    requires p + |Concat(items, render)| <= |lines|
    requires lines[p..p + |Concat(items, render)|] == Concat(items, render)
    ensures p + BlockStart(items, render, i + 1) <= |lines|
    ensures lines[p + BlockStart(items, render, i)..p + BlockStart(items, render, i + 1)] == render(items[i])
  {
    var c := Concat(items, render);
    ConcatAt(items, render, i);
    var x := BlockStart(items, render, i);
    var y := BlockStart(items, render, i + 1);
    forall k | x <= k < y ensures lines[p + k] == c[k] {
      assert lines[p..p + |c|][k] == c[k];
    }
    assert lines[p + x..p + y] == c[x..y];
  }

  /** A run of lines that is a head line followed by a block: the block alone, one line further on. */
  lemma HeadAndRest(lines: seq<string>, a: nat, b: nat, head: string, rest: seq<string>)
    requires a <= b <= |lines| && lines[a..b] == [head] + rest
    ensures a < b && lines[a] == head
    ensures lines[a + 1..b] == rest
  {
    assert lines[a..b][0] == head;
    forall k | 0 <= k < |rest| ensures lines[a + 1 + k] == rest[k] {
      assert lines[a..b][1 + k] == rest[k];
    }
  }

  /** A heading line and its block, inside a longer run of lines. */
  lemma HeadingInside(lines: seq<string>, a: seq<string>, b: seq<string>, c: seq<string>, head: string, rest: seq<string>)
    requires lines == a + b + c && b == [head] + rest
    ensures |a| + 1 + |rest| + |c| == |lines|
    ensures lines[|a|] == head
    ensures lines[|a| + 1..|a| + 1 + |rest|] == rest
  {
    assert lines[|a|] == b[0];
    forall k | 0 <= k < |rest| ensures lines[|a| + 1 + k] == rest[k] {
      assert lines[|a| + 1 + k] == b[1 + k];
    }
  }

  /** With any global shortcut, the global heading is line 1 and the entries follow from line 2 up to the local block. */
  lemma GlobalBodyAt(db: Database)
    requires db.globalShortcuts != []
    ensures LocalHeaderAt(db) == 2 + |ShortcutLines(db.globalShortcuts, GlobalLayout)| <= |Render(db)|
    ensures Render(db)[1] == GlobalHeader
    ensures Render(db)[2..LocalHeaderAt(db)] == ShortcutLines(db.globalShortcuts, GlobalLayout)
  {
    var g := db.globalShortcuts;
    HeadingInside(Render(db), [SavedHeader], GlobalBlock(g), LocalBlock(db.localShortcuts), GlobalHeader, ShortcutLines(g, GlobalLayout));
  }

  /** With any directory entry, the local heading follows the global block and the entries fill the rest. */
  lemma LocalBodyAt(db: Database)
    requires db.localShortcuts != []
    ensures LocalHeaderAt(db) + 1 + |Concat(db.localShortcuts, DirectoryLines)| == |Render(db)|
    ensures Render(db)[LocalHeaderAt(db)] == LocalHeader
    ensures Render(db)[LocalHeaderAt(db) + 1..|Render(db)|] == Concat(db.localShortcuts, DirectoryLines)
  {
    var l := db.localShortcuts;
    var before := [SavedHeader] + GlobalBlock(db.globalShortcuts);
    assert Render(db) == before + LocalBlock(l) + [];
    HeadingInside(Render(db), before, LocalBlock(l), [], LocalHeader, Concat(l, DirectoryLines));
  }

  /** Inside a run of lines that holds a set's listing at `p`, shortcut `i`: its name line, then its value's lines. */
  lemma EntryListed(lines: seq<string>, p: nat, s: ShortcutSet, layout: Layout, i: nat)
    requires i < |s|
    requires p + |ShortcutLines(s, layout)| <= |lines|
    requires lines[p..p + |ShortcutLines(s, layout)|] == ShortcutLines(s, layout)
    ensures BlockStart(s, EntryLines(layout), i + 1) <= |ShortcutLines(s, layout)|
    ensures BlockStart(s, EntryLines(layout), i + 1) == BlockStart(s, EntryLines(layout), i) + 1 + |ValueLines(s[i].1, layout)|
    ensures lines[p + BlockStart(s, EntryLines(layout), i)..p + BlockStart(s, EntryLines(layout), i + 1)]
         == [ShortcutHeading(s[i].0, layout)] + ValueLines(s[i].1, layout)
  {
    SubBlock(lines, p, s, EntryLines(layout), i);
    ConcatAt(s, EntryLines(layout), i);
    EntryBlock(s[i], layout);
  }

  /** A global shortcut's name line is the name alone, then the arrow. */
  lemma GlobalHeading(name: Name)
    ensures ShortcutHeading(name, GlobalLayout) == name + " ->"
  {
    assert "" + name == name;
  }

  /** A local shortcut's name line is the name indented by two spaces, then the arrow. */
  lemma LocalHeading(name: Name)
    ensures ShortcutHeading(name, LocalLayout) == "  " + name + " ->"
  {
  }

  /**
    Global shortcut `i` is listed in the global block, before the local block:
    its name line, then exactly the lines of its value, which for a command
    list are the commands in stored order numbered from 1.
   */
  lemma GlobalShortcutListed(db: Database, i: nat)
    requires i < |db.globalShortcuts|
    ensures Render(db)[1] == GlobalHeader
    ensures GlobalEntryAt(db, i + 1) <= LocalHeaderAt(db) <= |Render(db)|
    ensures GlobalEntryAt(db, i + 1) == GlobalEntryAt(db, i) + 1 + |ValueLines(db.globalShortcuts[i].1, GlobalLayout)|
    ensures Render(db)[GlobalEntryAt(db, i)..GlobalEntryAt(db, i + 1)]
         == [db.globalShortcuts[i].0 + " ->"] + ValueLines(db.globalShortcuts[i].1, GlobalLayout)
  {
    var g := db.globalShortcuts;
    GlobalBodyAt(db);
    EntryListed(Render(db), 2, g, GlobalLayout, i);
    GlobalHeading(g[i].0);
    assert [ShortcutHeading(g[i].0, GlobalLayout)] == [g[i].0 + " ->"];
  }

  /**
    Directory entry `i` is listed in the local block, which follows the whole
    global block: its path line, then exactly the lines of its shortcuts.
   */
  lemma DirectoryListed(db: Database, i: nat)
    requires i < |db.localShortcuts|
    ensures Render(db)[LocalHeaderAt(db)] == LocalHeader
    ensures DirectoryAt(db, i + 1) <= |Render(db)|
    ensures DirectoryAt(db, i + 1) == DirectoryAt(db, i) + 1 + |ShortcutLines(db.localShortcuts[i].1, LocalLayout)|
    ensures Render(db)[DirectoryAt(db, i)..DirectoryAt(db, i + 1)]
         == [Format(db.localShortcuts[i].0) + " ->"] + ShortcutLines(db.localShortcuts[i].1, LocalLayout)
  {
    var l := db.localShortcuts;
    var p := LocalHeaderAt(db) + 1;
    LocalBodyAt(db);
    SubBlock(Render(db), p, l, DirectoryLines, i);
    var block := DirectoryLines(l[i]);
    assert block == [Format(l[i].0) + " ->"] + ShortcutLines(l[i].1, LocalLayout);
    assert BlockStart(l, DirectoryLines, i + 1) == BlockStart(l, DirectoryLines, i) + |block|;
  }

  /** The shortcuts of directory entry `i` fill the lines between its path line and the next entry's. */
  lemma DirectoryBody(db: Database, i: nat)
    requires i < |db.localShortcuts|
    ensures DirectoryAt(db, i + 1) == DirectoryAt(db, i) + 1 + |ShortcutLines(db.localShortcuts[i].1, LocalLayout)|
    ensures DirectoryAt(db, i + 1) <= |Render(db)|
    ensures Render(db)[DirectoryAt(db, i) + 1..DirectoryAt(db, i + 1)] == ShortcutLines(db.localShortcuts[i].1, LocalLayout)
  {
    DirectoryListed(db, i);
    HeadAndRest(Render(db), DirectoryAt(db, i), DirectoryAt(db, i + 1),
                Format(db.localShortcuts[i].0) + " ->", ShortcutLines(db.localShortcuts[i].1, LocalLayout));
  }

  /**
    Local shortcut `j` of directory entry `i` is listed under its directory's
    path line: its name line, then exactly the lines of its value.
   */
  lemma LocalShortcutListed(db: Database, i: nat, j: nat)
    requires i < |db.localShortcuts| && j < |db.localShortcuts[i].1|
    ensures DirectoryAt(db, i) < LocalEntryAt(db, i, j) < LocalEntryAt(db, i, j + 1) <= DirectoryAt(db, i + 1) <= |Render(db)|
    ensures LocalEntryAt(db, i, j + 1) == LocalEntryAt(db, i, j) + 1 + |ValueLines(db.localShortcuts[i].1[j].1, LocalLayout)|
    ensures Render(db)[LocalEntryAt(db, i, j)..LocalEntryAt(db, i, j + 1)]
         == ["  " + db.localShortcuts[i].1[j].0 + " ->"] + ValueLines(db.localShortcuts[i].1[j].1, LocalLayout)
  {
    var s := db.localShortcuts[i].1;
    DirectoryBody(db, i);
    EntryListed(Render(db), DirectoryAt(db, i) + 1, s, LocalLayout, j);
    LocalHeading(s[j].0);
    assert [ShortcutHeading(s[j].0, LocalLayout)] == ["  " + s[j].0 + " ->"];
  }

  /** One more item adds its block at the end. */
  lemma {:induction false} ConcatAppend<T>(items: seq<T>, render: T -> seq<string>, x: T)
    ensures Concat(items + [x], render) == Concat(items, render) + render(x)
  {
    if items == [] {
      assert [x][1..] == [];
    } else {
      assert (items + [x])[1..] == items[1..] + [x];
      ConcatAppend(items[1..], render, x);
    }
  }

  /** The forEach over a command list (or the single legacy line), printed after `lines`. */
  method PrintValue(lines: seq<string>, v: Value, layout: Layout) returns (out: seq<string>)
    ensures out == lines + ValueLines(v, layout)
  {
    match v {
      case Commands(cmds) =>
        out := lines;
        var index := 0;
        while index < |cmds|
          invariant 0 <= index <= |cmds|
          invariant out == lines + NumberedLines(cmds[..index], layout.numberIndent, 1)
        {
          out := out + [layout.numberIndent + NatToString(index + 1) + ". " + cmds[index]];
          NumberedLinesAppend(cmds, layout.numberIndent, index);
          index := index + 1;
        }
        assert cmds[..|cmds|] == cmds;
      case Legacy(cmd) =>
        out := lines + [layout.legacyIndent + cmd];
    }
  }

  /** Numbering one more command adds its line, numbered after the others. */
  lemma NumberedLinesAppend(cmds: seq<string>, indent: string, k: nat)
    requires k < |cmds|
    ensures NumberedLines(cmds[..k + 1], indent, 1)
         == NumberedLines(cmds[..k], indent, 1) + [indent + NatToString(k + 1) + ". " + cmds[k]]
  {
    var a := NumberedLines(cmds[..k + 1], indent, 1);
    var b := NumberedLines(cmds[..k], indent, 1) + [indent + NatToString(k + 1) + ". " + cmds[k]];
    assert |a| == |b|;
    forall j | 0 <= j < |a| ensures a[j] == b[j] {
      assert cmds[..k + 1][j] == cmds[j];
      if j < k {
        assert cmds[..k][j] == cmds[j];
      }
    }
  }

  /** The block of one shortcut, spelled out. */
  lemma EntryBlock(entry: (Name, Value), layout: Layout)
    ensures EntryLines(layout)(entry) == [ShortcutHeading(entry.0, layout)] + ValueLines(entry.1, layout)
  {
  }

  /** Printing a block in two parts after what is already printed. */
  lemma AppendBlock(lines: seq<string>, done: seq<string>, a: seq<string>, b: seq<string>)
    ensures lines + done + a + b == lines + (done + (a + b))
  {
  }

  /** The loop over one set's entries: each name line, then its value's lines, printed after `lines`. */
  method PrintShortcuts(lines: seq<string>, s: ShortcutSet, layout: Layout) returns (out: seq<string>)
    ensures out == lines + ShortcutLines(s, layout)
  {
    out := lines;
    var i := 0;
    while i < |s|
      invariant 0 <= i <= |s|
      invariant out == lines + Concat(s[..i], EntryLines(layout))
    {
      var (shortcut, commands) := s[i];
      ghost var done := Concat(s[..i], EntryLines(layout));
      var withName := out + [ShortcutHeading(shortcut, layout)];
      out := PrintValue(withName, commands, layout);
      EntryBlock(s[i], layout);
      assert s[..i + 1] == s[..i] + [s[i]];
      ConcatAppend(s[..i], EntryLines(layout), s[i]);
      AppendBlock(lines, done, [ShortcutHeading(shortcut, layout)], ValueLines(commands, layout));
      i := i + 1;
    }
    assert s[..|s|] == s;
  }

  /** The loop over the directory entries: each path line, then its shortcuts, printed after `lines`. */
  method PrintDirectories(lines: seq<string>, l: LocalShortcuts) returns (out: seq<string>)
    ensures out == lines + Concat(l, DirectoryLines)
  {
    out := lines;
    var i := 0;
    while i < |l|
      invariant 0 <= i <= |l|
      invariant out == lines + Concat(l[..i], DirectoryLines)
    {
      var (dir, shortcutsInDir) := l[i];
      ghost var done := Concat(l[..i], DirectoryLines);
      out := PrintShortcuts(out + [DirectoryHeading(dir)], shortcutsInDir, LocalLayout);
      assert l[..i + 1] == l[..i] + [l[i]];
      ConcatAppend(l[..i], DirectoryLines, l[i]);
      AppendBlock(lines, done, [DirectoryHeading(dir)], ShortcutLines(shortcutsInDir, LocalLayout));
      i := i + 1;
    }
    assert l[..|l|] == l;
  }

  /** The list action, printing line by line. */
  method List(db: Database) returns (lines: seq<string>)
    ensures lines == Render(db)
  {
    var globalShortcuts := db.globalShortcuts;
    var localShortcuts := db.localShortcuts;
    if |globalShortcuts| == 0 && |localShortcuts| == 0 {
      return [NoShortcutsMessage];
    }
    lines := [SavedHeader];
    if |globalShortcuts| > 0 {
      lines := PrintShortcuts(lines + [GlobalHeader], globalShortcuts, GlobalLayout);
    }
    ghost var afterGlobal := lines;
    assert afterGlobal == [SavedHeader] + GlobalBlock(globalShortcuts);
    if |localShortcuts| > 0 {
      lines := PrintDirectories(lines + [LocalHeader], localShortcuts);
    }
    assert lines == afterGlobal + LocalBlock(localShortcuts);
  }
}
