/**
 The run-script command: recover the script name from the item's label, open
 a terminal named after it, send `npm run <name>` to it, and record the
 execution in the recents list.

 The label the tree gives a script item is the bare script name. The extension
 still recovers the name with the pattern `.*:\s(.+)$`, written for an older
 `<folder>: <name>` label format, so a script name that itself contains a
 colon followed by whitespace is cut short. `RunScriptAsWritten` keeps that
 behaviour; `RunScript` runs the item's own name.
 */
module Executor {
  import opened Seqs
  import opened Store
  import opened ScriptTree

  /** The ECMAScript line terminators, which `.` does not match. */
  predicate IsLineTerminator(c: char) {
    c == '\n' || c == '\r' || c as int == 0x2028 || c as int == 0x2029
  }

  /** The characters ECMAScript's `\s` matches: white space and line terminators. */
  predicate IsPatternSpace(c: char) {
    var n := c as int;
    || n == 0x09 || n == 0x0B || n == 0x0C || n == 0x20 || n == 0xA0 || n == 0x1680
    || (0x2000 <= n <= 0x200A) || n == 0x202F || n == 0x205F || n == 0x3000 || n == 0xFEFF
    || IsLineTerminator(c)
  }

  /** The pattern's `:\s` can sit at index `i` of the text and still leave a non-empty name. */
  predicate NameSplitAt(text: string, i: int) {
    0 <= i && i + 2 < |text| && text[i] == ':' && IsPatternSpace(text[i + 1])
  }

  /** The last split point below `upto`, if any. */
  function LastNameSplit(text: string, upto: nat): (r: Option<nat>)
    ensures r.Some? ==> r.value < upto && NameSplitAt(text, r.value)
    ensures r.Some? ==> forall j :: r.value < j < upto ==> !NameSplitAt(text, j)
    ensures r.None? ==> forall j :: 0 <= j < upto ==> !NameSplitAt(text, j)
    decreases upto
  {
    if upto == 0 then None
    else if NameSplitAt(text, upto - 1) then Some(upto - 1)
    else LastNameSplit(text, upto - 1)
  }

  /**
   The script name the extension recovers from a label. For a label without line
   terminators, the greedy `.*` makes `.*:\s(.+)$` capture the text after the
   LAST colon-and-whitespace that leaves at least one character; with no such
   place the whole label is used.
   */
  function NameFromLabel(text: string): (r: string)
    ensures (forall i :: !NameSplitAt(text, i)) ==> r == text
    ensures (exists i :: NameSplitAt(text, i)) ==>
      exists i :: NameSplitAt(text, i) && r == text[i + 2..] && forall j :: NameSplitAt(text, j) ==> j <= i
    ensures |r| <= |text| && r == text[|text| - |r|..]
  {
    match LastNameSplit(text, |text|)
    case None => text
    case Some(i) => text[i + 2..]
  }

  /** What the command hands to the terminal: the terminal's name and the line it sends. */
  datatype Launch = Launch(terminalName: string, commandLine: string)

  /** The outcome of the run-script command. */
  datatype RunOutcome =
    | NoWorkspace                                   // error message shown, nothing recorded
    | Ran(launch: Launch, recents: seq<string>)

  const RunPrefix: string := "npm run "
  const TerminalPrefix: string := "Run: "

  /** The launch for a script name: a terminal `Run: <name>` sent `npm run <name>`. */
  function LaunchFor(name: string): (l: Launch)
    ensures |l.commandLine| == |RunPrefix| + |name| && |l.terminalName| == |TerminalPrefix| + |name|
    ensures l.commandLine[..|RunPrefix|] == RunPrefix && l.commandLine[|RunPrefix|..] == name
    ensures l.terminalName[..|TerminalPrefix|] == TerminalPrefix && l.terminalName[|TerminalPrefix|..] == name
  {
    Launch(TerminalPrefix + name, RunPrefix + name)
  }

  /** The run-script command as src/extension.ts:323-342 writes it: the name comes back out of the label. */
  function RunScriptAsWritten(workspace: Option<string>, item: Script, recents: seq<string>): (r: RunOutcome)
    ensures !HasWorkspace(workspace) <==> r.NoWorkspace?
    ensures r.Ran? ==> r.launch == LaunchFor(NameFromLabel(item.name))
    ensures r.Ran? ==> r.recents == RecordExecution(recents, item.Id())
  {
    if !HasWorkspace(workspace) then NoWorkspace
    else Ran(LaunchFor(NameFromLabel(item.name)), RecordExecution(recents, item.Id()))
  }

  /** A script named `deploy: prod` is launched as `npm run prod`, another script. */
  lemma AsWrittenRunsWrongScript(workspace: string, path: string, recents: seq<string>)
    requires workspace != ""
    ensures var item := Script("deploy: prod", "./deploy.sh --prod", path, false);
      && RunScriptAsWritten(Some(workspace), item, recents).launch.commandLine == "npm run prod"
      && RunScriptAsWritten(Some(workspace), item, recents).launch.commandLine != RunPrefix + item.name
  {
    var text := "deploy: prod";
    assert NameSplitAt(text, 6);
    assert LastNameSplit(text, |text|) == Some(6);
    assert text[8..] == "prod";
  }

  /** The run-script command running the item's own script name. */
  function RunScript(workspace: Option<string>, item: Script, recents: seq<string>): (r: RunOutcome)
    ensures !HasWorkspace(workspace) <==> r.NoWorkspace?
    ensures r.Ran? ==> r.launch.commandLine == RunPrefix + item.name
    ensures r.Ran? ==> r.launch.terminalName == TerminalPrefix + item.name
    ensures r.Ran? ==> r.recents == RecordExecution(recents, item.Id())
  {
    if !HasWorkspace(workspace) then NoWorkspace
    else Ran(LaunchFor(item.name), RecordExecution(recents, item.Id()))
  }

  /** The two agree on every script whose name has no colon followed by whitespace. */
  lemma RunScriptAgreesWithoutSplit(workspace: Option<string>, item: Script, recents: seq<string>)
    requires forall i :: !NameSplitAt(item.name, i)
    ensures RunScriptAsWritten(workspace, item, recents) == RunScript(workspace, item, recents)
  {
  }

  /** Running the same script twice in a row leaves the recents as running it once. */
  lemma RunScriptTwice(workspace: Option<string>, item: Script, recents: seq<string>)
    requires HasWorkspace(workspace)
    ensures var once := RunScript(workspace, item, recents).recents;
      RunScript(workspace, item, once).recents == once
  {
    RecordExecutionIdempotent(recents, item.Id());
  }
}
