// The command-line entry point: which tools the arguments (or the
// interactive prompt) select, and the order in which their installers run.

module Cli {
  import opened Wrappers
  import Prompt

  /** One installable tool (the source's `label` is `title` here: `label` is a Dafny keyword). */
  datatype Tool = Tool(id: string, title: string, description: string)

  /** The `tools` table, in the order the installers run under `--all`. */
  const Tools: seq<Tool> := [
    Tool("ghostty", "Ghostty", "terminal emulator"),
    Tool("neovim", "Neovim", "editor (LazyVim compatible)"),
    Tool("zed", "Zed", "text editor"),
    Tool("opencode", "OpenCode", "AI coding agent"),
    Tool("warp", "Warp", "terminal emulator")
  ]

  const AllFlag: string := "--all"

  /** `tools.map((t) => t.id)`. */
  function ToolIds(): (ids: seq<string>)
    ensures |ids| == |Tools|
    ensures forall i :: 0 <= i < |Tools| ==> ids[i] == Tools[i].id
  {
    seq(|Tools|, i requires 0 <= i < |Tools| => Tools[i].id)
  }

  /** The five ids, distinct, and none of them is the `--all` flag. */
  lemma ToolTable()
    ensures ToolIds() == ["ghostty", "neovim", "zed", "opencode", "warp"]
    ensures forall i, j :: 0 <= i < j < |ToolIds()| ==> ToolIds()[i] != ToolIds()[j]
    ensures AllFlag !in ToolIds()
  {
    assert ToolIds() == ["ghostty", "neovim", "zed", "opencode", "warp"];
  }

  predicate IsValidId(a: string)
  {
    a in ToolIds()
  }

  /** `args.filter((a) => !validIds.has(a) && a !== "--all")`. */
  function InvalidArgs(args: seq<string>): (inv: seq<string>)
    ensures |inv| <= |args|
  {
    if args == [] then []
    else (if !IsValidId(args[0]) && args[0] != AllFlag then [args[0]] else []) + InvalidArgs(args[1..])
  }

  /** `args.filter((a) => validIds.has(a))`. */
  function ValidArgs(args: seq<string>): (ids: seq<string>)
    ensures |ids| <= |args|
  {
    if args == [] then []
    else (if IsValidId(args[0]) then [args[0]] else []) + ValidArgs(args[1..])
  }

  /** The unknown arguments are exactly those that are neither tool ids nor the flag. */
  lemma {:induction false} InvalidArgsMembers(args: seq<string>)
    ensures forall a :: a in InvalidArgs(args) <==> a in args && !IsValidId(a) && a != AllFlag
  {
    if args != [] {
      InvalidArgsMembers(args[1..]);
      assert args == [args[0]] + args[1..];
    }
  }

  /** Filtering an all-valid list keeps it whole: order and duplicates included. */
  lemma {:induction false} ValidArgsOfValid(args: seq<string>)
    requires forall a :: a in args ==> IsValidId(a)
    ensures ValidArgs(args) == args
  {
    if args != [] {
      assert forall a :: a in args[1..] ==> a in args;
      ValidArgsOfValid(args[1..]);
      assert args == [args[0]] + args[1..];
    }
  }

  /** The result of the argument rule. */
  datatype Selection =
    | Selected(ids: seq<string>)       // install these, in this order
    | UnknownTools(invalid: seq<string>) // report them and exit with status 1
    | AskUser                          // no arguments: run the interactive prompt

  /** `--all` anywhere, else the arguments checked and filtered, else the prompt. */
  function SelectionFor(args: seq<string>): Selection
  {
    if AllFlag in args then Selected(ToolIds())
    else if |args| > 0 then
      var invalid := InvalidArgs(args);
      if |invalid| > 0 then UnknownTools(invalid) else Selected(ValidArgs(args))
    else AskUser
  }

  /** `tools.find((t) => t.id === id)`. */
  function FindTool(id: string): (r: Option<Tool>)
    ensures r.Some? ==> r.value in Tools && r.value.id == id
    ensures r.None? <==> !IsValidId(id)
  {
    FindFrom(id, 0)
  }

  function FindFrom(id: string, i: nat): (r: Option<Tool>)
    requires i <= |Tools|
    ensures r.Some? ==> r.value in Tools && r.value.id == id
    ensures r.None? <==> forall j :: i <= j < |Tools| ==> Tools[j].id != id
    decreases |Tools| - i
  {
    if i == |Tools| then None
    else if Tools[i].id == id then Some(Tools[i])
    else FindFrom(id, i + 1)
  }

  /** The installers the loop invokes for `ids`, by tool id, in order. */
  function InstallLog(ids: seq<string>): (log: seq<string>)
    ensures |log| <= |ids|
  {
    if ids == [] then []
    else InstallLog(ids[..|ids| - 1]) + (if IsValidId(ids[|ids| - 1]) then [ids[|ids| - 1]] else [])
  }

  /** Every valid id in the selection runs its installer once per occurrence, in selection order. */
  lemma {:induction false} InstallLogOfValid(ids: seq<string>)
    requires forall a :: a in ids ==> IsValidId(a)
    ensures InstallLog(ids) == ids
  {
    if ids != [] {
      var init := ids[..|ids| - 1];
      assert forall a :: a in init ==> a in ids;
      InstallLogOfValid(init);
      assert ids == init + [ids[|ids| - 1]];
    }
  }

  /** How a run ends. */
  datatype Outcome =
    | ReportedUnknown(invalid: seq<string>) // "Unknown tool(s)", exit status 1
    | NothingSelected                       // "No tools selected", exit status 0
    | Installed(log: seq<string>)           // these installers ran, in order

  function ExitCode(o: Outcome): int
  {
    match o
    case ReportedUnknown(_) => 1
    case NothingSelected => 0
    case Installed(_) => 0
  }

  /** What a run does with the ids it settled on. */
  function Finish(ids: seq<string>): Outcome
  {
    if |ids| == 0 then NothingSelected else Installed(InstallLog(ids))
  }

  /** The whole run for `args`, where `prompted` is what the prompt would return. */
  function RunOutcome(args: seq<string>, prompted: seq<string>): Outcome
  {
    match SelectionFor(args)
    case UnknownTools(invalid) => ReportedUnknown(invalid)
    case Selected(ids) => Finish(ids)
    case AskUser => Finish(prompted)
  }

  /**
   * `run`: settle on the ids, stop when there are none, then invoke each
   * id's installer in turn. The prompt's answer is a parameter; the
   * installers' own effects are out of scope, so the run reports which
   * installers it invoked, in order.
   */
  method Run(args: seq<string>, prompted: seq<string>) returns (o: Outcome)
    ensures o == RunOutcome(args, prompted)
  {
    var selectedIds: seq<string>;
    if AllFlag in args {
      selectedIds := ToolIds();
    } else if |args| > 0 {
      var invalid := InvalidArgs(args);
      if |invalid| > 0 {
        return ReportedUnknown(invalid);
      }
      selectedIds := ValidArgs(args);
    } else {
      selectedIds := prompted;
    }

    if |selectedIds| == 0 {
      return NothingSelected;
    }

    var installed: seq<string> := [];
    for i := 0 to |selectedIds|
      invariant installed == InstallLog(selectedIds[..i])
    {
      var tool := FindTool(selectedIds[i]);
      if tool.Some? {
        installed := installed + [tool.value.id];
      }
      assert selectedIds[..i + 1][..i] == selectedIds[..i];
    }
    assert selectedIds[..|selectedIds|] == selectedIds;
    return Installed(installed);
  }

  // ---------------------------------------------------------------------
  // The rule's cases.
  // ---------------------------------------------------------------------

  /** `--all` anywhere installs every tool in table order, whatever else is given. */
  lemma AllFlagInstallsEverything(args: seq<string>, prompted: seq<string>)
    requires AllFlag in args
    ensures RunOutcome(args, prompted) == Installed(ToolIds())
    ensures ExitCode(RunOutcome(args, prompted)) == 0
  {
    InstallLogOfValid(ToolIds());
  }

  /** Any unknown argument (without `--all`) aborts with status 1 and installs nothing. */
  lemma UnknownArgumentFails(args: seq<string>, prompted: seq<string>, a: string)
    requires AllFlag !in args && a in args && !IsValidId(a)
    ensures RunOutcome(args, prompted).ReportedUnknown?
    ensures ExitCode(RunOutcome(args, prompted)) == 1
    ensures forall x :: x in RunOutcome(args, prompted).invalid <==> x in args && !IsValidId(x)
  {
    InvalidArgsMembers(args);
    assert a in InvalidArgs(args);
  }

  /** Valid arguments (without `--all`) install exactly themselves: in order, duplicates twice. */
  lemma ValidArgumentsInstallThemselves(args: seq<string>, prompted: seq<string>)
    requires |args| > 0 && forall a :: a in args ==> IsValidId(a)
    ensures RunOutcome(args, prompted) == Installed(args)
    ensures ExitCode(RunOutcome(args, prompted)) == 0
  {
    ToolTable();
    InvalidArgsMembers(args);
    if |InvalidArgs(args)| > 0 {
      assert InvalidArgs(args)[0] in InvalidArgs(args);
    }
    ValidArgsOfValid(args);
    InstallLogOfValid(args);
  }

  /** A duplicated id runs its installer twice. */
  lemma DuplicateInstallsTwice()
    ensures RunOutcome(["zed", "zed"], []) == Installed(["zed", "zed"])
  {
    ToolTable();
    ValidArgumentsInstallThemselves(["zed", "zed"], []);
  }

  /** An empty selection warns, exits with status 0 and installs nothing. */
  lemma EmptySelectionInstallsNothing()
    ensures RunOutcome([], []) == NothingSelected
    ensures ExitCode(RunOutcome([], [])) == 0
  {
  }

  /** The prompt lists the tools, each offering its id as the value. */
  function ToolChoices(): (cs: seq<Prompt.Choice>)
    ensures |cs| == |Tools|
    ensures forall i :: 0 <= i < |Tools| ==> cs[i].value == Tools[i].id
  {
    seq(|Tools|, i requires 0 <= i < |Tools| =>
      Prompt.Choice(Tools[i].title, Tools[i].id, Tools[i].description))
  }

  /**
   * With no arguments, confirming the prompt installs exactly the
   * tools left selected, in table order (five tools: the string order of
   * their indices is the numeric one), and nothing when none is left.
   */
  lemma PromptSelectionInstalls(selected: set<nat>)
    requires forall i: nat :: i in selected ==> i < |Tools|
    ensures var vs := Prompt.ConfirmedValues(ToolChoices(), selected);
      RunOutcome([], vs) == (if selected == {} then NothingSelected else Installed(vs))
    ensures var order := Prompt.ConfirmedIndices(selected, |Tools|);
      forall p, q :: 0 <= p < q < |order| ==> order[p] < order[q]
  {
    var cs := ToolChoices();
    var vs := Prompt.ConfirmedValues(cs, selected);
    Prompt.ConfirmedValuesFacts(cs, selected);
    Prompt.ConfirmedIndicesNumericBelowTen(selected, |Tools|);
    forall a | a in vs ensures IsValidId(a) {
      var p :| 0 <= p < |vs| && vs[p] == a;
      var idx := Prompt.ConfirmedIndices(selected, |cs|)[p];
      assert a == Tools[idx].id == ToolIds()[idx];
    }
    InstallLogOfValid(vs);
  }
}
