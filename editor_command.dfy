/**
 * Choosing the editor command that opens the template: a GUI editor on the
 * search path first, then the command named by `VISUAL` or `EDITOR`, then
 * `vi`. The search path is the predicate `which` (whether a program of that
 * name is found) and the environment is a map from variable names to values.
 */
module EditorCommand {
  import opened Wrappers
  import opened Text

  /** The GUI editors, in the order they are tried. */
  const GuiEditors: seq<string> := ["codium", "code", "code-insiders", "subl"]

  /** The flags a GUI editor is started with, so that it blocks until the file is closed. */
  const GuiFlags: seq<string> := ["--new-window", "--wait"]

  /** The environment variables, in the order they are tried. */
  const EditorVariables: seq<string> := ["VISUAL", "EDITOR"]

  datatype EditorError = NoEditorFound

  /** The value of an environment variable, the empty string when it is unset. */
  function EnvValue(env: map<string, string>, name: string): string {
    if name in env then env[name] else ""
  }

  /**
   * The command a variable names: its stripped value split on whitespace,
   * when that value is not blank and its first word is found.
   */
  function VariableCommand(which: string -> bool, env: map<string, string>, name: string): (r: Option<seq<string>>)
    ensures r.Some? <==> !AllSpace(EnvValue(env, name)) && which(FirstWord(Strip(EnvValue(env, name))))
    ensures r.Some? ==> r.value == Words(Strip(EnvValue(env, name)))
  {
    var val := Strip(EnvValue(env, name));
    if val == [] then None
    else
      var parts := Words(val);
      if which(parts[0]) then Some(parts) else None
  }

  /** The first word of a non-blank text. */
  function FirstWord(s: string): string
    requires !AllSpace(s)
  {
    Words(s)[0]
  }

  /** The first GUI editor from position `i` on that is found. */
  function FirstGui(which: string -> bool, i: nat): (r: Option<string>)
    requires i <= |GuiEditors|
    ensures r.None? <==> forall j :: i <= j < |GuiEditors| ==> !which(GuiEditors[j])
    ensures r.Some? ==> exists j :: i <= j < |GuiEditors| && GuiEditors[j] == r.value && which(r.value) &&
                                   (forall k :: i <= k < j ==> !which(GuiEditors[k]))
    decreases |GuiEditors| - i
  {
    if i == |GuiEditors| then None
    else if which(GuiEditors[i]) then Some(GuiEditors[i])
    else FirstGui(which, i + 1)
  }

  /** The command of the first variable from position `k` on that names a usable one. */
  function FirstVariable(which: string -> bool, env: map<string, string>, k: nat): (r: Option<seq<string>>)
    requires k <= |EditorVariables|
    ensures r.None? <==> forall j :: k <= j < |EditorVariables| ==> VariableCommand(which, env, EditorVariables[j]).None?
    ensures r.Some? ==> r.value != [] && which(r.value[0])
    decreases |EditorVariables| - k
  {
    if k == |EditorVariables| then None
    else
      match VariableCommand(which, env, EditorVariables[k])
      case Some(parts) => Some(parts)
      case None => FirstVariable(which, env, k + 1)
  }

  /**
   * The command `find_editor` settles on, in its order of preference.
   * Whatever command is chosen, its program is one that is found.
   */
  function EditorChoice(which: string -> bool, env: map<string, string>): (r: Result<seq<string>, EditorError>)
    ensures r.Ok? ==> r.value != [] && which(r.value[0])
  {
    match FirstGui(which, 0)
    case Some(g) =>
      assert ([g] + GuiFlags)[0] == g;
      Ok([g] + GuiFlags)
    case None =>
      match FirstVariable(which, env, 0)
      case Some(parts) => Ok(parts)
      case None => if which("vi") then Ok(["vi"]) else Err(NoEditorFound)
  }

  /** `find_editor`: the search with early returns, in the order of the preferences. */
  method FindEditor(which: string -> bool, env: map<string, string>) returns (r: Result<seq<string>, EditorError>)
    ensures r == EditorChoice(which, env)
  {
    for i := 0 to |GuiEditors|
      invariant FirstGui(which, 0) == FirstGui(which, i)
    {
      var name := GuiEditors[i];
      if which(name) {
        assert FirstGui(which, i) == Some(name);
        assert [name] + GuiFlags == [name, "--new-window", "--wait"];
        return Ok([name, "--new-window", "--wait"]);
      }
    }
    for k := 0 to |EditorVariables|
      invariant FirstGui(which, 0).None?
      invariant FirstVariable(which, env, 0) == FirstVariable(which, env, k)
    {
      var name := EditorVariables[k];
      var val := Strip(EnvValue(env, name));
      if val != [] {
        var parts := Words(val);
        if which(parts[0]) {
          assert VariableCommand(which, env, name) == Some(parts);
          return Ok(parts);
        }
      }
      assert VariableCommand(which, env, name).None?;
    }
    if which("vi") {
      return Ok(["vi"]);
    }
    return Err(NoEditorFound);
  }

  // ---------------------------------------------------------------------------
  // Properties of the choice
  // ---------------------------------------------------------------------------

  /**
   * No editor is found exactly when no GUI editor is found, neither variable
   * names a usable command and `vi` is not found.
   */
  lemma NoEditorFoundExactly(which: string -> bool, env: map<string, string>)
    ensures EditorChoice(which, env) == Err(NoEditorFound) <==>
      (forall j :: 0 <= j < |GuiEditors| ==> !which(GuiEditors[j])) &&
      VariableCommand(which, env, "VISUAL").None? && VariableCommand(which, env, "EDITOR").None? &&
      !which("vi")
  {
  }

  /**
   * A found GUI editor wins, whatever the environment: the first one found,
   * with the flags that make it wait.
   */
  lemma GuiEditorFirst(which: string -> bool, env: map<string, string>, j: nat)
    requires j < |GuiEditors| && which(GuiEditors[j])
    requires forall k :: 0 <= k < j ==> !which(GuiEditors[k])
    ensures EditorChoice(which, env) == Ok([GuiEditors[j], "--new-window", "--wait"])
  {
    var g := FirstGui(which, 0).value;
    var j' :| 0 <= j' < |GuiEditors| && GuiEditors[j'] == g && which(g) &&
              (forall k :: 0 <= k < j' ==> !which(GuiEditors[k]));
    assert j' == j;
    assert [g] + GuiFlags == [g, "--new-window", "--wait"];
  }

  /** With no GUI editor found, a usable `VISUAL` is used as it is split. */
  lemma VisualBeforeEditor(which: string -> bool, env: map<string, string>)
    requires forall j :: 0 <= j < |GuiEditors| ==> !which(GuiEditors[j])
    requires VariableCommand(which, env, "VISUAL").Some?
    ensures EditorChoice(which, env) == Ok(Words(Strip(EnvValue(env, "VISUAL"))))
  {
  }

  /** With no GUI editor found and `VISUAL` unusable, a usable `EDITOR` is used as it is split. */
  lemma EditorAfterVisual(which: string -> bool, env: map<string, string>)
    requires forall j :: 0 <= j < |GuiEditors| ==> !which(GuiEditors[j])
    requires VariableCommand(which, env, "VISUAL").None? && VariableCommand(which, env, "EDITOR").Some?
    ensures EditorChoice(which, env) == Ok(Words(Strip(EnvValue(env, "EDITOR"))))
  {
  }

  /** `vi` is the last resort. */
  lemma ViLast(which: string -> bool, env: map<string, string>)
    requires forall j :: 0 <= j < |GuiEditors| ==> !which(GuiEditors[j])
    requires VariableCommand(which, env, "VISUAL").None? && VariableCommand(which, env, "EDITOR").None?
    requires which("vi")
    ensures EditorChoice(which, env) == Ok(["vi"])
  {
  }

  /** A variable holding one program name, with whitespace around it, names that program alone. */
  lemma OneWordVariable(which: string -> bool, env: map<string, string>, name: string,
                        pre: string, program: string, post: string)
    requires name in env && env[name] == pre + program + post
    requires AllSpace(pre) && IsWord(program) && AllSpace(post) && which(program)
    ensures VariableCommand(which, env, name) == Some([program])
  {
    assert IsStripped(program);
    StripAround(pre, program, post);
    assert [] + program + [] == program;
    WordsOfOne([], program, []);
  }

  /**
   * A variable holding a program name and its arguments, with whitespace
   * around them, gives that program followed by the words of the arguments.
   */
  lemma ProgramWithArguments(which: string -> bool, env: map<string, string>, name: string,
                             pre: string, program: string, sp: string, args: string, post: string)
    requires name in env && env[name] == pre + program + sp + args + post
    requires AllSpace(pre) && IsWord(program) && sp != [] && AllSpace(sp) && AllSpace(post)
    requires args != [] && IsStripped(args) && which(program)
    ensures VariableCommand(which, env, name) == Some([program] + Words(args))
  {
    var cmd := program + sp + args;
    assert IsStripped(cmd) by {
      assert cmd[0] == program[0];
      assert cmd[|cmd| - 1] == args[|args| - 1];
    }
    assert env[name] == pre + cmd + post;
    StripAround(pre, cmd, post);
    assert cmd == [] + program + sp + args;
    WordsCons([], program, sp, args);
  }
}
