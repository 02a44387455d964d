/**
 * The `item add` command: the template is written to a temporary file, the
 * user edits it, the text is read back and parsed, the temporary file is
 * removed whatever happens, and on success one new item, whose points are
 * the sum of its criteria's points, is saved to the items directory.
 *
 * The editor session is a parameter: the text the user leaves in the file,
 * or `None` when the editor process fails.
 */
module Cli {
  import opened Wrappers
  import opened Models
  import opened Editor
  import opened EditorCommand

  /**
   * The points of an item: the sum of its criteria's points, from the first
   * to the last. With no negative points the sum is not negative.
   */
  function TotalPoints(criteria: seq<Criterion>): (total: int)
    ensures (forall j :: 0 <= j < |criteria| ==> criteria[j].points >= 0) ==> total >= 0
  {
    if criteria == [] then 0
    else TotalPoints(criteria[..|criteria| - 1]) + criteria[|criteria| - 1].points
  }

  /** Summing two lists of criteria one after the other adds their totals. */
  lemma {:induction false} TotalPointsAppend(a: seq<Criterion>, b: seq<Criterion>)
    ensures TotalPoints(a + b) == TotalPoints(a) + TotalPoints(b)
    decreases |b|
  {
    if b == [] {
      assert a + b == a;
    } else {
      var b' := b[..|b| - 1];
      TotalPointsAppend(a, b');
      assert (a + b)[..|a + b| - 1] == a + b';
    }
  }

  /** No criteria give no points; one criterion gives its own points. */
  lemma TotalPointsSmall(c: Criterion)
    ensures TotalPoints([]) == 0
    ensures TotalPoints([c]) == c.points
  {
    assert [c][..0] == [];
  }

  /** With no negative points, the total is at least the points of any one criterion. */
  lemma {:induction false} TotalPointsBound(criteria: seq<Criterion>, i: nat)
    requires i < |criteria|
    requires forall j :: 0 <= j < |criteria| ==> criteria[j].points >= 0
    ensures TotalPoints(criteria) >= criteria[i].points
    decreases |criteria|
  {
    var front := criteria[..|criteria| - 1];
    assert forall j :: 0 <= j < |front| ==> front[j].points >= 0 by {
      forall j | 0 <= j < |front|
        ensures front[j].points >= 0
      {
        assert front[j] == criteria[j];
      }
    }
    if i < |criteria| - 1 {
      TotalPointsBound(front, i);
    }
  }

  /** Why `item add` saves nothing. */
  datatype AddError =
    | NoEditor                          // no editor to open the file with
    | EditorFailed                      // the editor exited with an error or could not be started
    | InvalidTemplate(error: ParseError) // the edited text is refused by the template parser

  /** The name of the file an item is saved to, in the items directory. */
  function ItemFileName(id: string): (name: string)
    ensures |name| == |id| + 5 && name[..|id|] == id && name[|id|..] == ".yaml"
  {
    id + ".yaml"
  }

  /** Two ids never share a file name, so a saved item is found again under its own id only. */
  lemma ItemFileNameInjective(a: string, b: string)
    ensures ItemFileName(a) == ItemFileName(b) ==> a == b
  {
    if ItemFileName(a) == ItemFileName(b) {
      assert |a| == |b|;
      assert a == ItemFileName(a)[..|a|];
    }
  }

  /** The item built from a parsed template, with a fresh id. */
  function ItemFrom(uuidHex: string, parsed: ParsedTemplate): Item
    requires IsUuidHex(uuidHex)
  {
    NewItem(uuidHex, parsed.body, TotalPoints(parsed.criteria), parsed.courses, parsed.criteria, parsed.solution)
  }

  /**
   * What `item add` ends with: the item to save, or why nothing is saved.
   * `edited` is the text left in the temporary file, `None` when the
   * editor fails.
   */
  function AddOutcome(which: string -> bool, env: map<string, string>, edited: Option<string>, uuidHex: string)
    : (r: Result<Item, AddError>)
    requires IsUuidHex(uuidHex)
    ensures r == Err(NoEditor) <==> EditorChoice(which, env).Err?
    ensures r == Err(EditorFailed) <==> EditorChoice(which, env).Ok? && edited.None?
    ensures r.Ok? ==> r.value.id == uuidHex[..8] && r.value.points == TotalPoints(r.value.criteria)
  {
    if EditorChoice(which, env).Err? then Err(NoEditor)
    else
      match edited
      case None => Err(EditorFailed)
      case Some(content) =>
        match TemplateSpec(content)
        case Err(e) => Err(InvalidTemplate(e))
        case Ok(parsed) => Ok(ItemFrom(uuidHex, parsed))
  }

  /**
   * The files `item add` works on: the items directory, by file name, and
   * the temporary files with their text.
   */
  class ItemStore {
    var files: map<string, Item>
    var temp: map<string, string>

    constructor(files: map<string, Item>)
      ensures this.files == files && temp == map[]
    {
      this.files := files;
      temp := map[];
    }

    /** Removing a file undoes any write to it. */
    static lemma RemoveWritten(m: map<string, string>, path: string, text: string)
      ensures m[path := text] - {path} == m - {path}
    {
    }

    /** Saving under a new file name adds exactly one file. */
    static lemma SavedOneMore(m: map<string, Item>, name: string, item: Item)
      requires name !in m
      ensures |m[name := item]| == |m| + 1
    {
      assert m[name := item].Keys == m.Keys + {name};
    }

    /**
     * `item add`: write the template to `tmpPath`, open the editor on it,
     * read the text back and parse it, remove the temporary file on every
     * path, and save the new item only when the text parses.
     */
    method ItemAdd(which: string -> bool, env: map<string, string>, template: string, tmpPath: string,
                   edited: Option<string>, uuidHex: string) returns (r: Result<string, AddError>)
      requires IsUuidHex(uuidHex)
      modifies this
      ensures temp == old(temp) - {tmpPath}
      ensures match AddOutcome(which, env, edited, uuidHex)
        case Ok(item) => r == Ok(ItemFileName(item.id)) && files == old(files)[r.value := item]
        case Err(e) => r == Err(e) && files == old(files)
      ensures r.Ok? && r.value !in old(files) ==> |files| == |old(files)| + 1
    {
      var before := temp;
      temp := temp[tmpPath := template];
      var command := FindEditor(which, env);
      if command.Err? {
        RemoveWritten(before, tmpPath, template);
        temp := temp - {tmpPath};
        assert AddOutcome(which, env, edited, uuidHex) == Err(NoEditor);
        return Err(NoEditor);
      }
      if edited.None? {
        RemoveWritten(before, tmpPath, template);
        temp := temp - {tmpPath};
        assert AddOutcome(which, env, edited, uuidHex) == Err(EditorFailed);
        return Err(EditorFailed);
      }
      temp := before[tmpPath := edited.value];  // the text the editor leaves in the file
      var content := temp[tmpPath];
      var parsed := ParseTemplate(content);
      RemoveWritten(before, tmpPath, edited.value);
      temp := temp - {tmpPath};
      if parsed.Err? {
        assert AddOutcome(which, env, edited, uuidHex) == Err(InvalidTemplate(parsed.error));
        return Err(InvalidTemplate(parsed.error));
      }
      var points := TotalPoints(parsed.value.criteria);
      var item := NewItem(uuidHex, parsed.value.body, points, parsed.value.courses,
                          parsed.value.criteria, parsed.value.solution);
      assert AddOutcome(which, env, edited, uuidHex) == Ok(item);
      var path := ItemFileName(item.id);
      if path !in files {
        SavedOneMore(files, path, item);
      }
      files := files[path := item];
      return Ok(path);
    }
  }

  // ---------------------------------------------------------------------------
  // Properties of the outcome
  // ---------------------------------------------------------------------------

  /**
   * An item is saved exactly when an editor is found, it exits normally and
   * the text it leaves parses.
   */
  lemma SavedExactly(which: string -> bool, env: map<string, string>, edited: Option<string>, uuidHex: string)
    requires IsUuidHex(uuidHex)
    ensures AddOutcome(which, env, edited, uuidHex).Ok? <==>
      EditorChoice(which, env).Ok? && edited.Some? && TemplateSpec(edited.value).Ok?
  {
  }

  /**
   * The saved item carries the parsed body, criteria, courses and solution
   * unchanged, an 8-character id, and the sum of the criteria's points.
   */
  lemma SavedItemFields(which: string -> bool, env: map<string, string>, content: string, uuidHex: string)
    requires IsUuidHex(uuidHex)
    requires AddOutcome(which, env, Some(content), uuidHex).Ok?
    ensures TemplateSpec(content).Ok?
    ensures var item, parsed := AddOutcome(which, env, Some(content), uuidHex).value, TemplateSpec(content).value;
      item.body == parsed.body && item.criteria == parsed.criteria &&
      item.courses == parsed.courses && item.solution == parsed.solution &&
      item.points == TotalPoints(parsed.criteria) && |item.id| == 8
  {
  }

  /** A template the parser refuses is reported with the parser's error, and nothing is saved. */
  lemma ParseErrorSurfaced(which: string -> bool, env: map<string, string>, content: string, uuidHex: string)
    requires IsUuidHex(uuidHex)
    requires EditorChoice(which, env).Ok? && TemplateSpec(content).Err?
    ensures AddOutcome(which, env, Some(content), uuidHex) == Err(InvalidTemplate(TemplateSpec(content).error))
  {
  }

  /** A template with no criteria gives an item worth no points. */
  lemma NoCriteriaNoPoints(which: string -> bool, env: map<string, string>, content: string, uuidHex: string)
    requires IsUuidHex(uuidHex)
    requires AddOutcome(which, env, Some(content), uuidHex).Ok?
    requires TemplateSpec(content).value.criteria == []
    ensures AddOutcome(which, env, Some(content), uuidHex).value.points == 0
  {
  }
}
