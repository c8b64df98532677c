/**
 * The task record and its closed enumerations (app/types/task.ts), the
 * "has a title" test both pages apply, and the browser's localStorage as the
 * pages use it.
 */
module TaskTypes {
  import opened Wrappers
  import opened JsString
  import opened JsArray

  datatype Layer = Deadline | Investment | Desire

  datatype Category = Work | Study | Private | Other

  datatype AppraisalMode = Sweet | Normal | Spicy

  /** The string a mode is stored and compared as. */
  function ModeName(m: AppraisalMode): (name: string)
    ensures name != ""
  {
    match m
    case Sweet => "sweet"
    case Normal => "normal"
    case Spicy => "spicy"
  }

  /** A task; `description` and `deadline` may be absent. */
  datatype Task = Task(
    id: string,
    title: string,
    description: Option<string>,
    intensity: int,
    deadline: Option<string>,
    layer: Layer,
    category: Category)

  /**
   * The task counts as entered: its title is not all whitespace, which is
   * `t.title.trim() !== ""` (see `HasTitleIffTrimmed`).
   */
  predicate HasTitle(t: Task)
    ensures HasTitle(t) ==> t.title != ""
  {
    !IsBlank(t.title)
  }

  /** The title test is the app's `t.title.trim() !== ""`. */
  lemma HasTitleIffTrimmed(t: Task)
    ensures HasTitle(t) <==> Trim(t.title) != ""
  {
    TrimEmptyIffBlank(t.title);
  }

  /** `tasks.filter((t) => t.title.trim() !== "")`. */
  function TitledTasks(tasks: seq<Task>): (r: seq<Task>)
    ensures forall i :: 0 <= i < |r| ==> HasTitle(r[i])
    ensures |r| == |tasks| <==> forall i :: 0 <= i < |tasks| ==> HasTitle(tasks[i])
    ensures |r| == 0 <==> forall i :: 0 <= i < |tasks| ==> !HasTitle(tasks[i])
  {
    var r := Filter(tasks, HasTitle);
    assert |r| == 0 ==> forall i :: 0 <= i < |tasks| ==> !HasTitle(tasks[i]) by {
      forall i | 0 <= i < |tasks| && HasTitle(tasks[i]) ensures |r| > 0 {
        FilterKeeps(tasks, HasTitle, i);
      }
    }
    assert (forall i :: 0 <= i < |tasks| ==> !HasTitle(tasks[i])) ==> |r| == 0 by {
      if |r| > 0 {
        assert HasTitle(r[0]) && r[0] in tasks;
      }
    }
    assert (forall i :: 0 <= i < |tasks| ==> HasTitle(tasks[i])) ==> r == tasks by {
      if forall i :: 0 <= i < |tasks| ==> HasTitle(tasks[i]) {
        FilterKeepsAll(tasks, HasTitle);
      }
    }
    assert |r| == |tasks| ==> forall i :: 0 <= i < |tasks| ==> HasTitle(tasks[i]) by {
      if |r| == |tasks| {
        FilterFullLength(tasks, HasTitle);
      }
    }
    r
  }

  /**
   * The titled tasks are drawn from the input, and each titled task is kept
   * exactly as often as it occurs there.
   */
  lemma TitledTasksCounts(tasks: seq<Task>)
    ensures multiset(TitledTasks(tasks)) <= multiset(tasks)
    ensures forall i :: 0 <= i < |tasks| && HasTitle(tasks[i]) ==>
              multiset(TitledTasks(tasks))[tasks[i]] == multiset(tasks)[tasks[i]]
  {
    FilterSubMultiset(tasks, HasTitle);
    forall i | 0 <= i < |tasks| && HasTitle(tasks[i])
      ensures multiset(TitledTasks(tasks))[tasks[i]] == multiset(tasks)[tasks[i]]
    {
      FilterCount(tasks, HasTitle, tasks[i]);
    }
  }

  /** localStorage, one field per key the pages use (absent = `null`). */
  datatype Storage = Storage(
    tasks: Option<seq<Task>>,
    appraisalMode: Option<string>,
    isDarkMode: Option<string>,
    appLang: Option<string>)

  /** `JSON.stringify` of a boolean. */
  function BoolJson(b: bool): (s: string)
    ensures s == "true" <==> b
  {
    if b then "true" else "false"
  }
}
