/**
 * The task deck of app/page.tsx: the component state (`tasks`,
 * `isDarkMode`, `appraisalMode`, `isAnalyzing`), the localStorage it writes,
 * and the handlers that replace that state.
 *
 * `tasks` lives in a storage-backed hook that writes the whole list to the
 * "tasks" key on every update; that write-through is part of each update
 * here. Answers of `window.confirm`, the fresh id from `uuid()` and today's
 * ISO date are parameters.
 */
module Home {
  import opened Wrappers
  import opened JsString
  import opened JsArray
  import opened TaskTypes

  /** One `updateTask(id, field, value)` edit: the field and its new value. */
  datatype FieldUpdate =
    | SetId(newId: string)
    | SetTitle(title: string)
    | SetDescription(description: string)
    | SetIntensity(intensity: int)
    | SetDeadline(deadline: string)
    | SetLayer(layer: Layer)
    | SetCategory(category: Category)

  /** `{ ...t, [field]: value }`. */
  function WithField(t: Task, u: FieldUpdate): (r: Task)
    ensures r.id == (if u.SetId? then u.newId else t.id)
    ensures r.title == (if u.SetTitle? then u.title else t.title)
    ensures r.description == (if u.SetDescription? then Some(u.description) else t.description)
    ensures r.intensity == (if u.SetIntensity? then u.intensity else t.intensity)
    ensures r.deadline == (if u.SetDeadline? then Some(u.deadline) else t.deadline)
    ensures r.layer == (if u.SetLayer? then u.layer else t.layer)
    ensures r.category == (if u.SetCategory? then u.category else t.category)
  {
    match u
    case SetId(v) => t.(id := v)
    case SetTitle(v) => t.(title := v)
    case SetDescription(v) => t.(description := Some(v))
    case SetIntensity(v) => t.(intensity := v)
    case SetDeadline(v) => t.(deadline := Some(v))
    case SetLayer(v) => t.(layer := v)
    case SetCategory(v) => t.(category := v)
  }

  /** Applying an edit twice is applying it once. */
  lemma WithFieldIdempotent(t: Task, u: FieldUpdate)
    ensures WithField(WithField(t, u), u) == WithField(t, u)
  {
  }

  /** `prev.map((t) => (t.id === id ? { ...t, [field]: value } : t))`. */
  function UpdateWhere(tasks: seq<Task>, id: string, u: FieldUpdate): (r: seq<Task>)
    ensures |r| == |tasks|
    ensures forall i :: 0 <= i < |tasks| && tasks[i].id != id ==> r[i] == tasks[i]
    ensures forall i :: 0 <= i < |tasks| && tasks[i].id == id ==> r[i] == WithField(tasks[i], u)
  {
    if tasks == [] then []
    else [if tasks[0].id == id then WithField(tasks[0], u) else tasks[0]] + UpdateWhere(tasks[1..], id, u)
  }

  /** An id no task has: the update changes nothing. */
  lemma UpdateMissingId(tasks: seq<Task>, id: string, u: FieldUpdate)
    requires forall i :: 0 <= i < |tasks| ==> tasks[i].id != id
    ensures UpdateWhere(tasks, id, u) == tasks
  {
  }

  /**
   * Repeating an update changes nothing more: a task the first pass edited
   * either still has the id and takes the same edit again, or was given a
   * new id and is no longer matched.
   */
  lemma UpdateIdempotent(tasks: seq<Task>, id: string, u: FieldUpdate)
    ensures UpdateWhere(UpdateWhere(tasks, id, u), id, u) == UpdateWhere(tasks, id, u)
  {
    var once := UpdateWhere(tasks, id, u);
    var twice := UpdateWhere(once, id, u);
    forall i | 0 <= i < |tasks| ensures twice[i] == once[i] {
      if tasks[i].id == id {
        WithFieldIdempotent(tasks[i], u);
      }
    }
  }

  /** `tasks.find((t) => t.id === id)`. */
  function FindById(tasks: seq<Task>, id: string): (r: Option<Task>)
    ensures r.None? <==> forall i :: 0 <= i < |tasks| ==> tasks[i].id != id
    ensures r.Some? ==> exists i :: 0 <= i < |tasks| && tasks[i] == r.value && tasks[i].id == id
                          && forall j :: 0 <= j < i ==> tasks[j].id != id
  {
    if tasks == [] then None
    else if tasks[0].id == id then Some(tasks[0])
    else
      var r := FindById(tasks[1..], id);
      assert r.Some? ==> exists i :: 1 <= i < |tasks| && tasks[i] == r.value && tasks[i].id == id
                            && forall j :: 0 <= j < i ==> tasks[j].id != id by {
        if r.Some? {
          var k :| 0 <= k < |tasks[1..]| && tasks[1..][k] == r.value && tasks[1..][k].id == id
                   && forall j :: 0 <= j < k ==> tasks[1..][j].id != id;
          assert forall j :: 1 <= j < k + 1 ==> tasks[j].id != id by {
            forall j | 1 <= j < k + 1 ensures tasks[j].id != id {
              assert tasks[j] == tasks[1..][j - 1];
            }
          }
        }
      }
      r
  }

  /** The test `t.id !== id`. */
  function NotId(id: string): Task -> bool {
    (t: Task) => t.id != id
  }

  /** `prev.filter((t) => t.id !== id)`: every task with that id goes, each other task stays as often as it was. */
  function WithoutId(tasks: seq<Task>, id: string): (r: seq<Task>)
    ensures forall i :: 0 <= i < |r| ==> r[i].id != id && r[i] in tasks
    ensures forall i :: 0 <= i < |tasks| && tasks[i].id != id ==> tasks[i] in r
    ensures forall k :: multiset(r)[k] == if k.id == id then 0 else multiset(tasks)[k]
    ensures (forall i :: 0 <= i < |tasks| ==> tasks[i].id != id) ==> r == tasks
  {
    forall i | 0 <= i < |tasks| && tasks[i].id != id ensures tasks[i] in Filter(tasks, NotId(id)) {
      FilterKeeps(tasks, NotId(id), i);
    }
    forall k ensures multiset(Filter(tasks, NotId(id)))[k] == if k.id == id then 0 else multiset(tasks)[k] {
      if k.id != id {
        FilterCount(tasks, NotId(id), k);
      }
    }
    assert (forall i :: 0 <= i < |tasks| ==> tasks[i].id != id) ==> Filter(tasks, NotId(id)) == tasks by {
      if forall i :: 0 <= i < |tasks| ==> tasks[i].id != id {
        FilterKeepsAll(tasks, NotId(id));
      }
    }
    Filter(tasks, NotId(id))
  }

  /** Removing from a concatenation removes from each part: the remaining tasks keep their order. */
  lemma WithoutIdAppend(a: seq<Task>, b: seq<Task>, id: string)
    ensures WithoutId(a + b, id) == WithoutId(a, id) + WithoutId(b, id)
  {
    FilterAppend(a, b, NotId(id));
  }

  /** The task a new click on "add" creates. */
  function NewTask(freshId: string, today: string): (t: Task)
    ensures !HasTitle(t)
  {
    Task(freshId, "", Some(""), 50, Some(today), Investment, Work)
  }

  /** How `handleGoToResult` ends. */
  datatype GoOutcome =
    | NoValidTasks   // the alert is shown and nothing else happens
    | Declined       // the user refused to drop the untitled tasks
    | Proceeded      // storage written, analysing, navigating to the result page

  /** How `handleGoToResult` ends, and whether it asked the user first. */
  datatype Decision = Decision(outcome: GoOutcome, asked: bool)

  /** What `handleGoToResult` writes before navigating. */
  function SaveForResult(storage: Storage, valid: seq<Task>, mode: AppraisalMode, isDark: bool): (r: Storage)
    ensures r.tasks == Some(valid)
    ensures r.appraisalMode.Some? && r.appraisalMode.value == ModeName(mode) && r.appraisalMode.value != ""
    ensures r.isDarkMode.Some? && (r.isDarkMode.value == "true" <==> isDark)
    ensures r.appLang == storage.appLang
  {
    storage.(tasks := Some(valid), appraisalMode := Some(ModeName(mode)), isDarkMode := Some(BoolJson(isDark)))
  }

  /**
   * The checks `handleGoToResult` makes before leaving: the outcome and
   * whether the user was asked to drop the untitled tasks (`confirmed` is
   * the answer). With no titled task it stops; with some untitled ones it
   * asks, and stops unless confirmed.
   */
  function GoDecision(tasks: seq<Task>, confirmed: bool): (d: Decision)
    ensures d.outcome == NoValidTasks <==> forall i :: 0 <= i < |tasks| ==> !HasTitle(tasks[i])
    ensures d.asked <==> (exists i :: 0 <= i < |tasks| && HasTitle(tasks[i]))
                         && (exists i :: 0 <= i < |tasks| && !HasTitle(tasks[i]))
    ensures d.outcome == Declined <==> d.asked && !confirmed
    ensures d.outcome == Proceeded <==>
              (exists i :: 0 <= i < |tasks| && HasTitle(tasks[i])) && !(d.asked && !confirmed)
  {
    var valid := TitledTasks(tasks);
    var asked := |valid| != 0 && |valid| < |tasks|;
    if |valid| == 0 then Decision(NoValidTasks, asked)
    else if asked && !confirmed then Decision(Declined, asked)
    else Decision(Proceeded, asked)
  }

  class HomePage {
    var tasks: seq<Task>
    var isDarkMode: bool
    var appraisalMode: AppraisalMode
    var isAnalyzing: bool
    var storage: Storage
    var navigatedToResult: bool

    /** The first render: no tasks yet, dark theme, normal mode. */
    constructor (storage: Storage)
      ensures tasks == [] && isDarkMode && appraisalMode == Normal
      ensures !isAnalyzing && !navigatedToResult && this.storage == storage
    {
      tasks := [];
      isDarkMode := true;
      appraisalMode := Normal;
      isAnalyzing := false;
      this.storage := storage;
      navigatedToResult := false;
    }

    /** `setTasks(next)`: the state and the "tasks" key both become `next`. */
    method SetTasks(next: seq<Task>)
      modifies this
      ensures tasks == next && storage == old(storage).(tasks := Some(next))
      ensures isDarkMode == old(isDarkMode) && appraisalMode == old(appraisalMode)
      ensures isAnalyzing == old(isAnalyzing) && navigatedToResult == old(navigatedToResult)
    {
      tasks := next;
      storage := storage.(tasks := Some(next));
    }

    /** `addTask`: a blank task goes to the front. */
    method AddTask(freshId: string, today: string)
      modifies this
      ensures tasks == [NewTask(freshId, today)] + old(tasks)
      ensures storage == old(storage).(tasks := Some(tasks))
      ensures isDarkMode == old(isDarkMode) && appraisalMode == old(appraisalMode)
      ensures isAnalyzing == old(isAnalyzing) && navigatedToResult == old(navigatedToResult)
    {
      SetTasks([NewTask(freshId, today)] + tasks);
    }

    /** `updateTask(id, field, value)`: every task with the id gets the edit. */
    method UpdateTask(id: string, u: FieldUpdate)
      modifies this
      ensures tasks == UpdateWhere(old(tasks), id, u)
      ensures storage == old(storage).(tasks := Some(tasks))
      ensures isDarkMode == old(isDarkMode) && appraisalMode == old(appraisalMode)
      ensures isAnalyzing == old(isAnalyzing) && navigatedToResult == old(navigatedToResult)
    {
      SetTasks(UpdateWhere(tasks, id, u));
    }

    /**
     * `removeTask(id)`: nothing for an unknown id; a blank-titled task goes
     * at once; a titled one only when `confirmed` (the answer to the
     * question, which `asked` says was put).
     */
    method RemoveTask(id: string, confirmed: bool) returns (asked: bool)
      modifies this
      ensures asked <==> FindById(old(tasks), id).Some? && HasTitle(FindById(old(tasks), id).value)
      ensures FindById(old(tasks), id).None? ==> tasks == old(tasks) && storage == old(storage)
      ensures FindById(old(tasks), id).Some? && !HasTitle(FindById(old(tasks), id).value) ==>
                tasks == WithoutId(old(tasks), id) && storage == old(storage).(tasks := Some(tasks))
      ensures asked && confirmed ==>
                tasks == WithoutId(old(tasks), id) && storage == old(storage).(tasks := Some(tasks))
      ensures asked && !confirmed ==> tasks == old(tasks) && storage == old(storage)
      ensures isDarkMode == old(isDarkMode) && appraisalMode == old(appraisalMode)
      ensures isAnalyzing == old(isAnalyzing) && navigatedToResult == old(navigatedToResult)
    {
      asked := false;
      var target := FindById(tasks, id);
      if target.None? {
        return;
      }
      if IsBlank(target.value.title) {
        SetTasks(WithoutId(tasks, id));
      } else {
        asked := true;
        if confirmed {
          SetTasks(WithoutId(tasks, id));
        }
      }
    }

    /** The mode buttons: `setAppraisalMode(m)`. */
    method SetAppraisalMode(m: AppraisalMode)
      modifies this
      ensures appraisalMode == m && tasks == old(tasks) && storage == old(storage)
      ensures isDarkMode == old(isDarkMode)
      ensures isAnalyzing == old(isAnalyzing) && navigatedToResult == old(navigatedToResult)
    {
      appraisalMode := m;
    }

    /** The theme button: `setIsDarkMode(!isDarkMode)`. */
    method ToggleDarkMode()
      modifies this
      ensures isDarkMode == !old(isDarkMode) && tasks == old(tasks) && storage == old(storage)
      ensures appraisalMode == old(appraisalMode)
      ensures isAnalyzing == old(isAnalyzing) && navigatedToResult == old(navigatedToResult)
    {
      isDarkMode := !isDarkMode;
    }

    /**
     * `handleGoToResult`: when the decision is to proceed, store the titled
     * tasks, the mode and the theme, start the analysing overlay and go to
     * the result page; otherwise change nothing. The deck's own `tasks` is
     * never changed.
     */
    method GoToResult(confirmed: bool) returns (outcome: GoOutcome, asked: bool)
      modifies this
      ensures tasks == old(tasks)
      ensures Decision(outcome, asked) == GoDecision(old(tasks), confirmed)
      ensures outcome != Proceeded ==>
                storage == old(storage) && isAnalyzing == old(isAnalyzing) && navigatedToResult == old(navigatedToResult)
      ensures outcome == Proceeded ==>
                storage == SaveForResult(old(storage), TitledTasks(old(tasks)), appraisalMode, isDarkMode)
                && isAnalyzing && navigatedToResult
      ensures isDarkMode == old(isDarkMode) && appraisalMode == old(appraisalMode)
    {
      var d := GoDecision(tasks, confirmed);
      outcome, asked := d.outcome, d.asked;
      if outcome == Proceeded {
        isAnalyzing, storage, navigatedToResult :=
          true, SaveForResult(storage, TitledTasks(tasks), appraisalMode, isDarkMode), true;
      }
    }
  }
}
