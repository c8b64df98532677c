/**
 * The rules of app/result/page.tsx: reading the stored settings and tasks,
 * ranking the titled tasks by score, and the values the ranking view derives
 * (the spicy-mode message, the mode styling, the deadline line and the rank
 * label).
 *
 * The page calls `calculateScore(task, mode)` with a task and the stored mode
 * string; that call does not match the calculator's three-argument signature,
 * so the score is a parameter `score: (Task, string) -> int` here.
 */
module ResultPage {
  import opened Wrappers
  import opened JsString
  import opened JsArray
  import opened TaskTypes
  import opened TaskLogic
  import Home

  /** The page state: ranked tasks and the settings read from storage. */
  datatype ResultData = ResultData(tasks: seq<Task>, mode: string, isDark: bool, lang: string)

  /** The sort key `t => calculateScore(t, mode)`. */
  function KeyFor(score: (Task, string) -> int, mode: string): Task -> int {
    t => score(t, mode)
  }

  /**
   * `saved.filter((t) => t.title.trim() !== "").sort((a, b) => key(b) - key(a))`:
   * the titled tasks, highest score first, ties in their stored order.
   */
  function RankTasks(saved: seq<Task>, key: Task -> int): (ranked: seq<Task>)
    ensures multiset(ranked) == multiset(TitledTasks(saved))
    ensures SortedDesc(ranked, key)
    ensures SameTies(ranked, TitledTasks(saved), key)
  {
    SortDescIsStableSort(TitledTasks(saved), key);
    SortDesc(TitledTasks(saved), key)
  }

  /** Every ranked task has a title, and every titled stored task is ranked. */
  lemma RankedAreTheTitled(saved: seq<Task>, key: Task -> int)
    ensures forall i :: 0 <= i < |RankTasks(saved, key)| ==> HasTitle(RankTasks(saved, key)[i])
    ensures forall i :: 0 <= i < |saved| && HasTitle(saved[i]) ==> saved[i] in RankTasks(saved, key)
  {
    var valid := TitledTasks(saved);
    var ranked := RankTasks(saved, key);
    forall i | 0 <= i < |ranked| ensures HasTitle(ranked[i]) {
      assert ranked[i] in multiset(ranked);
      assert ranked[i] in valid;
    }
    forall i | 0 <= i < |saved| && HasTitle(saved[i]) ensures saved[i] in ranked {
      FilterKeeps(saved, HasTitle, i);
      assert saved[i] in multiset(valid);
    }
  }

  /** Ranking the already-titled tasks again changes nothing. */
  lemma RankTitledTasks(saved: seq<Task>, key: Task -> int)
    ensures RankTasks(TitledTasks(saved), key) == RankTasks(saved, key)
  {
    FilterIdempotent(saved, HasTitle);
  }

  /**
   * The `useState` initialiser: `None` during server rendering, otherwise
   * the stored mode (default "normal"), dark flag, language (default "ja")
   * and ranked tasks (none when nothing is stored).
   */
  function LoadResult(storage: Storage, onServer: bool, score: (Task, string) -> int): (r: Option<ResultData>)
    ensures r.None? <==> onServer
    ensures r.Some? ==> r.value.mode == (if Truthy(storage.appraisalMode) then storage.appraisalMode.value else "normal")
    ensures r.Some? ==> (r.value.isDark <==> storage.isDarkMode == Some("true"))
    ensures r.Some? ==> r.value.lang == (if Truthy(storage.appLang) then storage.appLang.value else "ja")
    ensures r.Some? && storage.tasks.None? ==> r.value.tasks == []
    ensures r.Some? && storage.tasks.Some? ==>
              r.value.tasks == RankTasks(storage.tasks.value, KeyFor(score, r.value.mode))
  {
    if onServer then None
    else
      var mode := OrElse(storage.appraisalMode, "normal");
      var isDark := storage.isDarkMode == Some("true");
      var lang := OrElse(storage.appLang, "ja");
      if storage.tasks.None? then Some(ResultData([], mode, isDark, lang))
      else Some(ResultData(RankTasks(storage.tasks.value, KeyFor(score, mode)), mode, isDark, lang))
  }

  /**
   * What the deck page stores before navigating is what this page shows:
   * the ranking of the deck's titled tasks under the chosen mode, with the
   * chosen theme.
   */
  lemma LoadsWhatDeckSaved(storage: Storage, tasks: seq<Task>, m: AppraisalMode, isDark: bool,
                           score: (Task, string) -> int)
    ensures var r := LoadResult(Home.SaveForResult(storage, TitledTasks(tasks), m, isDark), false, score);
            && r.Some?
            && r.value.mode == ModeName(m)
            && r.value.isDark == isDark
            && r.value.tasks == RankTasks(tasks, KeyFor(score, ModeName(m)))
  {
    RankTitledTasks(tasks, KeyFor(score, ModeName(m)));
  }

  /** `tasks.some((t) => calculateScore(t, mode) >= 200)`. */
  function HasExtremeTask(tasks: seq<Task>, key: Task -> int): (b: bool)
    ensures b <==> exists i :: 0 <= i < |tasks| && key(tasks[i]) >= 200
  {
    AnyMatch(tasks, t => key(t) >= 200)
  }

  /** On a ranked list the check only depends on the first task. */
  lemma ExtremeIffTopTask(tasks: seq<Task>, key: Task -> int)
    requires SortedDesc(tasks, key)
    ensures HasExtremeTask(tasks, key) <==> tasks != [] && key(tasks[0]) >= 200
  {
    if HasExtremeTask(tasks, key) {
      var i :| 0 <= i < |tasks| && key(tasks[i]) >= 200;
      if i > 0 {
        assert key(tasks[0]) >= key(tasks[i]);
      }
    }
  }

  /**
   * Scored by the calculator from emotion and reality values in [0, 100],
   * no task reaches 200, so the spicy message never shows.
   */
  lemma CalculatorScoresNeverExtreme(tasks: seq<Task>, inputs: Task -> (int, int), mode: Mode)
    requires forall i :: 0 <= i < |tasks| ==>
               0 <= inputs(tasks[i]).0 <= 100 && 0 <= inputs(tasks[i]).1 <= 100
    ensures !HasExtremeTask(tasks, t => CalculateScore(inputs(t).0, inputs(t).1, mode))
  {
    forall i | 0 <= i < |tasks|
      ensures CalculateScore(inputs(tasks[i]).0, inputs(tasks[i]).1, mode) <= 100
    {
      ScoreIsPercentage(inputs(tasks[i]).0, inputs(tasks[i]).1, mode);
    }
  }

  /** `mode === "spicy" && hasExtremeTask`: whether the encouragement is shown. */
  function ShowsSpicyMessage(data: ResultData, score: (Task, string) -> int): (shown: bool)
    ensures shown <==> data.mode == "spicy" && exists i :: 0 <= i < |data.tasks| && score(data.tasks[i], "spicy") >= 200
  {
    data.mode == "spicy" && HasExtremeTask(data.tasks, KeyFor(score, data.mode))
  }

  datatype ModeStyle = ModeStyle(color: string, labelText: string)

  /** `getModeStyles()`: "sweet" and "spicy" have their own style, every other string the normal one. */
  function GetModeStyles(mode: string, lang: string): (st: ModeStyle)
    ensures st.color == "#ff4d79" <==> mode == "sweet"
    ensures st.color == "#ff4500" <==> mode == "spicy"
    ensures st.color == "#38bdf8" <==> mode != "sweet" && mode != "spicy"
    ensures mode == "sweet" ==>
              st.labelText == (if lang == "ja" then "💖 褒めちぎりモード" else "💖 SWEET MODE")
    ensures mode == "spicy" ==>
              st.labelText == (if lang == "ja" then "🔥 激辛モード" else "🔥 SPICY MODE")
    ensures mode != "sweet" && mode != "spicy" ==>
              st.labelText == (if lang == "ja" then "📊 標準モード" else "📊 NORMAL MODE")
  {
    if mode == "sweet" then
      ModeStyle("#ff4d79", if lang == "ja" then "💖 褒めちぎりモード" else "💖 SWEET MODE")
    else if mode == "spicy" then
      ModeStyle("#ff4500", if lang == "ja" then "🔥 激辛モード" else "🔥 SPICY MODE")
    else
      ModeStyle("#38bdf8", if lang == "ja" then "📊 標準モード" else "📊 NORMAL MODE")
  }

  datatype DeadlineInfo = DeadlineInfo(text: string, isUrgent: bool)

  /**
   * `getDeadlineInfo(deadline)`, given the day difference from now: urgent
   * only for a deadline due today or within three days.
   */
  function GetDeadlineInfo(deadline: Option<string>, diff: DayDiff, lang: string): (info: DeadlineInfo)
    ensures info.isUrgent <==> Truthy(deadline) && diff.Days? && 0 <= diff.n <= 3
    ensures Truthy(deadline) ==> info.text == "📅 " + deadline.value
    ensures !Truthy(deadline) ==> info.text == (if lang == "ja" then "期日未設定" else "NO DEADLINE SET")
  {
    if !Truthy(deadline) then
      DeadlineInfo(if lang == "ja" then "期日未設定" else "NO DEADLINE SET", false)
    else
      DeadlineInfo("📅 " + deadline.value, diff.Days? && 0 <= diff.n <= 3)
  }

  /**
   * Given the same day difference, this page's urgency rule and
   * `getDeadlineStatus`'s disagree exactly on overdue deadlines. (The two
   * compute their day differences from different starting points.)
   */
  lemma UrgencyRulesDiffer(deadline: Option<string>, diff: DayDiff, lang: string)
    ensures GetDeadlineInfo(deadline, diff, lang).isUrgent != GetDeadlineStatus(deadline, diff).isUrgent
        <==> Truthy(deadline) && diff.Days? && diff.n < 0
  {
  }

  /** `String(index + 1).padStart(2, "0")`. */
  function RankLabel(index: nat): (rank: string)
    ensures |rank| >= 2 && AllDigits(rank)
    ensures DecimalValue(rank) == index + 1
    ensures index < 9 ==> rank == ['0', DigitChar(index + 1)]
    ensures index >= 9 ==> rank == NatToString(index + 1)
  {
    var digits := NatToString(index + 1);
    var rank := PadStart(digits, 2, '0');
    DecimalRoundTrip(index + 1);
    if index < 9 then
      assert digits == [DigitChar(index + 1)];
      assert rank == "0" + digits;
      LeadingZerosIgnored("0", digits);
      rank
    else
      assert rank == digits;
      rank
  }
}
