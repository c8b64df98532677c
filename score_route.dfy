/**
 * The score-sort endpoint of app/api/score/route.ts: `POST` takes the
 * request's `tasks` (an empty list when absent), sorts that array in place
 * by `(a, b) => b.score - a.score` and answers with the same array as
 * `sorted`.
 */
module ScoreRoute {
  import opened Wrappers
  import opened JsArray

  /** `{ name: string; score: number }`. */
  datatype Entry = Entry(name: string, score: int)

  /** The sort key. */
  function ScoreOf(e: Entry): int {
    e.score
  }

  /**
   * One step of the sort: `a[i]` moves forward past the strictly smaller
   * scores just before it, the way `InsertBack` places it.
   */
  method InsertNext(a: array<Entry>, i: nat)
    requires i < a.Length
    modifies a
    ensures a[..i + 1] == InsertBack(old(a[..i]), old(a[i]), ScoreOf)
    ensures a[i + 1..] == old(a[i + 1..])
  {
    ghost var t := a[..i];
    var x := a[i];
    var j := i;
    while j > 0 && a[j - 1].score < x.score
      invariant 0 <= j <= i
      invariant a[..j] == t[..j]
      invariant a[j + 1..i + 1] == t[j..]
      invariant a[i + 1..] == old(a[i + 1..])
      invariant forall m :: j <= m < i ==> ScoreOf(t[m]) < ScoreOf(x)
    {
      a[j] := a[j - 1];
      j := j - 1;
    }
    a[j] := x;
    assert a[..i + 1] == t[..j] + [x] + t[j..];
    InsertBackAt(t, x, ScoreOf, j);
    assert t == old(a[..i]) && x == old(a[i]);
  }

  /**
   * `tasks.sort((a, b) => b.score - a.score)` on the array itself: an
   * insertion sort that moves each entry forward only past strictly
   * smaller scores, so equal scores keep their order.
   */
  method SortByScore(a: array<Entry>)
    modifies a
    ensures a[..] == SortDesc(old(a[..]), ScoreOf)
    ensures multiset(a[..]) == multiset(old(a[..]))
    ensures SortedDesc(a[..], ScoreOf)
    ensures SameTies(a[..], old(a[..]), ScoreOf)
  {
    ghost var input := a[..];
    var i := 0;
    while i < a.Length
      invariant 0 <= i <= a.Length
      invariant a[..i] == SortDesc(input[..i], ScoreOf)
      invariant a[i..] == input[i..]
    {
      InsertNext(a, i);
      assert input[..i + 1][..i] == input[..i];
      i := i + 1;
    }
    assert a[..] == a[..i] && input == input[..i];
    SortDescIsStableSort(input, ScoreOf);
  }

  /**
   * `POST`: `body.tasks || []`, sorted. With no list the answer is a new
   * empty array; otherwise it is the request's own array, now sorted.
   */
  method Post(tasks: Option<array<Entry>>) returns (sorted: array<Entry>)
    modifies if tasks.Some? then {tasks.value} else {}
    ensures tasks.None? ==> fresh(sorted) && sorted.Length == 0
    ensures tasks.Some? ==> sorted == tasks.value
    ensures tasks.Some? ==> sorted[..] == SortDesc(old(tasks.value[..]), ScoreOf)
  {
    if tasks.None? {
      sorted := new Entry[0];
    } else {
      sorted := tasks.value;
      SortByScore(sorted);
    }
  }
}
