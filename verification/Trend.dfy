/** Score history per dataset, the latest score, and the average trend: one point a
    day, the mean over datasets of the day's latest score. */
module Trend {
  import opened Grouping
  import opened Prefixes
  import opened Sorting

  datatype Option<+T> = None | Some(value: T)

  /** `time` is the instant of the calculation, `day` the date written in its text
      (two texts for one instant may name different dates). */
  datatype Score = Score(id: string, scopeId: string, time: int, day: int, value: Option<real>)

  datatype Point = Point(day: int, value: real)

  predicate TimeLe(a: Score, b: Score) {
    a.time <= b.time
  }

  function ScopeOf(score: Score): string {
    score.scopeId
  }

  predicate HasScope(score: Score) {
    score.scopeId != ""
  }

  // ----- the history -----

  function Scoped(scores: seq<Score>): seq<Score> {
    Filter(HasScope, scores)
  }

  /** The history of one dataset: its scores, stably sorted by time. */
  function HistoryOf(scores: seq<Score>, scopeId: string): seq<Score> {
    Sort(TimeLe, MembersOf(GroupBy(ScopeOf, Scoped(scores)), scopeId))
  }

  method GroupScores(scores: seq<Score>) returns (grouped: Groups<string, Score>)
    ensures grouped == GroupBy(ScopeOf, Scoped(scores))
  {
    grouped := Groups([], map[]);
    ghost var seen: seq<Score> := [];
    for i := 0 to |scores|
      invariant seen == scores[..i]
      invariant grouped == GroupBy(ScopeOf, Scoped(seen))
    {
      var score := scores[i];
      PrefixGrows(scores, i);
      FilterAppend(HasScope, seen, score);
      if score.scopeId != "" {
        GroupByAppend(ScopeOf, Scoped(seen), score);
        grouped := Pushed(grouped, score.scopeId, score);
      } else {
        assert Scoped(seen) + [] == Scoped(seen);
      }
      seen := seen + [score];
    }
    WholePrefix(scores);
  }

  /** `history` and `latest` are filled in for the listed datasets. */
  ghost predicate Sorted(history: map<string, seq<Score>>, latest: map<string, Score>, ids: seq<string>,
                         histories: string -> seq<Score>)
  {
    && (forall id :: id in history <==> id in ids)
    && (forall id :: id in history ==> history[id] == histories(id) && history[id] != [])
    && (forall id :: id in latest <==> id in ids)
    && (forall id :: id in latest && id in history ==> history[id] != [] && latest[id] == history[id][|history[id]| - 1])
  }

  lemma SortedOneMore(history: map<string, seq<Score>>, latest: map<string, Score>, ids: seq<string>, id: string,
                      histories: string -> seq<Score>)
    requires Sorted(history, latest, ids, histories) && histories(id) != []
    ensures var list := histories(id);
      Sorted(history[id := list], latest[id := list[|list| - 1]], ids + [id], histories)
  {
  }

  function HistoriesOf(grouped: Groups<string, Score>): string -> seq<Score> {
    id => Sort(TimeLe, MembersOf(grouped, id))
  }

  lemma HistoryIsNotEmpty(grouped: Groups<string, Score>, id: string)
    requires WellFormed(grouped) && id in grouped.keys
    ensures HistoriesOf(grouped)(id) != []
  {
    SortPermutes(TimeLe, MembersOf(grouped, id));
  }

  method SortHistories(grouped: Groups<string, Score>)
    returns (history: map<string, seq<Score>>, latest: map<string, Score>)
    requires WellFormed(grouped)
    ensures Sorted(history, latest, grouped.keys, HistoriesOf(grouped))
  {
    history, latest := map[], map[];
    ghost var done: seq<string> := [];
    for k := 0 to |grouped.keys|
      invariant done == grouped.keys[..k]
      invariant Sorted(history, latest, done, HistoriesOf(grouped))
    {
      var id := grouped.keys[k];
      var list := Sort(TimeLe, MembersOf(grouped, id));
      HistoryIsNotEmpty(grouped, id);
      SortedOneMore(history, latest, done, id, HistoriesOf(grouped));
      PrefixGrows(grouped.keys, k);
      done := done + [id];
      history := history[id := list];
      if list != [] {
        latest := latest[id := list[|list| - 1]];
      }
    }
    WholePrefix(grouped.keys);
  }

  /** The history of every dataset with a score, and its last entry as the latest
      score; the last entry exists because no history is empty. */
  method BuildHistory(scores: seq<Score>) returns (history: Groups<string, Score>, latest: map<string, Score>)
    ensures history.keys == GroupBy(ScopeOf, Scoped(scores)).keys
    ensures forall id :: id in history.members <==> id in history.keys
    ensures forall id :: id in history.members ==> history.members[id] == HistoryOf(scores, id) && history.members[id] != []
    ensures forall id :: id in latest <==> id in history.keys
    ensures forall id :: id in latest ==> latest[id] == history.members[id][|history.members[id]| - 1]
  {
    var grouped := GroupScores(scores);
    GroupByIsWellFormed(ScopeOf, Scoped(scores));
    var sorted;
    sorted, latest := SortHistories(grouped);
    history := Groups(grouped.keys, sorted);
  }

  lemma ScoreOrderIsPreorder()
    ensures Preorder(TimeLe)
  {
  }

  function OwnedBy(scopeId: string): Score -> bool {
    (s: Score) => s.scopeId == scopeId
  }

  function AtTime(time: int): Score -> bool {
    (s: Score) => s.time == time
  }

  lemma {:induction false} MembersAreOwned(scores: seq<Score>, scopeId: string)
    requires scopeId != ""
    ensures MembersOf(GroupBy(ScopeOf, Scoped(scores)), scopeId) == Filter(OwnedBy(scopeId), scores)
  {
    if scores != [] {
      var front, last := scores[..|scores| - 1], scores[|scores| - 1];
      MembersAreOwned(front, scopeId);
      if HasScope(last) {
        GroupByAppend(ScopeOf, Scoped(front), last);
      } else {
        assert Scoped(front) + [] == Scoped(front);
        assert Filter(OwnedBy(scopeId), front) + [] == Filter(OwnedBy(scopeId), front);
      }
    }
  }

  /** A history holds exactly the dataset's scores, in ascending order of time, and
      scores of one instant stay in the order in which they came. */
  lemma HistoryIsExact(scores: seq<Score>, scopeId: string, time: int)
    requires scopeId != ""
    ensures Ordered(TimeLe, HistoryOf(scores, scopeId))
    ensures multiset(HistoryOf(scores, scopeId)) == multiset(Filter(OwnedBy(scopeId), scores))
    ensures Filter(AtTime(time), HistoryOf(scores, scopeId)) == Filter(AtTime(time), Filter(OwnedBy(scopeId), scores))
  {
    var own := Filter(OwnedBy(scopeId), scores);
    MembersAreOwned(scores, scopeId);
    ScoreOrderIsPreorder();
    SortPermutes(TimeLe, own);
    SortOrders(TimeLe, own);
    SortIsStable(TimeLe, own, AtTime(time));
  }

  // ----- one value per dataset and day -----

  predicate Counts(score: Score, day: int, cutoff: int) {
    score.time >= cutoff && score.day == day
  }

  /** The score a last-write-wins map ends up with for a day. */
  function LastOn(history: seq<Score>, day: int, cutoff: int): Option<Score> {
    if history == [] then None
    else if Counts(history[|history| - 1], day, cutoff) then Some(history[|history| - 1])
    else LastOn(history[..|history| - 1], day, cutoff)
  }

  lemma LastOnAppend(history: seq<Score>, score: Score, day: int, cutoff: int)
    ensures LastOn(history + [score], day, cutoff)
      == if Counts(score, day, cutoff) then Some(score) else LastOn(history, day, cutoff)
  {
    assert (history + [score])[..|history|] == history;
  }

  /** Because histories ascend, the last write is a latest score of the day, and
      there is one exactly when some score of the day is recent enough. */
  lemma {:induction false} LastWriteIsLatest(history: seq<Score>, day: int, cutoff: int)
    requires Ordered(TimeLe, history)
    ensures LastOn(history, day, cutoff).Some? <==> exists s :: s in history && Counts(s, day, cutoff)
    ensures LastOn(history, day, cutoff).Some? ==>
      var last := LastOn(history, day, cutoff).value;
      last in history && Counts(last, day, cutoff) && forall s :: s in history && Counts(s, day, cutoff) ==> s.time <= last.time
  {
    if history != [] {
      var front, last := history[..|history| - 1], history[|history| - 1];
      assert history == front + [last];
      LastWriteIsLatest(front, day, cutoff);
      forall s | s in front ensures TimeLe(s, last) {
        var k :| 0 <= k < |front| && front[k] == s;
        assert TimeLe(history[k], history[|history| - 1]);
      }
    }
  }

  /** What one dataset adds to a day's values. */
  function ValueOn(history: seq<Score>, day: int, cutoff: int): seq<real> {
    match LastOn(history, day, cutoff)
    case Some(score) => if score.value.Some? then [score.value.value] else []
    case None => []
  }

  function ValuesOn(histories: seq<seq<Score>>, day: int, cutoff: int): seq<real> {
    if histories == [] then []
    else ValuesOn(histories[..|histories| - 1], day, cutoff) + ValueOn(histories[|histories| - 1], day, cutoff)
  }

  lemma ValuesOnAppend(histories: seq<seq<Score>>, history: seq<Score>, day: int, cutoff: int)
    ensures ValuesOn(histories + [history], day, cutoff) == ValuesOn(histories, day, cutoff) + ValueOn(history, day, cutoff)
  {
    assert (histories + [history])[..|histories|] == histories;
  }

  /** A dataset's value for a day is its latest recent score of that day, and a
      recent score of that day is never overlooked. */
  lemma DayScoreIsLatest(scores: seq<Score>, scopeId: string, day: int, cutoff: int)
    requires scopeId != ""
    ensures var last := LastOn(HistoryOf(scores, scopeId), day, cutoff);
      && (last.Some? <==> exists s :: s in scores && s.scopeId == scopeId && Counts(s, day, cutoff))
      && (last.Some? ==>
            && last.value in scores && last.value.scopeId == scopeId && Counts(last.value, day, cutoff)
            && forall s :: s in scores && s.scopeId == scopeId && Counts(s, day, cutoff) ==> s.time <= last.value.time)
  {
    var history, own := HistoryOf(scores, scopeId), Filter(OwnedBy(scopeId), scores);
    HistoryIsExact(scores, scopeId, 0);
    FilterMembers(OwnedBy(scopeId), scores);
    forall s ensures s in history <==> s in scores && s.scopeId == scopeId {
      assert s in history <==> s in multiset(history);
      assert s in own <==> s in multiset(own);
    }
    LastWriteIsLatest(history, day, cutoff);
  }

  // ----- the loops -----

  /** `latest` lists the days of a history with the score written last. */
  ghost predicate HoldsLast(days: seq<int>, latest: map<int, Score>, history: seq<Score>, cutoff: int) {
    && NoRepeats(days)
    && (forall d :: d in days <==> d in latest)
    && (forall d :: d in latest <==> LastOn(history, d, cutoff).Some?)
    && (forall d :: d in latest ==> LastOn(history, d, cutoff) == Some(latest[d]))
  }

  lemma HoldsLastAppend(days: seq<int>, latest: map<int, Score>, history: seq<Score>, score: Score, cutoff: int)
    requires HoldsLast(days, latest, history, cutoff)
    ensures score.time < cutoff ==> HoldsLast(days, latest, history + [score], cutoff)
    ensures score.time >= cutoff ==>
      HoldsLast(if score.day in latest then days else days + [score.day], latest[score.day := score], history + [score], cutoff)
  {
    forall d ensures LastOn(history + [score], d, cutoff)
      == if Counts(score, d, cutoff) then Some(score) else LastOn(history, d, cutoff)
    {
      LastOnAppend(history, score, d, cutoff);
    }
  }

  method LatestByDay(history: seq<Score>, cutoff: int) returns (days: seq<int>, latest: map<int, Score>)
    ensures HoldsLast(days, latest, history, cutoff)
  {
    days, latest := [], map[];
    ghost var seen: seq<Score> := [];
    for i := 0 to |history|
      invariant seen == history[..i]
      invariant HoldsLast(days, latest, seen, cutoff)
    {
      var score := history[i];
      PrefixGrows(history, i);
      HoldsLastAppend(days, latest, seen, score, cutoff);
      seen := seen + [score];
      if score.time < cutoff {
        continue;
      }
      days := if score.day in latest then days else days + [score.day];
      latest := latest[score.day := score];
    }
    WholePrefix(history);
  }

  /** `valuesByDay` collects the histories gone through so far. */
  ghost predicate Collects(byDay: Groups<int, real>, histories: seq<seq<Score>>, cutoff: int) {
    && WellFormed(byDay)
    && forall d :: MembersOf(byDay, d) == ValuesOn(histories, d, cutoff)
  }

  /** `more` is `byDay` with what is worth adding on the given days. */
  ghost predicate Extends(more: Groups<int, real>, byDay: Groups<int, real>, days: seq<int>, worth: int -> seq<real>) {
    && WellFormed(more)
    && forall d {:trigger MembersOf(more, d)} ::
         MembersOf(more, d) == MembersOf(byDay, d) + if d in days then worth(d) else []
  }

  lemma ExtendsByOneDay(more: Groups<int, real>, byDay: Groups<int, real>, days: seq<int>, day: int, worth: int -> seq<real>)
    requires Extends(more, byDay, days, worth) && day !in days && |worth(day)| <= 1
    ensures Extends(if worth(day) == [] then more else Pushed(more, day, worth(day)[0]), byDay, days + [day], worth)
  {
    if worth(day) == [] {
      forall d {:trigger MembersOf(more, d)}
        ensures MembersOf(more, d) == MembersOf(byDay, d) + if d in days + [day] then worth(d) else []
      {
      }
    } else {
      PushExtends(more, byDay, days, day, worth(day)[0], worth);
    }
  }

  lemma PushExtends(more: Groups<int, real>, byDay: Groups<int, real>, days: seq<int>, day: int, value: real,
                    worth: int -> seq<real>)
    requires Extends(more, byDay, days, worth) && day !in days && worth(day) == [value]
    ensures Extends(Pushed(more, day, value), byDay, days + [day], worth)
  {
    PushedIsWellFormed(more, day, value);
    forall d {:trigger MembersOf(Pushed(more, day, value), d)} ensures MembersOf(Pushed(more, day, value), d)
      == MembersOf(byDay, d) + if d in days + [day] then worth(d) else []
    {
      PushedMembers(more, day, value, d);
      assert MembersOf(more, d) == MembersOf(byDay, d) + if d in days then worth(d) else [];
      assert d in days + [day] <==> d in days || d == day;
      if d == day {
        assert MembersOf(byDay, d) + [] == MembersOf(byDay, d);
      }
    }
  }

  function Worth(history: seq<Score>, cutoff: int): int -> seq<real> {
    d => ValueOn(history, d, cutoff)
  }

  lemma WorthOfDay(days: seq<int>, latest: map<int, Score>, history: seq<Score>, cutoff: int, day: int)
    requires HoldsLast(days, latest, history, cutoff) && day in days
    ensures Worth(history, cutoff)(day) == if latest[day].value.Some? then [latest[day].value.value] else []
  {
    assert LastOn(history, day, cutoff) == Some(latest[day]);
  }

  lemma ExtendsCollects(more: Groups<int, real>, byDay: Groups<int, real>, days: seq<int>, latest: map<int, Score>,
                        histories: seq<seq<Score>>, history: seq<Score>, cutoff: int)
    requires Collects(byDay, histories, cutoff) && HoldsLast(days, latest, history, cutoff)
    requires Extends(more, byDay, days, Worth(history, cutoff))
    ensures Collects(more, histories + [history], cutoff)
  {
    forall d ensures MembersOf(more, d) == ValuesOn(histories + [history], d, cutoff) {
      ValuesOnAppend(histories, history, d, cutoff);
      assert MembersOf(byDay, d) == ValuesOn(histories, d, cutoff);
    }
  }

  method AddHistory(byDay: Groups<int, real>, ghost done: seq<seq<Score>>, history: seq<Score>, cutoff: int)
    returns (more: Groups<int, real>)
    requires Collects(byDay, done, cutoff)
    ensures Collects(more, done + [history], cutoff)
  {
    var days, latest := LatestByDay(history, cutoff);
    more := byDay;
    ghost var added: seq<int> := [];
    for i := 0 to |days|
      invariant added == days[..i]
      invariant Extends(more, byDay, added, Worth(history, cutoff))
    {
      var day := days[i];
      assert day !in added;
      ExtendsByOneDay(more, byDay, added, day, Worth(history, cutoff));
      PrefixGrows(days, i);
      added := added + [day];
      var score := latest[day];
      WorthOfDay(days, latest, history, cutoff, day);
      if score.value.Some? {
        more := Pushed(more, day, score.value.value);
      }
    }
    WholePrefix(days);
    ExtendsCollects(more, byDay, days, latest, done, history, cutoff);
  }

  function Sum(values: seq<real>): real {
    if values == [] then 0.0 else Sum(values[..|values| - 1]) + values[|values| - 1]
  }

  function Mean(values: seq<real>): real
    requires values != []
  {
    Sum(values) / |values| as real
  }

  predicate DayLe(a: int, b: int) {
    a <= b
  }

  /** One point for each day with a value, in strictly ascending order, holding the
      mean of the day's values. */
  ghost predicate IsTrend(points: seq<Point>, histories: seq<seq<Score>>, cutoff: int) {
    && (forall j, k :: 0 <= j < k < |points| ==> points[j].day < points[k].day)
    && (forall d :: (exists k :: 0 <= k < |points| && points[k].day == d) <==> ValuesOn(histories, d, cutoff) != [])
    && (forall k :: 0 <= k < |points| ==>
          ValuesOn(histories, points[k].day, cutoff) != []
          && points[k].value == Mean(ValuesOn(histories, points[k].day, cutoff)))
  }

  method AverageTrend(histories: seq<seq<Score>>, cutoff: int) returns (points: seq<Point>)
    ensures IsTrend(points, histories, cutoff)
  {
    var byDay: Groups<int, real> := Groups([], map[]);
    ghost var done: seq<seq<Score>> := [];
    for i := 0 to |histories|
      invariant done == histories[..i]
      invariant Collects(byDay, done, cutoff)
    {
      byDay := AddHistory(byDay, done, histories[i], cutoff);
      PrefixGrows(histories, i);
      done := done + [histories[i]];
    }
    WholePrefix(histories);
    points := PointsOf(byDay, histories, cutoff);
  }

  lemma SortedDaysAscend(days: seq<int>)
    requires NoRepeats(days)
    ensures forall d :: d in Sort(DayLe, days) <==> d in days
    ensures forall j, k :: 0 <= j < k < |Sort(DayLe, days)| ==> Sort(DayLe, days)[j] < Sort(DayLe, days)[k]
  {
    assert Preorder(DayLe);
    SortPermutes(DayLe, days);
    SortOrders(DayLe, days);
    PermutationHasNoRepeats(days, Sort(DayLe, days));
    var sorted := Sort(DayLe, days);
    forall j, k | 0 <= j < k < |sorted| ensures sorted[j] < sorted[k] {
      assert DayLe(sorted[j], sorted[k]);
    }
  }

  method PointsOf(byDay: Groups<int, real>, ghost histories: seq<seq<Score>>, cutoff: int) returns (points: seq<Point>)
    requires Collects(byDay, histories, cutoff)
    ensures IsTrend(points, histories, cutoff)
  {
    SortedDaysAscend(byDay.keys);
    var days := Sort(DayLe, byDay.keys);
    points := [];
    for i := 0 to |days|
      invariant |points| == i
      invariant forall k :: 0 <= k < i ==>
        points[k].day == days[k] && days[k] in byDay.members && points[k].value == Mean(byDay.members[days[k]])
    {
      assert days[i] in Sort(DayLe, byDay.keys);
      assert days[i] in byDay.members;
      points := points + [Point(days[i], Mean(byDay.members[days[i]]))];
    }
    forall d ensures (exists k :: 0 <= k < |points| && points[k].day == d) <==> ValuesOn(histories, d, cutoff) != [] {
      assert MembersOf(byDay, d) == ValuesOn(histories, d, cutoff);
      if d in byDay.members {
        var k :| 0 <= k < |days| && days[k] == d;
        assert points[k].day == d;
      }
    }
    forall k | 0 <= k < |points|
      ensures ValuesOn(histories, points[k].day, cutoff) != []
      ensures points[k].value == Mean(ValuesOn(histories, points[k].day, cutoff))
    {
      assert MembersOf(byDay, days[k]) == ValuesOn(histories, days[k], cutoff);
    }
  }

  // ----- what a point shows -----

  /** The datasets that have a non-null latest score on a day, by their value. */
  lemma {:induction false} ValuesAreLatestScores(histories: seq<seq<Score>>, day: int, cutoff: int, v: real)
    ensures v in ValuesOn(histories, day, cutoff) <==>
      exists h :: 0 <= h < |histories| && v in ValueOn(histories[h], day, cutoff)
    ensures |ValuesOn(histories, day, cutoff)| <= |histories|
  {
    if histories != [] {
      var front, last := histories[..|histories| - 1], histories[|histories| - 1];
      ValuesAreLatestScores(front, day, cutoff, v);
      if v in ValuesOn(front, day, cutoff) {
        var h :| 0 <= h < |front| && v in ValueOn(front[h], day, cutoff);
        assert v in ValueOn(histories[h], day, cutoff);
      }
      if h :| 0 <= h < |histories| && v in ValueOn(histories[h], day, cutoff) {
        assert h < |front| ==> v in ValueOn(front[h], day, cutoff);
      }
    }
  }

  lemma OneMoreTimes(x: real, n: int)
    ensures x * (n + 1) as real == x * n as real + x
  {
  }

  lemma {:induction false} SumBetween(values: seq<real>, low: real, high: real)
    requires forall k :: 0 <= k < |values| ==> low <= values[k] <= high
    ensures low * |values| as real <= Sum(values) <= high * |values| as real
  {
    if values != [] {
      SumBetween(values[..|values| - 1], low, high);
      OneMoreTimes(low, |values| - 1);
      OneMoreTimes(high, |values| - 1);
    }
  }

  lemma QuotientBetween(sum: real, n: int, low: real, high: real)
    requires n >= 1 && low * n as real <= sum <= high * n as real
    ensures low <= sum / n as real <= high
  {
  }

  lemma MeanBetween(values: seq<real>, low: real, high: real)
    requires values != [] && forall v :: v in values ==> low <= v <= high
    ensures low <= Mean(values) <= high
  {
    forall j | 0 <= j < |values| ensures low <= values[j] <= high {
      assert values[j] in values;
    }
    SumBetween(values, low, high);
    QuotientBetween(Sum(values), |values|, low, high);
  }

  /** Every average lies between the day's smallest and largest value. */
  lemma AverageStaysInRange(points: seq<Point>, histories: seq<seq<Score>>, cutoff: int, k: nat, low: real, high: real)
    requires IsTrend(points, histories, cutoff) && k < |points|
    requires forall v :: v in ValuesOn(histories, points[k].day, cutoff) ==> low <= v <= high
    ensures low <= points[k].value <= high
  {
    MeanBetween(ValuesOn(histories, points[k].day, cutoff), low, high);
  }

  /** The description of a trend leaves no choice. */
  lemma {:induction false} TrendIsUnique(a: seq<Point>, b: seq<Point>, histories: seq<seq<Score>>, cutoff: int)
    requires IsTrend(a, histories, cutoff) && IsTrend(b, histories, cutoff)
    ensures a == b
  {
    var x, y := DaysOf(a), DaysOf(b);
    assert NoRepeats(x) && NoRepeats(y);
    forall d ensures d in x <==> d in y {
      if d in x {
        var k :| 0 <= k < |a| && x[k] == d;
        assert a[k].day == d;
        var j :| 0 <= j < |b| && b[j].day == d;
        assert y[j] == d;
      }
      if d in y {
        var k :| 0 <= k < |b| && y[k] == d;
        assert b[k].day == d;
        var j :| 0 <= j < |a| && a[j].day == d;
        assert x[j] == d;
      }
    }
    SameMembersPermute(x, y);
    OrderedIsUnique(DayLe, x, y);
    forall k | 0 <= k < |a| ensures a[k] == b[k] {
      assert a[k].day == x[k] == y[k] == b[k].day;
    }
  }

  function DaysOf(points: seq<Point>): (days: seq<int>)
    ensures |days| == |points|
  {
    seq(|points|, k requires 0 <= k < |points| => points[k].day)
  }

  /** The histories in the order in which `history.values()` yields them. */
  function Histories(scores: seq<Score>): (histories: seq<seq<Score>>)
    ensures |histories| == |GroupBy(ScopeOf, Scoped(scores)).keys|
  {
    var keys := GroupBy(ScopeOf, Scoped(scores)).keys;
    seq(|keys|, k requires 0 <= k < |keys| => HistoryOf(scores, keys[k]))
  }

  /** Some dataset's latest recent score of the day is a number. */
  ghost predicate HasValue(scores: seq<Score>, scopeId: string, day: int, cutoff: int) {
    scopeId != "" && ValueOn(HistoryOf(scores, scopeId), day, cutoff) != []
  }

  lemma ValuesNameADataset(scores: seq<Score>, day: int, cutoff: int)
    ensures ValuesOn(Histories(scores), day, cutoff) != [] ==> exists id :: HasValue(scores, id, day, cutoff)
  {
    var values, histories, g := ValuesOn(Histories(scores), day, cutoff), Histories(scores), GroupBy(ScopeOf, Scoped(scores));
    if values != [] {
      ValuesAreLatestScores(histories, day, cutoff, values[0]);
      var h :| 0 <= h < |histories| && values[0] in ValueOn(histories[h], day, cutoff);
      GroupByIsWellFormed(ScopeOf, Scoped(scores));
      GroupsAreFiltered(ScopeOf, Scoped(scores), g.keys[h]);
      FilterMembers(HasScope, scores);
      assert HasValue(scores, g.keys[h], day, cutoff);
    }
  }

  lemma DatasetsGiveValues(scores: seq<Score>, id: string, day: int, cutoff: int)
    requires HasValue(scores, id, day, cutoff)
    ensures ValuesOn(Histories(scores), day, cutoff) != []
  {
    var history, g := HistoryOf(scores, id), GroupBy(ScopeOf, Scoped(scores));
    SortPermutes(TimeLe, MembersOf(g, id));
    GroupByIsWellFormed(ScopeOf, Scoped(scores));
    assert history != [];
    assert id in g.keys;
    var h :| 0 <= h < |g.keys| && g.keys[h] == id;
    assert Histories(scores)[h] == history;
    var v := ValueOn(history, day, cutoff)[0];
    ValuesAreLatestScores(Histories(scores), day, cutoff, v);
  }

  /** A day has a point exactly when some dataset's latest recent score of that day
      is a number. */
  lemma DayIsShownExactly(points: seq<Point>, scores: seq<Score>, day: int, cutoff: int)
    requires IsTrend(points, Histories(scores), cutoff)
    ensures (exists k :: 0 <= k < |points| && points[k].day == day) <==> exists id :: HasValue(scores, id, day, cutoff)
  {
    ValuesNameADataset(scores, day, cutoff);
    if id :| HasValue(scores, id, day, cutoff) {
      DatasetsGiveValues(scores, id, day, cutoff);
    }
  }

  // ----- the average, in plain terms -----

  /** The average of one value is the value, and one more value moves it in proportion. */
  lemma MeanIsTheAverage(values: seq<real>, v: real)
    ensures Mean([v]) == v
    ensures values != [] ==> Mean(values + [v]) * (|values| + 1) as real == Mean(values) * |values| as real + v
  {
    assert [v][..0] == [];
    assert Sum([v]) == v;
    TimesCount(v, 1);
    assert (values + [v])[..|values|] == values;
    if values != [] {
      TimesCount(Sum(values), |values|);
    }
    TimesCount(Sum(values) + v, |values| + 1);
  }

  lemma TimesCount(sum: real, n: int)
    requires n > 0
    ensures sum / n as real * n as real == sum
  {
  }

  /** `totals` adds the values up, one after the other. */
  ghost predicate AddsUp(totals: seq<real>, values: seq<real>) {
    && |totals| == |values| + 1 && totals[0] == 0.0
    && forall k :: 0 <= k < |values| ==> totals[k + 1] == totals[k] + values[k]
  }

  /** So often `value` makes the last of the totals. */
  ghost predicate Averages(value: real, totals: seq<real>, values: seq<real>) {
    AddsUp(totals, values) && value * |values| as real == totals[|values|]
  }

  lemma {:induction false} SumAddsUp(values: seq<real>) returns (totals: seq<real>)
    ensures AddsUp(totals, values) && totals[|values|] == Sum(values)
  {
    if values == [] {
      totals := [0.0];
    } else {
      var front := SumAddsUp(values[..|values| - 1]);
      totals := front + [Sum(values)];
    }
  }

  lemma MeanAverages(values: seq<real>) returns (totals: seq<real>)
    requires values != []
    ensures Averages(Mean(values), totals, values)
  {
    totals := SumAddsUp(values);
    TimesCount(Sum(values), |values|);
  }

  /** The latest recent score of a dataset on a day, and it is a number. */
  ghost predicate IsLatestNumber(score: Score, scores: seq<Score>, day: int, cutoff: int) {
    && score in scores && score.scopeId != "" && score.value.Some?
    && score.day == day && cutoff <= score.time
    && forall other :: other in scores && other.scopeId == score.scopeId && other.day == day && cutoff <= other.time
                       ==> other.time <= score.time
  }

  /** One latest number per dataset, and every dataset whose latest is a number. */
  ghost predicate LatestNumbers(picked: seq<Score>, scores: seq<Score>, day: int, cutoff: int) {
    && (forall k :: 0 <= k < |picked| ==> IsLatestNumber(picked[k], scores, day, cutoff))
    && (forall j, k :: 0 <= j < k < |picked| ==> picked[j].scopeId != picked[k].scopeId)
    && (forall id :: HasValue(scores, id, day, cutoff) ==> exists k :: 0 <= k < |picked| && picked[k].scopeId == id)
  }

  function NumbersOf(picked: seq<Score>): seq<real> {
    if picked == [] then []
    else
      var last := picked[|picked| - 1];
      NumbersOf(picked[..|picked| - 1]) + if last.value.Some? then [last.value.value] else []
  }

  lemma NumbersAppend(picked: seq<Score>, score: Score)
    ensures NumbersOf(picked + [score]) == NumbersOf(picked) + if score.value.Some? then [score.value.value] else []
  {
    assert (picked + [score])[..|picked|] == picked;
  }

  lemma {:induction false} OneNumberEach(picked: seq<Score>)
    requires forall k :: 0 <= k < |picked| ==> picked[k].value.Some?
    ensures |NumbersOf(picked)| == |picked|
    ensures forall k :: 0 <= k < |picked| ==> NumbersOf(picked)[k] == picked[k].value.value
  {
    if picked != [] {
      OneNumberEach(picked[..|picked| - 1]);
    }
  }

  lemma PickIsLatest(scores: seq<Score>, id: string, day: int, cutoff: int)
    requires HasValue(scores, id, day, cutoff)
    ensures var last := LastOn(HistoryOf(scores, id), day, cutoff);
      last.Some? && last.value.scopeId == id && IsLatestNumber(last.value, scores, day, cutoff)
  {
    DayScoreIsLatest(scores, id, day, cutoff);
  }

  function HistoriesFor(scores: seq<Score>, ids: seq<string>): seq<seq<Score>> {
    if ids == [] then [] else HistoriesFor(scores, ids[..|ids| - 1]) + [HistoryOf(scores, ids[|ids| - 1])]
  }

  /** The latest numbers of the listed datasets, in their order. */
  function Picks(scores: seq<Score>, ids: seq<string>, day: int, cutoff: int): seq<Score> {
    if ids == [] then []
    else
      var last := LastOn(HistoryOf(scores, ids[|ids| - 1]), day, cutoff);
      Picks(scores, ids[..|ids| - 1], day, cutoff) + if last.Some? && last.value.value.Some? then [last.value] else []
  }

  lemma {:induction false} PicksGiveTheValues(scores: seq<Score>, ids: seq<string>, day: int, cutoff: int)
    ensures NumbersOf(Picks(scores, ids, day, cutoff)) == ValuesOn(HistoriesFor(scores, ids), day, cutoff)
  {
    if ids != [] {
      var front, history := ids[..|ids| - 1], HistoryOf(scores, ids[|ids| - 1]);
      var picked, last := Picks(scores, front, day, cutoff), LastOn(history, day, cutoff);
      PicksGiveTheValues(scores, front, day, cutoff);
      ValuesOnAppend(HistoriesFor(scores, front), history, day, cutoff);
      if last.Some? && last.value.value.Some? {
        NumbersAppend(picked, last.value);
      } else {
        assert picked + [] == picked;
      }
    }
  }

  /** The picked scores are those of datasets on the list. */
  lemma {:induction false} PicksAreLatest(scores: seq<Score>, ids: seq<string>, day: int, cutoff: int, k: nat)
    requires (forall n :: 0 <= n < |ids| ==> ids[n] != "") && k < |Picks(scores, ids, day, cutoff)|
    ensures var score := Picks(scores, ids, day, cutoff)[k];
      IsLatestNumber(score, scores, day, cutoff) && score.scopeId in ids
  {
    var front, id := ids[..|ids| - 1], ids[|ids| - 1];
    assert ids == front + [id];
    if k < |Picks(scores, front, day, cutoff)| {
      PicksAreLatest(scores, front, day, cutoff, k);
    } else {
      PickIsLatest(scores, id, day, cutoff);
    }
  }

  lemma {:induction false} PicksAreDistinct(scores: seq<Score>, ids: seq<string>, day: int, cutoff: int, j: nat, k: nat)
    requires NoRepeats(ids) && (forall n :: 0 <= n < |ids| ==> ids[n] != "") && j < k < |Picks(scores, ids, day, cutoff)|
    ensures Picks(scores, ids, day, cutoff)[j].scopeId != Picks(scores, ids, day, cutoff)[k].scopeId
  {
    var front, id := ids[..|ids| - 1], ids[|ids| - 1];
    assert ids == front + [id];
    if k < |Picks(scores, front, day, cutoff)| {
      PicksAreDistinct(scores, front, day, cutoff, j, k);
    } else {
      PicksAreLatest(scores, front, day, cutoff, j);
      PickIsLatest(scores, id, day, cutoff);
    }
  }

  lemma {:induction false} PicksAreComplete(scores: seq<Score>, ids: seq<string>, day: int, cutoff: int, id: string)
    requires id in ids && HasValue(scores, id, day, cutoff)
    ensures exists k :: 0 <= k < |Picks(scores, ids, day, cutoff)| && Picks(scores, ids, day, cutoff)[k].scopeId == id
  {
    var front, last := ids[..|ids| - 1], ids[|ids| - 1];
    var before, all := Picks(scores, front, day, cutoff), Picks(scores, ids, day, cutoff);
    assert ids == front + [last];
    if id == last {
      PickIsLatest(scores, id, day, cutoff);
      assert all[|before|].scopeId == id;
    } else {
      PicksAreComplete(scores, front, day, cutoff, id);
      var k :| 0 <= k < |before| && before[k].scopeId == id;
      assert all[k] == before[k];
    }
  }

  lemma GroupsHaveIds(scores: seq<Score>)
    ensures var keys := GroupBy(ScopeOf, Scoped(scores)).keys;
      NoRepeats(keys) && (forall n :: 0 <= n < |keys| ==> keys[n] != "") && Histories(scores) == HistoriesFor(scores, keys)
  {
    var g := GroupBy(ScopeOf, Scoped(scores));
    GroupByIsWellFormed(ScopeOf, Scoped(scores));
    FilterMembers(HasScope, scores);
    forall n | 0 <= n < |g.keys| ensures g.keys[n] != "" {
      GroupsAreFiltered(ScopeOf, Scoped(scores), g.keys[n]);
    }
    ListedHistories(scores, g.keys);
  }

  lemma {:induction false} ListedHistories(scores: seq<Score>, ids: seq<string>)
    ensures |HistoriesFor(scores, ids)| == |ids|
    ensures forall k :: 0 <= k < |ids| ==> HistoriesFor(scores, ids)[k] == HistoryOf(scores, ids[k])
  {
    if ids != [] {
      ListedHistories(scores, ids[..|ids| - 1]);
    }
  }

  /** The picks of all datasets are their latest numbers of the day. */
  lemma PicksAreLatestNumbers(scores: seq<Score>, day: int, cutoff: int)
    ensures LatestNumbers(Picks(scores, GroupBy(ScopeOf, Scoped(scores)).keys, day, cutoff), scores, day, cutoff)
  {
    var keys := GroupBy(ScopeOf, Scoped(scores)).keys;
    var picked := Picks(scores, keys, day, cutoff);
    GroupsHaveIds(scores);
    forall k | 0 <= k < |picked| ensures IsLatestNumber(picked[k], scores, day, cutoff) {
      PicksAreLatest(scores, keys, day, cutoff, k);
    }
    forall j, k | 0 <= j < k < |picked| ensures picked[j].scopeId != picked[k].scopeId {
      PicksAreDistinct(scores, keys, day, cutoff, j, k);
    }
    forall id | HasValue(scores, id, day, cutoff) ensures exists k :: 0 <= k < |picked| && picked[k].scopeId == id {
      ValuedIsGrouped(scores, id, day, cutoff);
      PicksAreComplete(scores, keys, day, cutoff, id);
    }
  }

  /** A point is the average of the latest numbers of the day, one per dataset that has one. */
  lemma PointIsAverageOfLatest(points: seq<Point>, scores: seq<Score>, cutoff: int, k: nat)
    returns (picked: seq<Score>, totals: seq<real>)
    requires IsTrend(points, Histories(scores), cutoff) && k < |points|
    ensures picked != [] && LatestNumbers(picked, scores, points[k].day, cutoff)
    ensures |NumbersOf(picked)| == |picked| && forall j :: 0 <= j < |picked| ==> Some(NumbersOf(picked)[j]) == picked[j].value
    ensures Averages(points[k].value, totals, NumbersOf(picked))
  {
    var day, keys := points[k].day, GroupBy(ScopeOf, Scoped(scores)).keys;
    picked := Picks(scores, keys, day, cutoff);
    PicksAreLatestNumbers(scores, day, cutoff);
    GroupsHaveIds(scores);
    PicksGiveTheValues(scores, keys, day, cutoff);
    OneNumberEach(picked);
    totals := MeanAverages(NumbersOf(picked));
  }

  lemma ValuedIsGrouped(scores: seq<Score>, id: string, day: int, cutoff: int)
    requires HasValue(scores, id, day, cutoff)
    ensures id in GroupBy(ScopeOf, Scoped(scores)).keys
  {
    var g := GroupBy(ScopeOf, Scoped(scores));
    SortPermutes(TimeLe, MembersOf(g, id));
    GroupByIsWellFormed(ScopeOf, Scoped(scores));
    assert HistoryOf(scores, id) != [];
  }
}
