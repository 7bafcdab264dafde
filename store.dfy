/** The workout store (internal/infrastructure/postgres/DBHandler.go): each
    repository method is one SQL statement over per-user rows, modelled by its
    effect on in-memory tables. SQL NULL is `None`, timestamps are integers. */
module Store {
  import opened Tables

  type UserId = int

  /** A point in time (the message timestamp the bot passes in). */
  type Time = int

  /** trainings(user_id, start_time, end_time): start is always supplied on insert. */
  datatype TrainingRow = TrainingRow(user: UserId, start: Time, end: Option<Time>)

  /** sets(user_id, exercise_name, start_time, end_time, weight, reps). */
  datatype SetRow = SetRow(
    user: UserId,
    exercise: Option<string>,
    start: Option<Time>,
    end: Option<Time>,
    weight: Option<real>,
    reps: Option<int>)

  /** exercises(user_id, exercise_id, name). */
  datatype ExerciseRow = ExerciseRow(user: UserId, id: int, name: string)

  /** An average kept as the integer pair (sum of the per-training counts,
      number of trainings); the source divides them as floats. */
  datatype Ratio = Ratio(num: nat, den: nat)

  /** What is counted in each training by the three per-training averages. */
  datatype Measure =
    | SetsOfExercise(name: string)   // GetSetsCount: sets of one exercise
    | DistinctExercises              // COUNT(DISTINCT exercise_name)
    | AllSets                        // COUNT(*)

  // ---------------------------------------------------------------------------
  // WHERE clauses

  /** A set with a chosen exercise that is not yet ended (IsExerciseChoosen). */
  predicate ChosenOpenSet(s: SetRow, u: UserId) {
    s.user == u && s.end.None? && s.exercise.Some?
  }

  /** A training of u that has started and not ended (IsTrainingActive). */
  predicate ActiveTraining(t: TrainingRow, u: UserId) {
    t.user == u && t.end.None?
  }

  /** exercise_id in (page*5 - 5, page*5] for user u (GetPage; five entries per page). */
  predicate InPage(e: ExerciseRow, u: UserId, page: int) {
    e.user == u && 5 * page - 5 < e.id <= 5 * page
  }

  /** The containment rule: start_time >= training.start AND end_time <= training.end,
      with SQL's NULL comparison (a NULL on either side makes the row not count). */
  predicate Contains(t: TrainingRow, s: SetRow) {
    && s.user == t.user
    && s.start.Some? && s.start.value >= t.start
    && s.end.Some? && t.end.Some? && s.end.value <= t.end.value
  }

  // ---------------------------------------------------------------------------
  // Masked UPDATE statements

  /** EndTraining: UPDATE trainings SET end_time = t WHERE user_id = u AND end_time IS NULL. */
  function CloseTrainings(ts: seq<TrainingRow>, u: UserId, t: Time): seq<TrainingRow> {
    MaskedUpdate(ts, (r: TrainingRow) => r.user == u && r.end.None?, (r: TrainingRow) => r.(end := Some(t)))
  }

  /** StartSet: UPDATE sets SET start_time = t
      WHERE user_id = u AND start_time IS NULL AND exercise_name IS NOT NULL. */
  function StampSetStarts(ss: seq<SetRow>, u: UserId, t: Time): seq<SetRow> {
    MaskedUpdate(ss, (r: SetRow) => r.user == u && r.start.None? && r.exercise.Some?, (r: SetRow) => r.(start := Some(t)))
  }

  /** EndSet: UPDATE sets SET end_time = t WHERE user_id = u AND end_time IS NULL. */
  function StampSetEnds(ss: seq<SetRow>, u: UserId, t: Time): seq<SetRow> {
    MaskedUpdate(ss, (r: SetRow) => r.user == u && r.end.None?, (r: SetRow) => r.(end := Some(t)))
  }

  /** SetWeight: UPDATE sets SET weight = w WHERE user_id = u AND weight IS NULL. */
  function FillWeights(ss: seq<SetRow>, u: UserId, w: real): seq<SetRow> {
    MaskedUpdate(ss, (r: SetRow) => r.user == u && r.weight.None?, (r: SetRow) => r.(weight := Some(w)))
  }

  /** SetReps: UPDATE sets SET reps = n WHERE user_id = u AND reps IS NULL. */
  function FillReps(ss: seq<SetRow>, u: UserId, n: int): seq<SetRow> {
    MaskedUpdate(ss, (r: SetRow) => r.user == u && r.reps.None?, (r: SetRow) => r.(reps := Some(n)))
  }

  /** EndTraining ends exactly u's open trainings, leaves every other row as it
      was, leaves u with no active training, and a repeat (any time) changes nothing. */
  lemma EndTrainingEffect(ts: seq<TrainingRow>, u: UserId, t: Time, t': Time)
    ensures |CloseTrainings(ts, u, t)| == |ts|
    ensures forall i :: 0 <= i < |ts| ==>
      CloseTrainings(ts, u, t)[i] == (if ts[i].user == u && ts[i].end.None? then ts[i].(end := Some(t)) else ts[i])
    ensures forall i :: 0 <= i < |ts| ==> !ActiveTraining(CloseTrainings(ts, u, t)[i], u)
    ensures CloseTrainings(CloseTrainings(ts, u, t), u, t') == CloseTrainings(ts, u, t)
  {
    var hit := (r: TrainingRow) => r.user == u && r.end.None?;
    forall i | 0 <= i < |ts| {
      MaskedUpdateAt(ts, hit, (r: TrainingRow) => r.(end := Some(t)), i);
    }
    MaskedUpdateIdempotent(ts, hit, (r: TrainingRow) => r.(end := Some(t)), (r: TrainingRow) => r.(end := Some(t')));
  }

  /** StartSet stamps exactly u's unstarted sets that have an exercise; a set
      without an exercise never gets a start time; a repeat changes nothing. */
  lemma StartSetEffect(ss: seq<SetRow>, u: UserId, t: Time, t': Time)
    ensures |StampSetStarts(ss, u, t)| == |ss|
    ensures forall i :: 0 <= i < |ss| ==>
      StampSetStarts(ss, u, t)[i] == (if ss[i].user == u && ss[i].start.None? && ss[i].exercise.Some? then ss[i].(start := Some(t)) else ss[i])
    ensures forall i :: 0 <= i < |ss| && ss[i].exercise.None? ==> StampSetStarts(ss, u, t)[i].start == ss[i].start
    ensures StampSetStarts(StampSetStarts(ss, u, t), u, t') == StampSetStarts(ss, u, t)
  {
    var hit := (r: SetRow) => r.user == u && r.start.None? && r.exercise.Some?;
    forall i | 0 <= i < |ss| {
      MaskedUpdateAt(ss, hit, (r: SetRow) => r.(start := Some(t)), i);
    }
    MaskedUpdateIdempotent(ss, hit, (r: SetRow) => r.(start := Some(t)), (r: SetRow) => r.(start := Some(t')));
  }

  /** EndSet ends exactly u's open sets (whether or not they were started);
      afterwards u has no chosen open set; a repeat changes nothing. */
  lemma EndSetEffect(ss: seq<SetRow>, u: UserId, t: Time, t': Time)
    ensures |StampSetEnds(ss, u, t)| == |ss|
    ensures forall i :: 0 <= i < |ss| ==>
      StampSetEnds(ss, u, t)[i] == (if ss[i].user == u && ss[i].end.None? then ss[i].(end := Some(t)) else ss[i])
    ensures forall i :: 0 <= i < |ss| ==> !ChosenOpenSet(StampSetEnds(ss, u, t)[i], u)
    ensures StampSetEnds(StampSetEnds(ss, u, t), u, t') == StampSetEnds(ss, u, t)
  {
    var hit := (r: SetRow) => r.user == u && r.end.None?;
    forall i | 0 <= i < |ss| {
      MaskedUpdateAt(ss, hit, (r: SetRow) => r.(end := Some(t)), i);
    }
    MaskedUpdateIdempotent(ss, hit, (r: SetRow) => r.(end := Some(t)), (r: SetRow) => r.(end := Some(t')));
  }

  /** SetWeight writes w into exactly u's rows with a NULL weight (ended or not);
      a second call, even with another weight, changes nothing. */
  lemma SetWeightEffect(ss: seq<SetRow>, u: UserId, w: real, w': real)
    ensures |FillWeights(ss, u, w)| == |ss|
    ensures forall i :: 0 <= i < |ss| ==>
      FillWeights(ss, u, w)[i] == (if ss[i].user == u && ss[i].weight.None? then ss[i].(weight := Some(w)) else ss[i])
    ensures FillWeights(FillWeights(ss, u, w), u, w') == FillWeights(ss, u, w)
  {
    var hit := (r: SetRow) => r.user == u && r.weight.None?;
    forall i | 0 <= i < |ss| {
      MaskedUpdateAt(ss, hit, (r: SetRow) => r.(weight := Some(w)), i);
    }
    MaskedUpdateIdempotent(ss, hit, (r: SetRow) => r.(weight := Some(w)), (r: SetRow) => r.(weight := Some(w')));
  }

  /** SetReps writes n into exactly u's rows with NULL reps; a second call,
      even with another count, changes nothing. */
  lemma SetRepsEffect(ss: seq<SetRow>, u: UserId, n: int, n': int)
    ensures |FillReps(ss, u, n)| == |ss|
    ensures forall i :: 0 <= i < |ss| ==>
      FillReps(ss, u, n)[i] == (if ss[i].user == u && ss[i].reps.None? then ss[i].(reps := Some(n)) else ss[i])
    ensures FillReps(FillReps(ss, u, n), u, n') == FillReps(ss, u, n)
  {
    var hit := (r: SetRow) => r.user == u && r.reps.None?;
    forall i | 0 <= i < |ss| {
      MaskedUpdateAt(ss, hit, (r: SetRow) => r.(reps := Some(n)), i);
    }
    MaskedUpdateIdempotent(ss, hit, (r: SetRow) => r.(reps := Some(n)), (r: SetRow) => r.(reps := Some(n')));
  }

  /** StartTrainig has no guard: two calls leave two more active trainings. */
  lemma DoubleStartTwoActive(ts: seq<TrainingRow>, u: UserId, t1: Time, t2: Time)
    ensures Count(ts + [TrainingRow(u, t1, None)] + [TrainingRow(u, t2, None)], (r: TrainingRow) => ActiveTraining(r, u))
         == Count(ts, (r: TrainingRow) => ActiveTraining(r, u)) + 2
  {
    var p := (r: TrainingRow) => ActiveTraining(r, u);
    CountAppend(ts, TrainingRow(u, t1, None), p);
    CountAppend(ts + [TrainingRow(u, t1, None)], TrainingRow(u, t2, None), p);
  }

  // ---------------------------------------------------------------------------
  // Pagination

  /** MaxPages: (count + 4) / 5, i.e. the ceiling of count / 5. */
  function PagesFor(count: nat): (m: nat)
    ensures m == 0 <==> count == 0
    ensures count > 0 ==> 5 * (m - 1) < count <= 5 * m
  {
    (count + 4) / 5
  }

  lemma PagesForExamples()
    ensures PagesFor(0) == 0 && PagesFor(1) == 1 && PagesFor(5) == 1
    ensures PagesFor(6) == 2 && PagesFor(10) == 2
  {
  }

  /** A page window holds at most five distinct ids. */
  function IdsInPage(es: seq<ExerciseRow>, u: UserId, page: int): set<int> {
    set i | 0 <= i < |es| && InPage(es[i], u, page) :: es[i].id
  }

  /** The exercise ids of u are pairwise distinct. */
  predicate DistinctIds(es: seq<ExerciseRow>, u: UserId) {
    forall i, j :: 0 <= i < j < |es| && es[i].user == u && es[j].user == u ==> es[i].id != es[j].id
  }

  /** Appending a row adds its id to the page's ids exactly when the row is on the page. */
  lemma IdsInPageSnoc(es: seq<ExerciseRow>, u: UserId, page: int)
    requires es != []
    ensures IdsInPage(es, u, page) ==
      IdsInPage(es[..|es| - 1], u, page) + (if InPage(es[|es| - 1], u, page) then {es[|es| - 1].id} else {})
  {
    var init := es[..|es| - 1];
    forall n | n in IdsInPage(es, u, page)
      ensures n in IdsInPage(init, u, page) + (if InPage(es[|es| - 1], u, page) then {es[|es| - 1].id} else {})
    {
      var i :| 0 <= i < |es| && InPage(es[i], u, page) && es[i].id == n;
      if i < |init| { assert init[i] == es[i]; }
    }
    forall n | n in IdsInPage(init, u, page) ensures n in IdsInPage(es, u, page) {
      var i :| 0 <= i < |init| && InPage(init[i], u, page) && init[i].id == n;
      assert es[i] == init[i];
    }
  }

  /** With distinct ids, the last row's id is not among the earlier rows' ids. */
  lemma LastIdFresh(es: seq<ExerciseRow>, u: UserId, page: int)
    requires es != [] && DistinctIds(es, u) && InPage(es[|es| - 1], u, page)
    ensures es[|es| - 1].id !in IdsInPage(es[..|es| - 1], u, page)
  {
    var init := es[..|es| - 1];
    forall i | 0 <= i < |init| && InPage(init[i], u, page) ensures init[i].id != es[|es| - 1].id {
      assert es[i] == init[i];
    }
  }

  lemma {:induction false} PageRowsMatchIds(es: seq<ExerciseRow>, u: UserId, page: int)
    requires DistinctIds(es, u)
    ensures |Filter(es, (e: ExerciseRow) => InPage(e, u, page))| == |IdsInPage(es, u, page)|
  {
    if es != [] {
      var init := es[..|es| - 1];
      PageRowsMatchIds(init, u, page);
      IdsInPageSnoc(es, u, page);
      if InPage(es[|es| - 1], u, page) {
        LastIdFresh(es, u, page);
      }
    }
  }

  /** The integers in (lo, lo + k]: there are k of them. */
  function Window(lo: int, k: nat): (w: set<int>)
    ensures forall n :: n in w <==> lo < n <= lo + k
    ensures |w| == k
  {
    if k == 0 then {} else Window(lo, k - 1) + {lo + k}
  }

  /** A subset is no larger than its superset. */
  lemma SubsetSize(a: set<int>, b: set<int>)
    requires a <= b
    ensures |a| <= |b|
  {
    assert b == a + (b - a);
    assert a * (b - a) == {};
  }

  // ---------------------------------------------------------------------------
  // Per-training counts and averages

  /** The distinct non-NULL exercise names among the sets a training contains. */
  function NamesIn(ss: seq<SetRow>, t: TrainingRow): (names: set<string>)
    ensures forall n :: n in names <==> exists i :: 0 <= i < |ss| && Contains(t, ss[i]) && ss[i].exercise == Some(n)
  {
    if ss == [] then {}
    else
      var last := ss[|ss| - 1];
      var init := ss[..|ss| - 1];
      assert forall i :: 0 <= i < |init| ==> init[i] == ss[i];
      NamesIn(init, t) + (if Contains(t, last) && last.exercise.Some? then {last.exercise.value} else {})
  }

  /** The per-training count of the given measure. */
  function TrainingCount(ss: seq<SetRow>, t: TrainingRow, m: Measure): nat {
    match m
    case SetsOfExercise(name) => Count(ss, (s: SetRow) => Contains(t, s) && s.exercise == Some(name))
    case DistinctExercises => |NamesIn(ss, t)|
    case AllSets => Count(ss, (s: SetRow) => Contains(t, s))
  }

  /** A training whose end is NULL counts zero sets under every measure. */
  lemma OpenTrainingCountsNothing(ss: seq<SetRow>, t: TrainingRow, m: Measure)
    requires t.end.None?
    ensures TrainingCount(ss, t, m) == 0
  {
    match m
    case SetsOfExercise(name) => CountPositive(ss, (s: SetRow) => Contains(t, s) && s.exercise == Some(name));
    case DistinctExercises =>
      assert forall n :: n !in NamesIn(ss, t);
      assert NamesIn(ss, t) == {};
    case AllSets => CountPositive(ss, (s: SetRow) => Contains(t, s));
  }

  /** A set row without a start or an end (just chosen, or still running)
      changes no per-training count: SetExercise and StartSet move no average. */
  lemma UnfinishedSetCountsNowhere(ss: seq<SetRow>, s: SetRow, t: TrainingRow, m: Measure)
    requires s.start.None? || s.end.None?
    ensures TrainingCount(ss + [s], t, m) == TrainingCount(ss, t, m)
  {
    match m
    case SetsOfExercise(name) => CountAppend(ss, s, (r: SetRow) => Contains(t, r) && r.exercise == Some(name));
    case DistinctExercises =>
      assert (ss + [s])[..|ss + [s]| - 1] == ss;
    case AllSets => CountAppend(ss, s, (r: SetRow) => Contains(t, r));
  }

  /** The per-training counts, one per training, in training order. */
  function Counts(ts: seq<TrainingRow>, ss: seq<SetRow>, m: Measure): (cs: seq<nat>)
    ensures |cs| == |ts|
    ensures forall k :: 0 <= k < |ts| ==> cs[k] == TrainingCount(ss, ts[k], m)
  {
    if ts == [] then [] else Counts(ts[..|ts| - 1], ss, m) + [TrainingCount(ss, ts[|ts| - 1], m)]
  }

  function Sum(xs: seq<nat>): nat {
    if xs == [] then 0 else Sum(xs[..|xs| - 1]) + xs[|xs| - 1]
  }

  /** The accumulation loop of the averages: result += v for each count. */
  method SumOf(count: seq<nat>) returns (result: nat)
    ensures result == Sum(count)
  {
    result := 0;
    for k := 0 to |count|
      invariant result == Sum(count[..k])
    {
      assert count[..k + 1][..k] == count[..k];
      result := result + count[k];
    }
    assert count[..|count|] == count;
  }

  lemma {:induction false} SumMono(xs: seq<nat>, ys: seq<nat>)
    requires |xs| == |ys| && forall k :: 0 <= k < |xs| ==> xs[k] <= ys[k]
    ensures Sum(xs) <= Sum(ys)
  {
    if xs != [] {
      SumMono(xs[..|xs| - 1], ys[..|ys| - 1]);
    }
  }

  /** A training holds no more distinct exercises than sets. */
  lemma {:induction false} DistinctAtMostAll(ss: seq<SetRow>, t: TrainingRow)
    ensures TrainingCount(ss, t, DistinctExercises) <= TrainingCount(ss, t, AllSets)
  {
    if ss != [] {
      var init := ss[..|ss| - 1];
      var last := ss[|ss| - 1];
      DistinctAtMostAll(init, t);
      assert ss == init + [last];
      CountAppend(init, last, (s: SetRow) => Contains(t, s));
      var before := NamesIn(init, t);
      if Contains(t, last) && last.exercise.Some? {
        assert NamesIn(ss, t) == before + {last.exercise.value};
        assert |before + {last.exercise.value}| <= |before| + 1;
      } else {
        assert NamesIn(ss, t) == before;
      }
    }
  }

  /** The three averages are ordered: per exercise and distinct exercises
      never exceed all sets, over the same trainings. */
  lemma AveragesOrdered(ts: seq<TrainingRow>, ss: seq<SetRow>, name: string)
    ensures Sum(Counts(ts, ss, SetsOfExercise(name))) <= Sum(Counts(ts, ss, AllSets))
    ensures Sum(Counts(ts, ss, DistinctExercises)) <= Sum(Counts(ts, ss, AllSets))
  {
    var all := Counts(ts, ss, AllSets);
    forall k | 0 <= k < |ts| ensures Counts(ts, ss, SetsOfExercise(name))[k] <= all[k] {
      CountMono(ss, (s: SetRow) => Contains(ts[k], s) && s.exercise == Some(name), (s: SetRow) => Contains(ts[k], s));
    }
    SumMono(Counts(ts, ss, SetsOfExercise(name)), all);
    forall k | 0 <= k < |ts| ensures Counts(ts, ss, DistinctExercises)[k] <= all[k] {
      DistinctAtMostAll(ss, ts[k]);
    }
    SumMono(Counts(ts, ss, DistinctExercises), all);
  }

  // ---------------------------------------------------------------------------
  // GetTrainings: ORDER BY start_time

  predicate SortedByStart(ts: seq<TrainingRow>) {
    forall i, j :: 0 <= i < j < |ts| ==> ts[i].start <= ts[j].start
  }

  /** Places t after every row that does not start later than it. */
  function InsertByStart(t: TrainingRow, sorted: seq<TrainingRow>): (r: seq<TrainingRow>)
    ensures multiset(r) == multiset(sorted) + multiset{t}
    ensures |r| > 0 && (r[0] == t || (sorted != [] && r[0] == sorted[0]))
    ensures SortedByStart(sorted) ==> SortedByStart(r)
  {
    if sorted == [] then [t]
    else if t.start < sorted[0].start then [t] + sorted
    else
      var rest := InsertByStart(t, sorted[1..]);
      assert sorted == [sorted[0]] + sorted[1..];
      assert SortedByStart(sorted) ==> sorted[0].start <= rest[0].start && SortedByStart(rest);
      [sorted[0]] + rest
  }

  /** Orders rows by start time; rows with equal starts keep their table order. */
  function SortByStart(ts: seq<TrainingRow>): (r: seq<TrainingRow>)
    ensures SortedByStart(r)
    ensures multiset(r) == multiset(ts)
  {
    if ts == [] then []
    else
      assert ts == ts[..|ts| - 1] + [ts[|ts| - 1]];
      InsertByStart(ts[|ts| - 1], SortByStart(ts[..|ts| - 1]))
  }

  // ---------------------------------------------------------------------------
  // The repository

  /** UserRepositoryDB: the four tables, changed in place by its methods. */
  class Repository {
    var users: seq<UserId>
    var trainings: seq<TrainingRow>
    var sets: seq<SetRow>
    var exercises: seq<ExerciseRow>

    constructor ()
      ensures users == [] && trainings == [] && sets == [] && exercises == []
    {
      users, trainings, sets, exercises := [], [], [], [];
    }

    /** INSERT INTO trainings (user_id, start_time): no guard against an active training. */
    method StartTraining(u: UserId, t: Time)
      modifies this`trainings
      ensures trainings == old(trainings) + [TrainingRow(u, t, None)]
    {
      trainings := trainings + [TrainingRow(u, t, None)];
    }

    method EndTraining(u: UserId, t: Time)
      modifies this`trainings
      ensures trainings == CloseTrainings(old(trainings), u, t)
      ensures !IsTrainingActive(u)
    {
      EndTrainingEffect(trainings, u, t, t);
      trainings := CloseTrainings(trainings, u, t);
    }

    method StartSet(u: UserId, t: Time)
      modifies this`sets
      ensures sets == StampSetStarts(old(sets), u, t)
    {
      sets := StampSetStarts(sets, u, t);
    }

    method EndSet(u: UserId, t: Time)
      modifies this`sets
      ensures sets == StampSetEnds(old(sets), u, t)
      ensures !IsExerciseChosen(u)
    {
      EndSetEffect(sets, u, t, t);
      sets := StampSetEnds(sets, u, t);
    }

    method SetWeight(u: UserId, w: real)
      modifies this`sets
      ensures sets == FillWeights(old(sets), u, w)
    {
      sets := FillWeights(sets, u, w);
    }

    method SetReps(u: UserId, n: int)
      modifies this`sets
      ensures sets == FillReps(old(sets), u, n)
    {
      sets := FillReps(sets, u, n);
    }

    /** INSERT INTO sets (exercise_name, user_id): every other column NULL. */
    method SetExercise(u: UserId, name: string)
      modifies this`sets
      ensures sets == old(sets) + [SetRow(u, Some(name), None, None, None, None)]
      ensures IsExerciseChosen(u)
    {
      sets := sets + [SetRow(u, Some(name), None, None, None, None)];
      assert ChosenOpenSet(sets[|sets| - 1], u);
    }

    /** INSERT INTO exercises (name, user_id): the statement supplies no
        exercise_id, so the id the table assigns is a parameter here. */
    method AddExercise(u: UserId, name: string, assignedId: int)
      modifies this`exercises
      ensures exercises == old(exercises) + [ExerciseRow(u, assignedId, name)]
    {
      exercises := exercises + [ExerciseRow(u, assignedId, name)];
    }

    method RegisterUser(u: UserId)
      modifies this`users
      ensures users == old(users) + [u]
      ensures UserCheck(u)
    {
      users := users + [u];
    }

    /** SELECT COUNT(*) FROM users WHERE user_id = u, compared with 0. */
    function UserCheck(u: UserId): (known: bool)
      reads this
      ensures known <==> u in users
    {
      CountPositive(users, (v: UserId) => v == u);
      Count(users, (v: UserId) => v == u) > 0
    }

    function IsExerciseChosen(u: UserId): (chosen: bool)
      reads this
      ensures chosen <==> exists i :: 0 <= i < |sets| && ChosenOpenSet(sets[i], u)
    {
      CountPositive(sets, (s: SetRow) => ChosenOpenSet(s, u));
      Count(sets, (s: SetRow) => ChosenOpenSet(s, u)) > 0
    }

    function IsTrainingActive(u: UserId): (active: bool)
      reads this
      ensures active <==> exists i :: 0 <= i < |trainings| && ActiveTraining(trainings[i], u)
    {
      CountPositive(trainings, (t: TrainingRow) => ActiveTraining(t, u));
      Count(trainings, (t: TrainingRow) => ActiveTraining(t, u)) > 0
    }

    /** SELECT MAX(exercise_id) ... WHERE user_id = u: NULL (an error once
        scanned into an int) when u has no exercise. */
    function MaxExerciseId(u: UserId): (r: Option<int>)
      reads this
      ensures r.None? <==> forall i :: 0 <= i < |exercises| ==> exercises[i].user != u
      ensures r.Some? ==> exists i :: 0 <= i < |exercises| && exercises[i].user == u && exercises[i].id == r.value
      ensures r.Some? ==> forall i :: 0 <= i < |exercises| && exercises[i].user == u ==> exercises[i].id <= r.value
    {
      var mine := (e: ExerciseRow) => e.user == u;
      var rows := Filter(exercises, mine);
      FilterMembers(exercises, mine);
      assert forall i :: 0 <= i < |exercises| && exercises[i].user == u ==> exercises[i] in rows;
      assert forall k :: 0 <= k < |rows| ==> rows[k] in exercises && rows[k].user == u;
      MaxIdOf(rows)
    }

    /** The names of u's exercises whose id lies in (5*page - 5, 5*page], in table order. */
    function GetPage(u: UserId, page: int): (names: seq<string>)
      reads this
      ensures forall n :: n in names <==> exists i :: 0 <= i < |exercises| && InPage(exercises[i], u, page) && exercises[i].name == n
      ensures forall n :: multiset(names)[n] == Count(exercises, (e: ExerciseRow) => InPage(e, u, page) && e.name == n)
    {
      var inPage := (e: ExerciseRow) => InPage(e, u, page);
      var rows := Filter(exercises, inPage);
      FilterMembers(exercises, inPage);
      assert forall i :: 0 <= i < |exercises| && InPage(exercises[i], u, page) ==> exercises[i] in rows;
      assert forall k :: 0 <= k < |rows| ==> rows[k] in exercises && InPage(rows[k], u, page);
      PageNameCounts(exercises, u, page, NamesOf(rows));
      NamesOf(rows)
    }

    /** A page holds at most five entries when u's ids are distinct. */
    lemma PageAtMostFive(u: UserId, page: int)
      requires DistinctIds(exercises, u)
      ensures |GetPage(u, page)| <= 5
    {
      PageRowsMatchIds(exercises, u, page);
      var ids := IdsInPage(exercises, u, page);
      assert ids <= Window(5 * page - 5, 5);
      SubsetSize(ids, Window(5 * page - 5, 5));
    }

    /** Two different pages never select the same exercise row. */
    lemma PagesDisjoint(u: UserId, p: int, q: int)
      requires p != q
      ensures forall i :: 0 <= i < |exercises| ==> !(InPage(exercises[i], u, p) && InPage(exercises[i], u, q))
    {
    }

    /** SELECT count(*) FROM exercises WHERE user_id = u, then (count + 4) / 5. */
    function MaxPages(u: UserId): (m: nat)
      reads this
      ensures m == PagesFor(Count(exercises, (e: ExerciseRow) => e.user == u))
    {
      (Count(exercises, (e: ExerciseRow) => e.user == u) + 4) / 5
    }

    /** GetTrainings: u's trainings ordered by start_time. */
    function GetTrainings(u: UserId): (r: seq<TrainingRow>)
      reads this
      ensures SortedByStart(r)
      ensures forall k :: 0 <= k < |r| ==> r[k].user == u
      ensures multiset(r) == multiset(Filter(trainings, (t: TrainingRow) => t.user == u))
      ensures |r| == GetTrainingsCount(u)
    {
      var mine := Filter(trainings, (t: TrainingRow) => t.user == u);
      var r := SortByStart(mine);
      assert |r| == |multiset(r)| == |multiset(mine)| == |mine|;
      assert forall k :: 0 <= k < |r| ==> r[k] in multiset(mine);
      r
    }

    function GetTrainingsCount(u: UserId): (n: nat)
      reads this
      ensures n == 0 <==> forall i :: 0 <= i < |trainings| ==> trainings[i].user != u
    {
      CountPositive(trainings, (t: TrainingRow) => t.user == u);
      Count(trainings, (t: TrainingRow) => t.user == u)
    }

    function GetTotalSetsPerExercise(u: UserId, name: string): (n: nat)
      reads this
      ensures n == 0 <==> forall i :: 0 <= i < |sets| ==> !(sets[i].user == u && sets[i].exercise == Some(name))
    {
      CountPositive(sets, (s: SetRow) => s.user == u && s.exercise == Some(name));
      Count(sets, (s: SetRow) => s.user == u && s.exercise == Some(name))
    }

    /** Sets of one exercise contained in the training. */
    function GetSetsCount(t: TrainingRow, name: string): (n: nat)
      reads this
      ensures n == 0 <==> forall i :: 0 <= i < |sets| ==> !(Contains(t, sets[i]) && sets[i].exercise == Some(name))
      ensures n <= GetTotalSetsPerExercise(t.user, name)
    {
      var inT := (s: SetRow) => Contains(t, s) && s.exercise == Some(name);
      CountPositive(sets, inT);
      CountMono(sets, inT, (s: SetRow) => s.user == t.user && s.exercise == Some(name));
      Count(sets, inT)
    }

    /** The count one training contributes: GetSetsCount for one exercise,
        the inline COUNT statements otherwise. */
    function TrainingCountOf(t: TrainingRow, m: Measure): (n: nat)
      reads this
      ensures n == TrainingCount(sets, t, m)
    {
      match m
      case SetsOfExercise(name) => GetSetsCount(t, name)
      case _ => TrainingCount(sets, t, m)
    }

    /** The loop shared by the three per-training averages: one count per
        training appended to `count`, then summed into `result`. */
    method AveragePerTraining(u: UserId, m: Measure) returns (avg: Ratio)
      ensures avg == Ratio(Sum(Counts(GetTrainings(u), sets, m)), |GetTrainings(u)|)
      ensures avg.den == 0 <==> forall i :: 0 <= i < |trainings| ==> trainings[i].user != u
    {
      var ts := GetTrainings(u);
      var count: seq<nat> := [];
      for i := 0 to |ts|
        invariant |count| == i
        invariant forall k :: 0 <= k < i ==> count[k] == TrainingCount(sets, ts[k], m)
      {
        count := count + [TrainingCountOf(ts[i], m)];
      }
      assert count == Counts(ts, sets, m);
      var result := SumOf(count);
      avg := Ratio(result, |count|);
    }

    /** GetAverageSetsPerExerise: sets of `name` per training. */
    method GetAverageSetsPerExercise(u: UserId, name: string) returns (avg: Ratio)
      ensures avg == Ratio(Sum(Counts(GetTrainings(u), sets, SetsOfExercise(name))), GetTrainingsCount(u))
    {
      avg := AveragePerTraining(u, SetsOfExercise(name));
    }

    method GetAverageExercisesPerTraining(u: UserId) returns (avg: Ratio)
      ensures avg == Ratio(Sum(Counts(GetTrainings(u), sets, DistinctExercises)), GetTrainingsCount(u))
    {
      avg := AveragePerTraining(u, DistinctExercises);
    }

    method GetAverageSetsPerTraining(u: UserId) returns (avg: Ratio)
      ensures avg == Ratio(Sum(Counts(GetTrainings(u), sets, AllSets)), GetTrainingsCount(u))
    {
      avg := AveragePerTraining(u, AllSets);
    }
  }

  /** The largest id among the rows, NULL for no rows. */
  function MaxIdOf(rows: seq<ExerciseRow>): (r: Option<int>)
    ensures r.None? <==> rows == []
    ensures r.Some? ==> exists k :: 0 <= k < |rows| && rows[k].id == r.value
    ensures r.Some? ==> forall k :: 0 <= k < |rows| ==> rows[k].id <= r.value
  {
    if rows == [] then None
    else
      var last := rows[|rows| - 1];
      var init := rows[..|rows| - 1];
      assert forall k :: 0 <= k < |init| ==> init[k] == rows[k];
      match MaxIdOf(init)
      case None => Some(last.id)
      case Some(m) => if last.id > m then Some(last.id) else Some(m)
  }

  /** The name column of the selected rows. */
  function NamesOf(rows: seq<ExerciseRow>): (names: seq<string>)
    ensures |names| == |rows|
    ensures forall k :: 0 <= k < |rows| ==> names[k] == rows[k].name
  {
    if rows == [] then [] else NamesOf(rows[..|rows| - 1]) + [rows[|rows| - 1].name]
  }

  /** Each name occurs on a page as often as the rows on that page carry it. */
  lemma {:induction false} PageNameCount(es: seq<ExerciseRow>, u: UserId, page: int, n: string)
    ensures multiset(NamesOf(Filter(es, (e: ExerciseRow) => InPage(e, u, page))))[n]
      == Count(es, (e: ExerciseRow) => InPage(e, u, page) && e.name == n)
  {
    if es != [] {
      var init := es[..|es| - 1];
      var last := es[|es| - 1];
      PageNameCount(init, u, page, n);
      var rows := Filter(init, (e: ExerciseRow) => InPage(e, u, page));
      if InPage(last, u, page) {
        assert (rows + [last])[..|rows + [last]| - 1] == rows;
        assert NamesOf(rows + [last]) == NamesOf(rows) + [last.name];
      }
    }
  }

  /** PageNameCount for every name at once; names is the page as read. */
  lemma PageNameCounts(es: seq<ExerciseRow>, u: UserId, page: int, names: seq<string>)
    requires names == NamesOf(Filter(es, (e: ExerciseRow) => InPage(e, u, page)))
    ensures forall n :: multiset(names)[n] == Count(es, (e: ExerciseRow) => InPage(e, u, page) && e.name == n)
  {
    forall n ensures multiset(names)[n] == Count(es, (e: ExerciseRow) => InPage(e, u, page) && e.name == n) {
      PageNameCount(es, u, page, n);
    }
  }

  /** A row is selected exactly when it is in the table and matches. */
  lemma FilterMembers<T>(rows: seq<T>, p: T -> bool)
    ensures forall x :: x in Filter(rows, p) <==> x in rows && p(x)
  {
    FilterComplete(rows, p);
    forall x | x in rows && p(x) ensures x in Filter(rows, p) {
      assert x in multiset(rows);
    }
    forall x | x in Filter(rows, p) ensures x in rows && p(x) {
      assert x in multiset(Filter(rows, p));
    }
  }

  /** A stricter WHERE clause never counts more rows. */
  lemma {:induction false} CountMono<T>(rows: seq<T>, p: T -> bool, q: T -> bool)
    requires forall x :: p(x) ==> q(x)
    ensures Count(rows, p) <= Count(rows, q)
  {
    if rows != [] {
      CountMono(rows[..|rows| - 1], p, q);
    }
  }
}
