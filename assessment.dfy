/**
 * The assessment submission (`submit_assessment`): the user's stored answers
 * are replaced by the submitted batch, each answer is mapped through its
 * question to a value for one of the fifteen profile dimensions, and the
 * resulting map is merged into the user's personality profile.
 */
module Assessment {
  import opened Wrappers
  import opened Catalog

  /** One element of the submitted `answers` list. */
  datatype AnswerInput = AnswerInput(questionId: int, answer: string)

  /** One `AssessmentAnswer` row of the submitting user. */
  datatype StoredAnswer = StoredAnswer(questionId: int, answer: string)

  /** Why a submission stops before the profile is written. */
  datatype SubmitError =
    | NoAnswers                // the batch is empty: 400, nothing touched
    | UnknownQuestion(id: int) // no question has this id: 400
    | DuplicateAnswer(id: int) // a second answer to one question breaks the (user, question) uniqueness: 500

  /** A map from dimension keys to values; also the fifteen text fields of a profile. */
  type Dims = map<string, string>

  /** Every dimension key with "": the map the answer loop starts from, and a profile's default fields. */
  const Blank: Dims := map k | k in KeySet :: ""

  /** The answers that select a value. */
  const Letters: set<string> := {"a", "b", "c", "d"}

  /** The value an answer selects: exactly "a" to "d" pick `value_a` to `value_d`; anything else gives "". */
  function Resolve(q: Question, answer: string): string
  {
    if answer == "a" then q.valueA
    else if answer == "b" then q.valueB
    else if answer == "c" then q.valueC
    else if answer == "d" then q.valueD
    else ""
  }

  /** On a question with well-formed values, an answer selects a non-empty value exactly when it is a letter. */
  lemma {:induction false} ResolveNonEmptyIff(q: Question, answer: string)
    requires WellFormedValues(q)
    ensures Resolve(q, answer) != "" <==> answer in Letters
  {
  }

  /** On a question with well-formed values, different letters select different values. */
  lemma {:induction false} ResolveInjective(q: Question, x: string, y: string)
    requires WellFormedValues(q) && x in Letters
    requires Resolve(q, x) == Resolve(q, y)
    ensures x == y
  {
  }

  /** `AssessmentQuestion.objects.get(question_id=id)`: the question with that id, if any. */
  function Lookup(questions: seq<Question>, id: int): (r: Option<Question>)
    ensures r.Some? ==> r.value in questions && r.value.id == id
    ensures r.None? ==> forall q :: q in questions ==> q.id != id
  {
    if questions == [] then None
    else if questions[0].id == id then Some(questions[0])
    else Lookup(questions[1..], id)
  }

  /** No two questions share an id (the column is unique). */
  predicate UniqueIds(questions: seq<Question>)
  {
    forall m, n :: 0 <= m < n < |questions| ==> questions[m].id != questions[n].id
  }

  /** With unique ids, looking up a question's id finds that question. */
  lemma {:induction false} LookupFinds(questions: seq<Question>, i: int)
    requires UniqueIds(questions) && 0 <= i < |questions|
    ensures Lookup(questions, questions[i].id) == Some(questions[i])
  {
    if i > 0 {
      assert questions[0].id != questions[i].id;
      LookupFinds(questions[1..], i - 1);
      assert questions[1..][i - 1] == questions[i];
    }
  }

  /** In the seeded catalog, id `i + 1` finds question `i`. */
  lemma {:induction false} CatalogLookup(i: int)
    requires 0 <= i < 15
    ensures Lookup(Questions, i + 1) == Some(Questions[i])
  {
    CatalogIds();
    LookupFinds(Questions, i);
  }

  /** The dimension of the question an answer refers to, if that question exists. */
  function DimensionOf(questions: seq<Question>, a: AnswerInput): Option<string>
  {
    match Lookup(questions, a.questionId)
    case None => None
    case Some(q) => Some(q.dimension)
  }

  /** A row for question `id` has been created. */
  predicate Answered(rows: seq<StoredAnswer>, id: int)
  {
    exists j :: 0 <= j < |rows| && rows[j].questionId == id
  }

  /** The state of the answer loop: the rows created, the dimension map, and the error that ended the loop, if any. */
  datatype Progress = Progress(created: seq<StoredAnswer>, dims: Dims, stopped: Option<SubmitError>)

  /** Stores the selected value under the question's dimension, but only when that dimension is already a key. */
  function Record(dims: Dims, q: Question, answer: string): Dims
  {
    if q.dimension in dims then dims[q.dimension := Resolve(q, answer)] else dims
  }

  /** One iteration of the answer loop. */
  function Step(questions: seq<Question>, p: Progress, a: AnswerInput): Progress
  {
    if p.stopped.Some? then p
    else
      match Lookup(questions, a.questionId)
      case None => p.(stopped := Some(UnknownQuestion(a.questionId)))
      case Some(q) =>
        if Answered(p.created, q.id) then p.(stopped := Some(DuplicateAnswer(q.id)))
        else Progress(p.created + [StoredAnswer(q.id, a.answer)], Record(p.dims, q, a.answer), None)
  }

  /** The answer loop run over a whole batch from no rows and the map `start`; the map keeps the keys of `start`. */
  function Fold(questions: seq<Question>, start: Dims, batch: seq<AnswerInput>): (p: Progress)
    decreases |batch|
    ensures p.dims.Keys == start.Keys
  {
    if batch == [] then Progress([], start, None)
    else Step(questions, Fold(questions, start, batch[..|batch| - 1]), batch[|batch| - 1])
  }

  /** The answer loop of `submit_assessment`, which starts from the blank map; its map keeps exactly the fifteen keys. */
  function Run(questions: seq<Question>, batch: seq<AnswerInput>): (p: Progress)
    ensures p.dims.Keys == KeySet
  {
    Fold(questions, Blank, batch)
  }

  /** The rows a batch creates when nothing stops it: one per answer, in order. */
  function Rows(batch: seq<AnswerInput>): (rows: seq<StoredAnswer>)
    ensures |rows| == |batch|
    ensures forall j :: 0 <= j < |batch| ==> rows[j] == StoredAnswer(batch[j].questionId, batch[j].answer)
  {
    if batch == [] then [] else Rows(batch[..|batch| - 1]) + [StoredAnswer(batch[|batch| - 1].questionId, batch[|batch| - 1].answer)]
  }

  /** Every answer refers to an existing question. */
  predicate AllKnown(questions: seq<Question>, batch: seq<AnswerInput>)
  {
    forall j :: 0 <= j < |batch| ==> Lookup(questions, batch[j].questionId).Some?
  }

  /** No question is answered twice. */
  predicate DistinctIds(batch: seq<AnswerInput>)
  {
    forall m, n :: 0 <= m < n < |batch| ==> batch[m].questionId != batch[n].questionId
  }

  /** A batch that ran clean up to its last answer ran clean on every shorter prefix too. */
  lemma {:induction false} RunCleanPrefix(questions: seq<Question>, start: Dims, batch: seq<AnswerInput>)
    requires batch != [] && Fold(questions, start, batch).stopped.None?
    ensures Fold(questions, start, batch[..|batch| - 1]).stopped.None?
  {
  }

  /**
   * The loop runs to the end exactly when every answer names an existing
   * question and no question is answered twice; it then has created one row
   * per answer.
   */
  lemma {:induction false} RunSucceedsIff(questions: seq<Question>, start: Dims, batch: seq<AnswerInput>)
    decreases |batch|
    ensures Fold(questions, start, batch).stopped.None? <==> AllKnown(questions, batch) && DistinctIds(batch)
    ensures Fold(questions, start, batch).stopped.None? ==> Fold(questions, start, batch).created == Rows(batch)
  {
    if batch != [] {
      var init := batch[..|batch| - 1];
      var a := batch[|batch| - 1];
      RunSucceedsIff(questions, start, init);
      var p := Fold(questions, start, init);
      assert forall j :: 0 <= j < |init| ==> init[j] == batch[j];
      if p.stopped.None? && Lookup(questions, a.questionId).Some? {
        var q := Lookup(questions, a.questionId).value;
        assert Answered(p.created, q.id) <==> exists j :: 0 <= j < |init| && init[j].questionId == a.questionId;
      }
      if !(AllKnown(questions, init) && DistinctIds(init)) {
        assert !(AllKnown(questions, batch) && DistinctIds(batch));
      }
    }
  }

  /** Once the loop has stopped, later answers change nothing: the error and the rows created so far stay. */
  lemma {:induction false} StoppedStays(questions: seq<Question>, start: Dims, batch: seq<AnswerInput>, n: nat)
    requires n <= |batch| && Fold(questions, start, batch[..n]).stopped.Some?
    decreases |batch| - n
    ensures Fold(questions, start, batch) == Fold(questions, start, batch[..n])
  {
    if n < |batch| {
      assert batch[..n + 1][..n] == batch[..n];
      StoppedStays(questions, start, batch, n + 1);
    } else {
      assert batch[..n] == batch;
    }
  }

  /**
   * The first answer naming a missing question stops the loop with that id;
   * the rows created before it remain.
   */
  lemma {:induction false} FirstUnknownStops(questions: seq<Question>, start: Dims, batch: seq<AnswerInput>, i: nat)
    requires i < |batch| && Fold(questions, start, batch[..i]).stopped.None?
    requires Lookup(questions, batch[i].questionId).None?
    ensures Fold(questions, start, batch).stopped == Some(UnknownQuestion(batch[i].questionId))
    ensures Fold(questions, start, batch).created == Fold(questions, start, batch[..i]).created
  {
    assert batch[..i + 1][..i] == batch[..i];
    StoppedStays(questions, start, batch, i + 1);
  }

  /** An answer to a question whose dimension is not one of the keys leaves the map unchanged. */
  lemma {:induction false} UnknownDimensionIgnored(questions: seq<Question>, start: Dims, batch: seq<AnswerInput>, a: AnswerInput)
    requires Fold(questions, start, batch).stopped.None?
    requires Lookup(questions, a.questionId).Some? && Lookup(questions, a.questionId).value.dimension !in start
    ensures Fold(questions, start, batch + [a]).dims == Fold(questions, start, batch).dims
  {
    assert (batch + [a])[..|batch|] == batch;
  }

  /**
   * Last write wins: when the loop runs clean, a key holds the value selected
   * by the LAST answer whose question has that dimension, even when that
   * value is "".
   */
  lemma {:induction false} LastWriteWins(questions: seq<Question>, start: Dims, batch: seq<AnswerInput>, k: string, i: nat, q: Question)
    requires Fold(questions, start, batch).stopped.None? && k in start
    requires i < |batch| && Lookup(questions, batch[i].questionId) == Some(q) && q.dimension == k
    requires forall j :: i < j < |batch| ==> DimensionOf(questions, batch[j]) != Some(k)
    decreases |batch|
    ensures Fold(questions, start, batch).dims[k] == Resolve(q, batch[i].answer)
  {
    var init := batch[..|batch| - 1];
    var a := batch[|batch| - 1];
    RunCleanPrefix(questions, start, batch);
    var p := Fold(questions, start, init);
    var qa := Lookup(questions, a.questionId).value;
    if i < |batch| - 1 {
      assert DimensionOf(questions, a) != Some(k);
      assert forall j :: i < j < |init| ==> init[j] == batch[j];
      LastWriteWins(questions, start, init, k, i, q);
    }
  }

  /** When the loop runs clean, a key no answer's question belongs to stays "". */
  lemma {:induction false} UnansweredStaysBlank(questions: seq<Question>, start: Dims, batch: seq<AnswerInput>, k: string)
    requires Fold(questions, start, batch).stopped.None? && k in start
    requires forall j :: 0 <= j < |batch| ==> DimensionOf(questions, batch[j]) != Some(k)
    decreases |batch|
    ensures Fold(questions, start, batch).dims[k] == start[k]
  {
    if batch != [] {
      var init := batch[..|batch| - 1];
      RunCleanPrefix(questions, start, batch);
        assert forall j :: 0 <= j < |init| ==> init[j] == batch[j];
      UnansweredStaysBlank(questions, start, init, k);
    }
  }

  /** The last answer at or after position `j` whose question has dimension `k`. */
  lemma {:induction false} LastAnswerFor(questions: seq<Question>, batch: seq<AnswerInput>, k: string, j: nat) returns (i: nat)
    requires j < |batch| && DimensionOf(questions, batch[j]) == Some(k)
    decreases |batch| - j
    ensures j <= i < |batch| && DimensionOf(questions, batch[i]) == Some(k)
    ensures forall m :: i < m < |batch| ==> DimensionOf(questions, batch[m]) != Some(k)
  {
    if m :| j < m < |batch| && DimensionOf(questions, batch[m]) == Some(k) {
      i := LastAnswerFor(questions, batch, k, m);
    } else {
      i := j;
    }
  }

  /** Some answer in the batch names question `id`. */
  predicate Covers(batch: seq<AnswerInput>, id: int)
  {
    exists j :: 0 <= j < |batch| && batch[j].questionId == id
  }

  /** A clean run over catalog answers, all letters, that covers question `n + 1` fills the `n`-th key. */
  lemma {:induction false} KeyPopulated(batch: seq<AnswerInput>, n: int)
    requires forall j :: 0 <= j < |batch| ==> batch[j].answer in Letters
    requires Run(Questions, batch).stopped.None?
    requires 0 <= n < 15 && Covers(batch, n + 1)
    ensures Run(Questions, batch).dims[DimensionKeys[n]] != ""
  {
    CatalogDimensions();
    var k := DimensionKeys[n];
    var j :| 0 <= j < |batch| && batch[j].questionId == n + 1;
    CatalogLookup(n);
    assert DimensionOf(Questions, batch[j]) == Some(k);
    var i := LastAnswerFor(Questions, batch, k, j);
    var q := Lookup(Questions, batch[i].questionId).value;
    var qi :| 0 <= qi < |Questions| && Questions[qi] == q;
    CatalogValues();
    assert k in Blank;
    LastWriteWins(Questions, Blank, batch, k, i, q);
    ResolveNonEmptyIff(q, batch[i].answer);
  }

  /**
   * Answering every catalog question once, each with a letter from "a" to
   * "d", runs clean and fills every one of the fifteen keys with a non-empty
   * value.
   */
  lemma {:induction false} FullCatalogPopulates(batch: seq<AnswerInput>)
    requires forall j :: 0 <= j < |batch| ==> batch[j].answer in Letters && 1 <= batch[j].questionId <= 15
    requires DistinctIds(batch)
    requires forall id :: 1 <= id <= 15 ==> Covers(batch, id)
    ensures Run(Questions, batch).stopped.None?
    ensures forall k :: k in KeySet ==> Run(Questions, batch).dims[k] != ""
  {
    forall j | 0 <= j < |batch| ensures Lookup(Questions, batch[j].questionId).Some? {
      CatalogLookup(batch[j].questionId - 1);
    }
    RunSucceedsIff(Questions, Blank, batch);
    forall k | k in KeySet ensures Run(Questions, batch).dims[k] != "" {
      var n :| 0 <= n < |DimensionKeys| && DimensionKeys[n] == k;
      DimensionKeysDistinct();
      KeyPopulated(batch, n);
    }
  }

  /** An answer to a known, not yet answered question appends its row and stores its value under a key dimension. */
  lemma {:induction false} StepRecords(questions: seq<Question>, start: Dims, batch: seq<AnswerInput>, q: Question)
    requires batch != [] && Fold(questions, start, batch[..|batch| - 1]).stopped.None?
    requires Lookup(questions, batch[|batch| - 1].questionId) == Some(q)
    requires !Answered(Fold(questions, start, batch[..|batch| - 1]).created, q.id)
    ensures Fold(questions, start, batch).stopped.None?
    ensures Fold(questions, start, batch).created == Fold(questions, start, batch[..|batch| - 1]).created + [StoredAnswer(q.id, batch[|batch| - 1].answer)]
    ensures q.dimension in start ==> Fold(questions, start, batch).dims == Fold(questions, start, batch[..|batch| - 1]).dims[q.dimension := Resolve(q, batch[|batch| - 1].answer)]
  {
  }

  /** Two answers to two known questions with different key dimensions run clean and store both selected values. */
  lemma {:induction false} TwoAnswers(questions: seq<Question>, start: Dims, batch: seq<AnswerInput>, q1: Question, q2: Question)
    requires |batch| == 2 && batch[0].questionId == q1.id && batch[1].questionId == q2.id && q1.id != q2.id
    requires Lookup(questions, q1.id) == Some(q1) && Lookup(questions, q2.id) == Some(q2)
    requires q1.dimension in start && q2.dimension in start && q1.dimension != q2.dimension
    ensures Fold(questions, start, batch).stopped.None?
    ensures Fold(questions, start, batch).dims[q1.dimension] == Resolve(q1, batch[0].answer)
    ensures Fold(questions, start, batch).dims[q2.dimension] == Resolve(q2, batch[1].answer)
  {
    var first := batch[..1];
    assert first[..0] == [];
    StepRecords(questions, start, first, q1);
    assert batch[..|batch| - 1] == first;
    StepRecords(questions, start, batch, q2);
  }

  /** Questions 1 and 2 of the catalog, found by id. */
  lemma {:induction false} FirstTwoQuestions()
    ensures Lookup(Questions, 1) == Some(Q1) && Lookup(Questions, 2) == Some(Q2)
  {
    CatalogLookup(0);
    CatalogLookup(1);
  }

  /** The dimensions of questions 1 and 2 are two different keys, and "a" and "b" select "creative" and "progress-focused". */
  lemma {:induction false} FirstTwoValues()
    ensures Q1.dimension in Blank && Q2.dimension in Blank
    ensures Q1.dimension == "problem_solving" && Resolve(Q1, "a") == "creative"
    ensures Q2.dimension == "goal_energy" && Resolve(Q2, "b") == "progress-focused"
  {
  }

  /** Question 1 answered "a" and question 2 answered "b" map to "creative" and "progress-focused". */
  lemma {:induction false} FirstTwoQuestionsExample(batch: seq<AnswerInput>)
    requires batch == [AnswerInput(1, "a"), AnswerInput(2, "b")]
    ensures Run(Questions, batch).stopped.None?
    ensures Run(Questions, batch).dims["problem_solving"] == "creative"
    ensures Run(Questions, batch).dims["goal_energy"] == "progress-focused"
  {
    FirstTwoQuestions();
    FirstTwoValues();
    TwoAnswers(Questions, Blank, batch, Q1, Q2);
  }

  /** The profile after the update loop: a non-empty mapped value replaces the stored field; every other field keeps its value. */
  function Patched(profile: Dims, dims: Dims): Dims
  {
    map k | k in profile :: if k in dims && dims[k] != "" then dims[k] else profile[k]
  }

  /** A new profile gets only the non-empty mapped values; its other fields take the default "". */
  function Created(dims: Dims): Dims
  {
    map k | k in KeySet :: if k in dims && dims[k] != "" then dims[k] else ""
  }

  /** The profile written by a clean run: patched when one exists, created otherwise. */
  function Merged(profile: Option<Dims>, dims: Dims): Dims
  {
    match profile
    case None => Created(dims)
    case Some(p) => Patched(p, dims)
  }

  /** Creating a profile is patching the blank one. */
  lemma {:induction false} CreatedIsPatchedBlank(dims: Dims)
    ensures Created(dims) == Patched(Blank, dims)
  {
  }

  /** Because the loop's map holds all fifteen keys, a new profile is exactly that map, "" entries included. */
  lemma {:induction false} CreatedIsDims(dims: Dims)
    requires dims.Keys == KeySet
    ensures Created(dims) == dims
  {
  }

  /** A map of only "" values leaves a stored profile as it is. */
  lemma {:induction false} PatchWithBlanksKeeps(profile: Dims, dims: Dims)
    requires forall k :: k in dims ==> dims[k] == ""
    ensures Patched(profile, dims) == profile
  {
  }

  /** A map whose fifteen values are all non-empty replaces a stored profile entirely. */
  lemma {:induction false} PatchWithFullMapReplaces(profile: Dims, dims: Dims)
    requires profile.Keys == KeySet && dims.Keys == KeySet
    requires forall k :: k in dims ==> dims[k] != ""
    ensures Patched(profile, dims) == dims
  {
  }

  /** Submitting the same answers twice leaves the profile as after the first time. */
  lemma {:induction false} PatchIdempotent(profile: Dims, dims: Dims)
    ensures Patched(Patched(profile, dims), dims) == Patched(profile, dims)
  {
  }

  /**
   * The update loop of `submit_assessment`: visits every key of the mapped
   * values and copies each non-empty value into the stored profile. The keys
   * are distinct, so the order of the visit does not matter.
   */
  method UpdateProfile(profile: Dims, dims: Dims) returns (r: Dims)
    requires dims.Keys <= profile.Keys
    ensures r == Patched(profile, dims)
  {
    r := profile;
    var todo := dims.Keys;
    while todo != {}
      invariant todo <= dims.Keys
      invariant r.Keys == profile.Keys
      invariant forall k :: k in r ==> r[k] == if k in dims && k !in todo && dims[k] != "" then dims[k] else profile[k]
      decreases todo
    {
      var key :| key in todo;
      if dims[key] != "" {
        r := r[key := dims[key]];
      }
      todo := todo - {key};
    }
  }

  /**
   * The answer loop of `submit_assessment`: creates one row per answer and
   * records the selected value, stopping at the first answer that names a
   * missing question or repeats one. Returns the rows created, the map and
   * the error, if any.
   */
  method AnswerLoop(questions: seq<Question>, start: Dims, batch: seq<AnswerInput>) returns (p: Progress)
    ensures p == Fold(questions, start, batch)
  {
    var rows: seq<StoredAnswer> := [];
    var dims := start;
    for i := 0 to |batch|
      invariant Fold(questions, start, batch[..i]) == Progress(rows, dims, None)
    {
      assert batch[..i + 1][..i] == batch[..i];
      var a := batch[i];
      var found := Lookup(questions, a.questionId);
      if found.None? {
        StoppedStays(questions, start, batch, i + 1);
        return Progress(rows, dims, Some(UnknownQuestion(a.questionId)));
      }
      var q := found.value;
      if Answered(rows, q.id) {
        StoppedStays(questions, start, batch, i + 1);
        return Progress(rows, dims, Some(DuplicateAnswer(q.id)));
      }
      rows := rows + [StoredAnswer(q.id, a.answer)];
      var value := Resolve(q, a.answer);
      if q.dimension in dims {
        dims := dims[q.dimension := value];
      }
    }
    assert batch[..|batch|] == batch;
    p := Progress(rows, dims, None);
  }

  /** The submitting user's assessment records: the question table, their answer rows and their profile. */
  class UserAssessment {
    const questions: seq<Question>
    var answers: seq<StoredAnswer>
    var profile: Option<Dims>

    /** A stored profile has exactly the fifteen dimension fields. */
    ghost predicate Valid()
      reads this
    {
      profile.Some? ==> profile.value.Keys == KeySet
    }

    constructor (questions: seq<Question>, answers: seq<StoredAnswer>, profile: Option<Dims>)
      requires profile.Some? ==> profile.value.Keys == KeySet
      ensures Valid()
      ensures this.questions == questions && this.answers == answers && this.profile == profile
    {
      this.questions := questions;
      this.answers := answers;
      this.profile := profile;
    }

    /**
     * `submit_assessment`. An empty batch is refused before anything
     * changes. Otherwise the old answer rows are deleted and one row is
     * created per answer until an answer names a missing question or repeats
     * one; on such an error the rows created so far remain and the profile
     * is untouched. After a clean run the mapped values are merged into the
     * profile, which is returned.
     */
    method SubmitAssessment(batch: seq<AnswerInput>) returns (outcome: Result<Dims, SubmitError>)
      requires Valid()
      modifies this
      ensures Valid()
      ensures batch == [] ==> outcome == Failure(NoAnswers) && answers == old(answers) && profile == old(profile)
      ensures batch != [] ==> answers == Run(questions, batch).created
      ensures batch != [] && Run(questions, batch).stopped.Some? ==>
                outcome == Failure(Run(questions, batch).stopped.value) && profile == old(profile)
      ensures batch != [] && Run(questions, batch).stopped.None? ==>
                profile == Some(Merged(old(profile), Run(questions, batch).dims)) && outcome == Success(profile.value)
    {
      if batch == [] {
        return Failure(NoAnswers);
      }
      var p := AnswerLoop(questions, Blank, batch);
      answers := p.created;
      if p.stopped.Some? {
        return Failure(p.stopped.value);
      }
      var dims := p.dims;
      match profile {
        case None =>
          profile := Some(Created(dims));
        case Some(stored) =>
          var r := UpdateProfile(stored, dims);
          profile := Some(r);
      }
      outcome := Success(profile.value);
    }
  }
}
