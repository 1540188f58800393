/**
 * `generate_roadmap`: checks that the request names one of the user's goals
 * and that the user has a profile and stored answers, summarises the answers,
 * asks the generative model for a roadmap, parses the reply and overwrites
 * the six roadmap fields of the goal.
 */
module RoadmapGeneration {
  import opened Wrappers
  import opened Text
  import opened Catalog
  import opened Assessment
  import opened RoadmapParser

  /** A stored `AssessmentAnswer` together with the question it refers to. */
  datatype AnswerRow = AnswerRow(question: Question, answer: string)

  /** The request body: `goal_id`, absent (`None`) or an integer, and the goal text used for the prompt. */
  datatype GenerateRequest = GenerateRequest(
    goalId: Option<int>,
    title: Option<string>,
    category: Option<string>,
    description: Option<string>)

  /** Why no roadmap was produced; each case names the HTTP status it is reported with. */
  datatype GenerateError =
    | GoalIdRequired       // 400
    | GoalNotFound         // 404: no such goal, or not the user's
    | ProfileRequired      // 400
    | AssessmentRequired   // 400
    | ModelFailed(message: string) // 500: the call to the generative model raised
    | SaveFailed           // 500: writing the goal raised

  /** The status code of a failed request. */
  function Status(e: GenerateError): int
  {
    match e
    case GoalIdRequired => 400
    case GoalNotFound => 404
    case ProfileRequired => 400
    case AssessmentRequired => 400
    case ModelFailed(_) => 500
    case SaveFailed => 500
  }

  /** What goes into the prompt; its formatting into text is not part of the model. */
  datatype Prompt = Prompt(
    title: Option<string>,
    category: Option<string>,
    description: Option<string>,
    answers: map<string, string>,
    personality: Dims)

  /** A goal row; only the six roadmap fields are written here. */
  class Goal {
    const id: int
    const owner: int
    var milestoneStart: string
    var milestone3Months: string
    var milestone6Months: string
    var milestone9Months: string
    var milestone12Months: string
    var fullPlan: string

    /** The six roadmap fields. */
    function Plan(): Roadmap
      reads this
    {
      Roadmap(milestoneStart, milestone3Months, milestone6Months, milestone9Months, milestone12Months, fullPlan)
    }

    constructor (id: int, owner: int, plan: Roadmap)
      ensures this.id == id && this.owner == owner && Plan() == plan
    {
      this.id := id;
      this.owner := owner;
      milestoneStart := plan.milestoneStart;
      milestone3Months := plan.milestone3Months;
      milestone6Months := plan.milestone6Months;
      milestone9Months := plan.milestone9Months;
      milestone12Months := plan.milestone12Months;
      fullPlan := plan.fullPlan;
    }
  }

  /** `not goal_id`: the id is absent or 0. */
  predicate GoalIdMissing(req: GenerateRequest)
  {
    req.goalId.None? || req.goalId.value == 0
  }

  /** `Goal.objects.get(id=..., user=...)`: the first goal with that id owned by the user. */
  function FindGoal(goals: seq<Goal>, id: int, user: int): (r: Option<Goal>)
    ensures r.Some? ==> r.value in goals && r.value.id == id && r.value.owner == user
    ensures r.None? ==> forall g :: g in goals ==> g.id != id || g.owner != user
  {
    if goals == [] then None
    else if goals[0].id == id && goals[0].owner == user then Some(goals[0])
    else FindGoal(goals[1..], id, user)
  }

  /** ASCII lower-casing of a string, character by character. */
  function LowerString(s: string): (t: string)
    ensures |t| == |s| && forall i :: 0 <= i < |s| ==> t[i] == Lower(s[i])
  {
    if s == [] then [] else [Lower(s[0])] + LowerString(s[1..])
  }

  /**
   * The summary value of an answer: when the question has a field
   * `value_<letter in lower case>` (exactly the letters a to d), that field;
   * otherwise the letter itself.
   */
  function SummaryValue(q: Question, answer: string): string
  {
    var letter := LowerString(answer);
    if letter == "a" then q.valueA
    else if letter == "b" then q.valueB
    else if letter == "c" then q.valueC
    else if letter == "d" then q.valueD
    else answer
  }

  /** The answers by dimension, in row order, a later row for a dimension replacing an earlier one. */
  function Summary(rows: seq<AnswerRow>): map<string, string>
    decreases |rows|
  {
    if rows == [] then map[]
    else
      var last := rows[|rows| - 1];
      Summary(rows[..|rows| - 1])[last.question.dimension := SummaryValue(last.question, last.answer)]
  }

  /** The summary has one key per dimension of a row. */
  lemma {:induction false} SummaryKeys(rows: seq<AnswerRow>, k: string)
    decreases |rows|
    ensures k in Summary(rows) <==> exists i :: 0 <= i < |rows| && rows[i].question.dimension == k
  {
    if rows != [] {
      var init := rows[..|rows| - 1];
      SummaryKeys(init, k);
      assert forall i :: 0 <= i < |init| ==> init[i] == rows[i];
    }
  }

  /** Row `i` is the last row whose question has dimension `k`. */
  predicate LastRowOf(rows: seq<AnswerRow>, k: string, i: int)
  {
    0 <= i < |rows| && rows[i].question.dimension == k
    && forall j :: i < j < |rows| ==> rows[j].question.dimension != k
  }

  /** A key of the summary holds the value of the last row of that dimension. */
  lemma {:induction false} SummaryLastWins(rows: seq<AnswerRow>, k: string)
    requires k in Summary(rows)
    decreases |rows|
    ensures exists i :: LastRowOf(rows, k, i) && Summary(rows)[k] == SummaryValue(rows[i].question, rows[i].answer)
  {
    var n := |rows| - 1;
    var init := rows[..n];
    var last := rows[n];
    if last.question.dimension != k {
      SummaryLastWins(init, k);
      var i :| LastRowOf(init, k, i) && Summary(init)[k] == SummaryValue(init[i].question, init[i].answer);
      assert rows[i] == init[i];
      assert forall j :: i < j < n ==> rows[j] == init[j];
      assert LastRowOf(rows, k, i);
    } else {
      assert LastRowOf(rows, k, n);
    }
  }

  /** On the letters a to d the summary and the profile mapper select the same value. */
  lemma {:induction false} SummaryAgreesOnLetters(q: Question, answer: string)
    requires answer in Letters
    ensures SummaryValue(q, answer) == Resolve(q, answer)
  {
  }

  /**
   * Elsewhere they differ: an upper-case letter selects its value in the
   * summary but "" in the mapper, and any other answer appears in the
   * summary as written.
   */
  lemma {:induction false} SummaryDiffersOffLetters(q: Question, answer: string)
    requires answer !in Letters
    ensures Resolve(q, answer) == ""
    ensures LowerString(answer) in Letters ==> SummaryValue(q, answer) == Resolve(q, LowerString(answer))
    ensures LowerString(answer) !in Letters ==> SummaryValue(q, answer) == answer
  {
  }

  /** The upper-case "A" selects `value_a` in the summary, where the mapper gives "". */
  lemma {:induction false} UpperCaseExample(q: Question)
    ensures SummaryValue(q, "A") == q.valueA && Resolve(q, "A") == ""
  {
  }

  /** The `assessment_summary` loop. */
  method AssessmentSummary(rows: seq<AnswerRow>) returns (summary: map<string, string>)
    ensures summary == Summary(rows)
  {
    summary := map[];
    for i := 0 to |rows|
      invariant summary == Summary(rows[..i])
    {
      assert rows[..i + 1][..i] == rows[..i];
      var row := rows[i];
      var choice := row.answer;
      var value := choice;
      var letter := LowerString(choice);
      if letter == "a" {
        value := row.question.valueA;
      } else if letter == "b" {
        value := row.question.valueB;
      } else if letter == "c" {
        value := row.question.valueC;
      } else if letter == "d" {
        value := row.question.valueD;
      }
      summary := summary[row.question.dimension := value];
    }
    assert rows[..|rows|] == rows;
  }

  /** The first failing check, in the order the view makes them, all before the model is called. */
  function Precheck(req: GenerateRequest, user: int, goals: seq<Goal>, profile: Option<Dims>, rows: seq<AnswerRow>): Option<GenerateError>
  {
    if GoalIdMissing(req) then Some(GoalIdRequired)
    else if FindGoal(goals, req.goalId.value, user).None? then Some(GoalNotFound)
    else if profile.None? then Some(ProfileRequired)
    else if rows == [] then Some(AssessmentRequired)
    else None
  }

  /**
   * The response of the view: a failed check, a failed model call, a failed
   * save, or the parsed roadmap written to the goal. `model` stands for the
   * generative model and `saves` for whether writing the goal succeeds.
   */
  function Respond(req: GenerateRequest, user: int, goals: seq<Goal>, profile: Option<Dims>, rows: seq<AnswerRow>,
                   model: Prompt -> Result<string, string>, saves: bool): Result<Roadmap, GenerateError>
  {
    match Precheck(req, user, goals, profile, rows)
    case Some(e) => Failure(e)
    case None =>
      match model(Prompt(req.title, req.category, req.description, Summary(rows), profile.value))
      case Failure(message) => Failure(ModelFailed(message))
      case Success(reply) => if saves then Success(Parse(reply)) else Failure(SaveFailed)
  }

  /**
   * The checks come in order and ahead of the model: a missing id is a 400
   * whatever else holds; an id that finds no goal of the user is a 404
   * whatever the profile and answers; then a missing profile and missing
   * answers are 400s. The model and the save are never consulted when a
   * check fails.
   */
  lemma {:induction false} ChecksComeFirst(req: GenerateRequest, user: int, goals: seq<Goal>, profile: Option<Dims>, rows: seq<AnswerRow>,
                                           model: Prompt -> Result<string, string>, saves: bool,
                                           model': Prompt -> Result<string, string>, saves': bool)
    ensures GoalIdMissing(req) ==> Respond(req, user, goals, profile, rows, model, saves) == Failure(GoalIdRequired)
    ensures !GoalIdMissing(req) && FindGoal(goals, req.goalId.value, user).None? ==>
              Respond(req, user, goals, profile, rows, model, saves) == Failure(GoalNotFound)
    ensures !GoalIdMissing(req) && FindGoal(goals, req.goalId.value, user).Some? && profile.None? ==>
              Respond(req, user, goals, profile, rows, model, saves) == Failure(ProfileRequired)
    ensures !GoalIdMissing(req) && FindGoal(goals, req.goalId.value, user).Some? && profile.Some? && rows == [] ==>
              Respond(req, user, goals, profile, rows, model, saves) == Failure(AssessmentRequired)
    ensures Precheck(req, user, goals, profile, rows).Some? ==>
              Respond(req, user, goals, profile, rows, model, saves) == Respond(req, user, goals, profile, rows, model', saves')
  {
  }

  /** A successful response is exactly the parse of the model's reply to the prompt; nothing of the goal's old roadmap survives. */
  lemma {:induction false} SuccessIsParsedReply(req: GenerateRequest, user: int, goals: seq<Goal>, profile: Option<Dims>, rows: seq<AnswerRow>,
                                                model: Prompt -> Result<string, string>, saves: bool)
    requires Respond(req, user, goals, profile, rows, model, saves).Success?
    ensures Precheck(req, user, goals, profile, rows).None? && saves
    ensures var reply := model(Prompt(req.title, req.category, req.description, Summary(rows), profile.value));
            reply.Success? && Respond(req, user, goals, profile, rows, model, saves).value == Parse(reply.value)
  {
  }

  /** A reply with no `Full Plan:` therefore clears all six fields of the goal. */
  lemma {:induction false} ReplyWithoutPlanClears(req: GenerateRequest, user: int, goals: seq<Goal>, profile: Option<Dims>, rows: seq<AnswerRow>,
                                                  model: Prompt -> Result<string, string>, reply: string)
    requires Precheck(req, user, goals, profile, rows).None?
    requires model(Prompt(req.title, req.category, req.description, Summary(rows), profile.value)) == Success(reply)
    requires forall j :: 0 <= j < |reply| ==> !MatchesAt(reply, FullPlanMarker, j)
    ensures Respond(req, user, goals, profile, rows, model, true) == Success(EmptyRoadmap)
  {
    NoFullPlanMeansEmpty(reply);
  }

  /**
   * `generate_roadmap` for the acting `user`. On success the goal the
   * request names is overwritten with the parsed reply, field by field, and
   * no other goal changes; on any failure no goal changes.
   */
  method GenerateRoadmap(req: GenerateRequest, user: int, goals: seq<Goal>, profile: Option<Dims>, rows: seq<AnswerRow>,
                         model: Prompt -> Result<string, string>, saves: bool) returns (response: Result<Roadmap, GenerateError>)
    modifies set g | g in goals
    ensures response == Respond(req, user, goals, profile, rows, model, saves)
    ensures response.Failure? ==> forall g :: g in goals ==> g.Plan() == old(g.Plan())
    ensures response.Success? ==>
              var target := FindGoal(goals, req.goalId.value, user).value;
              target.Plan() == response.value
              && forall g :: g in goals && g != target ==> g.Plan() == old(g.Plan())
  {
    if GoalIdMissing(req) {
      return Failure(GoalIdRequired);
    }
    var found := FindGoal(goals, req.goalId.value, user);
    if found.None? {
      return Failure(GoalNotFound);
    }
    var target := found.value;
    if profile.None? {
      return Failure(ProfileRequired);
    }
    if rows == [] {
      return Failure(AssessmentRequired);
    }
    var summary := AssessmentSummary(rows);
    var prompt := Prompt(req.title, req.category, req.description, summary, profile.value);
    var reply := model(prompt);
    if reply.Failure? {
      return Failure(ModelFailed(reply.error));
    }
    var parsed := Parse(reply.value);
    if !saves {
      return Failure(SaveFailed);
    }
    target.milestoneStart := parsed.milestoneStart;
    target.milestone3Months := parsed.milestone3Months;
    target.milestone6Months := parsed.milestone6Months;
    target.milestone9Months := parsed.milestone9Months;
    target.milestone12Months := parsed.milestone12Months;
    target.fullPlan := parsed.fullPlan;
    response := Success(parsed);
  }
}
