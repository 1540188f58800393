/**
 * The assessment question catalog (`questions_data`) and the fifteen profile
 * dimensions the assessment fills. Each question belongs to one dimension and
 * maps each of its four answer letters to a short value.
 */
module Catalog {
  /** An `AssessmentQuestion` row, without the question text and option labels, which are only displayed. */
  datatype Question = Question(
    id: int,
    dimension: string,
    valueA: string,
    valueB: string,
    valueC: string,
    valueD: string)

  /** The dimension keys of the personality profile, in the order the assessment initialises them. */
  const DimensionKeys: seq<string> := [
    "problem_solving", "goal_energy", "strengths", "change_response", "goal_motivation",
    "daily_motivation", "core_belief", "time_structure", "environment_preference", "progress_block",
    "obstacle_type", "future_focus", "success_definition", "project_style", "support_type"]

  /** The declared width of a profile field and of a question value. */
  const ValueMaxLength := 50

  /** The seeded catalog, question by question. */
  const Q1 := Question(1, "problem_solving", "creative", "analytical", "collaborative", "action-oriented")
  const Q2 := Question(2, "goal_energy", "social", "progress-focused", "growth-focused", "vision-focused")
  const Q3 := Question(3, "strengths", "empathy", "discipline", "strategy", "adaptability")
  const Q4 := Question(4, "change_response", "stability-seeking", "planner", "resilient", "opportunistic")
  const Q5 := Question(5, "goal_motivation", "prove_self", "others", "values", "accomplishment")
  const Q6 := Question(6, "daily_motivation", "external_reward", "growth", "impact", "competition")
  const Q7 := Question(7, "core_belief", "discipline", "curiosity", "community", "purpose")
  const Q8 := Question(8, "time_structure", "routine", "flow", "accountability", "flexibility")
  const Q9 := Question(9, "environment_preference", "quiet_focus", "collaborative", "creative_flex", "high_challenge")
  const Q10 := Question(10, "progress_block", "structure_needed", "support", "solitude", "challenge")
  const Q11 := Question(11, "obstacle_type", "consistency", "starting", "self_doubt", "distractions")
  const Q12 := Question(12, "future_focus", "freedom", "milestones", "recognition", "fulfillment")
  const Q13 := Question(13, "success_definition", "relationships", "mastery", "freedom", "impact")
  const Q14 := Question(14, "project_style", "break_down", "timeline", "research", "just_start")
  const Q15 := Question(15, "support_type", "mentor", "community", "tools", "independent")

  const Questions: seq<Question> := [Q1, Q2, Q3, Q4, Q5, Q6, Q7, Q8, Q9, Q10, Q11, Q12, Q13, Q14, Q15]

  /** A value is non-empty and fits the 50-character field it is stored in. */
  predicate FitsField(v: string)
  {
    0 < |v| <= ValueMaxLength
  }

  /** Every value fits its field and no two letters share a value. */
  predicate WellFormedValues(q: Question)
  {
    && FitsField(q.valueA) && FitsField(q.valueB) && FitsField(q.valueC) && FitsField(q.valueD)
    && q.valueA != q.valueB && q.valueA != q.valueC && q.valueA != q.valueD
    && q.valueB != q.valueC && q.valueB != q.valueD && q.valueC != q.valueD
  }

  /** The dimension keys as a set: the fields of a personality profile. */
  const KeySet: set<string> := set k | k in DimensionKeys

  /** There are fifteen dimension keys, all different. */
  lemma {:induction false} DimensionKeysDistinct()
    ensures |DimensionKeys| == 15
    ensures forall m, n :: 0 <= m < n < |DimensionKeys| ==> DimensionKeys[m] != DimensionKeys[n]
  {
  }

  /** The catalog holds fifteen questions with ids 1 to 15, in ascending order. */
  lemma {:induction false} CatalogIds()
    ensures |Questions| == 15
    ensures forall i :: 0 <= i < 15 ==> Questions[i].id == i + 1
  {
  }

  /** Question `i` belongs to the `i`-th dimension key. */
  lemma {:induction false} CatalogDimensions()
    ensures |Questions| == 15
    ensures forall i :: 0 <= i < 15 ==> Questions[i].dimension == DimensionKeys[i]
  {
  }

  /** Every question's values are non-empty, fit the 50-character field and are pairwise different. */
  lemma {:induction false} CatalogValues()
    ensures forall i :: 0 <= i < |Questions| ==> WellFormedValues(Questions[i])
  {
  }

  /** Every catalog dimension is a profile key, and no two questions share a dimension. */
  lemma {:induction false} CatalogDimensionsDistinct()
    ensures forall i :: 0 <= i < |Questions| ==> Questions[i].dimension in KeySet
    ensures forall m, n :: 0 <= m < n < |Questions| ==> Questions[m].dimension != Questions[n].dimension
  {
    CatalogDimensions();
    DimensionKeysDistinct();
  }
}
