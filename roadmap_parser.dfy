/**
 * The roadmap response parser (`parse_gemini_roadmap_response`): it cuts the
 * free-text reply of the language model into five milestones and a full plan,
 * by case-insensitive search for fixed markers. Every field defaults to "" and
 * the parser never fails.
 */
module RoadmapParser {
  import opened Wrappers
  import opened Text

  const MilestonesMarker := "Milestones:"
  const FullPlanMarker := "Full Plan:"
  const StartMarker := "- Start:"
  const ThreeMonthsMarker := "- 3 months:"
  const SixMonthsMarker := "- 6 months:"
  const NineMonthsMarker := "- 9 months:"
  const TwelveMonthsMarker := "- 12 months:"

  /** The milestone labels in roadmap order: Start, 3, 6, 9 and 12 months. */
  const MilestoneLabels := [StartMarker, ThreeMonthsMarker, SixMonthsMarker, NineMonthsMarker, TwelveMonthsMarker]

  /** The six fields the parser returns; the dictionary of the source always holds all six keys. */
  datatype Roadmap = Roadmap(
    milestoneStart: string,
    milestone3Months: string,
    milestone6Months: string,
    milestone9Months: string,
    milestone12Months: string,
    fullPlan: string)

  const EmptyRoadmap := Roadmap("", "", "", "", "", "")

  /** The milestone field with index `k` (0 = Start, ..., 4 = 12 months). */
  function MilestoneField(r: Roadmap, k: nat): string
    requires k < 5
  {
    match k
    case 0 => r.milestoneStart
    case 1 => r.milestone3Months
    case 2 => r.milestone6Months
    case 3 => r.milestone9Months
    case 4 => r.milestone12Months
  }

  /** `Full Plan:(.*)`: the stripped text after the first `Full Plan:`, or "". */
  function FullPlanText(text: string): string
  {
    match FindFirst(text, FullPlanMarker, 0)
    case None => ""
    case Some(i) => StripSlice(text, i + |FullPlanMarker|, |text|)
  }

  /**
   * `Milestones:(.*?)Full Plan:`, stripped: the text between the first
   * `Milestones:` and the first `Full Plan:` after it, or "". A later
   * `Milestones:` cannot succeed where the first one failed, so the leftmost
   * marker decides.
   */
  function MilestonesText(text: string): string
  {
    match FindFirst(text, MilestonesMarker, 0)
    case None => ""
    case Some(p) =>
      match FindFirst(text, FullPlanMarker, p + |MilestonesMarker|)
      case None => ""
      case Some(q) => StripSlice(text, p + |MilestonesMarker|, q)
  }

  /**
   * `<marker>(.*?)(?=(<stop1>|...|$))` on the milestone span, stripped: the
   * text after the first `marker` up to the earliest of `stops`, or to the end
   * of the span (`$` is the end, because the span is stripped); "" when the
   * marker is absent.
   */
  function Milestone(span: string, marker: string, stops: seq<string>): string
  {
    match FindFirst(span, marker, 0)
    case None => ""
    case Some(p) => StripSlice(span, p + |marker|, FieldEnd(span, stops, p + |marker|))
  }

  /** `parse_gemini_roadmap_response`. */
  function Parse(text: string): Roadmap
  {
    var span := MilestonesText(text);
    var fullPlan := FullPlanText(text);
    if span == "" then
      EmptyRoadmap.(fullPlan := fullPlan)
    else
      Roadmap(
        Milestone(span, StartMarker, [ThreeMonthsMarker, SixMonthsMarker, NineMonthsMarker, TwelveMonthsMarker]),
        Milestone(span, ThreeMonthsMarker, [SixMonthsMarker, NineMonthsMarker, TwelveMonthsMarker]),
        Milestone(span, SixMonthsMarker, [NineMonthsMarker, TwelveMonthsMarker]),
        Milestone(span, NineMonthsMarker, [TwelveMonthsMarker]),
        Milestone(span, TwelveMonthsMarker, []),
        fullPlan)
  }


  /** The full plan field is filled independently of the milestone span. */
  lemma {:induction false} ParseFullPlan(text: string)
    ensures Parse(text).fullPlan == FullPlanText(text)
  {
  }

  /** The stops each milestone search uses are exactly the labels after its own. */
  lemma {:induction false} ParseMilestone(text: string, k: nat)
    requires k < 5
    ensures MilestoneField(Parse(text), k) ==
            if MilestonesText(text) == "" then ""
            else Milestone(MilestonesText(text), MilestoneLabels[k], MilestoneLabels[k + 1..])
  {
    if k == 0 {
      assert MilestoneLabels[1..] == [ThreeMonthsMarker, SixMonthsMarker, NineMonthsMarker, TwelveMonthsMarker];
    } else if k == 1 {
      assert MilestoneLabels[2..] == [SixMonthsMarker, NineMonthsMarker, TwelveMonthsMarker];
    } else if k == 2 {
      assert MilestoneLabels[3..] == [NineMonthsMarker, TwelveMonthsMarker];
    } else if k == 3 {
      assert MilestoneLabels[4..] == [TwelveMonthsMarker];
    } else {
      assert MilestoneLabels[5..] == [];
    }
  }

  /** Without any `Full Plan:` marker, all six fields stay "". */
  lemma {:induction false} NoFullPlanMeansEmpty(text: string)
    requires forall i :: !MatchesAt(text, FullPlanMarker, i)
    ensures Parse(text) == EmptyRoadmap
  {
    FindFirstSpec(text, FullPlanMarker, 0);
    if p :| FindFirst(text, MilestonesMarker, 0) == Some(p) {
      FindFirstSpec(text, FullPlanMarker, p + |MilestonesMarker|);
    }
    assert FullPlanText(text) == "";
    assert MilestonesText(text) == "";
  }

  /**
   * The full plan is the stripped text after the FIRST `Full Plan:` marker,
   * whether or not a `Milestones:` marker exists.
   */
  lemma {:induction false} FullPlanFollowsFirstMarker(text: string, i: int)
    requires IsFirst(text, FullPlanMarker, i)
    ensures Parse(text).fullPlan == StripSlice(text, i + |FullPlanMarker|, |text|)
  {
    FullPlanTextAt(text, i);
    ParseFullPlan(text);
  }

  lemma {:induction false} FullPlanTextAt(text: string, i: int)
    requires IsFirst(text, FullPlanMarker, i)
    ensures FullPlanText(text) == StripSlice(text, i + |FullPlanMarker|, |text|)
  {
    FindFirstIs(text, FullPlanMarker, 0, i);
  }

  /**
   * The milestone span is the stripped text between the first `Milestones:`
   * and the first `Full Plan:` that starts after it.
   */
  lemma {:induction false} MilestoneSpanBetweenMarkers(text: string, p: int, q: int)
    requires IsFirst(text, MilestonesMarker, p)
    requires p + |MilestonesMarker| <= q && MatchesAt(text, FullPlanMarker, q)
    requires forall j :: p + |MilestonesMarker| <= j < q ==> !MatchesAt(text, FullPlanMarker, j)
    ensures MilestonesText(text) == StripSlice(text, p + |MilestonesMarker|, q)
  {
    FindFirstIs(text, MilestonesMarker, 0, p);
    FindFirstIs(text, FullPlanMarker, p + |MilestonesMarker|, q);
    SpanFound(text, p, q);
  }

  lemma {:induction false} SpanFound(text: string, p: nat, q: nat)
    requires FindFirst(text, MilestonesMarker, 0) == Some(p)
    requires FindFirst(text, FullPlanMarker, p + |MilestonesMarker|) == Some(q)
    ensures MilestonesText(text) == StripSlice(text, p + |MilestonesMarker|, q)
  {
  }

  /** Without a `Milestones:` marker the span is empty. */
  lemma {:induction false} NoMilestonesMarkerEmptiesSpan(text: string)
    requires forall p :: !MatchesAt(text, MilestonesMarker, p)
    ensures MilestonesText(text) == ""
  {
    FindFirstSpec(text, MilestonesMarker, 0);
  }

  /** Without a `Full Plan:` after the first `Milestones:`, the span is empty. */
  lemma {:induction false} NoFullPlanAfterMilestonesEmptiesSpan(text: string, p: int)
    requires IsFirst(text, MilestonesMarker, p)
    requires forall q :: p + |MilestonesMarker| <= q ==> !MatchesAt(text, FullPlanMarker, q)
    ensures MilestonesText(text) == ""
  {
    FindFirstIs(text, MilestonesMarker, 0, p);
    FindFirstSpec(text, FullPlanMarker, p + |MilestonesMarker|);
  }

  /** An empty (or absent) milestone span leaves all five milestones "". */
  lemma {:induction false} EmptySpanEmptiesMilestones(text: string, k: nat)
    requires k < 5
    requires MilestonesText(text) == ""
    ensures MilestoneField(Parse(text), k) == ""
  {
    ParseMilestone(text, k);
    FindFirstSpec(MilestonesText(text), MilestoneLabels[k], 0);
  }

  /**
   * Milestone `k` is the stripped text after the first occurrence of its label
   * in the span, up to the earliest occurrence of any LATER label, or to the
   * end of the span.
   */
  lemma {:induction false} MilestoneBetweenMarkers(text: string, k: nat, p: int, e: int)
    requires k < 5
    requires IsFirst(MilestonesText(text), MilestoneLabels[k], p)
    requires IsFieldEnd(MilestonesText(text), MilestoneLabels[k + 1..], p + |MilestoneLabels[k]|, e)
    ensures MilestoneField(Parse(text), k) == StripSlice(MilestonesText(text), p + |MilestoneLabels[k]|, e)
  {
    ParseMilestone(text, k);
    MilestoneOfSpan(MilestonesText(text), MilestoneLabels[k], MilestoneLabels[k + 1..], p, e);
  }

  /** A milestone runs from the end of the first occurrence of its marker to where the field ends. */
  lemma {:induction false} MilestoneOfSpan(span: string, marker: string, stops: seq<string>, p: int, e: int)
    requires IsFirst(span, marker, p)
    requires IsFieldEnd(span, stops, p + |marker|, e)
    ensures Milestone(span, marker, stops) == StripSlice(span, p + |marker|, e)
  {
    FindFirstIs(span, marker, 0, p);
    MilestoneFound(span, marker, stops, p);
    FieldEndSpec(span, stops, p + |marker|);
    FieldEndUnique(span, stops, p + |marker|, e, FieldEnd(span, stops, p + |marker|));
  }

  lemma {:induction false} MilestoneFound(span: string, marker: string, stops: seq<string>, p: nat)
    requires FindFirst(span, marker, 0) == Some(p)
    ensures Milestone(span, marker, stops) == StripSlice(span, p + |marker|, FieldEnd(span, stops, p + |marker|))
  {
  }

  /** `- 12 months:` has no later label, so it always runs to the end of the span. */
  lemma {:induction false} TwelveMonthsRunsToEnd(text: string, p: int)
    requires IsFirst(MilestonesText(text), TwelveMonthsMarker, p)
    ensures Parse(text).milestone12Months == StripSlice(MilestonesText(text), p + |TwelveMonthsMarker|, |MilestonesText(text)|)
  {
    var span := MilestonesText(text);
    ParseMilestone(text, 4);
    assert MilestoneLabels[5..] == [];
    MilestoneOfSpan(span, TwelveMonthsMarker, [], p, |span|);
  }

  /** A label missing from the span empties that milestone; the other fields are still given by `MilestoneBetweenMarkers`. */
  lemma {:induction false} MissingLabelEmptiesField(text: string, k: nat)
    requires k < 5
    requires forall i :: !MatchesAt(MilestonesText(text), MilestoneLabels[k], i)
    ensures MilestoneField(Parse(text), k) == ""
  {
    ParseMilestone(text, k);
    FindFirstSpec(MilestonesText(text), MilestoneLabels[k], 0);
  }

  lemma {:induction false} EmptyIsSubstring(s: string)
    ensures IsSubstring("", s)
  {
    assert OccursAt("", s, 0);
  }

  lemma {:induction false} MilestoneIsTrimmedSubstring(span: string, marker: string, stops: seq<string>)
    ensures IsStripped(Milestone(span, marker, stops)) && IsSubstring(Milestone(span, marker, stops), span)
  {
    match FindFirst(span, marker, 0)
    case None => EmptyIsSubstring(span);
    case Some(p) => StripSliceSpec(span, p + |marker|, FieldEnd(span, stops, p + |marker|));
  }

  lemma {:induction false} FullPlanIsTrimmedSubstring(text: string)
    ensures IsStripped(FullPlanText(text)) && IsSubstring(FullPlanText(text), text)
  {
    match FindFirst(text, FullPlanMarker, 0)
    case None => EmptyIsSubstring(text);
    case Some(i) => StripSliceSpec(text, i + |FullPlanMarker|, |text|);
  }

  lemma {:induction false} SpanIsTrimmedSubstring(text: string)
    ensures IsStripped(MilestonesText(text)) && IsSubstring(MilestonesText(text), text)
  {
    match FindFirst(text, MilestonesMarker, 0)
    case None => EmptyIsSubstring(text);
    case Some(p) =>
      match FindFirst(text, FullPlanMarker, p + |MilestonesMarker|)
      case None => EmptyIsSubstring(text);
      case Some(q) => StripSliceSpec(text, p + |MilestonesMarker|, q);
  }

  /** Every field the parser returns is a stripped slice of the reply it was given. */
  lemma {:induction false} ParsedFieldsAreTrimmedSubstrings(text: string, k: nat)
    requires k < 5
    ensures IsStripped(MilestoneField(Parse(text), k)) && IsSubstring(MilestoneField(Parse(text), k), text)
    ensures IsStripped(Parse(text).fullPlan) && IsSubstring(Parse(text).fullPlan, text)
  {
    ParseFullPlan(text);
    FullPlanIsTrimmedSubstring(text);
    ParseMilestone(text, k);
    var span := MilestonesText(text);
    if span == "" {
      EmptyIsSubstring(text);
    } else {
      SpanIsTrimmedSubstring(text);
      MilestoneIsTrimmedSubstring(span, MilestoneLabels[k], MilestoneLabels[k + 1..]);
      SubstringTransitive(MilestoneField(Parse(text), k), span, text);
    }
  }
}
