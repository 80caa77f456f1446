/** The fixed table from one-letter test-type codes to their catalogue labels.
    Both preparation scripts carry the same table. */
module TestTypes {
  import opened Wrappers

  const Labels: map<string, string> := map[
    "A" := "Ability & Aptitude",
    "B" := "Biodata & Situational Judgement",
    "C" := "Competencies",
    "D" := "Development & 360",
    "E" := "Assessment Exercises",
    "K" := "Knowledge & Skills",
    "P" := "Personality & Behavior",
    "S" := "Simulations"
  ]

  const Codes: seq<string> := ["A", "B", "C", "D", "E", "K", "P", "S"]

  /** The table's keys are exactly the eight one-letter codes. */
  lemma TableKeys()
    ensures Labels.Keys == set c | c in Codes
    ensures forall c :: c in Labels ==> |c| == 1
  {
  }

  /** `TEST_TYPE_LABELS[code]`: the label, or `None` where Python raises KeyError. */
  function Label(code: string): (r: Option<string>)
    ensures r.Some? <==> code in Labels
    ensures r.Some? ==> r.value == Labels[code]
  {
    if code in Labels then Some(Labels[code]) else None
  }

  /** `TEST_TYPE_LABELS.get(code, code)`: unknown codes pass through unchanged. */
  function LabelOrCode(code: string): (r: string)
    ensures code in Labels ==> r == Labels[code]
    ensures code !in Labels ==> r == code
  {
    Label(code).GetOr(code)
  }
}
