/** The situation panel's own rules: the symptom draft box and which clicks
    reach the dashboard. */
module Situation {
  import opened Common
  import opened Text
  import opened Model

  /** The outcome of pressing ADD (or Enter): the symptom handed to the
      dashboard, if any, and what the draft box holds afterwards. */
  datatype AddResult = AddResult(forwarded: Option<string>, draft: string)

  /** A draft that is blank once trimmed is not forwarded and stays in the
      box; otherwise its trimmed text is forwarded and the box is cleared. */
  function HandleAdd(draft: string): (r: AddResult)
    ensures r.forwarded.None? <==> IsBlank(draft)
    ensures r.forwarded.None? ==> r.draft == draft
    ensures r.forwarded.Some? ==> r.draft == "" && r.forwarded.value == Trim(draft)
    ensures r.forwarded.Some? ==>
      (r.forwarded.value != [] && !IsSpace(r.forwarded.value[0])
       && !IsSpace(r.forwarded.value[|r.forwarded.value| - 1]))
  {
    var t := Trim(draft);
    TrimEmptyIffBlank(draft);
    if t != "" then TrimEndsNotSpace(draft); AddResult(Some(t), "") else AddResult(None, draft)
  }

  /** A forwarded symptom is already trimmed: typing it again forwards the
      same text. */
  lemma ForwardedIsTrimmed(draft: string)
    requires HandleAdd(draft).forwarded.Some?
    ensures HandleAdd(HandleAdd(draft).forwarded.value).forwarded == HandleAdd(draft).forwarded
  {
    TrimIdempotent(draft);
  }

  /** Pressing ADD (or Enter): the input and the button are rendered only
      in edit mode, so outside it nothing is forwarded and the draft stays;
      in edit mode the press is `HandleAdd`. */
  function AddClick(isEditing: bool, draft: string): (r: AddResult)
    ensures r.forwarded.Some? <==> isEditing && !IsBlank(draft)
    ensures r.forwarded.Some? ==> r.forwarded.value == Trim(draft) && r.draft == ""
    ensures r.forwarded.None? ==> r.draft == draft
  {
    if isEditing then HandleAdd(draft) else AddResult(None, draft)
  }

  /** A badge click requests the vital's toggle only in edit mode. */
  function VitalClick(isEditing: bool, v: Vital): (r: Option<Vital>)
    ensures r.Some? <==> isEditing
    ensures r.Some? ==> r.value == v
  {
    if isEditing then Some(v) else None
  }

  /** A click on row `row`'s REMOVE button, among `rows` rows: the button
      is there only in edit mode, and it passes its own row index. */
  function RemoveClick(isEditing: bool, row: nat, rows: nat): (r: Option<nat>)
    ensures r.Some? <==> isEditing && row < rows
    ensures r.Some? ==> r.value == row
  {
    if isEditing && row < rows then Some(row) else None
  }
}
