/**
 * The history table the command shows at the top of every iteration: one row per turn,
 * holding the role's value and the text of the turn's first text part, or "N/A".
 */
module Display {
  import opened Content

  datatype Row = Row(role: string, message: string)

  /** What the table shows for a turn without any text part. */
  const NoMessage: string := "N/A"

  /** Index i holds the first text part of the parts. */
  predicate IsFirstText(parts: seq<Part>, i: int)
  {
    0 <= i < |parts| && parts[i].TextPart? && forall j :: 0 <= j < i ==> !parts[j].TextPart?
  }

  /** The text of the first text part, if there is one. */
  function FirstText(parts: seq<Part>): (r: Option<string>)
    ensures r.None? <==> forall i :: 0 <= i < |parts| ==> !parts[i].TextPart?
    ensures forall i :: IsFirstText(parts, i) ==> r == Some(parts[i].text)
  {
    if parts == [] then None
    else if parts[0].TextPart? then Some(parts[0].text)
    else
      var r := FirstText(parts[1..]);
      assert forall i :: 1 <= i < |parts| ==> parts[i] == parts[1..][i - 1];
      r
  }

  /** The row for one turn. */
  function DisplayRow(t: Turn): (row: Row)
    ensures row.role == RoleValue(t.role)
    ensures (forall i :: 0 <= i < |t.parts| ==> !t.parts[i].TextPart?) ==> row.message == NoMessage
    ensures forall i :: IsFirstText(t.parts, i) ==> row.message == t.parts[i].text
  {
    Row(RoleValue(t.role), match FirstText(t.parts) case Some(s) => s case None => NoMessage)
  }

  /** The table: one row per turn of the history, in history order. */
  function DisplayTable(history: seq<Turn>): (rows: seq<Row>)
    ensures |rows| == |history|
    ensures forall i {:trigger rows[i]} :: 0 <= i < |history| ==> rows[i] == DisplayRow(history[i])
  {
    if history == [] then []
    else [DisplayRow(history[0])] + DisplayTable(history[1..])
  }

  /** A turn the user typed shows up in the table as the user's role and exactly the typed text. */
  lemma DisplayUserTurn(text: string, files: seq<Attachment>)
    ensures DisplayRow(UserTurn(text, files)) == Row("user", text)
  {
  }

  /** Growing the history by some turns adds their rows at the end of the table and changes no earlier row. */
  lemma {:induction false} DisplayTableAppend(history: seq<Turn>, more: seq<Turn>)
    ensures DisplayTable(history + more) == DisplayTable(history) + DisplayTable(more)
  {
    var l, r := DisplayTable(history + more), DisplayTable(history) + DisplayTable(more);
    assert |l| == |r|;
    forall i | 0 <= i < |l| ensures l[i] == r[i] {
      if i < |history| {
        assert (history + more)[i] == history[i];
      } else {
        assert (history + more)[i] == more[i - |history|];
      }
    }
  }
}
