/** The Reports page: the four-state status badge with an optimistic list update that is
    reverted when the store refuses the write, and the confirmed delete. */
module Reports {
  import opened Wrappers
  import opened Schema
  import opened Store
  import opened Ui
  import StatusCycle

  /** The statuses in click order. */
  const Ring: seq<string> := ["Pending", "In Progress", "Resolved", "Closed"]

  /** The `statusCycle` record of `handleStatusClick`. */
  const Successors: map<string, string> :=
    map["Pending" := "In Progress", "In Progress" := "Resolved", "Resolved" := "Closed", "Closed" := "Pending"]

  /** `statusCycle[currentStatus] || "Pending"`. */
  function NextStatus(current: string): (r: string)
    ensures r in Ring
    ensures current !in Ring ==> r == "Pending"
  {
    if current in Successors && Successors[current] != "" then Successors[current] else "Pending"
  }

  /** The lookup table is exactly the ring: each status goes to the next one in click order,
      `Closed` wraps round to `Pending`, and everything else starts over at `Pending`. */
  lemma NextStatusFollowsRing(current: string)
    ensures StatusCycle.IsRing(Ring)
    ensures NextStatus(current) == StatusCycle.Next(Ring, current)
  {
    if current in Ring {
      var i :| 0 <= i < |Ring| && Ring[i] == current;
      StatusCycle.NextAt(Ring, i);
    }
  }

  /** Four clicks bring a known status back; fewer never do. */
  lemma FourClicksComeBack(s: string)
    requires s in Ring
    ensures NextStatus(NextStatus(NextStatus(NextStatus(s)))) == s
    ensures NextStatus(s) != s && NextStatus(NextStatus(s)) != s && NextStatus(NextStatus(NextStatus(s))) != s
  {
    var a := NextStatus(s);
    var b := NextStatus(a);
    var c := NextStatus(b);
    NextStatusFollowsRing(s);
    NextStatusFollowsRing(a);
    NextStatusFollowsRing(b);
    NextStatusFollowsRing(c);
    assert StatusCycle.Turn(Ring, s, 1) == a;
    assert StatusCycle.Turn(Ring, s, 2) == b;
    assert StatusCycle.Turn(Ring, s, 3) == c;
    assert StatusCycle.Turn(Ring, s, 4) == NextStatus(c);
    StatusCycle.FullTurn(Ring, s);
  }

  /** `variants[status] || "default"` of `getStatusBadge`. */
  function StatusVariant(status: string): (v: Variant)
    ensures status !in Ring ==> v == Default
    ensures status == "Pending" <==> v == Outline
    ensures status == "Closed" <==> v == Destructive
    ensures status == "In Progress" <==> v == Secondary
    ensures v == Default <==> status == "Resolved" || status !in Ring
  {
    match status
    case "Pending" => Outline
    case "In Progress" => Secondary
    case "Resolved" => Default
    case "Closed" => Destructive
    case _ => Default
  }

  /** The list update `report.id === reportId ? { ...report, status } : report`. */
  function SetStatus(reports: seq<ReportRow>, id: Id, status: string): (r: seq<ReportRow>)
    ensures |r| == |reports|
    ensures forall i :: 0 <= i < |r| ==> r[i].(status := reports[i].status) == reports[i]
    ensures forall i :: 0 <= i < |r| && reports[i].id == id ==> r[i].status == status
    ensures forall i :: 0 <= i < |r| && reports[i].id != id ==> r[i] == reports[i]
  {
    seq(|reports|, i requires 0 <= i < |reports| =>
      if reports[i].id == id then reports[i].(status := status) else reports[i])
  }

  /** The status shown for every listed copy of report `id` is `status`. */
  predicate Shows(reports: seq<ReportRow>, id: Id, status: string) {
    forall i :: 0 <= i < |reports| && reports[i].id == id ==> reports[i].status == status
  }

  /** Setting a status and then setting back the one every copy showed restores the list. */
  lemma SetStatusRevert(reports: seq<ReportRow>, id: Id, current: string, next: string)
    requires Shows(reports, id, current)
    ensures SetStatus(SetStatus(reports, id, next), id, current) == reports
  {
  }

  datatype ClickOutcome = ClickOutcome(shown: seq<ReportRow>, table: Table<ReportRow>, toast: Toast)

  const StatusUpdateFailed: string := "Failed to update status"

  /** `handleStatusClick(id, current)`: update the list optimistically, write only the
      `status` column of row `id`, and on a refused write put `current` back in the list. */
  function StatusClick(shown: seq<ReportRow>, table: Table<ReportRow>, id: Id, current: string, reply: Reply): (r: ClickOutcome)
    ensures r.table.Keys == table.Keys
    ensures forall k :: k in table && k != id ==> r.table[k] == table[k]
    ensures reply.Accepted? ==>
      && (id in table ==> r.table[id] == table[id].(status := NextStatus(current)))
      && r.shown == SetStatus(shown, id, NextStatus(current))
      && r.toast == Success("Status updated to " + NextStatus(current))
    ensures reply.Refused? ==> r.table == table && r.toast == Error(StatusUpdateFailed)
    ensures reply.Refused? ==> Shows(r.shown, id, current)
  {
    var next := NextStatus(current);
    var optimistic := SetStatus(shown, id, next);
    match reply
    case Accepted =>
      ClickOutcome(optimistic, UpdateWhereIdIn(table, {id}, (row: ReportRow) => row.(status := next)),
                   Success("Status updated to " + next))
    case Refused(_) => ClickOutcome(SetStatus(optimistic, id, current), table, Error(StatusUpdateFailed))
  }

  /** A refused status write leaves the list as it was before the click. */
  lemma RefusedClickRestoresList(shown: seq<ReportRow>, table: Table<ReportRow>, id: Id, current: string, message: string)
    requires Shows(shown, id, current)
    ensures StatusClick(shown, table, id, current, Refused(message)).shown == shown
  {
    SetStatusRevert(shown, id, current, NextStatus(current));
  }

  datatype DeleteState = DeleteState(table: Table<ReportRow>, deleteId: Option<Id>, toast: Option<Toast>)

  /** `handleDelete`: nothing happens without a pending id; otherwise delete that row and
      clear the pending id whether or not the store accepted. */
  function HandleDelete(table: Table<ReportRow>, deleteId: Option<Id>, reply: Reply): (r: DeleteState)
    ensures deleteId.None? || deleteId.value == "" ==> r == DeleteState(table, deleteId, None)
    ensures deleteId.Some? && deleteId.value != "" ==>
      && r.deleteId.None?
      && (reply.Accepted? ==> r.table.Keys == table.Keys - {deleteId.value} && r.toast == Some(Success("Report deleted successfully")))
      && (reply.Refused? ==> r.table == table && r.toast == Some(Error("Failed to delete report")))
    ensures forall k :: k in r.table ==> k in table && r.table[k] == table[k]
  {
    match deleteId
    case None => DeleteState(table, deleteId, None)
    case Some(id) =>
      if id == "" then DeleteState(table, deleteId, None)
      else if reply.Accepted? then DeleteState(table - {id}, None, Some(Success("Report deleted successfully")))
      else DeleteState(table, None, Some(Error("Failed to delete report")))
  }
}
