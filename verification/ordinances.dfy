/** The Ordinances page: the three-state status badge, its colour, and the confirmed delete.
    The list itself lives in the query cache, so a successful write only asks for a refetch. */
module Ordinances {
  import opened Wrappers
  import opened Schema
  import opened Store
  import opened Ui
  import StatusCycle

  /** The statuses in click order. */
  const Ring: seq<string> := ["Active", "Amended", "Repealed"]

  /** The `statusCycle` record of `handleStatusClick`. */
  const Successors: map<string, string> := map["Active" := "Amended", "Amended" := "Repealed", "Repealed" := "Active"]

  /** `statusCycle[currentStatus] || "Active"`. */
  function NextStatus(current: string): (r: string)
    ensures r in Ring
    ensures current !in Ring ==> r == "Active"
  {
    if current in Successors && Successors[current] != "" then Successors[current] else "Active"
  }

  /** The lookup table is exactly the ring `Active → Amended → Repealed → Active`; any other
      status starts over at `Active`. */
  lemma NextStatusFollowsRing(current: string)
    ensures StatusCycle.IsRing(Ring)
    ensures NextStatus(current) == StatusCycle.Next(Ring, current)
  {
    if current in Ring {
      var i :| 0 <= i < |Ring| && Ring[i] == current;
      StatusCycle.NextAt(Ring, i);
    }
  }

  /** Three clicks bring a known status back; fewer never do. */
  lemma ThreeClicksComeBack(s: string)
    requires s in Ring
    ensures NextStatus(NextStatus(NextStatus(s))) == s
    ensures NextStatus(s) != s && NextStatus(NextStatus(s)) != s
  {
    assert s == Ring[0] || s == Ring[1] || s == Ring[2];
    assert NextStatus(Ring[0]) == Ring[1];
    assert NextStatus(Ring[1]) == Ring[2];
    assert NextStatus(Ring[2]) == Ring[0];
  }

  /** `getStatusColor`. */
  function StatusColor(status: string): (v: Variant)
    ensures v == Outline <==> status !in Ring
    ensures status == "Active" <==> v == Default
    ensures status == "Repealed" <==> v == Destructive
    ensures status == "Amended" <==> v == Secondary
  {
    match status
    case "Active" => Default
    case "Repealed" => Destructive
    case "Amended" => Secondary
    case _ => Outline
  }

  /** What a page action leaves behind: the table, the toast shown, and whether the
      `["ordinances"]` query was invalidated. */
  datatype Outcome = Outcome(table: Table<OrdinanceRow>, toast: Option<Toast>, refetch: bool)

  /** `handleStatusClick(id, current)`: no local state changes; only row `id`'s `status` is
      written, and the list is refetched only after a successful write. */
  function StatusClick(table: Table<OrdinanceRow>, id: Id, current: string, reply: Reply): (r: Outcome)
    ensures r.table.Keys == table.Keys
    ensures forall k :: k in table && k != id ==> r.table[k] == table[k]
    ensures r.refetch <==> reply.Accepted?
    ensures reply.Accepted? ==> id in table ==> r.table[id] == table[id].(status := NextStatus(current))
    ensures reply.Accepted? ==> r.toast == Some(Success("Status updated to " + NextStatus(current)))
    ensures reply.Refused? ==> r.table == table && r.toast == Some(Error("Failed to update status"))
  {
    var next := NextStatus(current);
    if reply.Accepted? then
      Outcome(UpdateWhereIdIn(table, {id}, (row: OrdinanceRow) => row.(status := next)), Some(Success("Status updated to " + next)), true)
    else Outcome(table, Some(Error("Failed to update status")), false)
  }

  /** `handleDelete(id)`: a declined confirmation issues no delete; the store's error message
      is shown as is. */
  function HandleDelete(table: Table<OrdinanceRow>, id: Id, confirmed: bool, reply: Reply): (r: Outcome)
    ensures !confirmed ==> r == Outcome(table, None, false)
    ensures confirmed && reply.Accepted? ==>
      r.table.Keys == table.Keys - {id} && r.refetch && r.toast == Some(Success("Ordinance deleted successfully"))
    ensures confirmed && reply.Refused? ==> r == Outcome(table, Some(Error(reply.message)), false)
    ensures forall k :: k in r.table ==> k in table && r.table[k] == table[k]
  {
    if !confirmed then Outcome(table, None, false)
    else match reply
      case Accepted => Outcome(table - {id}, Some(Success("Ordinance deleted successfully")), true)
      case Refused(message) => Outcome(table, Some(Error(message)), false)
  }
}
