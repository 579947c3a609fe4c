/** The admin's list of all appointments (`AllAppointments`): what the page
    shows for the list it is given, and the status column, which offers the
    two ways out of Scheduled and only labels the other states. */
module AllAppointments {
  import opened Common
  import opened Models

  /** The status column of one row. */
  datatype StatusCell = CancelledLabel | CompletedLabel | Actions(targets: seq<int>) | Blank

  /** The status column for a status code: labels for Cancelled and
      Completed, buttons to Completed and to Cancelled for Scheduled, and
      nothing for any other code. */
  function StatusCellOf(status: int): (c: StatusCell)
    ensures c == CancelledLabel <==> status == Cancelled
    ensures c == CompletedLabel <==> status == Completed
    ensures c.Actions? <==> status == Scheduled
    ensures c.Actions? ==> c.targets == [Completed, Cancelled]
    ensures c == Blank <==> !IsDefinedStatus(status)
  {
    if status == 2 then CancelledLabel
    else if status == 1 then CompletedLabel
    else if status == 0 then Actions([1, 2])
    else Blank
  }

  /** A row, by the field the status column reads. */
  datatype Row = Row(appointmentId: int, status: int)

  /** What the page shows: the loading text for a list that is not an array
      or is empty, else one status cell per row, in order. */
  datatype Page = LoadingText | Table(cells: seq<StatusCell>)

  function Render(appointments: Json<Row>): (p: Page)
    ensures p == LoadingText <==> !appointments.List? || appointments.items == []
    ensures p.Table? ==> |p.cells| == |appointments.items|
                         && forall i :: 0 <= i < |p.cells| ==> p.cells[i] == StatusCellOf(appointments.items[i].status)
  {
    if !appointments.List? || appointments.items == [] then LoadingText
    else Table(seq(|appointments.items|, i requires 0 <= i < |appointments.items| => StatusCellOf(appointments.items[i].status)))
  }

  /** Every button the page offers sends a status the status endpoint
      accepts, and none leads back to Scheduled: the page itself only moves
      an appointment forward, although the endpoint would take any defined
      value. A list still wrapped in `$values` is not an array, so it shows
      the loading text. */
  lemma OfferedTargetsAreAccepted(appointments: Json<Row>)
    ensures var p := Render(appointments);
            p.Table? ==> forall i, k :: 0 <= i < |p.cells| && p.cells[i].Actions? && 0 <= k < |p.cells[i].targets| ==>
                           IsDefinedStatus(p.cells[i].targets[k]) && p.cells[i].targets[k] != Scheduled
    ensures appointments.Preserved? ==> Render(appointments) == LoadingText
  {
  }
}
