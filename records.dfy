/** The records the client keeps: ticket rows read back from the store, the
    record a submission inserts, and the submission form. */
module Records {

  datatype Option<T> = None | Some(value: T)

  /** A row of the tickets table. The store assigns id and created_at; the
      remaining fields are free text except repair type and status, which the
      forms restrict to the values below. Technician and scheduled date are
      null until an administrator fills them in. */
  datatype Ticket = Ticket(
    id: int,
    ticketNumber: string,
    office: string,
    repairType: string,
    equipment: string,
    problem: string,
    requestee: string,
    status: string,
    technician: Option<string>,
    scheduledDate: Option<string>,
    createdAt: string)

  /** The record a submission inserts into the tickets table. */
  datatype TicketDraft = TicketDraft(
    office: string,
    repairType: string,
    equipment: string,
    problem: string,
    requestee: string,
    status: string,
    ticketNumber: string)

  /** The submission form's fields. */
  datatype FormData = FormData(
    office: string,
    repairType: string,
    equipment: string,
    problem: string,
    requestee: string)

  const Desktop := "Desktop"
  const Laptop := "Laptop"
  const Printer := "Printer"
  const Internet := "Internet"

  /** The repair types offered by the form and counted by the statistics panel. */
  const RepairTypes: seq<string> := [Desktop, Laptop, Printer, Internet]

  const Evaluation := "Evaluation"
  const Pending := "Pending"
  const Scheduled := "Scheduled"
  const Repaired := "Repaired"

  /** The form as it is first shown and as it is reset after a submission. */
  const InitialForm := FormData("", Desktop, "", "", "")
}
