/** The records of the parking store (backend/models.py): lots, spots,
    reservations, users and export jobs, with their column defaults and the
    string codes their status columns hold. Times are integer seconds, prices
    and costs integers. Foreign keys that the schema declares NOT NULL are plain
    `nat` fields here, so a reservation always names a spot and a user. */
module Models {

  import opened Wrappers

  /** `ParkingSpot.status`: one character, 'A' (available) or 'O' (occupied). */
  datatype SpotStatus = Available | Occupied

  /** `Reservation.status`: "active" until released, then "completed". */
  datatype ReservationStatus = Active | Completed

  /** `ExportJob.status`: pending, processing, done or failed. */
  datatype ExportStatus = Pending | Processing | Done | Failed

  function SpotStatusCode(s: SpotStatus): string {
    match s
    case Available => "A"
    case Occupied => "O"
  }

  function ParseSpotStatus(code: string): Option<SpotStatus> {
    if code == "A" then Some(Available)
    else if code == "O" then Some(Occupied)
    else None
  }

  function ReservationStatusCode(s: ReservationStatus): string {
    match s
    case Active => "active"
    case Completed => "completed"
  }

  function ParseReservationStatus(code: string): Option<ReservationStatus> {
    if code == "active" then Some(Active)
    else if code == "completed" then Some(Completed)
    else None
  }

  function ExportStatusCode(s: ExportStatus): string {
    match s
    case Pending => "pending"
    case Processing => "processing"
    case Done => "done"
    case Failed => "failed"
  }

  function ParseExportStatus(code: string): Option<ExportStatus> {
    if code == "pending" then Some(Pending)
    else if code == "processing" then Some(Processing)
    else if code == "done" then Some(Done)
    else if code == "failed" then Some(Failed)
    else None
  }

  /** Every status value is stored as a code that reads back as itself, and
      only the codes of the enumeration read back at all. */
  lemma StatusCodesRoundTrip(s: SpotStatus, r: ReservationStatus, e: ExportStatus, code: string)
    ensures ParseSpotStatus(SpotStatusCode(s)) == Some(s)
    ensures ParseSpotStatus(code).Some? ==> SpotStatusCode(ParseSpotStatus(code).value) == code
    ensures ParseReservationStatus(ReservationStatusCode(r)) == Some(r)
    ensures ParseReservationStatus(code).Some? ==>
              ReservationStatusCode(ParseReservationStatus(code).value) == code
    ensures ParseExportStatus(ExportStatusCode(e)) == Some(e)
    ensures ParseExportStatus(code).Some? ==> ExportStatusCode(ParseExportStatus(code).value) == code
  {
  }

  datatype User = User(id: nat, username: string, email: Option<string>, role: string)

  datatype Lot = Lot(
    id: nat,
    name: string,
    address: Option<string>,
    pincode: Option<string>,
    pricePerHour: real,
    numberOfSpots: int,
    createdAt: int)

  datatype Spot = Spot(id: nat, lotId: nat, number: int, status: SpotStatus, createdAt: int)

  datatype Reservation = Reservation(
    id: nat,
    spotId: nat,
    userId: int,
    parkingTimestamp: int,
    leavingTimestamp: Option<int>,
    parkingCost: Option<real>,
    status: ReservationStatus,
    createdAt: int)

  datatype ExportJob = ExportJob(
    id: nat,
    userId: nat,
    status: ExportStatus,
    filePath: Option<string>,
    requestedAt: int,
    completedAt: Option<int>)

  /** A lot row as the column defaults leave it: no spots, free parking. */
  function NewLot(id: nat, name: string, createdAt: int): Lot {
    Lot(id, name, None, None, 0.0, 0, createdAt)
  }

  /** A spot row as the column defaults leave it: available. */
  function NewSpot(id: nat, lotId: nat, number: int, createdAt: int): Spot {
    Spot(id, lotId, number, Available, createdAt)
  }

  /** A reservation row as the column defaults leave it: active, with no
      leaving time and no cost yet. */
  function NewReservation(id: nat, spotId: nat, userId: int, start: int): Reservation {
    Reservation(id, spotId, userId, start, None, None, Active, start)
  }

  /** A user row as the column defaults leave it: role "user". */
  function NewUser(id: nat, username: string, email: Option<string>): User {
    User(id, username, email, "user")
  }

  /** An export job row as the column defaults leave it: pending, no file. */
  function NewExportJob(id: nat, userId: nat, requestedAt: int): ExportJob {
    ExportJob(id, userId, Pending, None, requestedAt, None)
  }

  /** The nullable columns of a reservation are filled exactly when it is no
      longer active: a completed reservation has a leaving time and a cost. */
  ghost predicate ReservationShape(r: Reservation) {
    match r.status
    case Active => r.leavingTimestamp.None? && r.parkingCost.None?
    case Completed => r.leavingTimestamp.Some? && r.parkingCost.Some?
  }

  /** What the column defaults give each new row. */
  lemma NewRecordDefaults(id: nat, ref: nat, name: string, t: int)
    ensures NewLot(id, name, t).numberOfSpots == 0 && NewLot(id, name, t).pricePerHour == 0.0
    ensures NewSpot(id, ref, 1, t).status == Available
    ensures NewReservation(id, ref, ref, t).status == Active
    ensures ReservationShape(NewReservation(id, ref, ref, t))
    ensures NewUser(id, name, None).role == "user"
    ensures NewExportJob(id, ref, t).status == Pending
    ensures ExportStatusCode(NewExportJob(id, ref, t).status) == "pending"
  {
  }
}
