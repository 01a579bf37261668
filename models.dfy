/** The rows the core reads and writes (infra/src/models/mod.rs) and the
    caller identity the auth layer hands in. */
module Models {
  import opened Intervals
  import opened Wrappers

  /** A UUID, as a number. */
  type Uuid = nat

  /** What the auth middleware attaches to a request; `staffId` is present
      only for staff. */
  datatype SessionUser = SessionUser(id: Uuid, staffId: Option<Uuid>, email: string)

  datatype BookingStatus = Pending | Confirmed {
    /** The derived `Display`: the variant's name. */
    function Name(): string {
      match this
      case Pending => "Pending"
      case Confirmed => "Confirmed"
    }
  }

  datatype MaintenanceKind =
    | Electrical | Plumbing | Structural | Hvac | FireSafety | SecuritySystems
    | Groundskeeping | Janitorial | PestControl | ItNetwork | Painting
    | Appliances | OutOfService | Other
  {
    /** The derived `Debug` (`format!("{:?}", kind)`): the variant's name. */
    function Name(): string {
      match this
      case Electrical => "Electrical"
      case Plumbing => "Plumbing"
      case Structural => "Structural"
      case Hvac => "Hvac"
      case FireSafety => "FireSafety"
      case SecuritySystems => "SecuritySystems"
      case Groundskeeping => "Groundskeeping"
      case Janitorial => "Janitorial"
      case PestControl => "PestControl"
      case ItNetwork => "ItNetwork"
      case Painting => "Painting"
      case Appliances => "Appliances"
      case OutOfService => "OutOfService"
      case Other => "Other"
    }
  }

  datatype MaintenanceSeverity = Low | Medium | High

  /** A row of `rooms` (`label` is a reserved word in Dafny, hence `labelText`). */
  datatype Room = Room(id: Uuid, labelText: string, classId: Uuid, createdAt: Timestamp)

  /** A row of `blocks`: a time span held on one room. */
  datatype Block = Block(id: Uuid, roomId: Uuid, interval: Interval)

  /** What is inserted into `blocks`; a missing id is generated by the database. */
  datatype NewBlock = NewBlock(id: Option<Uuid>, roomId: Uuid, interval: Interval)

  /** A row of `bookings`, keyed by the block it occupies. */
  datatype Booking = Booking(blockId: Uuid, guestId: Uuid, status: BookingStatus)

  /** A row of `maintenance`, keyed by the block it occupies. */
  datatype Maintenance = Maintenance(blockId: Uuid, kind: MaintenanceKind, severity: MaintenanceSeverity, assignerId: Option<Uuid>)
}
