// The rows of the salon-booking store and the enumerations stored in them
// (src/model/database.rs). Columns are optional exactly where the source's
// records are, since a column may be NULL or left out of a query.

module Database {
  import opened Common

  datatype UserGender = MALE | FEMALE

  /**
   * Roles of an account. `SalonUser` is the salon role of the records' own revision;
   * `SalonOwner` is the name the middleware and the admin promotion query use for it
   * (stored as 'SALON_OWNER'). Both are kept.
   */
  datatype UserRole = Admin | SalonUser | SalonOwner | Customer

  datatype GeneralStatus = ACTIVATE | INACTIVATE

  datatype MediaType = IMAGE | VIDEO

  datatype ReservationStatus = WAITING | DONE | CANCEL

  /** Text of a role, as `Display` prints it and as serde (SCREAMING_SNAKE_CASE) stores it. */
  function RoleText(r: UserRole): string
  {
    match r
    case Admin => "ADMIN"
    case SalonUser => "SALON_USER"
    case SalonOwner => "SALON_OWNER"
    case Customer => "CUSTOMER"
  }

  /** Reading a stored role text back (serde deserialisation); anything else is rejected. */
  function ParseRole(s: string): Option<UserRole>
  {
    if s == "ADMIN" then Some(Admin)
    else if s == "SALON_USER" then Some(SalonUser)
    else if s == "SALON_OWNER" then Some(SalonOwner)
    else if s == "CUSTOMER" then Some(Customer)
    else None
  }

  lemma RoleTextRoundTrip(r: UserRole, s: string)
    ensures ParseRole(RoleText(r)) == Some(r)
    ensures ParseRole(s) == Some(r) ==> RoleText(r) == s
  {
  }

  lemma RoleTextInjective(a: UserRole, b: UserRole)
    ensures RoleText(a) == RoleText(b) ==> a == b
  {
    RoleTextRoundTrip(a, RoleText(a));
    RoleTextRoundTrip(b, RoleText(b));
  }

  /** The other enumerations print their variant names (`{:?}`), which is also how serde stores them. */
  function GenderText(g: UserGender): string
  {
    match g
    case MALE => "MALE"
    case FEMALE => "FEMALE"
  }

  function GeneralStatusText(s: GeneralStatus): string
  {
    match s
    case ACTIVATE => "ACTIVATE"
    case INACTIVATE => "INACTIVATE"
  }

  function MediaTypeText(m: MediaType): string
  {
    match m
    case IMAGE => "IMAGE"
    case VIDEO => "VIDEO"
  }

  function ReservationStatusText(s: ReservationStatus): string
  {
    match s
    case WAITING => "WAITING"
    case DONE => "DONE"
    case CANCEL => "CANCEL"
  }

  function ParseReservationStatus(s: string): Option<ReservationStatus>
  {
    if s == "WAITING" then Some(WAITING)
    else if s == "DONE" then Some(DONE)
    else if s == "CANCEL" then Some(CANCEL)
    else None
  }

  lemma ReservationStatusTextRoundTrip(r: ReservationStatus, s: string)
    ensures ParseReservationStatus(ReservationStatusText(r)) == Some(r)
    ensures ParseReservationStatus(s) == Some(r) ==> ReservationStatusText(r) == s
  {
  }

  /** Distinct variants print distinctly, for every enumeration of the store. */
  lemma TextsInjective(g1: UserGender, g2: UserGender, s1: GeneralStatus, s2: GeneralStatus,
                       m1: MediaType, m2: MediaType, r1: ReservationStatus, r2: ReservationStatus)
    ensures GenderText(g1) == GenderText(g2) ==> g1 == g2
    ensures GeneralStatusText(s1) == GeneralStatusText(s2) ==> s1 == s2
    ensures MediaTypeText(m1) == MediaTypeText(m2) ==> m1 == m2
    ensures ReservationStatusText(r1) == ReservationStatusText(r2) ==> r1 == r2
  {
    ReservationStatusTextRoundTrip(r1, ReservationStatusText(r1));
    ReservationStatusTextRoundTrip(r2, ReservationStatusText(r2));
  }

  /**
   * A row of `users`. `dateOfBirth` and `salonId` are columns of the revision the
   * router handlers query; `updatedAt` is written by the service that updates profiles.
   */
  datatype User = User(
    id: Option<Id>,
    username: Option<string>,
    password: Option<string>,
    fullName: Option<string>,
    email: Option<string>,
    gender: Option<UserGender>,
    role: Option<UserRole>,
    avatar: Option<string>,
    dateOfBirth: Option<string>,
    salonId: Option<Id>,
    createdAt: Option<Time>,
    updatedAt: Option<Time>)

  /** What the API shows of a user: neither the password hash nor date of birth, salon and update time. */
  datatype UserOutput = UserOutput(
    id: Option<Id>,
    username: Option<string>,
    fullName: Option<string>,
    email: Option<string>,
    gender: Option<UserGender>,
    role: Option<UserRole>,
    avatar: Option<string>,
    createdAt: Option<Time>)

  function ToOutput(u: User): UserOutput
  {
    UserOutput(u.id, u.username, u.fullName, u.email, u.gender, u.role, u.avatar, u.createdAt)
  }

  /**
   * Among users that agree on the fields the output drops besides the password, two are
   * shown identically exactly when they differ at most in their password hashes.
   */
  lemma OutputHidesPassword(u: User, v: User)
    requires u.dateOfBirth == v.dateOfBirth && u.salonId == v.salonId && u.updatedAt == v.updatedAt
    ensures ToOutput(u) == ToOutput(v) <==> u.(password := v.password) == v
  {
  }

  datatype Salon = Salon(
    id: Option<Id>,
    logo: Option<string>,
    coverPhoto: Option<string>,
    name: Option<string>,
    address: Option<string>,
    phone: Option<string>,
    email: Option<string>,
    description: Option<string>,
    status: Option<GeneralStatus>,
    createdAt: Option<Time>,
    userId: Option<Id>)

  datatype SalonMedia = SalonMedia(
    id: Option<Id>,
    salonId: Option<Id>,
    url: Option<string>,
    mediaType: Option<MediaType>)

  /** A bed of the service revision: it belongs to a salon. */
  datatype SalonBed = SalonBed(
    id: Option<Id>,
    salonId: Option<Id>,
    name: Option<string>,
    status: Option<GeneralStatus>,
    createdAt: Option<Time>)

  /** A reservation of the service revision: one bed, a start and an end. */
  datatype Reservation = Reservation(
    id: Option<Id>,
    userId: Option<Id>,
    salonBedId: Option<Id>,
    timeFrom: Option<Time>,
    timeTo: Option<Time>,
    comment: Option<string>,
    status: Option<ReservationStatus>,
    createdAt: Option<Time>,
    updatedAt: Option<Time>)

  // Rows of the revision the router handlers query: salons have branches, beds
  // belong to a branch, and a reservation names a therapy and a branch.

  datatype SalonBranch = SalonBranch(id: Option<Id>, salonId: Option<Id>, address: Option<string>)

  datatype BranchBed = BranchBed(id: Option<Id>, branchId: Option<Id>, name: Option<string>)

  datatype Therapy = Therapy(
    id: Option<Id>,
    salonId: Option<Id>,
    name: Option<string>,
    description: Option<string>,
    price: Option<int>,
    duration: Option<string>)

  datatype BranchReservation = BranchReservation(
    id: Option<Id>,
    userId: Option<Id>,
    therapyId: Option<Id>,
    salonBranchId: Option<Id>,
    timeFrom: Option<Time>,
    comment: Option<string>)
}
