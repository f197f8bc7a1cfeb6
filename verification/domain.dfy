/**
  The enumerations both apps store as short text columns, and the user as the
  request sees it. Django does not enforce `choices` at the database level, so
  every enumeration keeps a case for a value outside its choice list.
*/
module Domain {
  import opened Common

  /**
    `User.role`: nullable, default `mosque_admin` (core/models.py:48-53,
    mosques_app/core/models.py:33-39). `city_admin` exists only in the older app's
    choices but either app's code reads whatever string is stored.
  */
  datatype Role = Admin | RegionAdmin | CityAdmin | MosqueAdmin | NoRole | OtherRole

  /** `Category.OperationType`: 'income' or 'expense'; anything else is `OtherOp`. */
  datatype OpType = Income | Expense | OtherOp

  /** `Place.PlaceType` of the older app; the mosque tag is spelled 'mosquee'. */
  datatype PlaceType = Region | City | Mosque | OtherType

  /**
    The exceptions the modelled code raises, plus `NotPermitted` for a request a
    view's permission class turns away before the view body runs.
  */
  datatype Error =
    | NotPermitted
    | PermissionDenied
    | NotFound
    | DoesNotExist
    | ValidationError
    | ValueError
    | TypeError
    | AttributeError
    | IntegrityError
    | KeyError
    | BadRequest
    | ServerError

  /** The value an operation returns, or the exception it raises. */
  datatype Result<+T> = Ok(value: T) | Err(error: Error)

  const DefaultRole: Role := MosqueAdmin
  const DefaultOpType: OpType := Expense
  const DefaultPlaceType: PlaceType := Region
  /** `Category.percentage` default of the older app (mosques_app/core/models.py:170). */
  const DefaultPercentage: int := 25

  function RoleTag(r: Role): Option<string>
  {
    match r
    case Admin => Some("admin")
    case RegionAdmin => Some("region_admin")
    case CityAdmin => Some("city_admin")
    case MosqueAdmin => Some("mosque_admin")
    case NoRole => None
    case OtherRole => Some("")
  }

  /** Reading the stored role column: a null column is `NoRole`. */
  function ParseRole(tag: Option<string>): (r: Role)
    ensures r == MosqueAdmin <==> tag == Some("mosque_admin")
    ensures r == NoRole <==> tag == None
  {
    match tag
    case None => NoRole
    case Some(t) =>
      if t == "admin" then Admin
      else if t == "region_admin" then RegionAdmin
      else if t == "city_admin" then CityAdmin
      else if t == "mosque_admin" then MosqueAdmin
      else OtherRole
  }

  /** Every named role survives storing and reading back its tag. */
  lemma RoleTagRoundTrip(r: Role)
    requires r != OtherRole
    ensures ParseRole(RoleTag(r)) == r
  {
  }

  function OpTypeTag(o: OpType): string
  {
    match o
    case Income => "income"
    case Expense => "expense"
    case OtherOp => ""
  }

  function ParseOpType(tag: string): (o: OpType)
    ensures o == Income <==> tag == "income"
    ensures o == Expense <==> tag == "expense"
  {
    if tag == "income" then Income else if tag == "expense" then Expense else OtherOp
  }

  lemma OpTypeTagRoundTrip(o: OpType)
    requires o != OtherOp
    ensures ParseOpType(OpTypeTag(o)) == o
  {
  }

  function PlaceTypeTag(t: PlaceType): string
  {
    match t
    case Region => "region"
    case City => "city"
    case Mosque => "mosquee"
    case OtherType => ""
  }

  function ParsePlaceType(tag: string): (t: PlaceType)
    ensures t == Mosque <==> tag == "mosquee"
    ensures t == Region <==> tag == "region"
    ensures t == City <==> tag == "city"
  {
    if tag == "region" then Region
    else if tag == "city" then City
    else if tag == "mosquee" then Mosque
    else OtherType
  }

  lemma PlaceTypeTagRoundTrip(t: PlaceType)
    requires t != OtherType
    ensures ParsePlaceType(PlaceTypeTag(t)) == t
  {
  }

  /** The requesting user: `request.user` after authentication. */
  datatype User = User(
    id: int,
    username: string,
    role: Role,
    place: Option<int>,
    isActive: bool,
    isAuthenticated: bool,
    isStaff: bool,
    isSuperuser: bool)

  /**
    `IsNotMosqueAdmin.has_permission`: an authenticated, active user whose role
    is anything but `mosque_admin` (a null role included).
  */
  predicate IsNotMosqueAdmin(u: User)
  {
    u.isAuthenticated && u.isActive && u.role != MosqueAdmin
  }

  /** The permission in both directions, case by case. */
  lemma IsNotMosqueAdminCases(u: User)
    ensures u.role == MosqueAdmin ==> !IsNotMosqueAdmin(u)
    ensures !u.isAuthenticated || !u.isActive ==> !IsNotMosqueAdmin(u)
    ensures (u.isAuthenticated && u.isActive && u.role in {Admin, RegionAdmin, CityAdmin, NoRole, OtherRole})
              ==> IsNotMosqueAdmin(u)
  {
  }
}
