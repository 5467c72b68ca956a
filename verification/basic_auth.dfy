/** Basic authentication around the car routes: reads are public, writes
    and the personal greeting need the one fixed user.

    Ktor's `authenticate` interceptor runs before a gated route: when the
    request carries no credentials, or `validate` turns them down, it answers
    with a 401 challenge and the handler never runs. */
module BasicAuth {
  import opened Wrappers
  import opened Cars
  import opened CarRegistry
  import opened CarRoutes

  /** The name and password of a basic-auth header. */
  datatype UserPasswordCredential = UserPasswordCredential(name: string, password: string)

  /** The authenticated identity handed to gated handlers. */
  datatype UserPrincipal = UserPrincipal(userId: string)

  const AcceptedName: string := "user"
  const AcceptedPassword: string := "pass"

  /** The `validate` callback: a principal for the one fixed pair, carrying
      the supplied name, and none for anything else. */
  function Validate(credentials: UserPasswordCredential): (p: Option<UserPrincipal>)
    ensures p.Some? <==> credentials == UserPasswordCredential("user", "pass")
    ensures p.Some? ==> p.value == UserPrincipal(credentials.name)
  {
    if credentials.name == AcceptedName && credentials.password == AcceptedPassword then
      Some(UserPrincipal(credentials.name))
    else
      None
  }

  /** The principal the basic-auth provider attaches to a request: none
      without a header, otherwise whatever `Validate` says. */
  function Authenticate(header: Option<UserPasswordCredential>): (p: Option<UserPrincipal>)
    ensures p.Some? <==> header == Some(UserPasswordCredential("user", "pass"))
    ensures p.Some? ==> p.value.userId == "user"
  {
    match header
    case None => None
    case Some(credentials) => Validate(credentials)
  }

  /** What `getAuth` gives a gated handler. */
  datatype AuthResult = Authorized(principal: UserPrincipal) | AuthFailed(exception: Exception)

  /** `getAuth`: the attached principal, or a RuntimeException when there is none. */
  function GetAuth(attached: Option<UserPrincipal>): (r: AuthResult)
    ensures r.Authorized? <==> attached.Some?
    ensures r.Authorized? ==> r.principal == attached.value
    ensures r.AuthFailed? ==> r.exception == RuntimeException("No principal")
  {
    match attached
    case Some(p) => Authorized(p)
    case None => AuthFailed(RuntimeException("No principal"))
  }

  /** The authenticated GET `/hello`: greets the principal by user id. */
  function AuthenticatedHello(principal: UserPrincipal): (greeting: string)
    ensures |greeting| == 7 + |principal.userId|
    ensures greeting[..7] == "Hello, "
    ensures greeting[7..] == principal.userId
  {
    "Hello, " + principal.userId
  }

  /** The routes of the authenticated application: the car routes, and the
      greeting at `/hello`. */
  datatype Request = CarsRoute(carRequest: CarRequest) | HelloRoute

  /** Whether a route sits inside an `auth` block: creation, update, deletion
      and the greeting do; the two retrievals do not. */
  predicate IsGated(req: Request)
  {
    match req
    case HelloRoute => true
    case CarsRoute(r) => r.PostCar? || r.PutCar? || r.DeleteCarById?
  }

  /** A gated route once a principal is available; the car handlers are the
      same bodies as without authentication. */
  function HandleGated(s: Store, principal: UserPrincipal, req: Request, newId: string): (r: (Store, Outcome))
    ensures !r.1.Unauthorized?
    ensures req.HelloRoute? ==>
              && r.0 == s && r.1.Responded? && r.1.payload.Text? && |r.1.payload.text| >= 7
              && r.1.payload.text[..7] == "Hello, " && r.1.payload.text[7..] == principal.userId
    ensures req.CarsRoute? ==> r == Dispatch(s, req.carRequest, newId)
  {
    match req
    case HelloRoute => (s, Responded(Text(AuthenticatedHello(principal))))
    case CarsRoute(r) => Dispatch(s, r, newId)
  }

  /** The route table with authentication. A public route ignores the
      credentials; a gated one runs its handler only for an authenticated
      principal and otherwise answers Unauthorized with the store untouched. */
  function DispatchWithAuthentication(s: Store, req: Request, header: Option<UserPasswordCredential>, newId: string)
    : (r: (Store, Outcome))
    ensures !IsGated(req) ==> r == Dispatch(s, req.carRequest, newId)
    ensures IsGated(req) && header != Some(UserPasswordCredential("user", "pass")) ==> r == (s, Unauthorized)
    ensures IsGated(req) && header == Some(UserPasswordCredential("user", "pass")) ==>
              r == HandleGated(s, UserPrincipal("user"), req, newId)
  {
    if !IsGated(req) then Dispatch(s, req.carRequest, newId)
    else
      match Authenticate(header)
      case None => (s, Unauthorized)
      case Some(principal) =>
        match GetAuth(Some(principal))
        case Authorized(p) => HandleGated(s, p, req, newId)
        case AuthFailed(e) => (s, Threw(e))
  }

  /** The public routes are exactly the two retrievals; every other route,
      the greeting included, sits behind authentication. */
  lemma PublicRoutesAreTheRetrievals(req: Request)
    ensures !IsGated(req) <==> req.CarsRoute? && (req.carRequest.GetCar? || req.carRequest.GetCars?)
    ensures IsGated(req) <==> req.HelloRoute? || req.carRequest.PostCar? || req.carRequest.PutCar? || req.carRequest.DeleteCarById?
  {
  }

  /** Without accepted credentials no request changes the store: the public
      routes only read, and the gated ones are turned away. */
  lemma UnauthenticatedCannotChangeStore(s: Store, req: Request, header: Option<UserPasswordCredential>, newId: string)
    requires Authenticate(header).None?
    ensures DispatchWithAuthentication(s, req, header, newId).0 == s
  {
  }

  /** Only the fixed pair gets through: two accepted headers are the same. */
  lemma OnlyOneCredentialPairAuthenticates(h1: Option<UserPasswordCredential>, h2: Option<UserPasswordCredential>)
    requires Authenticate(h1).Some? && Authenticate(h2).Some?
    ensures h1 == h2
  {
  }

  /** A gated request that is not authenticated never reaches its handler:
      the store is unchanged and the outcome is Unauthorized. */
  lemma RejectedWriteLeavesStoreUnchanged(s: Store, req: Request, header: Option<UserPasswordCredential>, newId: string)
    requires IsGated(req)
    requires Authenticate(header).None?
    ensures DispatchWithAuthentication(s, req, header, newId) == (s, Unauthorized)
  {
  }

  /** An authenticated request to a car route behaves exactly like the same
      request to the application without authentication. */
  lemma AuthenticatedBehavesAsUngated(s: Store, req: CarRequest, newId: string)
    ensures DispatchWithAuthentication(s, CarsRoute(req), Some(UserPasswordCredential("user", "pass")), newId)
            == Dispatch(s, req, newId)
  {
  }

  /** Authenticated creation stores the payload under the new id and
      responds with it. */
  lemma AuthenticatedCreation(s: Store, carToCreate: CarCreationDto, newId: string)
    ensures var r := DispatchWithAuthentication(s, CarsRoute(PostCar(carToCreate)), Some(UserPasswordCredential("user", "pass")), newId);
      && r.1 == Responded(CarJson(ToCarWithId(carToCreate, newId)))
      && AsMap(r.0) == AsMap(s)[newId := ToCarWithId(carToCreate, newId)]
  {
  }

  /** Authenticated update or deletion of an absent id raises
      NoSuchElementException and neither adds nor removes anything. */
  lemma AuthenticatedWriteOfAbsentId(s: Store, id: string, updatedCar: CarCreationDto, newId: string)
    requires id !in AsMap(s)
    ensures DispatchWithAuthentication(s, CarsRoute(PutCar(id, updatedCar)), Some(UserPasswordCredential("user", "pass")), newId)
            == (s, Threw(NoSuchElementException(UpdateNotFoundMessage)))
    ensures DispatchWithAuthentication(s, CarsRoute(DeleteCarById(id)), Some(UserPasswordCredential("user", "pass")), newId)
            == (s, Threw(NoSuchElementException(DeleteNotFoundMessage)))
  {
  }

  /** The authenticated greeting names the logged-in user. */
  lemma AuthenticatedHelloGreetsUser(s: Store, newId: string)
    ensures DispatchWithAuthentication(s, HelloRoute, Some(UserPasswordCredential("user", "pass")), newId)
            == (s, Responded(Text("Hello, user")))
  {
    assert AuthenticatedHello(UserPrincipal("user")) == "Hello, user";
  }
}
