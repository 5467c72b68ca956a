/** The five CRUD handler bodies under `/cars`, each a pure function from the
    store and the bound request input to the new store and an outcome.

    A handler either responds with a payload or raises an exception; it never
    builds an error response itself. Turning exceptions into HTTP statuses is
    the job of `StatusPages`. */
module CarRoutes {
  import opened Wrappers
  import opened Cars
  import opened CarRegistry

  /** The exceptions a handler can raise, by JVM class: a failed lookup, a
      bare runtime failure, an exception of some other class that descends
      from NoSuchElementException (such as `InputMismatchException`), or an
      exception of a class that does not. */
  datatype Exception =
    | NoSuchElementException(message: string)
    | RuntimeException(message: string)
    | NoSuchElementSubclass(className: string, message: string)
    | OtherException(className: string, message: string)

  /** What a successful handler responds with. */
  datatype Payload = CarJson(car: Car) | CarListJson(cars: seq<Car>) | UnitJson | Text(text: string)

  /** How handling a request ended: a response, a raised exception, or a
      rejection by the authentication gate before any handler ran. */
  datatype Outcome = Responded(payload: Payload) | Threw(exception: Exception) | Unauthorized

  /** A request to the car routes, after path, query and body binding. */
  datatype CarRequest =
    | PostCar(carToCreate: CarCreationDto)
    | GetCar(id: string)
    | GetCars(colors: Option<seq<Color>>)
    | PutCar(id: string, updatedCar: CarCreationDto)
    | DeleteCarById(id: string)

  const UpdateNotFoundMessage: string := "Car not found, cannot update."
  const DeleteNotFoundMessage: string := "Car not found, could not be deleted."

  function RetrievalNotFoundMessage(id: string): string
  {
    "Car with id " + id + " not found."
  }

  /** `a` is `b` with some elements left out: its elements occur in `b` in
      the same order. */
  predicate IsSubsequence<T(==)>(a: seq<T>, b: seq<T>)
    decreases |b|
  {
    if |a| == 0 then true
    else if |b| == 0 then false
    else if a[0] == b[0] then IsSubsequence(a[1..], b[1..])
    else IsSubsequence(a, b[1..])
  }

  /** The cars whose colour is among `colors`, in their original order. */
  function FilterByColors(cars: seq<Car>, colors: seq<Color>): (r: seq<Car>)
    ensures forall c :: c in r <==> c in cars && c.color in colors
    ensures IsSubsequence(r, cars)
  {
    if |cars| == 0 then []
    else
      var rest := FilterByColors(cars[1..], colors);
      if cars[0].color in colors then
        var r := [cars[0]] + rest;
        assert r[1..] == rest;
        r
      else
        SubsequenceOfTail(rest, cars);
        rest
  }

  lemma {:induction false} SubsequenceOfTail<T>(a: seq<T>, b: seq<T>)
    requires |b| > 0 && IsSubsequence(a, b[1..])
    ensures IsSubsequence(a, b)
    decreases |b|, 0
  {
    if |a| > 0 && a[0] == b[0] {
      if |b| > 1 {
        SubsequenceDropHead(a, b[1..]);
      }
    }
  }

  lemma {:induction false} SubsequenceDropHead<T>(a: seq<T>, b: seq<T>)
    requires |a| > 0 && IsSubsequence(a, b)
    ensures IsSubsequence(a[1..], b)
    decreases |b|, 1
  {
    if a[0] != b[0] {
      SubsequenceDropHead(a, b[1..]);
      SubsequenceOfTail(a[1..], b);
    } else if |a| > 1 {
      SubsequenceOfTail(a[1..], b);
    }
  }

  /** POST `/cars`: stores the payload under the server-chosen `newId` and
      responds with the stored car. */
  function HandleCarCreation(s: Store, carToCreate: CarCreationDto, newId: string): (r: (Store, Outcome))
    ensures r.1 == Responded(CarJson(ToCarWithId(carToCreate, newId)))
    ensures AsMap(r.0) == AsMap(s)[newId := ToCarWithId(carToCreate, newId)]
  {
    var (s', car) := InsertOrUpdateCar(s, ToCarWithId(carToCreate, newId));
    (s', Responded(CarJson(car)))
  }

  /** GET `/cars/{id}`: the stored car, or a NoSuchElementException naming
      the id. The store is never changed. */
  function HandleSingleCarRetrieval(s: Store, id: string): (r: (Store, Outcome))
    ensures r.0 == s
    ensures id in AsMap(s) ==> r.1 == Responded(CarJson(AsMap(s)[id]))
    ensures id !in AsMap(s) ==> r.1 == Threw(NoSuchElementException(RetrievalNotFoundMessage(id)))
  {
    match RetrieveCarById(s, id)
    case Some(car) => (s, Responded(CarJson(car)))
    case None => (s, Threw(NoSuchElementException(RetrievalNotFoundMessage(id))))
  }

  /** GET `/cars?colors=...`: all cars when the colour list is absent or
      empty, otherwise exactly the cars with a listed colour, in the order of
      `RetrieveAllCars`. The store is never changed. */
  function HandleMultiCarRetrieval(s: Store, colors: Option<seq<Color>>): (r: (Store, Outcome))
    ensures r.0 == s
    ensures r.1.Responded? && r.1.payload.CarListJson?
    ensures colors.None? || |colors.value| == 0 ==> r.1.payload.cars == RetrieveAllCars(s)
    ensures colors.Some? && |colors.value| > 0 ==>
              && IsSubsequence(r.1.payload.cars, RetrieveAllCars(s))
              && forall c :: c in r.1.payload.cars <==> c.id in AsMap(s) && AsMap(s)[c.id] == c && c.color in colors.value
  {
    var allCars := RetrieveAllCars(s);
    var carsToReturn := if colors.None? || |colors.value| == 0 then allCars else FilterByColors(allCars, colors.value);
    (s, Responded(CarListJson(carsToReturn)))
  }

  /** PUT `/cars/{id}`: replaces the whole stored car, so a field the payload
      leaves out is cleared; an unknown id raises NoSuchElementException and
      creates nothing. The set of stored ids never changes. */
  function HandleCarUpdating(s: Store, id: string, updatedCar: CarCreationDto): (r: (Store, Outcome))
    ensures AsMap(r.0).Keys == AsMap(s).Keys
    ensures id !in AsMap(s) ==> r == (s, Threw(NoSuchElementException(UpdateNotFoundMessage)))
    ensures id in AsMap(s) ==>
              && AsMap(r.0) == AsMap(s)[id := ToCarWithId(updatedCar, id)]
              && r.1 == Responded(CarJson(ToCarWithId(updatedCar, id)))
  {
    if !DoesCarExist(s, id) then (s, Threw(NoSuchElementException(UpdateNotFoundMessage)))
    else
      var (s', car) := InsertOrUpdateCar(s, ToCarWithId(updatedCar, id));
      (s', Responded(CarJson(car)))
  }

  /** DELETE `/cars/{id}`: removes the stored car; an unknown id raises
      NoSuchElementException and leaves the store as it was. */
  function HandleCarDeletion(s: Store, id: string): (r: (Store, Outcome))
    ensures id !in AsMap(s) ==> r == (s, Threw(NoSuchElementException(DeleteNotFoundMessage)))
    ensures id in AsMap(s) ==> AsMap(r.0) == AsMap(s) - {id} && r.1 == Responded(UnitJson)
  {
    var (s', deleted) := DeleteCar(s, id);
    if deleted then (s', Responded(UnitJson))
    else (s, Threw(NoSuchElementException(DeleteNotFoundMessage)))
  }

  /** The route table of `/cars` without authentication: every request goes
      to its handler. `newId` is the id a creation would generate. Reads never
      change the store, and only a creation can add an id. */
  function Dispatch(s: Store, req: CarRequest, newId: string): (r: (Store, Outcome))
    ensures !r.1.Unauthorized?
    ensures req.GetCar? || req.GetCars? ==> r.0 == s
    ensures !req.PostCar? ==> AsMap(r.0).Keys <= AsMap(s).Keys
    ensures AsMap(r.0).Keys <= AsMap(s).Keys + {newId}
    ensures r.1.Threw? ==> r.0 == s && r.1.exception.NoSuchElementException?
  {
    match req
    case PostCar(dto) => HandleCarCreation(s, dto, newId)
    case GetCar(id) => HandleSingleCarRetrieval(s, id)
    case GetCars(colors) => HandleMultiCarRetrieval(s, colors)
    case PutCar(id, dto) => HandleCarUpdating(s, id, dto)
    case DeleteCarById(id) => HandleCarDeletion(s, id)
  }
}
