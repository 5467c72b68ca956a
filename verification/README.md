# Ktor car registry with OpenAPI, status pages and basic authentication

This project models the core of a Ktor demonstration server that exposes an
in-memory car registry through OpenAPI-described routes. It also proves
properties of that model. The model covers:

- **Nullable values** (`wrappers.dfy`): Kotlin's `T?` as an `Option`.
- **Cars** (`cars.dfy`): the `Car` record and the `CarCreationDto` payload.
  `toCarWithId` turns a payload into a stored car.
- **Registry** (`car_registry.dfy`): the singleton `CarRegistry`, with
  exists, insert-or-update, get-by-id, get-all and delete.
  - The registry holds a `mutableMapOf()`, which is an insertion-ordered hash
    map. The model keeps it as a sequence of cars in insertion order with
    unique ids (`Store`).
  - `AsMap` is the reference reading of that sequence as a finite map. Every
    operation is specified against it.
  - Get-all keeps insertion order, as the source's map does. A put on an
    existing id replaces the entry where it stands.
- **Handlers** (`car_routes.dfy`): the five CRUD handler bodies under
  `/cars`. Each is a function from the store and the bound request to a new
  store and an outcome: a response, or a raised exception. `Dispatch` is the
  route table.
- **Cross-call properties** (`crud_properties.dfy`):
  - create-then-get;
  - delete-then-get;
  - an update is a full replacement;
  - the colour filter's answer is the unique order-preserving selection of
    matching cars.
- **Status pages** (`status_pages.dfy`): the two exception rules.
  - A `NoSuchElementException`, or an exception of one of its subclasses,
    becomes a documented 404 whose body is a `CarRegistryProblem` holding
    the message.
  - Anything else becomes an undocumented 500 with a fixed plain text.
  - The rule is chosen by Ktor's nearest-superclass lookup over the
    exception's class ancestry.
- **Authentication** (`basic_auth.dfy`): basic authentication.
  - The `validate` callback, `UserPrincipal` and `getAuth`.
  - The split between public reads and gated writes.
  - The authenticated `/hello` greeting.
  - A gated route without valid credentials is answered Unauthorized (401)
    before its handler runs.
- **Schema namer** (`schema_namer.dfy`): the `SchemaNamer.get` rewrite of a
  Kotlin type name into an OpenAPI schema name.
  - Each maximal run of `[A-Za-z0-9_.]` is replaced by the last piece of its
    split on `.`.
  - Then each `<`, `>` and `", "` is replaced by `_`.
- **Greetings** (`greetings.dfy`): the two hello-world endpoints, `/pure/{name}`
  and `/openapi/{name}`.

The server-generated id of a new car (a random UUID in the source) is a
parameter `newId` of the creation handler. The model makes no freshness
assumption in the handler: a colliding id would overwrite, exactly as the
source's map put would. Freshness is a precondition only of the lemma
`CrudProperties.CreateThenRetrieve`.

## Model

| member | source | states |
|---|---|---|
| Cars.ToCarWithId | src/main/kotlin/smn/ktorexample/App2.kt:116-123 | The stored car carries the given id, and stripping the id gives back exactly the payload. An absent nickname stays absent. |
| Cars.CarFromIdAndPayload | src/main/kotlin/smn/ktorexample/App2.kt:116-123 | Every car is rebuilt by `toCarWithId` from its own payload and id. |
| CarRegistry.Find | src/main/kotlin/smn/ktorexample/App2.kt:40 | A lookup finds a car with that id exactly when the id occurs. |
| CarRegistry.Upsert | src/main/kotlin/smn/ktorexample/App2.kt:39 | A put adds the car's id to the ids. A new id is appended at the end. An existing id keeps the length. |
| CarRegistry.UpsertInPlace | src/main/kotlin/smn/ktorexample/App2.kt:39 | A put keeps ids unique and replaces the entry with the car's id where it stands, leaving every other entry alone. |
| CarRegistry.Remove | src/main/kotlin/smn/ktorexample/App2.kt:42 | Removal reports whether the id was present. It drops exactly one entry when it was, changes nothing when it was not, and removes exactly that id. |
| CarRegistry.AsMapKeys | src/main/kotlin/smn/ktorexample/App2.kt:36 | The keys of the map reading are the ids present. |
| CarRegistry.AsMapFind | src/main/kotlin/smn/ktorexample/App2.kt:40 | The sequence lookup agrees with the map lookup. |
| CarRegistry.AsMapUpsert | src/main/kotlin/smn/ktorexample/App2.kt:39 | The sequence put is the map update `m[id := car]`. |
| CarRegistry.AsMapRemove | src/main/kotlin/smn/ktorexample/App2.kt:42 | The sequence removal is the map removal `m - {id}`. |
| CarRegistry.AsMapMember | src/main/kotlin/smn/ktorexample/App2.kt:41 | A car is an entry exactly when the map holds it under its id. |
| CarRegistry.AsMapSize | src/main/kotlin/smn/ktorexample/App2.kt:41 | The store has one map entry per element. |
| CarRegistry.DoesCarExist | src/main/kotlin/smn/ktorexample/App2.kt:38 | True exactly when the map has the key. |
| CarRegistry.InsertOrUpdateCar | src/main/kotlin/smn/ktorexample/App2.kt:39 | The map becomes `m[car.id := car]` and the same car is returned. |
| CarRegistry.RetrieveCarById | src/main/kotlin/smn/ktorexample/App2.kt:40 | The car stored under the id, or none when the key is absent. |
| CarRegistry.RetrieveAllCars | src/main/kotlin/smn/ktorexample/App2.kt:41 | Every stored car exactly once: the length is the map size, and a car is listed exactly when the map holds it. |
| CarRegistry.DeleteCar | src/main/kotlin/smn/ktorexample/App2.kt:42 | Reports true exactly when the key was present. The map becomes `m - {id}`, and a miss leaves the store unchanged. |
| CarRoutes.FilterByColors | src/main/kotlin/smn/ktorexample/App2.kt:170 | The filter keeps exactly the cars whose colour is listed, as an order-preserving subsequence. |
| CarRoutes.HandleCarCreation | src/main/kotlin/smn/ktorexample/App2.kt:100-104 | Creation stores the payload under the new id and responds with that car. |
| CarRoutes.HandleSingleCarRetrieval | src/main/kotlin/smn/ktorexample/App2.kt:139-142 | It responds with the stored car, or raises NoSuchElementException("Car with id <id> not found."). It never changes the store. |
| CarRoutes.HandleMultiCarRetrieval | src/main/kotlin/smn/ktorexample/App2.kt:164-174 | An absent or empty colour list gives all cars. Otherwise it gives exactly the stored cars of a listed colour, in registry order. The store is never changed. |
| CarRoutes.HandleCarUpdating | src/main/kotlin/smn/ktorexample/App2.kt:196-204 | An unknown id raises NoSuchElementException("Car not found, cannot update.") and changes nothing. A known id has its whole car replaced. The ids never change. |
| CarRoutes.HandleCarDeletion | src/main/kotlin/smn/ktorexample/App2.kt:217-225 | A known id is removed and Unit is returned. An unknown id raises NoSuchElementException("Car not found, could not be deleted.") and changes nothing. |
| CarRoutes.Dispatch | src/main/kotlin/smn/ktorexample/App2.kt:61-84 | Reads never change the store, and only a creation can add an id. Every raised exception is a NoSuchElementException and leaves the store unchanged. |
| CrudProperties.CreateThenRetrieve | src/main/kotlin/smn/ktorexample/App2.kt:93-143 | Creating under a fresh id adds one entry and leaves the others alone. A later get by that id returns the creation's response. |
| CrudProperties.DeleteThenRetrieve | src/main/kotlin/smn/ktorexample/App2.kt:132-143 | After a delete, a get of the same id raises NoSuchElementException. |
| CrudProperties.UpdateClearsNickname | src/main/kotlin/smn/ktorexample/App2.kt:189-205 | An update without a nickname clears the stored nickname: a full replacement. |
| CrudProperties.FilterIsOnlyOrderedSelection | src/main/kotlin/smn/ktorexample/App2.kt:170 | Any subsequence of the stored cars holding exactly the matching cars is the filter's answer. |
| CrudProperties.MultiRetrievalIsOnlyOrderedSelection | src/main/kotlin/smn/ktorexample/App2.kt:164-174 | The colour-filtered listing is the only order-preserving selection of the matching cars. |
| StatusPages.Ancestry | src/main/kotlin/smn/ktorexample/App3.kt:71-82 | An exception's class chain ends in Exception. It contains NoSuchElementException exactly for that class and its subclasses. |
| StatusPages.FindRule | src/main/kotlin/smn/ktorexample/App3.kt:68-90 | The lookup finds no rule exactly when no class of the chain has one. Otherwise the rule belongs to a class of the chain, and the nearest class wins. |
| StatusPages.ApplyRule | src/main/kotlin/smn/ktorexample/App3.kt:71-88 | A rule answers with its own status and documentation flag. Its body is either a problem holding the exception's message or the rule's fixed text. |
| StatusPages.HandleException | src/main/kotlin/smn/ktorexample/App3.kt:71-88 | A NoSuchElementException, or an exception of a subclass, gives a documented 404 with CarRegistryProblem(message). Anything else gives an undocumented 500 with the fixed internal-problem text. |
| StatusPages.InternalErrorsDoNotLeak | src/main/kotlin/smn/ktorexample/App3.kt:81-88 | Every exception outside the NoSuchElementException family gets the same response, so nothing of it leaks. |
| StatusPages.Respond | src/main/kotlin/smn/ktorexample/App3.kt:68-90 | A response is 200 exactly when the handler responded, and its body is the payload as JSON. A raised exception gives 404 or 500, with 404 exactly for the NoSuchElementException family. A 401 is given exactly for a request turned away by authentication. |
| StatusPages.ServeWithStatusPages | src/main/kotlin/smn/ktorexample/App3.kt:26-47 | Every car request is answered 200 or 404. It is 200 exactly when the handler responded, and a 404 leaves the store unchanged with a problem body. |
| StatusPages.CreateReadDeleteRead | src/main/kotlin/smn/ktorexample/App3.kt:26-90 | End to end: create, read, delete, then re-read. This gives 200 with the car, the same response, 200 with Unit, then a 404 naming the id. |
| BasicAuth.Validate | src/main/kotlin/smn/ktorexample/App5.kt:64-70 | A principal exactly for the pair ("user", "pass"), carrying the supplied name. |
| BasicAuth.Authenticate | src/main/kotlin/smn/ktorexample/App5.kt:60-72 | A principal is attached exactly when the request carries the accepted pair. |
| BasicAuth.GetAuth | src/main/kotlin/smn/ktorexample/App5.kt:116-118 | The attached principal, or RuntimeException("No principal") when there is none. |
| BasicAuth.AuthenticatedHello | src/main/kotlin/smn/ktorexample/App5.kt:178-185 | The greeting is "Hello, " followed by the user id. |
| BasicAuth.HandleGated | src/main/kotlin/smn/ktorexample/App5.kt:146-185 | Once authenticated, `/hello` greets the principal and leaves the store alone. The car routes run the same handlers as without authentication. |
| BasicAuth.PublicRoutesAreTheRetrievals | src/main/kotlin/smn/ktorexample/App5.kt:76-88 | The public routes are exactly the two retrievals. Creation, update, deletion and `/hello` are behind authentication. |
| BasicAuth.UnauthenticatedCannotChangeStore | src/main/kotlin/smn/ktorexample/App5.kt:76-88 | Without accepted credentials no request changes the store. |
| BasicAuth.DispatchWithAuthentication | src/main/kotlin/smn/ktorexample/App5.kt:74-90 | Public reads run as without authentication. A gated route answers Unauthorized with the store untouched unless the accepted pair is given, and then it runs its handler with principal "user". |
| BasicAuth.OnlyOneCredentialPairAuthenticates | src/main/kotlin/smn/ktorexample/App5.kt:64-70 | Any two accepted credential headers are equal. |
| BasicAuth.RejectedWriteLeavesStoreUnchanged | src/main/kotlin/smn/ktorexample/App5.kt:81-88 | A gated request without an accepted principal never reaches its handler. |
| BasicAuth.AuthenticatedBehavesAsUngated | src/main/kotlin/smn/ktorexample/App5.kt:146-176 | With the accepted pair, every car request behaves as in the unauthenticated application. |
| BasicAuth.AuthenticatedCreation | src/main/kotlin/smn/ktorexample/App5.kt:146-152 | Authenticated creation stores the payload under the new id and responds with it. |
| BasicAuth.AuthenticatedWriteOfAbsentId | src/main/kotlin/smn/ktorexample/App5.kt:154-176 | An authenticated update or delete of an unknown id raises the handler's NoSuchElementException and leaves the store unchanged. |
| BasicAuth.AuthenticatedHelloGreetsUser | src/main/kotlin/smn/ktorexample/App5.kt:178-185 | The authenticated greeting with the accepted pair is "Hello, user". |
| SchemaNamer.SplitJoin | src/main/kotlin/smn/ktorexample/App1.kt:118 | Joining the pieces of a split with the separator gives back the text. |
| SchemaNamer.SplitPiecesFreeOfSeparator | src/main/kotlin/smn/ktorexample/App1.kt:118 | No piece of a split holds the separator. |
| SchemaNamer.LastSegment | src/main/kotlin/smn/ktorexample/App1.kt:118 | The last piece is a dot-free suffix of the name. It follows a dot unless it is the whole name, and it is the whole name when there is no dot. |
| SchemaNamer.RunLength | src/main/kotlin/smn/ktorexample/App1.kt:115 | The length of the maximal leading run of `[A-Za-z0-9_.]`. |
| SchemaNamer.ShortenNames | src/main/kotlin/smn/ktorexample/App1.kt:117-119 | After the first rewrite no dot remains. A dot-free name is unchanged, and every character outside the name class is kept, in order. |
| SchemaNamer.ShortenRunThen | src/main/kotlin/smn/ktorexample/App1.kt:117-119 | A maximal name run at the front is replaced by its last dotted piece, and the rest is rewritten on its own. |
| SchemaNamer.ReplaceBrackets | src/main/kotlin/smn/ktorexample/App1.kt:119 | After the second rewrite no `<`, `>` or `", "` remains. Every other character comes from the input, and a text without them is unchanged. |
| SchemaNamer.ReplaceSpecialThen | src/main/kotlin/smn/ktorexample/App1.kt:119 | A leading `<`, `>` or `", "` becomes one underscore. |
| SchemaNamer.ReplacePlainThen | src/main/kotlin/smn/ktorexample/App1.kt:119 | A leading text free of `<`, `>` and `,` is copied unchanged. |
| SchemaNamer.SchemaName | src/main/kotlin/smn/ktorexample/App1.kt:116-120 | A schema name holds no `.`, `<`, `>` or `", "`, and a plain simple name is unchanged. |
| SchemaNamer.SchemaNameKeepsPunctuation | src/main/kotlin/smn/ktorexample/App1.kt:116-120 | Punctuation other than the rewritten ones (such as `?`, `*`, `[`) keeps its order. |
| SchemaNamer.SchemaNameOfQualified | src/main/kotlin/smn/ktorexample/App1.kt:116-120 | A qualified class name `p.A` is named `A`. |
| SchemaNamer.SchemaNameOfQualifiedNullable | src/main/kotlin/smn/ktorexample/App1.kt:116-120 | A qualified nullable type `p.A?` is named `A?`. |
| SchemaNamer.SchemaNameOfCar | src/main/kotlin/smn/ktorexample/App1.kt:116-120 | `smn.ktorexample.Car` is named `Car`. |
| SchemaNamer.SchemaNameOfGeneric | src/main/kotlin/smn/ktorexample/App1.kt:116-120 | A generic `p.A<q.B>` is named `A_B_`. |
| SchemaNamer.SchemaNameOfNullable | src/main/kotlin/smn/ktorexample/App1.kt:116-120 | `kotlin.String?` is named `String?`. |
| Greetings.Greet | src/main/kotlin/smn/ktorexample/App1.kt:38 | The greeting is `Hello, `, then the name, then `!`. |
| Greetings.GreetedName | src/main/kotlin/smn/ktorexample/App1.kt:38 | Reading a name out of a greeting inverts `Greet`. |
| Greetings.GreetedNameOfGreet | src/main/kotlin/smn/ktorexample/App1.kt:38 | Round trip: the name read from a greeting is the name it was built from. |
| Greetings.GreetInjective | src/main/kotlin/smn/ktorexample/App1.kt:38 | Different names give different greetings. |
| Greetings.PureHello | src/main/kotlin/smn/ktorexample/App1.kt:36-39 | The plain endpoint greets the path name. A missing parameter would be greeted as `null`. |
| Greetings.OpenApiHello | src/main/kotlin/smn/ktorexample/App1.kt:73-75 | The OpenAPI endpoint greets the bound name. |
| Greetings.EndpointsAgree | src/main/kotlin/smn/ktorexample/App1.kt:36-75 | Both endpoints answer the same for the same name. |
| Greetings.HelloSigmund | src/test/kotlin/smn/ktorexample/App1Test.kt:15-30 | Both endpoints greet `Sigmund` with `Hello, Sigmund!`. |

## Left out

- Server bootstrap (`main`, `embeddedServer`, ports) and `Main.kt`: process start-up, not logic.
- JSON (Jackson): serialisation and deserialisation are not modelled. A request is already bound to typed values, and `productionYear` is an opaque year-month-day triple.
- Malformed requests, such as an unparsable body, an unknown colour or a missing path segment: these are rejected by the framework's binding before a handler runs, which is outside this model.
- The OpenAPI document: `addMainOpenApiInfo`, `swaggerRoutes`, the `@Description`/`@Request` annotations, `BasicProvider.security` and `BasicProvider.apply`. These only describe the API; the schema namer is the one piece of it modelled.
- `App4.kt`: not part of the core.
- The random UUID of a new car: a parameter `newId`, since randomness cannot be modelled.
- `KType.toString()`: the schema namer takes the type's text as its input.
- Concurrency: the registry is a shared singleton map without synchronisation. The model threads the store through calls one at a time.
- Exception messages that are null (`localizedMessage` of an exception created without a message): every handler exception here has a message.
- StatusPages.Ancestry: an exception of another class is known only by whether it descends from NoSuchElementException. Its chain lists its own class, then NoSuchElementException and RuntimeException when it descends from them, then `Exception`; other intermediate superclasses are not modelled. No rule names such a class, so they cannot change the chosen rule.
- SchemaNamer.SchemaNameKeepsPunctuation: covers only punctuation other than `.`, `<`, `>`, `,` and space. A lone `,` or space that is not part of `", "` is kept by the source, but this lemma does not state it.
- Greetings.PureHello: Ktor matches `/pure/{name}` only when the segment is present, so the `null` branch models Kotlin's string template and is unreachable through routing.
