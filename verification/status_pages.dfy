/** The application with centralised error handling: handler exceptions are
    turned into HTTP responses by a small table of rules keyed by exception
    class.

    A NoSuchElementException becomes a documented 404 whose JSON body carries
    the exception's message. Every other exception becomes an undocumented
    500 with a fixed plain-text body, so no detail of the failure reaches the
    caller. */
module StatusPages {
  import opened Wrappers
  import opened Cars
  import opened CarRegistry
  import opened CarRoutes

  /** JVM exception classes: the three the rules and handlers mention, and
      any other class by name. */
  datatype JvmClass = NoSuchElementExceptionType | RuntimeExceptionType | ExceptionType | NamedClass(name: string)

  /** Whether the class of an exception is NoSuchElementException or one of
      its subclasses. */
  predicate DescendsFromNoSuchElement(e: Exception)
  {
    e.NoSuchElementException? || e.NoSuchElementSubclass?
  }

  /** The class of an exception followed by its superclasses up to
      `Exception`, nearest first. Of the classes between another exception's
      own class and `Exception`, only NoSuchElementException and
      RuntimeException are listed. */
  function Ancestry(e: Exception): (classes: seq<JvmClass>)
    ensures |classes| > 0 && classes[|classes| - 1] == ExceptionType
    ensures NoSuchElementExceptionType in classes <==> DescendsFromNoSuchElement(e)
  {
    match e
    case NoSuchElementException(_) => [NoSuchElementExceptionType, RuntimeExceptionType, ExceptionType]
    case RuntimeException(_) => [RuntimeExceptionType, ExceptionType]
    case NoSuchElementSubclass(name, _) =>
      [NamedClass(name), NoSuchElementExceptionType, RuntimeExceptionType, ExceptionType]
    case OtherException(name, _) => [NamedClass(name), ExceptionType]
  }

  /** How a rule builds its response body. */
  datatype ErrorReply = ProblemFromMessage | FixedPlainText(text: string)

  /** One exception rule: the status it answers, how it builds the body, and
      whether it appears in the generated API description. */
  datatype Rule = Rule(status: int, reply: ErrorReply, documented: bool)

  const InternalProblemText: string :=
    "An internal problem has occurred. Contact the system administrator and have them check the logs."

  /** The two rules installed: a documented 404 for a failed lookup, and an
      undocumented catch-all 500. */
  const Rules: map<JvmClass, Rule> := map[
    NoSuchElementExceptionType := Rule(404, ProblemFromMessage, true),
    ExceptionType := Rule(500, FixedPlainText(InternalProblemText), false)
  ]

  /** The rule of the nearest class in an ancestry that has one. */
  function FindRule(ancestry: seq<JvmClass>, rules: map<JvmClass, Rule>): (r: Option<Rule>)
    ensures r.None? <==> forall c :: c in ancestry ==> c !in rules
    ensures r.Some? ==> exists k :: 0 <= k < |ancestry| && ancestry[k] in rules && r.value == rules[ancestry[k]]
                                    && forall j :: 0 <= j < k ==> ancestry[j] !in rules
  {
    if |ancestry| == 0 then None
    else if ancestry[0] in rules then Some(rules[ancestry[0]])
    else
      var r := FindRule(ancestry[1..], rules);
      assert forall c :: c in ancestry <==> c == ancestry[0] || c in ancestry[1..];
      if r.Some? then
        var k :| 0 <= k < |ancestry| - 1 && ancestry[1..][k] in rules && r.value == rules[ancestry[1..][k]]
                 && forall j :: 0 <= j < k ==> ancestry[1..][j] !in rules;
        assert ancestry[k + 1] == ancestry[1..][k];
        assert forall j :: 1 <= j < k + 1 ==> ancestry[j] == ancestry[1..][j - 1];
        r
      else r
  }

  /** The body of the 404 response. */
  datatype CarRegistryProblem = CarRegistryProblem(msg: string)

  /** A response body on the wire. */
  datatype ResponseBody = Json(payload: Payload) | ProblemJson(problem: CarRegistryProblem) | PlainText(text: string) | NoBody

  datatype HttpResponse = HttpResponse(status: int, body: ResponseBody)

  /** The response an exception is turned into, and whether that outcome is
      part of the documented API. */
  datatype MappedException = MappedException(response: HttpResponse, documented: bool)

  /** The response a rule gives: its status and documentation flag, with a
      problem body holding the exception's message or the rule's fixed text. */
  function ApplyRule(rule: Rule, e: Exception): (m: MappedException)
    ensures m.response.status == rule.status && m.documented == rule.documented
    ensures rule.reply.ProblemFromMessage? ==> m.response.body == ProblemJson(CarRegistryProblem(e.message))
    ensures rule.reply.FixedPlainText? ==> m.response.body == PlainText(rule.reply.text)
  {
    match rule.reply
    case ProblemFromMessage => MappedException(HttpResponse(rule.status, ProblemJson(CarRegistryProblem(e.message))), rule.documented)
    case FixedPlainText(text) => MappedException(HttpResponse(rule.status, PlainText(text)), rule.documented)
  }

  /** The status-pages handler for an exception raised by a handler: the
      nearest rule decides, so NoSuchElementException and its subclasses get
      the 404 and everything else the catch-all 500. */
  function HandleException(e: Exception): (m: MappedException)
    ensures m.response.status == 404 <==> DescendsFromNoSuchElement(e)
    ensures DescendsFromNoSuchElement(e) ==> m.response.body == ProblemJson(CarRegistryProblem(e.message))
    ensures !DescendsFromNoSuchElement(e) ==> m.response == HttpResponse(500, PlainText(InternalProblemText))
    ensures m.documented <==> m.response.status == 404
  {
    var ancestry := Ancestry(e);
    assert ancestry[|ancestry| - 1] in Rules;
    match FindRule(ancestry, Rules)
    case Some(rule) => ApplyRule(rule, e)
    case None => assert false; MappedException(HttpResponse(500, NoBody), false)
  }

  /** The catch-all answer does not depend on the exception: two exceptions
      outside the NoSuchElementException family get identical responses. */
  lemma InternalErrorsDoNotLeak(e1: Exception, e2: Exception)
    requires !DescendsFromNoSuchElement(e1) && !DescendsFromNoSuchElement(e2)
    ensures HandleException(e1) == HandleException(e2)
  {
  }

  /** The HTTP response for how a handler ended: 200 with the payload as
      JSON, the status-pages answer to an exception, or the 401 challenge. */
  function Respond(o: Outcome): (response: HttpResponse)
    ensures response.status == 200 <==> o.Responded?
    ensures o.Responded? ==> response.body == Json(o.payload)
    ensures response.status == 401 <==> o.Unauthorized?
    ensures o.Threw? ==> (response.status == 404 || response.status == 500)
                         && (response.status == 404 <==> DescendsFromNoSuchElement(o.exception))
  {
    match o
    case Responded(payload) => HttpResponse(200, Json(payload))
    case Threw(e) => HandleException(e).response
    case Unauthorized => HttpResponse(401, NoBody)
  }

  /** The car routes behind the status-pages rules. Their handlers raise only
      NoSuchElementException, so a request is answered 200 or 404, and a 404
      leaves the store as it was. */
  function ServeWithStatusPages(s: Store, req: CarRequest, newId: string): (r: (Store, HttpResponse))
    ensures r.1.status == 200 || r.1.status == 404
    ensures r.1.status == 200 <==> Dispatch(s, req, newId).1.Responded?
    ensures r.1.status == 404 ==> r.0 == s && r.1.body.ProblemJson?
  {
    var (s', outcome) := Dispatch(s, req, newId);
    (s', Respond(outcome))
  }

  /** The end-to-end example: create a car, read it back unchanged, delete
      it, and a further read is a 404 naming the id. */
  lemma CreateReadDeleteRead(s: Store, carToCreate: CarCreationDto, newId: string, otherId: string)
    ensures var (s1, created) := ServeWithStatusPages(s, PostCar(carToCreate), newId);
      var (s2, read) := ServeWithStatusPages(s1, GetCar(newId), otherId);
      var (s3, deleted) := ServeWithStatusPages(s2, DeleteCarById(newId), otherId);
      var (s4, reread) := ServeWithStatusPages(s3, GetCar(newId), otherId);
      && created == HttpResponse(200, Json(CarJson(ToCarWithId(carToCreate, newId))))
      && read == created
      && deleted == HttpResponse(200, Json(UnitJson))
      && reread == HttpResponse(404, ProblemJson(CarRegistryProblem("Car with id " + newId + " not found.")))
  {
  }
}
