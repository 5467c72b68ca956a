/** The two hello-world endpoints: GET `/pure/{name}` in plain Ktor and GET
    `/openapi/{name}` declared through the OpenAPI generator. Both answer
    `Hello, <name>!`. */
module Greetings {
  import opened Wrappers

  const Greeting: string := "Hello, "

  /** The greeting text for a name: the name between `Hello, ` and `!`. */
  function Greet(name: string): (greeting: string)
    ensures |greeting| == |name| + 8
    ensures greeting[..7] == Greeting
    ensures greeting[7..|greeting| - 1] == name
    ensures greeting[|greeting| - 1] == '!'
  {
    Greeting + name + "!"
  }

  /** Reads the name back out of a greeting: the inverse of `Greet`. */
  function GreetedName(greeting: string): (name: Option<string>)
    ensures name.Some? ==> Greet(name.value) == greeting
  {
    if |greeting| >= 8 && greeting[..7] == Greeting && greeting[|greeting| - 1] == '!' then
      var name := greeting[7..|greeting| - 1];
      assert Greet(name) == greeting;
      Some(name)
    else
      None
  }

  /** Every greeting names exactly the name it was built from. */
  lemma GreetedNameOfGreet(name: string)
    ensures GreetedName(Greet(name)) == Some(name)
  {
  }

  /** Two names give the same greeting only when they are equal. */
  lemma GreetInjective(a: string, b: string)
    requires Greet(a) == Greet(b)
    ensures a == b
  {
    GreetedNameOfGreet(a);
    GreetedNameOfGreet(b);
  }

  /** GET `/pure/{name}`: the path parameter is read as a nullable string and
      interpolated into the greeting, so a missing parameter would be
      greeted as `null`. */
  function PureHello(name: Option<string>): (greeting: string)
    ensures name.Some? ==> GreetedName(greeting) == Some(name.value)
    ensures name.None? ==> greeting == Greet("null")
  {
    match name
    case Some(n) => GreetedNameOfGreet(n); Greet(n)
    case None => Greet("null")
  }

  /** GET `/openapi/{name}`: the bound parameter object holds a non-null
      name, which is greeted. */
  function OpenApiHello(name: string): (greeting: string)
    ensures GreetedName(greeting) == Some(name)
  {
    GreetedNameOfGreet(name);
    Greet(name)
  }

  /** The two endpoints give the same answer for the same path segment. */
  lemma EndpointsAgree(name: string)
    ensures PureHello(Some(name)) == OpenApiHello(name)
  {
    GreetedNameOfGreet(name);
  }

  /** Both endpoints greet `Sigmund` with `Hello, Sigmund!`. */
  lemma HelloSigmund()
    ensures PureHello(Some("Sigmund")) == "Hello, Sigmund!"
    ensures OpenApiHello("Sigmund") == "Hello, Sigmund!"
  {
    GreetingOfSigmund();
  }

  lemma GreetingOfSigmund()
    ensures Greeting + "Sigmund" + "!" == "Hello, Sigmund!"
  {
  }
}
