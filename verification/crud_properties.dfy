/** Properties of the car routes that relate several calls: create then get,
    delete then get, full-replace update, and the uniqueness of the colour
    filter's answer. */
module CrudProperties {
  import opened Wrappers
  import opened Cars
  import opened CarRegistry
  import opened CarRoutes

  /** A creation under an id not yet stored adds exactly one entry, and a
      retrieval by that id answers the payload with the id attached. */
  lemma CreateThenRetrieve(s: Store, carToCreate: CarCreationDto, newId: string)
    requires newId !in AsMap(s)
    ensures var s' := HandleCarCreation(s, carToCreate, newId).0;
      && AsMap(s').Keys == AsMap(s).Keys + {newId}
      && |AsMap(s')| == |AsMap(s)| + 1
      && (forall id :: id in AsMap(s) ==> AsMap(s')[id] == AsMap(s)[id])
      && HandleSingleCarRetrieval(s', newId).1 == HandleCarCreation(s, carToCreate, newId).1
      && HandleSingleCarRetrieval(s', newId).1.payload.car.id == newId
      && WithoutId(HandleSingleCarRetrieval(s', newId).1.payload.car) == carToCreate
  {
  }

  /** After a deletion, whether or not it found the car, a retrieval of the
      same id raises NoSuchElementException. */
  lemma DeleteThenRetrieve(s: Store, id: string)
    ensures var s' := HandleCarDeletion(s, id).0;
      HandleSingleCarRetrieval(s', id).1 == Threw(NoSuchElementException(RetrievalNotFoundMessage(id)))
  {
  }

  /** An update is a full replacement: a payload without a nickname clears
      the nickname the stored car had. */
  lemma UpdateClearsNickname(s: Store, id: string, updatedCar: CarCreationDto)
    requires id in AsMap(s)
    requires updatedCar.nickName.None?
    ensures var s' := HandleCarUpdating(s, id, updatedCar).0;
      && RetrieveCarById(s', id).Some?
      && RetrieveCarById(s', id).value.nickName.None?
  {
  }

  /** Every element of a subsequence is an element of the whole. */
  lemma {:induction false} SubsequenceMembers<T>(a: seq<T>, b: seq<T>)
    requires IsSubsequence(a, b)
    ensures forall x :: x in a ==> x in b
    decreases |b|
  {
    if |a| > 0 {
      if a[0] == b[0] {
        SubsequenceMembers(a[1..], b[1..]);
        assert forall x :: x in a ==> x == a[0] || x in a[1..];
      } else {
        SubsequenceMembers(a, b[1..]);
      }
    }
  }

  /** The colour filter's answer is the only sequence that keeps the order of
      the store and holds exactly the cars with a listed colour. */
  lemma {:induction false} FilterIsOnlyOrderedSelection(r: seq<Car>, cars: Store, colors: seq<Color>)
    requires IsSubsequence(r, cars)
    requires forall c :: c in r <==> c in cars && c.color in colors
    ensures r == FilterByColors(cars, colors)
    decreases |cars|
  {
    if |cars| > 0 {
      var h := cars[0];
      var tail: Store := cars[1..];
      forall c | c in tail ensures c != h {
        IdsMember(tail, c);
      }
      if h.color in colors {
        assert h in r;
        if r[0] != h {
          SubsequenceMembers(r, tail);
          IdsMember(tail, h);
          assert false;
        }
        SubsequenceMembers(r[1..], tail);
        assert forall c :: c in r <==> c == h || c in r[1..];
        FilterIsOnlyOrderedSelection(r[1..], tail, colors);
        assert r == [h] + r[1..];
      } else {
        assert h !in r;
        FilterIsOnlyOrderedSelection(r, tail, colors);
      }
    }
  }

  /** Hence the multi-car retrieval answers the one ordered selection of all
      cars with a listed colour. */
  lemma MultiRetrievalIsOnlyOrderedSelection(s: Store, colors: seq<Color>, r: seq<Car>)
    requires |colors| > 0
    requires IsSubsequence(r, RetrieveAllCars(s))
    requires forall c :: c in r <==> c in RetrieveAllCars(s) && c.color in colors
    ensures HandleMultiCarRetrieval(s, Some(colors)).1 == Responded(CarListJson(r))
  {
    FilterIsOnlyOrderedSelection(r, RetrieveAllCars(s), colors);
  }
}
