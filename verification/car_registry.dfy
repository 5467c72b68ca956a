/** The in-memory car registry: a map from id to car with exists, upsert, get,
    get-all and delete.

    The source keeps the cars in a `mutableMapOf()`, which is an
    insertion-ordered hash map. The model keeps its entries as a sequence in
    insertion order with at most one entry per id (`Store`); `AsMap` reads that
    sequence as a finite map, and every operation is specified against it. */
module CarRegistry {
  import opened Wrappers
  import opened Cars

  /** The ids occurring in a sequence of cars. */
  function Ids(cars: seq<Car>): set<string>
  {
    if |cars| == 0 then {} else {cars[0].id} + Ids(cars[1..])
  }

  /** No two entries share an id: the key uniqueness of the map. */
  predicate UniqueIds(cars: seq<Car>)
  {
    |cars| == 0 || (cars[0].id !in Ids(cars[1..]) && UniqueIds(cars[1..]))
  }

  /** The registry contents, in insertion order. */
  type Store = cars: seq<Car> | UniqueIds(cars)

  /** Reference reading of a sequence of entries as a map from id to car;
      an earlier entry takes precedence over a later one with the same id. */
  function AsMap(cars: seq<Car>): map<string, Car>
  {
    if |cars| == 0 then map[] else AsMap(cars[1..])[cars[0].id := cars[0]]
  }

  /** The id of every entry is among the ids. */
  lemma {:induction false} IdsMember(cars: seq<Car>, c: Car)
    requires c in cars
    ensures c.id in Ids(cars)
  {
    if cars[0] != c {
      IdsMember(cars[1..], c);
    }
  }

  /** The first entry with the given id, if there is one. */
  function Find(cars: seq<Car>, id: string): (r: Option<Car>)
    ensures r.Some? ==> r.value in cars && r.value.id == id
    ensures r.None? <==> id !in Ids(cars)
  {
    if |cars| == 0 then None
    else
      if cars[0].id == id then Some(cars[0]) else Find(cars[1..], id)
  }

  /** Replaces the first entry with the car's id in place, or appends the car
      when its id is new: a put into an insertion-ordered map. */
  function Upsert(cars: seq<Car>, car: Car): (r: seq<Car>)
    ensures Ids(r) == Ids(cars) + {car.id}
    ensures car.id !in Ids(cars) ==> r == cars + [car]
    ensures car.id in Ids(cars) ==> |r| == |cars|
  {
    if |cars| == 0 then [car]
    else
      if cars[0].id == car.id then
        var r := [car] + cars[1..];
        assert r[1..] == cars[1..];
        r
      else
        var rest := Upsert(cars[1..], car);
        var r := [cars[0]] + rest;
        assert r[1..] == rest;
        r
  }

  /** In a store a put replaces the entry with the car's id where it stands and
      touches no other entry, so the ids stay unique. */
  lemma {:induction false} UpsertInPlace(cars: Store, car: Car)
    ensures UniqueIds(Upsert(cars, car))
    ensures forall i :: 0 <= i < |cars| ==>
              Upsert(cars, car)[i] == (if cars[i].id == car.id then car else cars[i])
  {
    if |cars| > 0 {
      var r := Upsert(cars, car);
      if cars[0].id != car.id {
        UpsertInPlace(cars[1..], car);
        assert r[1..] == Upsert(cars[1..], car);
      } else {
        assert r[1..] == cars[1..];
        forall i | 0 < i < |cars| ensures cars[i].id != car.id {
          IdsMember(cars[1..], cars[i]);
        }
      }
    }
  }

  /** Removes the first entry with the given id and says whether there was one. */
  function Remove(cars: seq<Car>, id: string): (r: (seq<Car>, bool))
    ensures r.1 <==> id in Ids(cars)
    ensures !r.1 ==> r.0 == cars
    ensures r.1 ==> |r.0| == |cars| - 1
    ensures forall c :: c in r.0 ==> c in cars
    ensures UniqueIds(cars) ==> UniqueIds(r.0) && Ids(r.0) == Ids(cars) - {id}
  {
    if |cars| == 0 then ([], false)
    else
      if cars[0].id == id then (cars[1..], true)
      else
        var rest := Remove(cars[1..], id);
        var r := [cars[0]] + rest.0;
        assert r[1..] == rest.0;
        (r, rest.1)
  }

  /** The keys of the map reading are exactly the ids present. */
  lemma {:induction false} AsMapKeys(cars: seq<Car>)
    ensures AsMap(cars).Keys == Ids(cars)
  {
    if |cars| > 0 {
      AsMapKeys(cars[1..]);
    }
  }

  /** Looking an id up in the sequence agrees with looking it up in the map. */
  lemma {:induction false} AsMapFind(cars: seq<Car>, id: string)
    ensures Find(cars, id) == if id in AsMap(cars) then Some(AsMap(cars)[id]) else None
  {
    if |cars| > 0 {
      AsMapFind(cars[1..], id);
    }
  }

  /** A put into the sequence is a map update. */
  lemma {:induction false} AsMapUpsert(cars: seq<Car>, car: Car)
    ensures AsMap(Upsert(cars, car)) == AsMap(cars)[car.id := car]
  {
    if |cars| > 0 {
      var r := Upsert(cars, car);
      if cars[0].id == car.id {
        assert r[1..] == cars[1..];
      } else {
        assert r[1..] == Upsert(cars[1..], car);
        AsMapUpsert(cars[1..], car);
      }
    }
  }

  /** A removal from the sequence is a map removal. */
  lemma {:induction false} AsMapRemove(cars: Store, id: string)
    ensures AsMap(Remove(cars, id).0) == AsMap(cars) - {id}
  {
    if |cars| > 0 {
      var tail: Store := cars[1..];
      AsMapKeys(tail);
      if cars[0].id != id {
        var r := Remove(cars, id).0;
        assert r[1..] == Remove(tail, id).0;
        AsMapRemove(tail, id);
      }
    }
  }

  /** In a store a car is an entry exactly when the map holds it under its id. */
  lemma {:induction false} AsMapMember(cars: Store, c: Car)
    ensures c in cars <==> c.id in AsMap(cars) && AsMap(cars)[c.id] == c
  {
    if |cars| > 0 {
      var tail: Store := cars[1..];
      AsMapMember(tail, c);
      AsMapKeys(tail);
      if c in tail {
        IdsMember(tail, c);
      }
    }
  }

  /** A store has one map entry per element. */
  lemma {:induction false} AsMapSize(cars: Store)
    ensures |AsMap(cars)| == |cars|
  {
    if |cars| > 0 {
      var tail: Store := cars[1..];
      AsMapSize(tail);
      AsMapKeys(tail);
    }
  }

  /** `doesCarExist`: whether some car is stored under the id. */
  function DoesCarExist(s: Store, id: string): (b: bool)
    ensures b <==> id in AsMap(s)
  {
    AsMapKeys(s);
    Find(s, id).Some?
  }

  /** `insertOrUpdateCar`: stores the car under its own id, replacing any car
      stored there, and hands the same car back. */
  function InsertOrUpdateCar(s: Store, car: Car): (r: (Store, Car))
    ensures r.1 == car
    ensures AsMap(r.0) == AsMap(s)[car.id := car]
  {
    AsMapUpsert(s, car);
    UpsertInPlace(s, car);
    (Upsert(s, car), car)
  }

  /** `retrieveCarById`: the car stored under the id, or none. */
  function RetrieveCarById(s: Store, id: string): (r: Option<Car>)
    ensures r == if id in AsMap(s) then Some(AsMap(s)[id]) else None
  {
    AsMapFind(s, id);
    Find(s, id)
  }

  /** `retrieveAllCars`: every stored car exactly once, in insertion order. */
  function RetrieveAllCars(s: Store): (r: seq<Car>)
    ensures |r| == |AsMap(s)|
    ensures forall c :: c in r <==> c.id in AsMap(s) && AsMap(s)[c.id] == c
  {
    AsMapSize(s);
    forall c ensures c in s <==> c.id in AsMap(s) && AsMap(s)[c.id] == c {
      AsMapMember(s, c);
    }
    s
  }

  /** `deleteCar`: removes the car stored under the id and says whether one was. */
  function DeleteCar(s: Store, id: string): (r: (Store, bool))
    ensures r.1 <==> id in AsMap(s)
    ensures !r.1 ==> r.0 == s
    ensures AsMap(r.0) == AsMap(s) - {id}
  {
    AsMapKeys(s);
    AsMapRemove(s, id);
    Remove(s, id)
  }
}
