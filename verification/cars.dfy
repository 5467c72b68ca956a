/** The data classes of the car example: the stored car, its colour, and the
    payload a client sends to create or replace one. */
module Cars {
  import opened Wrappers

  /** The closed set of colours a car may have. */
  datatype Color = RED | BLUE | GREEN | YELLOW | BLACK | WHITE | BEIGE

  /** A calendar date, kept opaque: nothing in the core does date arithmetic. */
  datatype LocalDate = LocalDate(year: int, month: int, day: int)

  /** A car as stored in the registry. An absent nickname is `None`, which is
      not the same as the empty string. */
  datatype Car = Car(id: string, color: Color, productionYear: LocalDate, nickName: Option<string>)

  /** The body of a create (POST) or full-replace update (PUT): a car without
      its id, which the server supplies. */
  datatype CarCreationDto = CarCreationDto(color: Color, productionYear: LocalDate, nickName: Option<string>)

  /** The payload a car carries apart from its id; the inverse of `ToCarWithId`. */
  function WithoutId(car: Car): CarCreationDto
  {
    CarCreationDto(car.color, car.productionYear, car.nickName)
  }

  /** Attaches a server-chosen id to a payload. Every field of the payload,
      including an absent nickname, is carried over unchanged. */
  function ToCarWithId(dto: CarCreationDto, id: string): (car: Car)
    ensures car.id == id
    ensures WithoutId(car) == dto
    ensures dto.nickName.None? ==> car.nickName.None?
  {
    Car(id, dto.color, dto.productionYear, dto.nickName)
  }

  /** A car is determined by its id and its payload. */
  lemma CarFromIdAndPayload(car: Car)
    ensures ToCarWithId(WithoutId(car), car.id) == car
  {
  }
}
