/** The room directory's data and the validation `POST /api/salles` applies
    before it inserts a room. Times of day are minutes since midnight: the
    backend compares `HH:MM` strings, which order the same way. */
module Rooms {
  import opened Base
  import opened Errors

  /** A row of the `salles` table. */
  datatype Room = Room(
    name: string,      // nom
    capacity: int,     // capacite
    present: int,      // nombre_presents
    opening: int,      // heure_ouverture
    closing: int)      // heure_fermeture

  /** The JSON body of a room creation. For the name, the capacity and the
      hours, `Absent` stands for every value the handler's `!x` test sees as
      missing besides `""` and `0`, which the field types can hold and are
      tested for explicitly. `nombre_presents` is tested with `!== undefined`,
      so for it `Absent` is a missing key only and `0` is `Given(0)`. */
  datatype RoomBody = RoomBody(
    name: Field<string>,
    capacity: Field<int>,
    present: Field<int>,
    opening: Field<int>,
    closing: Field<int>)

  /** What a room in the directory satisfies once created. */
  predicate ValidRoom(room: Room) {
    && room.name != ""
    && room.capacity > 0
    && 0 <= room.present <= room.capacity
    && room.opening < room.closing
  }

  /** The four required fields are present and truthy (`0` capacity is falsy). */
  predicate RequiredGiven(b: RoomBody) {
    && b.name.Given? && b.name.value != ""
    && b.capacity.Given? && b.capacity.value != 0
    && b.opening.Given?
    && b.closing.Given?
  }

  /** Everything the handler demands of a body it accepts, as one condition. */
  predicate Acceptable(b: RoomBody) {
    && RequiredGiven(b)
    && b.capacity.value > 0
    && (b.present.Given? ==> 0 <= b.present.value <= b.capacity.value)
    && b.opening.value < b.closing.value
  }

  /** Validates a room creation and builds the row it inserts; an absent
      `nombre_presents` is stored as 0. The checks run in the handler's order. */
  function CreateRoom(b: RoomBody): (r: Result<Room, Error>)
    ensures r == Err(Missing) <==> !RequiredGiven(b)
    ensures r == Err(CapacityNotPositive) <==> RequiredGiven(b) && b.capacity.value < 0
    ensures r == Err(PresentsOutOfRange) <==>
      RequiredGiven(b) && b.capacity.value > 0 && b.present.Given? &&
      !(0 <= b.present.value <= b.capacity.value)
    ensures r == Err(ClosingNotAfterOpening) <==>
      RequiredGiven(b) && b.capacity.value > 0 &&
      (b.present.Given? ==> 0 <= b.present.value <= b.capacity.value) &&
      b.closing.value <= b.opening.value
    ensures r.Ok? <==> Acceptable(b)
    ensures r.Ok? ==> ValidRoom(r.value)
    ensures r.Ok? ==>
      && r.value.name == b.name.value && r.value.capacity == b.capacity.value
      && r.value.opening == b.opening.value && r.value.closing == b.closing.value
      && r.value.present == (if b.present.Given? then b.present.value else 0)
  {
    if !RequiredGiven(b) then Err(Missing)
    else if b.capacity.value <= 0 then Err(CapacityNotPositive)
    else if b.present.Given? && (b.present.value < 0 || b.present.value > b.capacity.value) then
      Err(PresentsOutOfRange)
    else if b.closing.value <= b.opening.value then Err(ClosingNotAfterOpening)
    else
      Ok(Room(b.name.value, b.capacity.value,
              if b.present.Given? then b.present.value else 0,
              b.opening.value, b.closing.value))
  }

  /** The body that describes a room field by field. */
  function BodyOf(room: Room): RoomBody {
    RoomBody(Given(room.name), Given(room.capacity), Given(room.present),
             Given(room.opening), Given(room.closing))
  }

  /** Every valid room can be created, and creation stores exactly what it was given. */
  lemma CreateRoomRoundTrip(room: Room)
    requires ValidRoom(room)
    ensures CreateRoom(BodyOf(room)) == Ok(room)
  {
  }

}
