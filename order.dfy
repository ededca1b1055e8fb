/**
  Order (package org.h819.web.spring.jdbc): a sort condition made of a property name and
  a direction, with getters and setters that read and overwrite the two fields in place.
*/
module SpringJdbc {

  /** Order.Direction: ascending or descending. */
  datatype Direction = ASC | DESC

  /** The constant's ordinal(), its position in declaration order. */
  function DirectionOrdinal(d: Direction): nat {
    match d
    case ASC => 0
    case DESC => 1
  }

  /** Direction.values(): exactly the two constants, each at its ordinal. */
  function DirectionValues(): (r: seq<Direction>)
    ensures |r| == 2 && r[0] != r[1]
    ensures forall d: Direction :: DirectionOrdinal(d) < |r| && r[DirectionOrdinal(d)] == d
  {
    [ASC, DESC]
  }

  class Order {
    var direction: Direction
    var property: string

    constructor (property: string, direction: Direction)
      ensures GetProperty() == property
      ensures GetDirection() == direction
    {
      this.direction := direction;
      this.property := property;
    }

    /** getDirection: the direction last set. */
    function GetDirection(): (d: Direction)
      reads this
      ensures d == direction
    {
      direction
    }

    method SetDirection(direction: Direction)
      modifies this`direction
      ensures GetDirection() == direction
      ensures GetProperty() == old(GetProperty())
    {
      this.direction := direction;
    }

    /** getProperty: the property last set. */
    function GetProperty(): (p: string)
      reads this
      ensures p == property
    {
      property
    }

    method SetProperty(property: string)
      modifies this`property
      ensures GetProperty() == property
      ensures GetDirection() == old(GetDirection())
    {
      this.property := property;
    }
  }
}
