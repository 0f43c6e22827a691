/*
 * A LED on an output pin, wired either with its anode to the pin (lit when
 * the pin is high) or with its cathode (lit when the pin is low).
 */
module Led {
  import opened FixedWidth

  datatype Connection = Anode | Cathode

  /** The pin level that lights (`on`) or darkens the LED. */
  function LevelFor(c: Connection, on: bool): bool {
    if c == Anode then on else !on
  }

  /** `isTurned`: whether the LED is lit at the given port bit. */
  function TurnedAt(c: Connection, bit: bool): bool {
    if c == Anode then bit else !bit
  }

  /** `turnOn` lights the LED and `turnOff` darkens it, for either wiring. */
  lemma TurnOnOff(c: Connection)
    ensures TurnedAt(c, LevelFor(c, true)) && !TurnedAt(c, LevelFor(c, false))
    ensures LevelFor(c, true) == (c == Anode)
  {}

  /** `toggle` at a port bit. */
  function ToggledBit(c: Connection, bit: bool): bool {
    if TurnedAt(c, bit) then LevelFor(c, false) else LevelFor(c, true)
  }

  /** A toggle flips the port bit and what the LED shows; two toggles restore the bit. */
  lemma ToggleFlips(c: Connection, bit: bool)
    ensures ToggledBit(c, bit) == !bit
    ensures TurnedAt(c, ToggledBit(c, bit)) == !TurnedAt(c, bit)
    ensures ToggledBit(c, ToggledBit(c, bit)) == bit
  {}

  /** The levels `pulse` drives: on, off, `count` times. */
  function PulseLevels(c: Connection, count: nat): (r: seq<bool>)
    ensures |r| == 2 * count
    ensures forall k :: 0 <= k < |r| ==> r[k] == LevelFor(c, k % 2 == 0)
  {
    if count == 0 then [] else PulseLevels(c, count - 1) + [LevelFor(c, true), LevelFor(c, false)]
  }

  class Led {
    const connectionType: Connection
    var portBit: bool

    predicate IsTurned()
      reads this
    {
      TurnedAt(connectionType, portBit)
    }

    /**
     * `resetBit` is the port bit before construction. The constructor only
     * turns the LED on when asked to and otherwise leaves the bit alone.
     */
    constructor (connectionType: Connection, isTurned: bool, resetBit: bool)
      ensures this.connectionType == connectionType
      ensures portBit == if isTurned then LevelFor(connectionType, true) else resetBit
      ensures isTurned ==> IsTurned()
    {
      this.connectionType := connectionType;
      portBit := resetBit;
      new;
      if isTurned {
        TurnOn();
      }
    }

    method TurnOn()
      modifies this
      ensures portBit == LevelFor(connectionType, true) && IsTurned()
    {
      portBit := connectionType == Anode;
    }

    method TurnOff()
      modifies this
      ensures portBit == LevelFor(connectionType, false) && !IsTurned()
    {
      portBit := connectionType != Anode;
    }

    method Toggle()
      modifies this
      ensures portBit == ToggledBit(connectionType, old(portBit)) && IsTurned() == !old(IsTurned())
    {
      if IsTurned() {
        TurnOff();
      } else {
        TurnOn();
      }
    }

    /**
     * `pulse`: `count` flashes; the delays between the pin changes are not
     * modelled. Returns the levels driven, in order.
     */
    method Pulse(count: uint16) returns (levels: seq<bool>)
      modifies this
      ensures levels == PulseLevels(connectionType, count)
      ensures count > 0 ==> !IsTurned()
      ensures count == 0 ==> portBit == old(portBit)
    {
      levels := [];
      var i := 0;
      while i < count
        invariant 0 <= i <= count
        invariant levels == PulseLevels(connectionType, i)
        invariant i > 0 ==> !IsTurned()
        invariant i == 0 ==> portBit == old(portBit)
      {
        TurnOn();
        levels := levels + [portBit];
        TurnOff();
        levels := levels + [portBit];
        i := i + 1;
      }
    }
  }
}
