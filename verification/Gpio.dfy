/** Output pins: the last level written to each. */
module Gpio {

  type Pin = nat
  type Levels = map<Pin, bool>

  /** A pin that was never written reads low. */
  function Level(levels: Levels, pin: Pin): (v: int) {
    if pin in levels && levels[pin] then 1 else 0
  }

  class Port {
    var levels: Levels

    constructor ()
      ensures levels == map[]
    {
      levels := map[];
    }

    /** `gpio_set_level`. */
    method Set(pin: Pin, level: bool)
      modifies this
      ensures levels == old(levels)[pin := level]
    {
      levels := levels[pin := level];
    }
  }
}
