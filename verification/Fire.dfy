/** The launcher: two friction-wheel pins and two feeder pins. */
module Fire {
  import opened Gpio

  const FEED_IN1: Pin := 18
  const FEED_IN2: Pin := 5
  const FRICTION_IN1: Pin := 26
  const FRICTION_IN2: Pin := 25

  /** `FireFlagState`. */
  const FLAG := false

  const FRICTION_PINS: set<Pin> := {FRICTION_IN1, FRICTION_IN2}
  const FEED_PINS: set<Pin> := {FEED_IN1, FEED_IN2}

  /** Running drives IN1 alone, stopped holds both high. */
  function FrictionPins(on: bool): (l: Levels)
    ensures l.Keys == FRICTION_PINS
  {
    map[FRICTION_IN1 := true, FRICTION_IN2 := !on]
  }

  /** Running drives IN2 alone, stopped holds both high. */
  function FeedPins(on: bool): (l: Levels)
    ensures l.Keys == FEED_PINS
  {
    map[FEED_IN1 := !on, FEED_IN2 := true]
  }

  method FrictionRun(port: Port)
    modifies port
    ensures port.levels == old(port.levels) + FrictionPins(true)
  {
    port.Set(FRICTION_IN1, !FLAG);
    port.Set(FRICTION_IN2, FLAG);
  }

  method FrictionStop(port: Port)
    modifies port
    ensures port.levels == old(port.levels) + FrictionPins(false)
  {
    port.Set(FRICTION_IN1, !FLAG);
    port.Set(FRICTION_IN2, !FLAG);
  }

  method FeedRun(port: Port)
    modifies port
    ensures port.levels == old(port.levels) + FeedPins(true)
  {
    port.Set(FEED_IN1, FLAG);
    port.Set(FEED_IN2, !FLAG);
  }

  method FeedStop(port: Port)
    modifies port
    ensures port.levels == old(port.levels) + FeedPins(false)
  {
    port.Set(FEED_IN1, !FLAG);
    port.Set(FEED_IN2, !FLAG);
  }
}
