/** The monitor of the back bumper (task_limit_back).
 *
 *  Each cycle the task leaves its flag queue alone while it is occupied
 *  (back-pressure until the controller consumes the flag); otherwise, when
 *  the switch pin reads high, it puts the "stop" value 0.  The pin reading is
 *  an input; the delays between cycles are not modelled.
 */
module LimitSwitchBack {

  const StopTag: int := 0

  /** One pass of the polling loop, with `pressed` the pin reading. */
  function Poll(q: seq<int>, pressed: bool): (r: seq<int>)
    ensures |q| > 0 ==> r == q
    ensures |q| == 0 && pressed ==> r == [StopTag]
    ensures |q| == 0 && !pressed ==> r == []
  {
    if |q| > 0 then q
    else if pressed then q + [StopTag]
    else q
  }

  /** What can happen to the flag queue: a poll by this task, or a `get` by
   *  the controller, which only takes when the queue is occupied. */
  datatype Event = Sample(pressed: bool) | Take

  function Apply(q: seq<int>, e: Event): seq<int>
  {
    match e
    case Sample(pressed) => Poll(q, pressed)
    case Take => if |q| > 0 then q[1..] else q
  }

  function Run(q: seq<int>, events: seq<Event>): seq<int>
    decreases |events|
  {
    if |events| == 0 then q else Run(Apply(q, events[0]), events[1..])
  }

  /** With this task as the only producer, the queue never holds more than
   *  one item, and every item is the tag 0. */
  lemma {:induction false} AtMostOneFlag(q: seq<int>, events: seq<Event>)
    requires |q| <= 1 && forall x :: x in q ==> x == StopTag
    ensures |Run(q, events)| <= 1 && forall x :: x in Run(q, events) ==> x == StopTag
    decreases |events|
  {
    if |events| > 0 {
      AtMostOneFlag(Apply(q, events[0]), events[1..]);
    }
  }

  class BackLimitTask {
    /** The shared flag queue. */
    var limitDetectBack: seq<int>

    constructor ()
      ensures limitDetectBack == []
    {
      limitDetectBack := [];
    }

    /** One iteration of the forever loop. */
    method Step(pressed: bool)
      modifies this
      ensures limitDetectBack == Poll(old(limitDetectBack), pressed)
    {
      if |limitDetectBack| > 0 {
        // wait until the controller clears the flag
      } else if pressed {
        limitDetectBack := limitDetectBack + [StopTag];
      }
    }
  }
}
