/** The monitor of the front bumper (task_limit_front).
 *
 *  Each cycle the task leaves its flag queue alone while it is occupied
 *  (back-pressure until the controller consumes the flag); otherwise, when
 *  the switch pin reads high, it puts the "reverse" value 2.  The pin reading is
 *  an input; the delays between cycles are not modelled.
 */
module LimitSwitchFront {

  const ReverseTag: int := 2

  /** One pass of the polling loop, with `pressed` the pin reading. */
  function Poll(q: seq<int>, pressed: bool): (r: seq<int>)
    ensures |q| > 0 ==> r == q
    ensures |q| == 0 && pressed ==> r == [ReverseTag]
    ensures |q| == 0 && !pressed ==> r == []
  {
    if |q| > 0 then q
    else if pressed then q + [ReverseTag]
    else q
  }

  /** What can happen to the flag queue: a poll by this task, or a `get` by
   *  the controller, which only takes when the queue is occupied. */
  datatype Event = Sample(pressed: bool) | Take

  function Apply(q: seq<int>, e: Event): seq<int>
  {
    match e
    case Sample(pressed) => Poll(q, pressed)
    case Take => if |q| > 0 then q[1..] else q
  }

  function Run(q: seq<int>, events: seq<Event>): seq<int>
    decreases |events|
  {
    if |events| == 0 then q else Run(Apply(q, events[0]), events[1..])
  }

  /** With this task as the only producer, the queue never holds more than
   *  one item, and every item is the tag 2. */
  lemma {:induction false} AtMostOneFlag(q: seq<int>, events: seq<Event>)
    requires |q| <= 1 && forall x :: x in q ==> x == ReverseTag
    ensures |Run(q, events)| <= 1 && forall x :: x in Run(q, events) ==> x == ReverseTag
    decreases |events|
  {
    if |events| > 0 {
      AtMostOneFlag(Apply(q, events[0]), events[1..]);
    }
  }

  class FrontLimitTask {
    /** The shared flag queue. */
    var limitDetectFront: seq<int>

    constructor ()
      ensures limitDetectFront == []
    {
      limitDetectFront := [];
    }

    /** One iteration of the forever loop. */
    method Step(pressed: bool)
      modifies this
      ensures limitDetectFront == Poll(old(limitDetectFront), pressed)
    {
      if |limitDetectFront| > 0 {
        // wait until the controller clears the flag
      } else if pressed {
        limitDetectFront := limitDetectFront + [ReverseTag];
      }
    }
  }
}
