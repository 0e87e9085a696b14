/** Successive calls of loop(): the globals after a whole sequence of sensor reads. */
module Trace {
  import opened StatusCodes
  import opened Filter
  import opened Controller

  /** What one sensor read delivers to a cycle: the status code and the rounded reading. */
  datatype Reading = Reading(status: int, tempC: int)

  /** The globals after running one cycle per reading, in order, as the runtime
      calls loop() again and again. maxTemp never falls, and after a processed
      last reading that reading lies between minTemp and maxTemp. */
  function Run(s: State, rs: seq<Reading>): (r: State)
    ensures r.maxTemp >= s.maxTemp
    ensures rs != [] && Processes(rs[|rs| - 1].status) ==>
              r.minTemp <= rs[|rs| - 1].tempC <= r.maxTemp
    decreases |rs|
  {
    if rs == [] then s else Run(Cycle(s, rs[0].status, rs[0].tempC), rs[1..])
  }

  /** The globals' relation holds after any number of cycles from power-up. */
  lemma {:induction false} RunKeepsInv(s: State, rs: seq<Reading>)
    requires Inv(s)
    ensures Inv(Run(s, rs))
    decreases |rs|
  {
    if rs != [] {
      CycleKeepsInv(s, rs[0].status, rs[0].tempC);
      RunKeepsInv(Cycle(s, rs[0].status, rs[0].tempC), rs[1..]);
    }
  }

  /** A stretch of reads during which the sensor never answered leaves the globals as they were. */
  lemma {:induction false} RunWithoutCommunication(s: State, rs: seq<Reading>)
    requires forall i :: 0 <= i < |rs| ==> rs[i].status == NoCommunicationCode
    ensures Run(s, rs) == s
    decreases |rs|
  {
    if rs != [] {
      RunWithoutCommunication(s, rs[1..]);
    }
  }

  /** maxTemp is the peak of its starting value and every processed reading:
      at least each of them, and equal to one of them. */
  lemma {:induction false} RunMaxIsPeak(s: State, rs: seq<Reading>)
    ensures Run(s, rs).maxTemp >= s.maxTemp
    ensures forall i :: 0 <= i < |rs| && Processes(rs[i].status) ==> rs[i].tempC <= Run(s, rs).maxTemp
    ensures Run(s, rs).maxTemp == s.maxTemp
         || exists i :: 0 <= i < |rs| && Processes(rs[i].status) && rs[i].tempC == Run(s, rs).maxTemp
    decreases |rs|
  {
    if rs != [] {
      var next := Cycle(s, rs[0].status, rs[0].tempC);
      var tail := rs[1..];
      RunMaxIsPeak(next, tail);
      assert Run(s, rs) == Run(next, tail);
      forall i | 1 <= i < |rs| && Processes(rs[i].status)
        ensures rs[i].tempC <= Run(s, rs).maxTemp
      {
        assert rs[i] == tail[i - 1];
      }
      if Run(s, rs).maxTemp != s.maxTemp && Run(s, rs).maxTemp != next.maxTemp {
        var j :| 0 <= j < |tail| && Processes(tail[j].status) && tail[j].tempC == Run(next, tail).maxTemp;
        assert rs[j + 1] == tail[j];
      }
    }
  }

  /** From power-up, maxTemp is the largest processed reading, or 0 if none is larger. */
  lemma RunMaxFromPowerUp(rs: seq<Reading>)
    ensures Run(Init, rs).maxTemp >= 0
    ensures forall i :: 0 <= i < |rs| && Processes(rs[i].status) ==> rs[i].tempC <= Run(Init, rs).maxTemp
    ensures Run(Init, rs).maxTemp == 0
         || exists i :: 0 <= i < |rs| && Processes(rs[i].status) && rs[i].tempC == Run(Init, rs).maxTemp
  {
    RunMaxIsPeak(Init, rs);
  }

  /** The zero sentinel misfires once the average returns to 0: readings 5, -5, 10
      average to 5, then 0, and the third read is taken as a first value again,
      so minTemp ends at 10 although -5 was read. */
  lemma ZeroAverageReseeds()
    ensures Run(Init, [Reading(0, 5), Reading(0, -5), Reading(0, 10)]) == State(10, 10, 10)
  {
  }

  /** maxTemp is never seeded: a single reading of -5 leaves it at 0, a value
      never read. */
  lemma MaxNeverSeeded()
    ensures Run(Init, [Reading(0, -5)]) == State(-5, -5, 0)
  {
  }
}
