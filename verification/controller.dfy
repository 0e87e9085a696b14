/** One cycle of the regulator's loop(): the update of the three globals
    averageTemp, minTemp and maxTemp from a status code and a rounded reading,
    followed by the speed calculation. */
module Controller {
  import opened StatusCodes
  import opened Filter
  import opened Actuator

  /** The values of the three globals between two cycles. */
  datatype State = State(averageTemp: int, minTemp: int, maxTemp: int)

  /** The globals at power-up: all zero. Zero doubles as "no reading yet". */
  const Init: State := State(0, 0, 0)

  /** A cycle that reads the temperature and updates the globals: every status
      except "no communication", fault codes and unknown codes included. */
  predicate Processes(status: int)
    ensures Processes(status) <==> Classify(status) != NoCommunication
  {
    status != NoCommunicationCode
  }

  /** The state after one cycle, as the code of loop() computes it. */
  function Cycle(s: State, status: int, tempC: int): (n: State)
    ensures !Processes(status) ==> n == s
    ensures Processes(status) ==> n.minTemp <= tempC <= n.maxTemp
    ensures n.maxTemp == (if Processes(status) then Max(s.maxTemp, tempC) else s.maxTemp)
    ensures Processes(status) && s.averageTemp != 0 ==> n.minTemp == Min(s.minTemp, tempC)
  {
    if !Processes(status) then s
    else
      var (average, low) :=
        if s.averageTemp == 0 then (tempC, tempC)
        else (FilterStep(s.averageTemp, tempC), s.minTemp);
      State(average,
            if tempC < low then tempC else low,
            if tempC > s.maxTemp then tempC else s.maxTemp)
  }

  /** The relation between the globals that every cycle keeps: the average lies
      between the extrema, and the maximum, starting at zero, never goes below it. */
  predicate Inv(s: State) {
    s.minTemp <= s.averageTemp <= s.maxTemp && 0 <= s.maxTemp
  }

  lemma InitInv()
    ensures Inv(Init)
  {
  }

  lemma CycleKeepsInv(s: State, status: int, tempC: int)
    requires Inv(s)
    ensures Inv(Cycle(s, status, tempC))
  {
  }

  /** Status 129 skips the update entirely. */
  lemma NoCommunicationFreezes(s: State, tempC: int)
    ensures Cycle(s, NoCommunicationCode, tempC) == s
  {
  }

  /** Every other status, fault codes 1, 2, 4, 7, 128 and unknown codes alike,
      updates the globals exactly as an OK reading does. */
  lemma FaultCodesStillProcessed(s: State, status: int, tempC: int)
    requires status != NoCommunicationCode
    ensures Cycle(s, status, tempC) == Cycle(s, 0, tempC)
    ensures Classify(status) != NoCommunication
  {
  }

  /** An average of zero means "first value": the reading seeds the average and
      the minimum (and raises the maximum if it is above it). */
  lemma SeedingCycle(s: State, status: int, tempC: int)
    requires Processes(status) && s.averageTemp == 0
    ensures Cycle(s, status, tempC).averageTemp == tempC
    ensures Cycle(s, status, tempC).minTemp == tempC
    ensures Cycle(s, status, tempC).maxTemp == Max(s.maxTemp, tempC)
  {
  }

  /** Otherwise the average moves to the truncated mean of old average and
      reading, and so stays between them. */
  lemma FilteringCycle(s: State, status: int, tempC: int)
    requires Processes(status) && s.averageTemp != 0
    ensures Cycle(s, status, tempC).averageTemp == TruncDiv(s.averageTemp + tempC, 2)
    ensures Min(s.averageTemp, tempC) <= Cycle(s, status, tempC).averageTemp <= Max(s.averageTemp, tempC)
  {
  }

  /** maxTemp never decreases; minTemp never increases outside the seeding branch. */
  lemma ExtremaMonotone(s: State, status: int, tempC: int)
    ensures Cycle(s, status, tempC).maxTemp >= s.maxTemp
    ensures s.averageTemp != 0 ==> Cycle(s, status, tempC).minTemp <= s.minTemp
  {
  }

  /** The three globals of the sketch, updated in place by each call of loop(). */
  class Regulator {
    var averageTemp: int
    var minTemp: int
    var maxTemp: int

    function Snapshot(): (s: State)
      reads this
    {
      State(averageTemp, minTemp, maxTemp)
    }

    ghost predicate Valid()
      reads this
    {
      Inv(Snapshot())
    }

    /** The globals' initialisers. */
    constructor ()
      ensures Snapshot() == Init && Valid()
    {
      averageTemp := 0;
      minTemp := 0;
      maxTemp := 0;
    }

    /** One pass of loop() after the sensor read: update the globals unless the
        sensor did not answer, then return the duty written to the output pin. */
    method Step(status: int, tempC: int) returns (speed: int)
      requires Valid()
      modifies this
      ensures Valid()
      ensures Snapshot() == Cycle(old(Snapshot()), status, tempC)
      ensures speed == Speed(averageTemp) && 0 <= speed <= SpeedLimit
      ensures status == NoCommunicationCode ==> speed == Speed(old(averageTemp))
    {
      CycleKeepsInv(Snapshot(), status, tempC);
      if status != NoCommunicationCode {
        if averageTemp == 0 {
          // first value
          averageTemp := tempC;
          minTemp := tempC;
        } else {
          averageTemp := TruncDiv(averageTemp * (AvgCount - 1) + tempC, AvgCount);
        }
        if tempC < minTemp {
          minTemp := tempC;
        }
        if tempC > maxTemp {
          maxTemp := tempC;
        }
      }
      speed := ComputeSpeed(averageTemp);
    }
  }
}
