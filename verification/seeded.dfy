/** The cycle with an explicit "first value seen" flag in place of the zero
    sentinel, seeding all three globals from the first processed reading. With
    it, minTemp and maxTemp are exactly the extrema of the processed readings. */
module Seeded {
  import opened StatusCodes
  import opened Filter
  import opened Controller
  import opened Trace

  /** The globals plus the flag. */
  datatype Tracked = Tracked(seeded: bool, averageTemp: int, minTemp: int, maxTemp: int)

  const Unseeded: Tracked := Tracked(false, 0, 0, 0)

  /** The globals without the flag. */
  function Globals(t: Tracked): (g: State) {
    State(t.averageTemp, t.minTemp, t.maxTemp)
  }

  /** One cycle: no-communication cycles change nothing, the first processed
      reading seeds average, minimum and maximum, later ones filter and widen. */
  function SeededCycle(s: Tracked, status: int, tempC: int): (n: Tracked)
    ensures !Processes(status) ==> n == s
    ensures Processes(status) ==> n.seeded && n.minTemp <= tempC <= n.maxTemp
  {
    if !Processes(status) then s
    else if !s.seeded then Tracked(true, tempC, tempC, tempC)
    else Tracked(true, FilterStep(s.averageTemp, tempC), Min(s.minTemp, tempC), Max(s.maxTemp, tempC))
  }

  function SeededRun(s: Tracked, rs: seq<Reading>): (f: Tracked)
    decreases |rs|
  {
    if rs == [] then s else SeededRun(SeededCycle(s, rs[0].status, rs[0].tempC), rs[1..])
  }

  /** Once seeded with a non-zero average, the code as written takes the same
      step: the two differ only where the sentinel misreads the state. */
  lemma AgreesWithCycleWhileNonZero(s: Tracked, status: int, tempC: int)
    requires s.seeded && s.averageTemp != 0
    ensures Globals(SeededCycle(s, status, tempC)) == Cycle(Globals(s), status, tempC)
  {
  }

  /** From power-up the first processed reading agrees with the code too,
      unless it is negative (the code then leaves maxTemp at 0). */
  lemma FirstCycleAgrees(status: int, tempC: int)
    requires tempC >= 0
    ensures Globals(SeededCycle(Unseeded, status, tempC)) == Cycle(Init, status, tempC)
  {
  }

  predicate AnyProcessed(rs: seq<Reading>) {
    exists i :: 0 <= i < |rs| && Processes(rs[i].status)
  }

  /** Over any run: every processed reading lies within the final extrema, the
      extrema only widen, and once seeded each is either where it stood at a
      seeded start or some processed reading. */
  lemma {:induction false} SeededRunExtrema(s: Tracked, rs: seq<Reading>)
    ensures SeededRun(s, rs).seeded == (s.seeded || AnyProcessed(rs))
    ensures forall i :: 0 <= i < |rs| && Processes(rs[i].status) ==>
              SeededRun(s, rs).minTemp <= rs[i].tempC <= SeededRun(s, rs).maxTemp
    ensures s.seeded ==> SeededRun(s, rs).minTemp <= s.minTemp && SeededRun(s, rs).maxTemp >= s.maxTemp
    ensures SeededRun(s, rs).seeded ==>
              (s.seeded && SeededRun(s, rs).minTemp == s.minTemp)
              || exists i :: 0 <= i < |rs| && Processes(rs[i].status) && rs[i].tempC == SeededRun(s, rs).minTemp
    ensures SeededRun(s, rs).seeded ==>
              (s.seeded && SeededRun(s, rs).maxTemp == s.maxTemp)
              || exists i :: 0 <= i < |rs| && Processes(rs[i].status) && rs[i].tempC == SeededRun(s, rs).maxTemp
    decreases |rs|
  {
    if rs != [] {
      var next := SeededCycle(s, rs[0].status, rs[0].tempC);
      var tail := rs[1..];
      var f := SeededRun(next, tail);
      SeededRunExtrema(next, tail);
      assert SeededRun(s, rs) == f;
      assert forall i :: 1 <= i < |rs| ==> rs[i] == tail[i - 1];
      if AnyProcessed(tail) {
        var j :| 0 <= j < |tail| && Processes(tail[j].status);
        assert rs[j + 1] == tail[j];
      }
      if f.seeded && !(next.seeded && f.minTemp == next.minTemp) {
        var j :| 0 <= j < |tail| && Processes(tail[j].status) && tail[j].tempC == f.minTemp;
        assert rs[j + 1] == tail[j];
      }
      if f.seeded && !(next.seeded && f.maxTemp == next.maxTemp) {
        var j :| 0 <= j < |tail| && Processes(tail[j].status) && tail[j].tempC == f.maxTemp;
        assert rs[j + 1] == tail[j];
      }
    }
  }

  /** From power-up, as soon as one reading has been processed, minTemp and
      maxTemp are exactly the smallest and largest processed readings. */
  lemma SeededExtremaExact(rs: seq<Reading>)
    requires AnyProcessed(rs)
    ensures SeededRun(Unseeded, rs).seeded
    ensures forall i :: 0 <= i < |rs| && Processes(rs[i].status) ==>
              SeededRun(Unseeded, rs).minTemp <= rs[i].tempC <= SeededRun(Unseeded, rs).maxTemp
    ensures exists i :: 0 <= i < |rs| && Processes(rs[i].status) && rs[i].tempC == SeededRun(Unseeded, rs).minTemp
    ensures exists i :: 0 <= i < |rs| && Processes(rs[i].status) && rs[i].tempC == SeededRun(Unseeded, rs).maxTemp
  {
    SeededRunExtrema(Unseeded, rs);
  }
}
