/** Handing out application ports (internal/apps/apps.go). The unique key on the
    port column decides; the probe of the port only saves an attempt. */
module Ports {
  import opened Wrappers

  const PORT_MIN := 30000
  const PORT_MAX := 30999
  const TOTAL := PORT_MAX - PORT_MIN + 1

  datatype Answer = Inserted | Duplicate | Other

  datatype Result = Port(port: int) | NoFreePort | Failed

  predicate InRange(port: int) {
    PORT_MIN <= port <= PORT_MAX
  }

  /** One past the highest port in use, or the first of the range. */
  function StartPort(highest: Option<int>): (start: int)
    ensures InRange(start)
  {
    if highest.Some? && PORT_MIN <= highest.value < PORT_MAX then highest.value + 1 else PORT_MIN
  }

  function PortAt(start: int, offset: nat): (port: int)
    requires InRange(start)
    ensures InRange(port)
  {
    PORT_MIN + (start - PORT_MIN + offset) % TOTAL
  }

  function OffsetOf(start: int, port: int): (offset: nat)
    requires InRange(start) && InRange(port)
    ensures offset < TOTAL
  {
    if port >= start then port - start else port - start + TOTAL
  }

  /** ONCE EACH. From any start the cyclic offset visits every port of the range, at
      exactly one offset. */
  lemma EveryPortIsVisitedOnce(start: int, port: int, offset: nat)
    requires InRange(start) && InRange(port) && offset < TOTAL
    ensures PortAt(start, offset) == port <==> offset == OffsetOf(start, port)
  {
    var sum := start - PORT_MIN + offset;
    assert sum % TOTAL == if sum < TOTAL then sum else sum - TOTAL;
  }

  /** This port could not be had when it was tried. */
  predicate Refused(free: int -> bool, insert: int -> Answer, port: int) {
    !free(port) || insert(port) == Duplicate
  }

  /** `free` and `insert` are what the probe and the database answer for each port
      when it is its turn. */
  method AllocatePort(highest: Option<int>, free: int -> bool, insert: int -> Answer) returns (result: Result)
    ensures result.Port? ==> InRange(result.port) && free(result.port) && insert(result.port) == Inserted
    ensures result.Port? ==> forall k :: 0 <= k < OffsetOf(StartPort(highest), result.port) ==>
              Refused(free, insert, PortAt(StartPort(highest), k))
    ensures result == NoFreePort <==> forall port :: InRange(port) ==> Refused(free, insert, port)
  {
    var start := StartPort(highest);
    for offset := 0 to TOTAL
      invariant forall k :: 0 <= k < offset ==> Refused(free, insert, PortAt(start, k))
    {
      var port := PortAt(start, offset);
      EveryPortIsVisitedOnce(start, port, offset);
      if !free(port) {
        continue;
      }
      var answer := insert(port);
      if answer == Inserted {
        assert !Refused(free, insert, port);
        return Port(port);
      }
      if answer == Other {
        assert !Refused(free, insert, port);
        return Failed;
      }
    }
    forall port | InRange(port)
      ensures Refused(free, insert, port)
    {
      EveryPortIsVisitedOnce(start, port, OffsetOf(start, port));
    }
    return NoFreePort;
  }

  // ------------------------------------------------------- many at a time

  /** A creation that is choosing, or has its port. */
  datatype Creation = Choosing(start: int, offset: nat) | Holds(port: int) | GaveUp

  /** `rows` are the ports in the table: one creation each. */
  datatype State = State(rows: map<int, nat>, creations: map<nat, Creation>)

  datatype Step = Begin(id: nat, start: int) | Busy(id: nat) | Insert(id: nat) | Fails(id: nat) | Delete(port: int)

  predicate IsChoosing(s: State, id: nat) {
    id in s.creations && s.creations[id].Choosing? && InRange(s.creations[id].start) && s.creations[id].offset < TOTAL
  }

  /** A creation may start at any port of the range: another one may have read the
      same highest port. Each insert is one atomic step. */
  predicate Enabled(s: State, step: Step) {
    match step
    case Begin(id, start) => id !in s.creations && InRange(start)
    case Busy(id) => IsChoosing(s, id)
    case Insert(id) => IsChoosing(s, id)
    case Fails(id) => IsChoosing(s, id)
    case Delete(port) => port in s.rows
  }

  function Moved(s: State, id: nat): State
    requires IsChoosing(s, id)
  {
    var c := s.creations[id];
    s.(creations := s.creations[id := if c.offset + 1 < TOTAL then Choosing(c.start, c.offset + 1) else GaveUp])
  }

  function Apply(s: State, step: Step): State
    requires Enabled(s, step)
  {
    match step
    case Begin(id, start) => s.(creations := s.creations[id := Choosing(start, 0)])
    case Busy(id) => Moved(s, id)
    case Insert(id) =>
      var port := PortAt(s.creations[id].start, s.creations[id].offset);
      if port in s.rows then Moved(s, id)
      else State(s.rows[port := id], s.creations[id := Holds(port)])
    case Fails(id) => s.(creations := s.creations[id := GaveUp])
    case Delete(port) => State(s.rows - {port}, s.creations - {s.rows[port]})
  }

  ghost predicate StepAt(run: seq<State>, i: nat)
    requires i + 1 < |run|
  {
    exists step :: Enabled(run[i], step) && run[i + 1] == Apply(run[i], step)
  }

  ghost predicate IsRun(run: seq<State>) {
    run != [] && run[0] == State(map[], map[]) && forall i :: 0 <= i < |run| - 1 ==> StepAt(run, i)
  }

  /** A creation holds a port exactly when the row of that port is its own. */
  predicate Inv(s: State) {
    && (forall id :: id in s.creations && s.creations[id].Holds? ==>
          s.creations[id].port in s.rows && s.rows[s.creations[id].port] == id && InRange(s.creations[id].port))
    && (forall port :: port in s.rows ==> s.rows[port] in s.creations && s.creations[s.rows[port]] == Holds(port))
  }

  lemma StepKeepsInv(s: State, step: Step)
    requires Inv(s) && Enabled(s, step)
    ensures Inv(Apply(s, step))
  {
    hide PortAt;
    match step
    case Delete(port) => assert s.creations[s.rows[port]] == Holds(port);
    case _ =>
  }

  lemma {:induction false} RunInv(run: seq<State>, i: nat)
    requires IsRun(run) && i < |run|
    ensures Inv(run[i])
  {
    if i > 0 {
      hide Inv, Apply, Enabled;
      RunInv(run, i - 1);
      assert StepAt(run, i - 1);
      var step :| Enabled(run[i - 1], step) && run[i] == Apply(run[i - 1], step);
      StepKeepsInv(run[i - 1], step);
    }
  }

  /** NO TWO SHARE A PORT. Under any interleaving of concurrent creations and deletes,
      whatever the probes say and wherever each creation starts, the ports held are
      pairwise different and in the range. */
  lemma HeldPortsDiffer(run: seq<State>, i: nat, a: nat, b: nat)
    requires IsRun(run) && i < |run| && a != b
    requires a in run[i].creations && b in run[i].creations
    requires run[i].creations[a].Holds? && run[i].creations[b].Holds?
    ensures run[i].creations[a].port != run[i].creations[b].port
    ensures InRange(run[i].creations[a].port)
  {
    RunInv(run, i);
  }
}
