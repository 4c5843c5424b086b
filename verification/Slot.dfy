/** The scan slot, held across processes (internal/antivirus/slot.go): an
    in-process compare-and-swap in front of a named database lock that is
    re-entrant on the connection that owns it. Closing a connection hands it back
    to its process's pool, where it may still own the lock. */
module Slot {
  import opened Wrappers

  type Pid = nat

  /** A goroutine of a process, and a database connection of one. */
  datatype Gid = Gid(pid: Pid, n: nat)
  datatype Conn = Conn(pid: Pid, n: nat)

  /** Where a caller of takeScanSlot or Release stands. Connections name the one
      it has checked out. */
  datatype Pc =
    | Idle
    | HasBit
    | Asking(conn: Conn)
    | Refused(conn: Conn)
    | ClearingBit
    | Holding(conn: Conn)
    | Closing(conn: Conn)

  /** `bit` is the processes whose flag is set. The server sees `owner` and how
      often it took the lock. `pool` is the idle connections; `dead` those that
      were cut off while checked out. A goroutine not in `pc` is idle. */
  datatype State = State(
    bit: set<Pid>, pc: map<Gid, Pc>, pool: set<Conn>, dead: set<Conn>,
    owner: Option<Conn>, depth: nat)

  function At(s: State, g: Gid): Pc {
    if g in s.pc then s.pc[g] else Idle
  }

  predicate HasConn(pc: Pc) {
    pc.Asking? || pc.Refused? || pc.Holding? || pc.Closing?
  }

  predicate CheckedOut(s: State, c: Conn) {
    exists g :: g in s.pc && HasConn(s.pc[g]) && s.pc[g].conn == c
  }

  predicate Free(s: State, c: Conn) {
    s.owner == None || s.owner == Some(c)
  }

  datatype Step =
    | Swap(g: Gid)
    | SwapFails(g: Gid)
    | GetConn(g: Gid, c: Conn)
    | GetConnFails(g: Gid)
    | LockTaken(g: Gid)
    | LockRefused(g: Gid)
    | LockErrors(g: Gid, reached: bool)
    | GiveBack(g: Gid, kept: bool)
    | Clear(g: Gid)
    | ReleaseLock(g: Gid, reached: bool)
    | CloseHeld(g: Gid, kept: bool)
    | KillProcess(p: Pid)
    | DropIdle(c: Conn)
    | CutOff(g: Gid)

  predicate Enabled(s: State, step: Step) {
    match step
    case Swap(g) => At(s, g) == Idle && g.pid !in s.bit
    case SwapFails(g) => At(s, g) == Idle && g.pid in s.bit
    // A pooled connection, or a new one nobody has.
    case GetConn(g, c) => At(s, g) == HasBit && c.pid == g.pid && c !in s.dead
                          && (c in s.pool || (!CheckedOut(s, c) && s.owner != Some(c)))
    case GetConnFails(g) => At(s, g) == HasBit
    case LockTaken(g) => At(s, g).Asking? && At(s, g).conn !in s.dead && Free(s, At(s, g).conn)
    case LockRefused(g) => At(s, g).Asking? && At(s, g).conn !in s.dead && !Free(s, At(s, g).conn)
    // The answer was lost; the server may or may not have taken the lock.
    case LockErrors(g, reached) => At(s, g).Asking?
                                   && (reached ==> At(s, g).conn !in s.dead && Free(s, At(s, g).conn))
    // A dead connection never goes back to the pool.
    case GiveBack(g, kept) => At(s, g).Refused? && (kept ==> At(s, g).conn !in s.dead)
    case Clear(g) => At(s, g) == ClearingBit
    case ReleaseLock(g, reached) => At(s, g).Holding? && (reached ==> At(s, g).conn !in s.dead)
    case CloseHeld(g, kept) => At(s, g).Closing? && (kept ==> At(s, g).conn !in s.dead)
    case KillProcess(_) => true
    case DropIdle(c) => c in s.pool
    case CutOff(g) => HasConn(At(s, g))
  }

  function SetPc(s: State, g: Gid, pc: Pc): State {
    s.(pc := s.pc[g := pc])
  }

  /** The server frees the lock of a connection that ended. */
  function Unlock(s: State, c: Conn): State {
    if s.owner == Some(c) then s.(owner := None, depth := 0) else s
  }

  function CloseConn(s: State, c: Conn, kept: bool): State {
    if kept then s.(pool := s.pool + {c}) else Unlock(s, c)
  }

  function TakeLock(s: State, c: Conn): State {
    s.(owner := Some(c), depth := s.depth + 1)
  }

  /** One RELEASE_LOCK undoes one GET_LOCK. */
  function ReleaseOnce(s: State, c: Conn): State {
    if s.owner != Some(c) then s
    else if s.depth <= 1 then s.(owner := None, depth := 0)
    else s.(depth := s.depth - 1)
  }

  function Apply(s: State, step: Step): State
    requires Enabled(s, step)
  {
    match step
    case Swap(g) => SetPc(s, g, HasBit).(bit := s.bit + {g.pid})
    case SwapFails(g) => s
    case GetConn(g, c) => SetPc(s, g, Asking(c)).(pool := s.pool - {c})
    case GetConnFails(g) => SetPc(s, g, ClearingBit)
    case LockTaken(g) => TakeLock(SetPc(s, g, Holding(At(s, g).conn)), At(s, g).conn)
    case LockRefused(g) => SetPc(s, g, Refused(At(s, g).conn))
    case LockErrors(g, reached) =>
      var s' := SetPc(s, g, Refused(At(s, g).conn));
      if reached then TakeLock(s', At(s, g).conn) else s'
    case GiveBack(g, kept) => CloseConn(SetPc(s, g, ClearingBit), At(s, g).conn, kept)
    case Clear(g) => SetPc(s, g, Idle).(bit := s.bit - {g.pid})
    case ReleaseLock(g, reached) =>
      var s' := SetPc(s, g, Closing(At(s, g).conn));
      if reached then ReleaseOnce(s', At(s, g).conn) else s'
    case CloseHeld(g, kept) => CloseConn(SetPc(s, g, ClearingBit), At(s, g).conn, kept)
    case KillProcess(p) =>
      var s' := s.(bit := s.bit - {p},
                   pc := (map g | g in s.pc && g.pid != p :: s.pc[g]),
                   pool := (set c | c in s.pool && c.pid != p),
                   dead := (set c | c in s.dead && c.pid != p));
      if s.owner.Some? && s.owner.value.pid == p then s'.(owner := None, depth := 0) else s'
    case DropIdle(c) => Unlock(s.(pool := s.pool - {c}), c)
    case CutOff(g) => Unlock(s.(dead := s.dead + {At(s, g).conn}), At(s, g).conn)
  }

  const START := State({}, map[], {}, {}, None, 0)

  ghost predicate Next(s: State, s': State) {
    exists step :: Enabled(s, step) && s' == Apply(s, step)
  }

  ghost predicate IsRun(run: seq<State>) {
    run != [] && run[0] == START && forall i :: 0 <= i < |run| - 1 ==> Next(run[i], run[i + 1])
  }

  // --------------------------------------------------------------- invariant

  /** The caller is between its successful swap and the store that clears it. */
  predicate InSection(pc: Pc) {
    pc != Idle
  }

  predicate Holds(s: State, g: Gid) {
    At(s, g).Holding?
  }

  predicate HoldsLive(s: State, g: Gid) {
    Holds(s, g) && At(s, g).conn !in s.dead
  }

  /** One caller of each process is past the swap, exactly while its flag is set. */
  ghost predicate BitInv(s: State) {
    && (forall g :: InSection(At(s, g)) ==> g.pid in s.bit)
    && (forall g, h :: InSection(At(s, g)) && InSection(At(s, h)) && g.pid == h.pid ==> g == h)
  }

  ghost predicate BitOwned(s: State) {
    forall p :: p in s.bit ==> exists g :: g in s.pc && g.pid == p && InSection(s.pc[g])
  }

  /** A connection is in one place, and stays in its process. */
  ghost predicate ConnInv(s: State) {
    && (forall g :: HasConn(At(s, g)) ==> At(s, g).conn.pid == g.pid && At(s, g).conn !in s.pool)
    && (s.pool !! s.dead)
  }

  /** The server's view: a live holder's connection is the one that owns the lock. */
  ghost predicate LockInv(s: State) {
    && (forall g :: HoldsLive(s, g) ==> s.owner == Some(At(s, g).conn))
    && (s.owner.Some? ==> s.owner.value !in s.dead && s.depth > 0)
    && (s.owner == None ==> s.depth == 0)
  }

  /** The lock belongs to a connection that some process still has. */
  predicate OwnerIsKnown(s: State) {
    s.owner.Some? ==> s.owner.value in s.pool || CheckedOut(s, s.owner.value)
  }

  ghost predicate Inv(s: State) {
    BitInv(s) && BitOwned(s) && ConnInv(s) && LockInv(s) && OwnerIsKnown(s)
  }

  lemma BitStep(s: State, step: Step)
    requires BitInv(s) && Enabled(s, step)
    ensures BitInv(Apply(s, step))
  {}

  lemma BitOwnedStep(s: State, step: Step)
    requires BitInv(s) && BitOwned(s) && Enabled(s, step)
    ensures BitOwned(Apply(s, step))
  {
    var s' := Apply(s, step);
    forall p | p in s'.bit
      ensures exists g :: g in s'.pc && g.pid == p && InSection(s'.pc[g])
    {
      if step.Swap? && step.g.pid == p {
        assert step.g in s'.pc;
      } else {
        var g :| g in s.pc && g.pid == p && InSection(s.pc[g]);
        assert At(s, g) == s.pc[g];
        assert g in s'.pc && InSection(s'.pc[g]);
      }
    }
  }

  lemma ConnStep(s: State, step: Step)
    requires BitInv(s) && ConnInv(s) && Enabled(s, step)
    ensures ConnInv(Apply(s, step))
  {}

  lemma LockStep(s: State, step: Step)
    requires BitInv(s) && ConnInv(s) && LockInv(s) && Enabled(s, step)
    ensures LockInv(Apply(s, step))
  {
    var s' := Apply(s, step);
    forall h | HoldsLive(s', h)
      ensures s'.owner == Some(At(s', h).conn)
    {
      LiveHolderStep(s, step, h);
    }
  }

  /** A caller that holds after the step held before it or has just been given
      the lock, and no step takes the lock from a live holder. */
  lemma LiveHolderStep(s: State, step: Step, h: Gid)
    requires BitInv(s) && ConnInv(s) && LockInv(s) && Enabled(s, step)
    requires HoldsLive(Apply(s, step), h)
    ensures Apply(s, step).owner == Some(At(Apply(s, step), h).conn)
  {
    if step != LockTaken(h) {
      assert HoldsLive(s, h) && At(Apply(s, step), h) == At(s, h);
      assert At(s, h).conn.pid == h.pid && At(s, h).conn !in s.pool;
      match step
      case LockTaken(g) => assert InSection(At(s, g)) && InSection(At(s, h));
      case LockErrors(g, _) => assert InSection(At(s, g)) && InSection(At(s, h));
      case GiveBack(g, _) => assert InSection(At(s, g)) && InSection(At(s, h));
      case ReleaseLock(g, _) => assert InSection(At(s, g)) && InSection(At(s, h));
      case CloseHeld(g, _) => assert InSection(At(s, g)) && InSection(At(s, h));
      case CutOff(g) => assert InSection(At(s, g)) && InSection(At(s, h));
      case _ =>
    }
  }

  lemma OwnerStep(s: State, step: Step)
    requires BitInv(s) && ConnInv(s) && LockInv(s) && OwnerIsKnown(s) && Enabled(s, step)
    ensures OwnerIsKnown(Apply(s, step))
  {
    var s' := Apply(s, step);
    if s'.owner.Some? && s'.owner.value !in s'.pool {
      var c := s'.owner.value;
      if step.LockTaken? || (step.LockErrors? && step.reached) {
        assert step.g in s'.pc && HasConn(s'.pc[step.g]) && s'.pc[step.g].conn == c;
      } else if c in s.pool {
        assert step.GetConn? && step.c == c;
        assert step.g in s'.pc && HasConn(s'.pc[step.g]) && s'.pc[step.g].conn == c;
      } else {
        var g :| g in s.pc && HasConn(s.pc[g]) && s.pc[g].conn == c;
        assert At(s, g) == s.pc[g];
        assert g in s'.pc && HasConn(s'.pc[g]) && s'.pc[g].conn == c;
      }
    }
  }

  lemma {:induction false} RunInv(run: seq<State>, i: nat)
    requires IsRun(run) && i < |run|
    ensures Inv(run[i])
  {
    hide Apply, BitInv, BitOwned, ConnInv, LockInv, OwnerIsKnown, Enabled;
    if i == 0 {
      StartInv();
    } else {
      RunInv(run, i - 1);
      assert Next(run[i - 1], run[i - 1 + 1]);
      var step :| Enabled(run[i - 1], step) && run[i] == Apply(run[i - 1], step);
      BitStep(run[i - 1], step);
      BitOwnedStep(run[i - 1], step);
      ConnStep(run[i - 1], step);
      LockStep(run[i - 1], step);
      OwnerStep(run[i - 1], step);
    }
  }

  lemma StartInv()
    ensures Inv(START)
  {}

  // ------------------------------------------------------------ main results

  /** ONE SCAN AT A TIME. In every reachable state of any number of processes,
      each with any number of goroutines, under kills, failed releases, lost
      answers and pooled connections that still own the lock: if two callers hold
      the slot, the connection of one of them has been cut off. */
  lemma TwoHoldersNeedADeadConnection(run: seq<State>, i: nat, g: Gid, h: Gid)
    requires IsRun(run) && i < |run|
    requires Holds(run[i], g) && Holds(run[i], h) && g != h
    ensures At(run[i], g).conn in run[i].dead || At(run[i], h).conn in run[i].dead
    ensures g.pid != h.pid
  {
    RunInv(run, i);
  }

  /** While no connection has been cut off, at most one slot is held server-wide,
      and the server's lock belongs to the holder. */
  lemma AtMostOneHolder(run: seq<State>, i: nat, g: Gid)
    requires IsRun(run) && i < |run| && run[i].dead == {} && Holds(run[i], g)
    ensures run[i].owner == Some(At(run[i], g).conn)
    ensures forall h :: Holds(run[i], h) ==> h == g
  {
    RunInv(run, i);
  }

  /** A process's flag is set exactly while one of its goroutines is inside
      takeScanSlot, holding, or inside Release: a refused or failed take, a failed
      release and a kill all leave it clear. */
  lemma FlagIsNeverStranded(run: seq<State>, i: nat, p: Pid)
    requires IsRun(run) && i < |run|
    ensures p in run[i].bit <==> exists g :: g in run[i].pc && g.pid == p && run[i].pc[g] != Idle
  {
    RunInv(run, i);
    var s := run[i];
    if g :| g in s.pc && g.pid == p && s.pc[g] != Idle {
      assert At(s, g) == s.pc[g] && InSection(At(s, g));
    }
  }

  // ------------------------------------------------------- the lock is given back

  /** No call to the server is lost on a connection that lives: a release reaches it, and
      the answer to a request for the lock comes back. */
  predicate Clean(s: State, step: Step) {
    match step
    case ReleaseLock(g, reached) => reached || (HasConn(At(s, g)) && At(s, g).conn in s.dead)
    case LockErrors(g, reached) => !reached
    case _ => true
  }

  ghost predicate CleanNext(s: State, s': State) {
    exists step :: Enabled(s, step) && Clean(s, step) && s' == Apply(s, step)
  }

  ghost predicate IsCleanRun(run: seq<State>) {
    run != [] && run[0] == START && forall i :: 0 <= i < |run| - 1 ==> CleanNext(run[i], run[i + 1])
  }

  /** The server's lock belongs to a caller that holds the slot, and was taken once. */
  ghost predicate Owed(s: State) {
    s.owner.Some? ==> s.depth == 1 && exists g :: HoldsLive(s, g) && At(s, g).conn == s.owner.value
  }

  lemma CleanIsARun(run: seq<State>)
    requires IsCleanRun(run)
    ensures IsRun(run)
  {
    hide Enabled, Apply, Clean;
    forall i | 0 <= i < |run| - 1
      ensures Next(run[i], run[i + 1])
    {
      assert CleanNext(run[i], run[i + 1]);
    }
  }

  /** A caller that holds goes on holding, unless it is its own turn or its process dies. */
  lemma StillHolds(s: State, step: Step, g: Gid)
    requires BitInv(s) && ConnInv(s) && Enabled(s, step) && HoldsLive(s, g) && Apply(s, step).owner == s.owner
    requires s.owner == Some(At(s, g).conn) && s.depth == 1 && Clean(s, step)
    ensures HoldsLive(Apply(s, step), g) && At(Apply(s, step), g) == At(s, g)
  {
    assert InSection(At(s, g)) && At(s, g).conn.pid == g.pid;
  }

  lemma CleanStepKeepsOwed(s: State, step: Step)
    requires Inv(s) && Owed(s) && Enabled(s, step) && Clean(s, step)
    ensures Owed(Apply(s, step))
  {
    var s' := Apply(s, step);
    if s'.owner.Some? {
      if step.LockTaken? {
        TakenOnce(s, step.g);
        assert HoldsLive(s', step.g) && At(s', step.g).conn == s'.owner.value;
      } else {
        OwnerStays(s, step);
        var g :| HoldsLive(s, g) && At(s, g).conn == s.owner.value;
        hide Inv;
        StillHolds(s, step, g);
      }
    }
  }

  /** The lock is free when it is taken: whoever else could own it is inside. */
  lemma TakenOnce(s: State, g: Gid)
    requires Inv(s) && Owed(s) && Enabled(s, LockTaken(g))
    ensures s.owner == None && s.depth == 0
  {
    if s.owner.Some? {
      var h :| HoldsLive(s, h) && At(s, h).conn == s.owner.value;
      OwnerIsOther(s, g, h);
    }
  }

  lemma OwnerIsOther(s: State, g: Gid, h: Gid)
    requires Inv(s) && At(s, g).Asking? && HoldsLive(s, h)
    ensures At(s, h).conn != At(s, g).conn
  {
    assert InSection(At(s, h)) && InSection(At(s, g)) && g.pid != h.pid;
  }

  lemma OwnerStays(s: State, step: Step)
    requires Enabled(s, step) && Clean(s, step) && !step.LockTaken? && Apply(s, step).owner.Some?
    requires s.owner.Some? ==> s.depth == 1
    ensures Apply(s, step).owner == s.owner && Apply(s, step).depth == s.depth
  {}

  lemma {:induction false} CleanRunIsOwed(run: seq<State>, i: nat)
    requires IsCleanRun(run) && i < |run|
    ensures Inv(run[i]) && Owed(run[i])
  {
    hide Apply, Enabled, Clean, Inv, Owed;
    CleanIsARun(run);
    RunInv(run, i);
    if i == 0 {
      NothingOwed();
    } else {
      CleanRunIsOwed(run, i - 1);
      assert CleanNext(run[i - 1], run[i - 1 + 1]);
      var step :| Enabled(run[i - 1], step) && Clean(run[i - 1], step) && run[i] == Apply(run[i - 1], step);
      CleanStepKeepsOwed(run[i - 1], step);
    }
  }

  lemma NothingOwed()
    ensures Owed(START)
  {}

  /** THE LOCK IS HELD EXACTLY WHILE A CALLER HOLDS. In every state of a clean run, with any
      kills, cut-offs, refusals and pooled connections, the server's lock is taken if and
      only if some caller holds the slot on a connection that lives. */
  lemma LockedIffHeld(run: seq<State>, s: State)
    requires IsCleanRun(run) && s == run[|run| - 1]
    ensures s.owner.Some? <==> exists g :: HoldsLive(s, g)
  {
    CleanRunIsOwed(run, |run| - 1);
  }

  /** Nobody dies, no connection is dropped or cut off. */
  predicate Peaceful(step: Step) {
    !step.KillProcess? && !step.DropIdle? && !step.CutOff?
  }

  ghost predicate PeacefulNext(s: State, s': State) {
    exists step :: Peaceful(step) && Enabled(s, step) && s' == Apply(s, step)
  }

  lemma UnusedConn(p: Pid, dead: set<Conn>) returns (c: Conn)
    ensures c.pid == p && c !in dead
  {
    var n := 0;
    var rest := dead;
    while Conn(p, n) in dead
      invariant rest <= dead && forall d :: d in dead && d !in rest ==> d.pid == p && d.n < n
      decreases |rest|
    {
      assert Conn(p, n) in rest;
      rest := rest - {Conn(p, n)};
      n := n + 1;
    }
    c := Conn(p, n);
  }

  /** A RELEASED SLOT CAN BE TAKEN. After a clean run that ends with nobody holding, a
      caller of any process that is not inside takes the slot in three steps, without a
      kill, a drop or a cut-off. */
  lemma ReleasedCanBeTaken(run: seq<State>, s: State, h: Gid) returns (a: State, b: State, c: State)
    requires IsCleanRun(run) && s == run[|run| - 1] && h.pid !in s.bit && forall g :: !HoldsLive(s, g)
    ensures PeacefulNext(s, a) && PeacefulNext(a, b) && PeacefulNext(b, c) && HoldsLive(c, h)
  {
    LockedIffHeld(run, s);
    CleanIsARun(run);
    RunInv(run, |run| - 1);
    var conn := UnusedConn(h.pid, s.dead);
    NotCheckedOut(s, conn);
    assert At(s, h) == Idle by { assert InSection(At(s, h)) ==> h.pid in s.bit; }
    a := Apply(s, Swap(h));
    assert !CheckedOut(a, conn);
    b := Apply(a, GetConn(h, conn));
    c := Apply(b, LockTaken(h));
    assert Peaceful(Swap(h)) && Peaceful(GetConn(h, conn)) && Peaceful(LockTaken(h));
  }

  /** So it can after a release that reached the server. */
  lemma ReleaseGivesBack(run: seq<State>, g: Gid, h: Gid) returns (a: State, b: State, c: State)
    requires IsCleanRun(run) && HoldsLive(run[|run| - 1], g) && h.pid !in run[|run| - 1].bit
    ensures var released := Apply(run[|run| - 1], ReleaseLock(g, true));
            PeacefulNext(released, a) && PeacefulNext(a, b) && PeacefulNext(b, c) && HoldsLive(c, h)
  {
    var s := run[|run| - 1];
    CleanRunIsOwed(run, |run| - 1);
    var released := Apply(s, ReleaseLock(g, true));
    var longer := run + [released];
    assert Clean(s, ReleaseLock(g, true)) && CleanNext(s, released);
    forall i | 0 <= i < |longer| - 1
      ensures CleanNext(longer[i], longer[i + 1])
    {
      if i < |run| - 1 {
        assert CleanNext(run[i], run[i + 1]);
      }
    }
    assert forall k :: !HoldsLive(released, k) by { NoneAfterRelease(s, g); }
    a, b, c := ReleasedCanBeTaken(longer, released, h);
  }

  lemma NoneAfterRelease(s: State, g: Gid)
    requires Inv(s) && HoldsLive(s, g)
    ensures forall k :: !HoldsLive(Apply(s, ReleaseLock(g, true)), k)
  {
    forall k
      ensures !HoldsLive(Apply(s, ReleaseLock(g, true)), k)
    {
      if k != g {
        OneLiveHolder(s, k, g);
      }
    }
  }

  // ------------------------------------------- when a second one can hold

  predicate DeadHolder(s: State, g: Gid) {
    Holds(s, g) && At(s, g).conn in s.dead
  }

  ghost predicate CalmNext(s: State, s': State) {
    exists step: Step :: !step.CutOff? && Enabled(s, step) && s' == Apply(s, step)
  }

  /** What may follow as long as no further connection is cut off. */
  ghost predicate Calm(more: seq<State>, s: State) {
    more != [] && more[0] == s && forall i :: 0 <= i < |more| - 1 ==> CalmNext(more[i], more[i + 1])
  }

  /** The run and what follows it are a run. */
  lemma CalmIsARun(run: seq<State>, more: seq<State>)
    requires IsRun(run) && Calm(more, run[|run| - 1])
    ensures IsRun(run + more[1..]) && (run + more[1..])[|run + more[1..]| - 1] == more[|more| - 1]
  {
    var all := run + more[1..];
    forall i | 0 <= i < |all| - 1
      ensures Next(all[i], all[i + 1])
    {
      if i < |run| - 1 {
        assert Next(run[i], run[i + 1]);
      } else {
        var j := i - (|run| - 1);
        assert CalmNext(more[j], more[j + 1]);
      }
    }
  }

  lemma CalmOn(more: seq<State>, s: State, step: Step) returns (longer: seq<State>, s': State)
    requires Calm(more, s) && !step.CutOff? && Enabled(more[|more| - 1], step)
    ensures Calm(longer, s) && s' == longer[|longer| - 1] == Apply(more[|more| - 1], step)
  {
    hide Apply, Enabled;
    s' := Apply(more[|more| - 1], step);
    longer := more + [s'];
    assert CalmNext(more[|more| - 1], s');
    forall i | 0 <= i < |longer| - 1
      ensures CalmNext(longer[i], longer[i + 1])
    {
      if i < |more| - 1 {
        assert CalmNext(more[i], more[i + 1]);
      }
    }
  }

  /** Only a cut-off makes a dead holder: nobody is given the lock on a dead connection. */
  lemma DeadHolderStep(s: State, step: Step, g: Gid)
    requires Enabled(s, step) && !step.CutOff? && DeadHolder(Apply(s, step), g)
    ensures DeadHolder(s, g)
  {}

  lemma {:induction false} DeadHolderBefore(more: seq<State>, s: State, i: nat, g: Gid)
    requires Calm(more, s) && i < |more| && DeadHolder(more[i], g)
    ensures DeadHolder(s, g)
    decreases i
  {
    hide Apply, Enabled, DeadHolder;
    if i > 0 {
      assert CalmNext(more[i - 1], more[i - 1 + 1]);
      var step: Step :| !step.CutOff? && Enabled(more[i - 1], step) && more[i] == Apply(more[i - 1], step);
      DeadHolderStep(more[i - 1], step, g);
      DeadHolderBefore(more, s, i - 1, g);
    }
  }

  /** Larger than every pid with its flag set or a connection cut off. */
  lemma {:induction false} NewPid(bit: set<Pid>, dead: set<Conn>) returns (p: Pid)
    ensures forall q :: q in bit ==> q < p
    ensures forall c :: c in dead ==> c.pid < p
    decreases |bit| + |dead|
  {
    if bit != {} {
      var q :| q in bit;
      var r := NewPid(bit - {q}, dead);
      p := if r <= q then q + 1 else r;
      forall x | x in bit
        ensures x < p
      {
        assert x == q || x in bit - {q};
      }
    } else if dead != {} {
      var d :| d in dead;
      var r := NewPid(bit, dead - {d});
      p := if r <= d.pid then d.pid + 1 else r;
      forall c | c in dead
        ensures c.pid < p
      {
        assert c == d || c in dead - {d};
      }
    } else {
      p := 0;
    }
  }

  /** The server's lock comes free while the dead holder goes on: a pooled owner is
      dropped, and the process of any other owner is another one, which dies. */
  lemma LockComesFree(s: State, g: Gid) returns (more: seq<State>, s': State)
    requires Inv(s) && DeadHolder(s, g)
    ensures Calm(more, s) && s' == more[|more| - 1] && s'.owner == None && DeadHolder(s', g)
  {
    more, s' := [s], s;
    if s.owner.Some? {
      var c := s.owner.value;
      if c in s.pool {
        more, s' := CalmOn(more, s, DropIdle(c));
      } else {
        var h :| h in s.pc && HasConn(s.pc[h]) && s.pc[h].conn == c;
        assert At(s, h) == s.pc[h] && InSection(At(s, h)) && InSection(At(s, g));
        assert h.pid == c.pid && c !in s.dead;
        more, s' := CalmOn(more, s, KillProcess(c.pid));
      }
    }
  }

  /** Then a process that has not scanned yet takes it. */
  lemma NewcomerTakes(before: seq<State>, a: State, s: State, g: Gid) returns (more: seq<State>, s': State, h: Gid)
    requires Calm(before, a) && s == before[|before| - 1] && Inv(s) && s.owner == None && DeadHolder(s, g)
    ensures Calm(more, a) && s' == more[|more| - 1] && h != g && DeadHolder(s', g) && HoldsLive(s', h)
  {
    var p := NewPid(s.bit, s.dead);
    h := Gid(p, 0);
    var c := Conn(p, 0);
    assert g.pid in s.bit by { assert InSection(At(s, g)); }
    assert At(s, h) == Idle by { assert InSection(At(s, h)) ==> h.pid in s.bit; }
    assert !CheckedOut(s, c) by { NotCheckedOut(s, c); }
    more, s' := CalmOn(before, a, Swap(h));
    assert !CheckedOut(s', c);
    more, s' := CalmOn(more, a, GetConn(h, c));
    more, s' := CalmOn(more, a, LockTaken(h));
  }

  lemma NotCheckedOut(s: State, c: Conn)
    requires BitInv(s) && ConnInv(s) && c.pid !in s.bit
    ensures !CheckedOut(s, c)
  {
    forall g | g in s.pc && HasConn(s.pc[g])
      ensures s.pc[g].conn != c
    {
      assert At(s, g) == s.pc[g] && InSection(At(s, g));
    }
  }

  lemma {:induction false} CalmInv(run: seq<State>, more: seq<State>, i: nat)
    requires IsRun(run) && Calm(more, run[|run| - 1]) && i < |more|
    ensures Inv(more[i])
  {
    hide Inv;
    CalmIsARun(run, more);
    RunInv(run + more[1..], |run| - 1 + i);
  }

  lemma OneLiveHolder(s: State, g: Gid, h: Gid)
    requires Inv(s) && g != h && HoldsLive(s, h)
    ensures !HoldsLive(s, g)
  {
    assert InSection(At(s, h)) && (InSection(At(s, g)) ==> g.pid != h.pid);
  }

  /** A second holder on a connection that lives. */
  ghost predicate SecondHolds(more: seq<State>, s: State, g: Gid, h: Gid) {
    Calm(more, s) && h != g && Holds(more[|more| - 1], g) && HoldsLive(more[|more| - 1], h)
  }

  /** WHEN A SECOND ONE CAN HOLD, EXACTLY. From any reachable state, and with no further
      connection cut off: the slot can be taken beside a caller that holds it if and only
      if that caller holds it now on a connection that was cut off. */
  lemma SecondHolderIff(run: seq<State>, s: State, g: Gid)
    requires IsRun(run) && s == run[|run| - 1]
    ensures (exists more, h :: SecondHolds(more, s, g, h)) <==> DeadHolder(s, g)
  {
    RunInv(run, |run| - 1);
    if more, h :| SecondHolds(more, s, g, h) {
      var end := |more| - 1;
      CalmInv(run, more, end);
      OneLiveHolder(more[end], g, h);
      DeadHolderBefore(more, s, end, g);
    }
    if DeadHolder(s, g) {
      var more, s' := LockComesFree(s, g);
      CalmInv(run, more, |more| - 1);
      hide Inv;
      var all, _, h := NewcomerTakes(more, s, s', g);
      assert SecondHolds(all, s, g, h);
    }
  }

  ghost predicate TwoHold(more: seq<State>, s: State, g: Gid, h: Gid) {
    Calm(more, s) && h != g && Holds(more[|more| - 1], g) && Holds(more[|more| - 1], h)
  }

  /** And there can be two holders of any kind, the present one and another, if and only
      if some holder of now was cut off. */
  lemma TwoHoldersIff(run: seq<State>, s: State, g: Gid)
    requires IsRun(run) && s == run[|run| - 1] && Holds(s, g)
    ensures (exists more, h :: TwoHold(more, s, g, h)) <==> exists h :: DeadHolder(s, h)
  {
    if more, h :| TwoHold(more, s, g, h) {
      var end := |more| - 1;
      CalmIsARun(run, more);
      TwoHoldersNeedADeadConnection(run + more[1..], |run + more[1..]| - 1, g, h);
      DeadHolderBefore(more, s, end, if DeadHolder(more[end], g) then g else h);
    }
    if h :| DeadHolder(s, h) {
      if h == g {
        SecondHolderIff(run, s, g);
        var more, k :| SecondHolds(more, s, g, k);
        assert TwoHold(more, s, g, k);
      } else {
        assert TwoHold([s], s, g, h);
      }
    }
  }

  /** The exception is real: a holder's connection is cut off in mid-scan, the server
      drops the lock with it, and another process takes the slot while the first still
      believes it holds it. */
  lemma CutOffAllowsTwoHolders() returns (run: seq<State>, g: Gid, h: Gid)
    ensures IsRun(run) && g != h
    ensures Holds(run[|run| - 1], g) && Holds(run[|run| - 1], h)
  {
    g := Gid(0, 0);
    var taken := [START];
    taken := RunOn(taken, Swap(g));
    taken := RunOn(taken, GetConn(g, Conn(0, 0)));
    taken := RunOn(taken, LockTaken(g));
    taken := RunOn(taken, CutOff(g));
    var s := taken[|taken| - 1];
    SecondHolderIff(taken, s, g);
    var more;
    more, h :| SecondHolds(more, s, g, h);
    CalmIsARun(taken, more);
    run := taken + more[1..];
  }

  lemma RunOn(run: seq<State>, step: Step) returns (longer: seq<State>)
    requires IsRun(run) && Enabled(run[|run| - 1], step)
    ensures IsRun(longer) && |longer| == |run| + 1
    ensures longer[|run|] == Apply(run[|run| - 1], step)
  {
    longer := run + [Apply(run[|run| - 1], step)];
    assert Next(run[|run| - 1], longer[|run|]);
    forall i | 0 <= i < |longer| - 1 ensures Next(longer[i], longer[i + 1]) {
      if i < |run| - 1 {
        assert Next(run[i], run[i + 1]);
      }
    }
  }

  lemma LockIsPooled(g: Gid, c: Conn) returns (run: seq<State>)
    requires g.pid == c.pid
    ensures IsRun(run)
    ensures var s := run[|run| - 1];
            && s.bit == {} && At(s, g) == Idle && s.pool == {c} && s.dead == {} && s.owner == Some(c) && s.depth == 1
            && forall h :: h in s.pc ==> h == g
  {
    run := [START];
    run := RunOn(run, Swap(g));
    run := RunOn(run, GetConn(g, c));
    run := RunOn(run, LockTaken(g));
    run := RunOn(run, ReleaseLock(g, false));
    run := RunOn(run, CloseHeld(g, true));
    run := RunOn(run, Clear(g));
  }

  /** The re-entrant case the compare-and-swap covers: a release that never
      reached the server leaves the lock with a pooled connection; the same process
      takes it again at depth two, and still holds it alone. */
  lemma PooledOwnerIsTakenAgain() returns (run: seq<State>, g: Gid)
    ensures IsRun(run)
    ensures var s := run[|run| - 1];
            Holds(s, g) && s.depth == 2 && s.owner == Some(At(s, g).conn) && forall h :: Holds(s, h) ==> h == g
  {
    g := Gid(0, 0);
    var c := Conn(0, 0);
    run := LockIsPooled(g, c);
    run := RunOn(run, Swap(g));
    run := RunOn(run, GetConn(g, c));
    run := RunOn(run, LockTaken(g));
    AtMostOneHolder(run, |run| - 1, g);
  }
}
