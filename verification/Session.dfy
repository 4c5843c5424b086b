/** The agent's sliding sessions: a table of last uses, swept now and then, and a
    file that a restart reads back (cmd/servika-agent/session.go).

    Times are whole nanoseconds of one clock. A save writes a new file and renames it
    over the old one, so it either replaces the file or leaves it; `saved` says which. */
module Session {
  import opened Wrappers

  const LIFE := 10_800_000_000_000

  type Token = string
  type Time = int

  datatype Store = Store(sessions: map<Token, Time>, file: Option<map<Token, Time>>)

  function Fresh(sessions: map<Token, Time>, now: Time): map<Token, Time> {
    map t | t in sessions && now - sessions[t] <= LIFE :: sessions[t]
  }

  predicate Live(sessions: map<Token, Time>, token: Token, now: Time) {
    token in sessions && now - sessions[token] <= LIFE
  }

  datatype Step =
    | Add(token: Token, now: Time, saved: bool)
    | Valid(token: Token, now: Time, saved: bool)
    | Drop(token: Token, now: Time, saved: bool)
    | Flush(now: Time, saved: bool)
    | Restart(now: Time)

  function Saved(sessions: map<Token, Time>, file: Option<map<Token, Time>>, saved: bool): Store {
    Store(sessions, if saved then Some(sessions) else file)
  }

  function Apply(s: Store, step: Step): Store {
    match step
    case Add(token, now, saved) => Saved(Fresh(s.sessions, now)[token := now], s.file, saved)
    case Valid(token, now, saved) =>
      if token !in s.sessions then s
      else if now - s.sessions[token] > LIFE then Saved(s.sessions - {token}, s.file, saved)
      else s.(sessions := s.sessions[token := now])
    case Drop(token, _, saved) => Saved(s.sessions - {token}, s.file, saved)
    case Flush(now, saved) => Saved(Fresh(s.sessions, now), s.file, saved)
    case Restart(now) => s.(sessions := if s.file.Some? then Fresh(s.file.value, now) else map[])
  }

  // ------------------------------------------------------------ the store

  class SessionStore {
    var sessions: map<Token, Time>
    var file: Option<map<Token, Time>>

    constructor (file: Option<map<Token, Time>>)
      ensures Value() == Store(map[], file)
    {
      sessions := map[];
      this.file := file;
    }

    ghost function Value(): Store
      reads this
    {
      Store(sessions, file)
    }

    method Save(saved: bool)
      modifies this`file
      ensures file == if saved then Some(sessions) else old(file)
    {
      if saved {
        file := Some(sessions);
      }
    }

    /** `order` is the order in which the map is ranged over. */
    method Expire(now: Time, order: seq<Token>)
      requires forall t :: t in order <==> t in sessions
      modifies this`sessions
      ensures sessions == Fresh(old(sessions), now)
    {
      for i := 0 to |order|
        invariant forall t :: t in sessions <==>
          t in old(sessions) && (t in order[..i] ==> now - old(sessions)[t] <= LIFE)
        invariant forall t :: t in sessions ==> sessions[t] == old(sessions)[t]
      {
        assert order[..i + 1] == order[..i] + [order[i]];
        if order[i] in sessions && now - sessions[order[i]] > LIFE {
          sessions := sessions - {order[i]};
        }
      }
      assert order[..|order|] == order;
      forall t
        ensures t in sessions <==> t in Fresh(old(sessions), now)
      {}
      forall t | t in sessions
        ensures sessions[t] == Fresh(old(sessions), now)[t]
      {}
    }

    /** At startup: `order` ranges over the saved table. */
    method Load(now: Time, order: seq<Token>)
      requires sessions == map[] && file.Some? && forall t :: t in order <==> t in file.value
      modifies this`sessions
      ensures Value() == Apply(old(Value()), Restart(now))
    {
      for i := 0 to |order|
        invariant forall t :: t in sessions <==> t in order[..i] && now - file.value[t] <= LIFE
        invariant forall t :: t in sessions ==> sessions[t] == file.value[t]
      {
        assert order[..i + 1] == order[..i] + [order[i]];
        var last := file.value[order[i]];
        if now - last <= LIFE {
          sessions := sessions[order[i] := last];
        }
      }
      assert order[..|order|] == order;
      forall t
        ensures t in sessions <==> t in Fresh(file.value, now)
      {}
      forall t | t in sessions
        ensures sessions[t] == Fresh(file.value, now)[t]
      {}
    }

    method FlushOnce(now: Time, order: seq<Token>, saved: bool)
      requires forall t :: t in order <==> t in sessions
      modifies this
      ensures Value() == Apply(old(Value()), Flush(now, saved))
    {
      Expire(now, order);
      Save(saved);
    }

    method AddToken(token: Token, now: Time, order: seq<Token>, saved: bool)
      requires forall t :: t in order <==> t in sessions
      modifies this
      ensures Value() == Apply(old(Value()), Add(token, now, saved))
    {
      Expire(now, order);
      sessions := sessions[token := now];
      Save(saved);
    }

    method IsValid(token: Token, now: Time, saved: bool) returns (valid: bool)
      modifies this
      ensures valid == Live(old(sessions), token, now)
      ensures Value() == Apply(old(Value()), Valid(token, now, saved))
    {
      if token !in sessions {
        return false;
      }
      if now - sessions[token] > LIFE {
        sessions := sessions - {token};
        Save(saved);
        return false;
      }
      sessions := sessions[token := now];
      return true;
    }

    method DropToken(token: Token, now: Time, saved: bool)
      modifies this
      ensures Value() == Apply(old(Value()), Drop(token, now, saved))
    {
      sessions := sessions - {token};
      Save(saved);
    }
  }

  // ------------------------------------------------------------------ runs

  /** The store after a run; the agent starts with whatever its file held live. */
  function After(start: Store, run: seq<Step>): Store
    decreases |run|
  {
    if run == [] then start else Apply(After(start, run[..|run| - 1]), run[|run| - 1])
  }

  function Booted(file: Option<map<Token, Time>>, now: Time): Store {
    Apply(Store(map[], file), Restart(now))
  }

  predicate Monotone(run: seq<Step>, now: Time) {
    && (forall i, j :: 0 <= i <= j < |run| ==> run[i].now <= run[j].now)
    && (forall i :: 0 <= i < |run| ==> run[i].now <= now)
  }

  predicate NoRestart(run: seq<Step>) {
    forall i :: 0 <= i < |run| ==> !run[i].Restart?
  }

  /** What a session means, without table, sweep or file: somebody logged in, or held
      the session at the start, has not logged out since, and was never idle longer
      than LIFE from one use to the next. */
  predicate LoggedIn(held: map<Token, Time>, run: seq<Step>, token: Token, now: Time)
    decreases |run|
  {
    if run == [] then Live(held, token, now)
    else
      var before, last := run[..|run| - 1], run[|run| - 1];
      if last.Add? && last.token == token then now - last.now <= LIFE
      else if last.Drop? && last.token == token then false
      else if last.Valid? && last.token == token then LoggedIn(held, before, token, last.now) && now - last.now <= LIFE
      else LoggedIn(held, before, token, now)
  }

  // ---------------------------------------------------------- no restart

  /** The last use of a session that is still held. */
  function LastUse(held: map<Token, Time>, run: seq<Step>, token: Token): Option<Time>
    decreases |run|
  {
    if run == [] then
      if token in held then Some(held[token]) else None
    else
      var before, last := run[..|run| - 1], run[|run| - 1];
      var used := LastUse(held, before, token);
      if last.Add? && last.token == token then Some(last.now)
      else if last.Drop? && last.token == token then None
      else if last.Valid? && last.token == token then
        if used.Some? && last.now - used.value <= LIFE then Some(last.now) else None
      else used
  }

  lemma {:induction false} LoggedInIsLastUse(held: map<Token, Time>, run: seq<Step>, token: Token, now: Time)
    ensures LoggedIn(held, run, token, now) <==>
            LastUse(held, run, token).Some? && now - LastUse(held, run, token).value <= LIFE
    decreases |run|
  {
    if run != [] {
      var before, last := run[..|run| - 1], run[|run| - 1];
      if last.Valid? && last.token == token {
        LoggedInIsLastUse(held, before, token, last.now);
      } else {
        LoggedInIsLastUse(held, before, token, now);
      }
    }
  }

  /** The table holds the last use, or a sweep has taken out a session that had
      already ended. */
  lemma {:induction false} TableHoldsLastUse(start: Store, run: seq<Step>, token: Token, now: Time)
    requires Monotone(run, now) && NoRestart(run)
    ensures var s, used := After(start, run).sessions, LastUse(start.sessions, run, token);
            && (token in s ==> used == Some(s[token]))
            && (token !in s && used.Some? ==> now - used.value > LIFE)
    decreases |run|
  {
    if run != [] {
      var before, last := run[..|run| - 1], run[|run| - 1];
      TableHoldsLastUse(start, before, token, last.now);
    }
  }

  /** SLIDING, EXACTLY. From any table a process has loaded, until it is restarted,
      whatever the sweeps did and whether or not any save succeeded, `valid` is true
      exactly when the token was held or given out, not dropped since, and no gap
      between its uses was over LIFE. */
  lemma ValidIffNeverIdle(start: Store, run: seq<Step>, token: Token, now: Time)
    requires Monotone(run, now) && NoRestart(run)
    ensures Live(After(start, run).sessions, token, now) <==> LoggedIn(start.sessions, run, token, now)
  {
    TableHoldsLastUse(start, run, token, now);
    LoggedInIsLastUse(start.sessions, run, token, now);
  }

  function WithoutFlushes(run: seq<Step>): seq<Step>
    decreases |run|
  {
    if run == [] then []
    else WithoutFlushes(run[..|run| - 1]) + if run[|run| - 1].Flush? then [] else [run[|run| - 1]]
  }

  lemma {:induction false} WithoutFlushesIsARun(run: seq<Step>, now: Time)
    requires Monotone(run, now) && NoRestart(run)
    ensures Monotone(WithoutFlushes(run), now) && NoRestart(WithoutFlushes(run))
    decreases |run|
  {
    if run != [] {
      WithoutFlushesIsARun(run[..|run| - 1], run[|run| - 1].now);
    }
  }

  lemma {:induction false} FlushesDoNotLogOut(held: map<Token, Time>, run: seq<Step>, token: Token, now: Time)
    ensures LoggedIn(held, WithoutFlushes(run), token, now) <==> LoggedIn(held, run, token, now)
    decreases |run|
  {
    if run != [] {
      var before, last := run[..|run| - 1], run[|run| - 1];
      var kept := WithoutFlushes(before);
      FlushesDoNotLogOut(held, before, token, now);
      FlushesDoNotLogOut(held, before, token, last.now);
      assert kept + [] == kept && (kept + [last])[..|kept|] == kept;
    }
  }

  /** UNTIL A RESTART, SWEEPS CHANGE NO ANSWER. From any loaded table, every call up to
      the next restart is answered as if no sweep had ever run. */
  lemma SweepsChangeNoAnswer(start: Store, run: seq<Step>, token: Token, now: Time)
    requires Monotone(run, now) && NoRestart(run)
    ensures Live(After(start, run).sessions, token, now) ==
            Live(After(start, WithoutFlushes(run)).sessions, token, now)
  {
    WithoutFlushesIsARun(run, now);
    FlushesDoNotLogOut(start.sessions, run, token, now);
    ValidIffNeverIdle(start, run, token, now);
    ValidIffNeverIdle(start, WithoutFlushes(run), token, now);
  }

  // -------------------------------------------------------- with restarts

  predicate DropsAreSaved(run: seq<Step>) {
    forall i :: 0 <= i < |run| && run[i].Drop? ==> run[i].saved
  }

  /** In the file a session is at most as young as it really is, or it has ended. */
  predicate NotYounger(held: map<Token, Time>, run: seq<Step>, m: map<Token, Time>, now: Time) {
    forall t :: t in m ==>
      (LastUse(held, run, t).Some? && m[t] <= LastUse(held, run, t).value) || now - m[t] > LIFE
  }

  predicate TableNotYounger(held: map<Token, Time>, run: seq<Step>, m: map<Token, Time>) {
    forall t :: t in m ==> LastUse(held, run, t).Some? && m[t] <= LastUse(held, run, t).value
  }

  lemma {:induction false} LastUseIsPast(held: map<Token, Time>, run: seq<Step>, token: Token, now: Time)
    requires Monotone(run, now) && forall t :: t in held ==> held[t] <= now
    requires forall t, i :: t in held && 0 <= i < |run| ==> held[t] <= run[i].now
    ensures LastUse(held, run, token).Some? ==> LastUse(held, run, token).value <= now
    decreases |run|
  {
    if run != [] {
      LastUseIsPast(held, run[..|run| - 1], token, now);
    }
  }

  /** The run begins after the load, and the file holds no time of the future. */
  predicate Follows(file: Option<map<Token, Time>>, boot: Time, run: seq<Step>, now: Time) {
    && Monotone(run, now) && boot <= now && (forall i :: 0 <= i < |run| ==> boot <= run[i].now)
    && (file.Some? ==> forall t :: t in file.value ==> file.value[t] <= boot)
  }

  lemma {:induction false} NothingIsRevived(file: Option<map<Token, Time>>, boot: Time, run: seq<Step>, now: Time)
    requires Follows(file, boot, run, now) && DropsAreSaved(run)
    ensures var s, held := After(Booted(file, boot), run), Booted(file, boot).sessions;
            && TableNotYounger(held, run, s.sessions)
            && (s.file.Some? ==> NotYounger(held, run, s.file.value, now))
    decreases |run|
  {
    if run != [] {
      var before, last := run[..|run| - 1], run[|run| - 1];
      NothingIsRevived(file, boot, before, last.now);
      assert run == before + [last];
      var held := Booted(file, boot).sessions;
      var s, s' := After(Booted(file, boot), before), After(Booted(file, boot), run);
      forall t
        ensures LastUse(held, before, t).Some? ==> LastUse(held, before, t).value <= last.now
      {
        LastUseIsPast(held, before, t, last.now);
      }
      TableStaysYoung(held, before, last, s);
      if s'.file.Some? {
        FileStaysYoung(held, before, last, s, now);
      }
    }
  }

  lemma TableStaysYoung(held: map<Token, Time>, before: seq<Step>, last: Step, s: Store)
    requires TableNotYounger(held, before, s.sessions)
    requires s.file.Some? ==> NotYounger(held, before, s.file.value, last.now)
    requires forall t :: LastUse(held, before, t).Some? ==> LastUse(held, before, t).value <= last.now
    ensures TableNotYounger(held, before + [last], Apply(s, last).sessions)
  {
    var run := before + [last];
    assert run[..|before|] == before;
    forall t | t in Apply(s, last).sessions
      ensures LastUse(held, run, t).Some? && Apply(s, last).sessions[t] <= LastUse(held, run, t).value
    {
      assert t in s.sessions || last.Add? || (last.Restart? && s.file.Some? && t in s.file.value);
    }
  }

  lemma FileStaysYoung(held: map<Token, Time>, before: seq<Step>, last: Step, s: Store, now: Time)
    requires TableNotYounger(held, before + [last], Apply(s, last).sessions) && Apply(s, last).file.Some?
    requires s.file.Some? ==> NotYounger(held, before, s.file.value, last.now)
    requires forall t :: LastUse(held, before, t).Some? ==> LastUse(held, before, t).value <= last.now
    requires last.now <= now && (last.Drop? ==> last.saved)
    ensures NotYounger(held, before + [last], Apply(s, last).file.value, now)
  {
    var run, s' := before + [last], Apply(s, last);
    assert run[..|before|] == before;
    forall t | t in s'.file.value
      ensures (LastUse(held, run, t).Some? && s'.file.value[t] <= LastUse(held, run, t).value)
              || now - s'.file.value[t] > LIFE
    {
      assert t in s'.sessions || (s.file == s'.file && t in s.file.value);
    }
  }

  /** NO RESTART REVIVES. Whatever file the agent starts with, on any run with any
      restarts, as long as the saves of logouts succeed, a token is only ever valid
      while its session is: a restart brings back no dropped or ended session and
      prolongs none. Every other save may fail. */
  lemma ValidOnlyWhileLoggedIn(file: Option<map<Token, Time>>, boot: Time, run: seq<Step>, token: Token, now: Time)
    requires Follows(file, boot, run, now) && DropsAreSaved(run)
    requires Live(After(Booted(file, boot), run).sessions, token, now)
    ensures LoggedIn(Booted(file, boot).sessions, run, token, now)
  {
    NothingIsRevived(file, boot, run, now);
    LoggedInIsLastUse(Booted(file, boot).sessions, run, token, now);
  }

  /** And only those saves matter: whenever the file still holds a live session, a
      logout whose save fails is undone by a restart. */
  lemma UnsavedDropIsUndone(s: Store, token: Token, now: Time)
    ensures s.file.Some? && Live(s.file.value, token, now) <==>
            Live(Apply(Apply(s, Drop(token, now, false)), Restart(now)).sessions, token, now)
  {}

  /** A restart right after a successful save changes no later answer. */
  lemma RestartAfterSaveChangesNothing(s: Store, token: Token, now: Time, later: Time)
    requires s.file == Some(s.sessions) && now <= later
    ensures Live(Apply(s, Restart(now)).sessions, token, later) == Live(s.sessions, token, later)
  {}

  // ------------------------------------- when a sweep or a restart can be told

  /** What a restart would load. */
  function LiveFile(s: Store, now: Time): map<Token, Time> {
    if s.file.Some? then Fresh(s.file.value, now) else map[]
  }

  predicate HasEnded(s: Store, now: Time) {
    exists t :: t in s.sessions && now - s.sessions[t] > LIFE
  }

  ghost predicate Continues(run: seq<Step>, now: Time, later: Time) {
    now <= later && Monotone(run, later) && forall i :: 0 <= i < |run| ==> now <= run[i].now
  }

  ghost predicate TellsApart(s: Store, s': Store, run: seq<Step>, token: Token, later: Time) {
    Live(After(s, run).sessions, token, later) != Live(After(s', run).sessions, token, later)
  }

  /** Some later call is answered differently from the one store than from the other. */
  ghost predicate CanTell(s: Store, s': Store, now: Time) {
    exists run, token, later :: Continues(run, now, later) && TellsApart(s, s', run, token, later)
  }

  /** Nobody can tell these two apart: what the files hold live is the same, and the
      tables are the same or hold, like the files, nothing live. */
  predicate Alike(s: Store, s': Store, now: Time) {
    && LiveFile(s, now) == LiveFile(s', now)
    && (s.sessions == s'.sessions
        || (Fresh(s.sessions, now) == map[] && Fresh(s'.sessions, now) == map[] && LiveFile(s, now) == map[]))
  }

  lemma FreshLater(a: map<Token, Time>, b: map<Token, Time>, now: Time, later: Time)
    requires Fresh(a, now) == Fresh(b, now) && now <= later
    ensures Fresh(a, later) == Fresh(b, later)
  {
    forall t
      ensures t in Fresh(a, later) <==> t in Fresh(b, later)
      ensures t in Fresh(a, later) ==> a[t] == b[t]
    {
      assert t in Fresh(a, later) ==> t in Fresh(a, now) && Fresh(a, now)[t] == a[t];
      assert t in Fresh(b, later) ==> t in Fresh(b, now) && Fresh(b, now)[t] == b[t];
    }
  }

  lemma AlikeLater(s: Store, s': Store, now: Time, later: Time)
    requires Alike(s, s', now) && now <= later
    ensures Alike(s, s', later)
  {
    var f, f' := if s.file.Some? then s.file.value else map[], if s'.file.Some? then s'.file.value else map[];
    FreshLater(f, f', now, later);
    if s.sessions != s'.sessions {
      FreshLater(f, map[], now, later);
      FreshLater(s.sessions, map[], now, later);
      FreshLater(s'.sessions, map[], now, later);
    }
  }

  lemma AlikeAnswers(s: Store, s': Store, token: Token, now: Time)
    requires Alike(s, s', now)
    ensures Live(s.sessions, token, now) == Live(s'.sessions, token, now)
  {
    assert Live(s.sessions, token, now) <==> token in Fresh(s.sessions, now);
    assert Live(s'.sessions, token, now) <==> token in Fresh(s'.sessions, now);
  }

  lemma WithoutOne(m: map<Token, Time>, token: Token, now: Time)
    requires Fresh(m, now) == map[]
    ensures Fresh(m - {token}, now) == map[]
  {
    forall t
      ensures t !in Fresh(m - {token}, now)
    {
      assert t !in Fresh(m, now);
    }
  }

  lemma AlikeStep(s: Store, s': Store, step: Step)
    requires Alike(s, s', step.now)
    ensures Alike(Apply(s, step), Apply(s', step), step.now)
  {
    if s.sessions != s'.sessions && (step.Valid? || step.Drop?) {
      WithoutOne(s.sessions, step.token, step.now);
      WithoutOne(s'.sessions, step.token, step.now);
      AlikeAnswers(s, s', step.token, step.now);
      assert !Live(s.sessions, step.token, step.now) by {
        assert step.token !in Fresh(s.sessions, step.now);
      }
    }
  }

  lemma {:induction false} AlikeRun(s: Store, s': Store, run: seq<Step>, now: Time, later: Time)
    requires Alike(s, s', now) && Continues(run, now, later)
    ensures Alike(After(s, run), After(s', run), later)
    decreases |run|
  {
    hide Alike, Apply;
    if run == [] {
      AlikeLater(s, s', now, later);
    } else {
      var before, last := run[..|run| - 1], run[|run| - 1];
      AlikeRun(s, s', before, now, last.now);
      AlikeStep(After(s, before), After(s', before), last);
      AlikeLater(After(s, run), After(s', run), last.now, later);
    }
  }

  /** Two tables whose live parts differ are told apart by one call. */
  lemma TablesTell(s: Store, s': Store, now: Time) returns (token: Token, later: Time)
    requires Fresh(s.sessions, now) != Fresh(s'.sessions, now)
    ensures now <= later && Live(s.sessions, token, later) != Live(s'.sessions, token, later)
  {
    var a, b := Fresh(s.sessions, now), Fresh(s'.sessions, now);
    token := Difference(a, b);
    later := now;
    if token in a && token in b {
      later := (if a[token] < b[token] then a[token] else b[token]) + LIFE + 1;
    }
  }

  lemma Difference(a: map<Token, Time>, b: map<Token, Time>) returns (t: Token)
    requires a != b
    ensures t in a || t in b
    ensures t in a && t in b ==> a[t] != b[t]
  {
    if forall x :: x in a || x in b ==> x in a && x in b && a[x] == b[x] {
      SameIfNoDifference(a, b);
    }
    t :| (t in a || t in b) && !(t in a && t in b && a[t] == b[t]);
  }

  lemma SameIfNoDifference(a: map<Token, Time>, b: map<Token, Time>)
    requires forall t :: t in a || t in b ==> t in a && t in b && a[t] == b[t]
    ensures a == b
  {}

  lemma Afters(s: Store, x: Step, y: Step, z: Step)
    ensures After(s, []) == s && After(s, [x]) == Apply(s, x)
    ensures After(s, [x, y]) == Apply(Apply(s, x), y)
    ensures After(s, [x, y, z]) == Apply(Apply(Apply(s, x), y), z)
  {
    assert [x][..0] == [] && [x, y][..1] == [x] && [x, y, z][..2] == [x, y];
  }

  lemma TablesCanTell(s: Store, s': Store, now: Time)
    requires Fresh(s.sessions, now) != Fresh(s'.sessions, now)
    ensures CanTell(s, s', now)
  {
    var token, later := TablesTell(s, s', now);
    var run: seq<Step> := [];
    assert Continues(run, now, later) && TellsApart(s, s', run, token, later);
  }

  /** Two files whose live parts differ are told apart by a restart and one call. */
  lemma FilesCanTell(s: Store, s': Store, now: Time)
    requires LiveFile(s, now) != LiveFile(s', now)
    ensures CanTell(s, s', now)
  {
    var restart := Restart(now);
    var run := [restart];
    Afters(s, restart, restart, restart);
    Afters(s', restart, restart, restart);
    FreshTwice(if s.file.Some? then s.file.value else map[], now);
    FreshTwice(if s'.file.Some? then s'.file.value else map[], now);
    var token, later := TablesTell(After(s, run), After(s', run), now);
    assert Continues(run, now, later) && TellsApart(s, s', run, token, later);
  }

  lemma FreshTwice(m: map<Token, Time>, now: Time)
    ensures Fresh(Fresh(m, now), now) == Fresh(m, now)
  {}

  /** An ended session in the one table: a call with its token saves that table and not
      the other, and a restart loads what was saved. */
  lemma EndedCanTell(s: Store, s': Store, now: Time, ended: Token)
    requires Fresh(s.sessions, now) == s'.sessions && LiveFile(s, now) == LiveFile(s', now)
    requires ended in s.sessions && now - s.sessions[ended] > LIFE
    requires s'.sessions != map[] || LiveFile(s', now) != map[]
    ensures CanTell(s, s', now)
  {
    if LiveFile(s', now) == s'.sessions {
      DroppedCanTell(s, s', now, ended);
    } else {
      SavedCanTell(s, s', now, ended);
    }
  }

  lemma DroppedCanTell(s: Store, s': Store, now: Time, ended: Token)
    requires Fresh(s.sessions, now) == s'.sessions == LiveFile(s, now) == LiveFile(s', now) != map[]
    requires ended in s.sessions && now - s.sessions[ended] > LIFE
    ensures CanTell(s, s', now)
  {
    var live :| live in s'.sessions;
    var run := [Drop(live, now, false), Valid(ended, now, true), Restart(now)];
    Afters(s, run[0], run[1], run[2]);
    Afters(s', run[0], run[1], run[2]);
    hide After;
    assert live in LiveFile(s', now) && Live(s'.file.value, live, now);
    assert Continues(run, now, now) && TellsApart(s, s', run, live, now);
  }

  lemma SavedCanTell(s: Store, s': Store, now: Time, ended: Token)
    requires Fresh(s.sessions, now) == s'.sessions != LiveFile(s', now)
    requires ended in s.sessions && now - s.sessions[ended] > LIFE
    ensures CanTell(s, s', now)
  {
    var run := [Valid(ended, now, true), Restart(now)];
    Afters(s, run[0], run[1], run[1]);
    Afters(s', run[0], run[1], run[1]);
    forall t
      ensures t in After(s, run).sessions <==> t in s'.sessions
      ensures t in s'.sessions ==> After(s, run).sessions[t] == s'.sessions[t]
    {}
    assert After(s, run).sessions == s'.sessions && After(s', run).sessions == LiveFile(s', now);
    FreshTwice(s.sessions, now);
    FreshTwice(if s'.file.Some? then s'.file.value else map[], now);
    var token, later := TablesTell(After(s, run), After(s', run), now);
    assert Continues(run, now, later) && TellsApart(s, s', run, token, later);
  }

  /** TOLD APART, EXACTLY. A store and one that holds nothing ended: some continuation,
      with any calls, sweeps and restarts, is answered differently if and only if the
      live parts of the tables or of the files differ, or the first store holds an ended
      session while there is a live one in the table or the file. */
  lemma CanTellIff(s: Store, s': Store, now: Time)
    requires Fresh(s'.sessions, now) == s'.sessions
    ensures CanTell(s, s', now) <==>
            || Fresh(s.sessions, now) != s'.sessions || LiveFile(s, now) != LiveFile(s', now)
            || (HasEnded(s, now) && (s'.sessions != map[] || LiveFile(s', now) != map[]))
  {
    if Fresh(s.sessions, now) != s'.sessions {
      TablesCanTell(s, s', now);
    } else if LiveFile(s, now) != LiveFile(s', now) {
      FilesCanTell(s, s', now);
    } else if HasEnded(s, now) && (s'.sessions != map[] || LiveFile(s', now) != map[]) {
      var ended :| ended in s.sessions && now - s.sessions[ended] > LIFE;
      EndedCanTell(s, s', now, ended);
    } else {
      NothingEnded(s, now);
      forall run, token, later | Continues(run, now, later)
        ensures !TellsApart(s, s', run, token, later)
      {
        AlikeRun(s, s', run, now, later);
        AlikeAnswers(After(s, run), After(s', run), token, later);
      }
    }
  }

  lemma NothingEnded(s: Store, now: Time)
    ensures !HasEnded(s, now) ==> Fresh(s.sessions, now) == s.sessions
  {}

  /** WHAT A SWEEP CHANGES, EXACTLY. A sweep changes some later answer, restarts
      included, if and only if it saves a live part that the file does not hold, or it
      takes out an ended session while one is live in the table or the file. */
  lemma SweepChangesAnAnswerIff(s: Store, now: Time, saved: bool)
    ensures CanTell(s, Apply(s, Flush(now, saved)), now) <==>
            || (saved && LiveFile(s, now) != Fresh(s.sessions, now))
            || (HasEnded(s, now) && (Fresh(s.sessions, now) != map[] || LiveFile(s, now) != map[]))
  {
    FreshTwice(s.sessions, now);
    CanTellIff(s, Apply(s, Flush(now, saved)), now);
  }

  /** WHAT A RESTART CHANGES, EXACTLY. A restart changes some later answer if and only if
      the file's live part is not the table's, or the table holds an ended session beside
      a live one. */
  lemma RestartChangesAnAnswerIff(s: Store, now: Time)
    ensures CanTell(s, Apply(s, Restart(now)), now) <==>
            LiveFile(s, now) != Fresh(s.sessions, now) || (HasEnded(s, now) && Fresh(s.sessions, now) != map[])
  {
    FreshTwice(if s.file.Some? then s.file.value else map[], now);
    CanTellIff(s, Apply(s, Restart(now)), now);
  }

  /** It happens. A session is used two hours after its login and swept, and the agent is
      restarted: two hours later it is still valid. Without the sweep the restart takes
      it back to its login, and it is not, although it was never idle over LIFE. */
  lemma SweepIsSeenAfterRestart(token: Token)
    ensures var hour, start := LIFE / 3, Booted(None, 0);
            var swept := [Add(token, 0, true), Valid(token, 2 * hour, true), Flush(2 * hour, true),
                          Restart(2 * hour + 1)];
            && Monotone(swept, 4 * hour)
            && WithoutFlushes(swept) == [swept[0], swept[1], swept[3]]
            && LoggedIn(start.sessions, WithoutFlushes(swept), token, 4 * hour)
            && Live(After(start, swept).sessions, token, 4 * hour)
            && !Live(After(start, WithoutFlushes(swept)).sessions, token, 4 * hour)
  {
    var hour, start := LIFE / 3, Booted(None, 0);
    var a, b, c, d := Add(token, 0, true), Valid(token, 2 * hour, true), Flush(2 * hour, true), Restart(2 * hour + 1);
    SweptOut(a, b, c, d);
    UsedTwice(start.sessions, token, hour, d);
    Afters(start, a, b, c);
    Afters(start, a, b, d);
    var swept := [a, b, c, d];
    assert swept[..3] == [a, b, c];
    hide LoggedIn, WithoutFlushes, After;
    assert Apply(start, a) == Store(map[token := 0], Some(map[token := 0]));
    assert Apply(Apply(start, a), b) == Store(map[token := 2 * hour], Some(map[token := 0]));
    assert After(start, swept) == Apply(After(start, swept[..3]), d) by { LastStep(start, swept); }
  }

  lemma LastStep(s: Store, run: seq<Step>)
    requires run != []
    ensures After(s, run) == Apply(After(s, run[..|run| - 1]), run[|run| - 1])
  {}

  lemma SweptOut(a: Step, b: Step, c: Step, d: Step)
    requires !a.Flush? && !b.Flush? && c.Flush? && !d.Flush?
    ensures WithoutFlushes([a, b, c, d]) == [a, b, d]
  {
    assert [a, b, c, d][..3] == [a, b, c] && [a, b, c][..2] == [a, b] && [a, b][..1] == [a] && [a][..0] == [];
    assert WithoutFlushes([a]) == [a] && WithoutFlushes([a, b]) == [a, b] && WithoutFlushes([a, b, c]) == [a, b];
  }

  lemma UsedTwice(held: map<Token, Time>, token: Token, hour: Time, restart: Step)
    requires hour == LIFE / 3 && restart.Restart?
    ensures LoggedIn(held, [Add(token, 0, true), Valid(token, 2 * hour, true), restart], token, 4 * hour)
  {
    var a, b := Add(token, 0, true), Valid(token, 2 * hour, true);
    assert [a, b, restart][..2] == [a, b] && [a, b][..1] == [a];
    assert LoggedIn(held, [a], token, 2 * hour);
    assert LoggedIn(held, [a, b], token, 4 * hour);
  }
}
