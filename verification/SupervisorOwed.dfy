/**
 Which limits a run enforces and which result it owes, said of what was observed: the checks that
 were due, the scan after reaping, the clock, and the output.
 */
module SupervisorOwed {
  import opened Bytes
  import opened Wrappers
  import opened SupervisorSpec

  /** The loop's variables before the i-th pass. */
  function Before(c: Config, obs: seq<Observation>, i: nat): Monitor
    requires i <= |obs|
  {
    Run(c, Initial(c), obs[..i])
  }

  lemma {:induction false} RunOneMore(c: Config, m: Monitor, front: seq<Observation>, o: Observation)
    ensures Run(c, m, front + [o]) ==
            if Done(Run(c, m, front)) then Run(c, m, front) else Pass(c, Run(c, m, front), o)
    decreases |front|
  {
    hide Pass;
    var all := front + [o];
    if front == [] {
      assert all[1..] == [];
    } else if !Done(m) {
      assert all[1..] == front[1..] + [o];
      RunOneMore(c, Pass(c, m, front[0]), front[1..], o);
    }
  }

  lemma BeforeNext(c: Config, obs: seq<Observation>, i: nat)
    requires i < |obs|
    ensures Before(c, obs, i + 1) ==
            if Done(Before(c, obs, i)) then Before(c, obs, i) else Pass(c, Before(c, obs, i), obs[i])
  {
    assert obs[..i + 1] == obs[..i] + [obs[i]];
    RunOneMore(c, Initial(c), obs[..i], obs[i]);
  }

  /** The loop has not ended before this pass. */
  predicate Active(c: Config, obs: seq<Observation>, i: nat)
    requires i <= |obs|
  {
    !Done(Before(c, obs, i))
  }

  /** The latest check before the i-th pass, or 25 ms before the start. */
  function LastDue(c: Config, obs: seq<Observation>, i: nat): int
    requires i <= |obs|
    decreases i, 0
  {
    if i == 0 then c.started - 25 else if Due(c, obs, i - 1) then obs[i - 1].now else LastDue(c, obs, i - 1)
  }

  /** A check is due every 25 ms while the group lives and its time is not up. */
  predicate Due(c: Config, obs: seq<Observation>, i: nat)
    requires i < |obs|
    decreases i, 1
  {
    && Active(c, obs, i) && !Before(c, obs, i).killed
    && 0 <= obs[i].now < c.started + c.wallClockMs
    && obs[i].now >= LastDue(c, obs, i) + 25
  }

  datatype Event = Many | Unverifiable | TooMuch | TooManyEntries | TimeUp

  /** What a check finds: the disk is looked at only if the processes are in order. */
  predicate Finds(c: Config, o: Observation, e: Event)
  {
    match e
    case Many => o.processCount > c.processes
    case Unverifiable =>
      o.processCount < 0 || (o.processCount <= c.processes && c.diskMonitored && o.disk.ScanFailed?)
    case TooMuch => 0 <= o.processCount <= c.processes && c.diskMonitored && o.disk.OverBytes?
    case TooManyEntries => 0 <= o.processCount <= c.processes && c.diskMonitored && o.disk.OverEntries?
    case TimeUp => false
  }

  predicate DueFinds(c: Config, obs: seq<Observation>, i: nat, e: Event)
    requires i < |obs|
  {
    Due(c, obs, i) && Finds(c, obs[i], e)
  }

  /** No check so far found anything wrong with the disk or could not be made. */
  predicate DiskClear(c: Config, obs: seq<Observation>, n: nat)
    requires n <= |obs|
  {
    forall i, e :: 0 <= i < n && e in {Unverifiable, TooMuch, TooManyEntries} ==> !DueFinds(c, obs, i, e)
  }

  /** The child is reaped in this pass. */
  predicate ReapedAt(c: Config, obs: seq<Observation>, i: nat)
    requires i < |obs|
  {
    Active(c, obs, i) && !Before(c, obs, i).reaped && obs[i].waited.Reaps?
  }

  predicate FinalIs(o: Observation, e: Event)
  {
    match e
    case Unverifiable => o.finalDisk.ScanFailed?
    case TooMuch => o.finalDisk.OverBytes?
    case TooManyEntries => o.finalDisk.OverEntries?
    case _ => false
  }

  /** The scan after reaping, made unless the verdict on the disk is known already. */
  predicate FinalFinds(c: Config, obs: seq<Observation>, i: nat, e: Event)
    requires i < |obs|
  {
    ReapedAt(c, obs, i) && c.diskMonitored && DiskClear(c, obs, i + 1) && FinalIs(obs[i], e)
  }

  predicate Happens(c: Config, obs: seq<Observation>, i: nat, e: Event)
    requires i < |obs|
  {
    if e.TimeUp? then Active(c, obs, i) && obs[i].now >= c.started + c.wallClockMs
    else DueFinds(c, obs, i, e) || FinalFinds(c, obs, i, e)
  }

  predicate Flag(l: Limits, e: Event)
  {
    match e
    case Many => l.processExceeded
    case Unverifiable => l.unverified
    case TooMuch => l.diskExceeded
    case TooManyEntries => l.entriesExceeded
    case TimeUp => l.timedOut
  }

  /** What the later half of a pass leaves alone. */
  predicate SameWatch(m: Monitor, p: Monitor)
  {
    && p.limits == m.limits && p.lastCheck == m.lastCheck && p.reaped == m.reaped
    && p.waitStatus == m.waitStatus && (m.killed ==> p.killed)
  }

  lemma SetupWatches(c: Config, m: Monitor, o: Observation)
    ensures SameWatch(m, ReadSetup(FailPoll(m, o.pollFails), o))
  {
  }

  lemma OutputWatches(c: Config, m: Monitor, o: Observation)
    ensures SameWatch(m, ReadOutput(c, m, o))
  {
    hide DrainOutput;
  }

  lemma PassWatches(c: Config, m: Monitor, o: Observation)
    ensures SameWatch(Watched(c, m, o), Pass(c, m, o))
  {
    var w := Watched(c, m, o);
    var polled := ReadSetup(FailPoll(w, o.pollFails), o);
    SetupWatches(c, w, o);
    OutputWatches(c, polled, o);
    hide Watched, ReadSetup, FailPoll, ReadOutput;
  }

  lemma ResourcesFlag(c: Config, m: Monitor, o: Observation, e: Event)
    requires Accepted(c)
    ensures
      var due := !m.killed && o.now >= 0 && o.now - m.lastCheck >= CHECK_MS;
      var p := CheckResources(c, m, o);
      && (Flag(p.limits, e) <==> Flag(m.limits, e) || (due && Finds(c, o, e)))
      && p.lastCheck == (if due then o.now else m.lastCheck)
      && (due && Finds(c, o, e) ==> p.killed) && (m.killed ==> p.killed) && p.reaped == m.reaped
  {
    var due := !m.killed && o.now >= 0 && o.now - m.lastCheck >= CHECK_MS;
    if due {
      if 0 <= o.processCount <= c.processes { DiskFlag(m.limits, o.disk, e); }
      hide NoteDisk;
    } else {
      hide Flag, Finds, NoteDisk;
    }
  }

  lemma DiskFlag(l: Limits, scan: DiskScan, e: Event)
    ensures Flag(NoteDisk(l, scan), e) <==>
      || Flag(l, e) || (e.Unverifiable? && scan.ScanFailed?) || (e.TooMuch? && scan.OverBytes?)
      || (e.TooManyEntries? && scan.OverEntries?)
  {
  }

  lemma ClockFlag(c: Config, m: Monitor, now: int)
    requires Accepted(c)
    ensures
      var p := CheckClock(c, m, now);
      && (p.limits.timedOut <==> m.limits.timedOut || now >= c.started + c.wallClockMs)
      && p.limits == m.limits.(timedOut := p.limits.timedOut)
      && p.lastCheck == m.lastCheck && p.reaped == m.reaped && (m.killed ==> p.killed)
      && (!m.limits.timedOut ==> (p.killed <==> m.killed || now >= c.started + c.wallClockMs))
  {
  }

  lemma ReapFlag(c: Config, m: Monitor, o: Observation, e: Event)
    ensures
      var reaps := !m.reaped && o.waited.Reaps?;
      var scans := reaps && c.diskMonitored && !m.limits.diskExceeded && !m.limits.entriesExceeded &&
                   !m.limits.unverified;
      var p := Reap(c, m, o);
      && (Flag(p.limits, e) <==> Flag(m.limits, e) || (scans && FinalIs(o, e)))
      && p.lastCheck == m.lastCheck && (m.killed ==> p.killed)
      && (p.reaped <==> m.reaped || !o.waited.StillRunning?)
      && (p.reaped && !m.reaped ==> p.killed)
  {
  }

  /** The check is due in this pass. */
  predicate Checks(c: Config, m: Monitor, o: Observation)
  {
    !m.killed && 0 <= o.now < c.started + c.wallClockMs && o.now - m.lastCheck >= 25
  }

  /** Neither the passes so far nor this one's check have anything to say of the disk. */
  predicate Clear(c: Config, m: Monitor, o: Observation)
  {
    forall x :: x in {Unverifiable, TooMuch, TooManyEntries} ==>
      !Flag(m.limits, x) && !(Checks(c, m, o) && Finds(c, o, x))
  }

  predicate Found(c: Config, m: Monitor, o: Observation, e: Event)
  {
    if e.TimeUp? then o.now >= c.started + c.wallClockMs
    else
      || (Checks(c, m, o) && Finds(c, o, e))
      || (!m.reaped && o.waited.Reaps? && c.diskMonitored && Clear(c, m, o) && FinalIs(o, e))
  }

  /** One active pass: the check, the flags, and the reaping. */
  lemma PassFlag(c: Config, m: Monitor, o: Observation, e: Event)
    requires Accepted(c) && Inv(c, m)
    ensures Pass(c, m, o).lastCheck == if Checks(c, m, o) then o.now else m.lastCheck
    ensures Flag(Pass(c, m, o).limits, e) <==> Flag(m.limits, e) || Found(c, m, o, e)
    ensures Pass(c, m, o).reaped <==> m.reaped || !o.waited.StillRunning?
    ensures m.killed || Found(c, m, o, e) ==> Pass(c, m, o).killed
  {
    assert m.limits.timedOut ==> m.killed;
    hide Inv, Pass, OutputInv;
    PassWatches(c, m, o);
    WatchFlag(c, m, o, e);
    hide Watched, Flag, Found;
  }

  lemma WatchFlag(c: Config, m: Monitor, o: Observation, e: Event)
    requires Accepted(c) && (m.limits.timedOut ==> m.killed)
    ensures
      var p := Watched(c, m, o);
      && p.lastCheck == (if Checks(c, m, o) then o.now else m.lastCheck)
      && (Flag(p.limits, e) <==> Flag(m.limits, e) || Found(c, m, o, e))
      && (p.reaped <==> m.reaped || !o.waited.StillRunning?)
      && (m.killed || Found(c, m, o, e) ==> p.killed)
  {
    hide CheckClock, CheckResources, Checks, Finds, FinalIs, Reap, Flag, Clear, Found;
    var checked := CheckResources(c, CheckClock(c, m, o.now), o);
    assert Watched(c, m, o) == Reap(c, checked, o);
    hide Watched;
    CheckedFlag(c, m, o, e);
    CheckedFlag(c, m, o, Unverifiable);
    CheckedFlag(c, m, o, TooMuch);
    CheckedFlag(c, m, o, TooManyEntries);
    ClearIf(c, m, o, checked.limits);
    ReapFlag(c, checked, o, e);
    NoFinalTime(o);
    FoundEither(c, m, o, e);
  }

  lemma FoundEither(c: Config, m: Monitor, o: Observation, e: Event)
    ensures Found(c, m, o, e) <==>
      if e.TimeUp? then o.now >= c.started + c.wallClockMs
      else
        || (Checks(c, m, o) && Finds(c, o, e))
        || (!m.reaped && o.waited.Reaps? && c.diskMonitored && Clear(c, m, o) && FinalIs(o, e))
  {
    hide Checks, Finds, Clear, FinalIs;
  }

  lemma NoFinalTime(o: Observation)
    ensures !FinalIs(o, TimeUp)
  {
  }

  lemma CheckedFlag(c: Config, m: Monitor, o: Observation, e: Event)
    requires Accepted(c) && (m.limits.timedOut ==> m.killed)
    ensures
      var p := CheckResources(c, CheckClock(c, m, o.now), o);
      && p.lastCheck == (if Checks(c, m, o) then o.now else m.lastCheck)
      && (Flag(p.limits, e) <==>
            || Flag(m.limits, e)
            || (if e.TimeUp? then o.now >= c.started + c.wallClockMs else Checks(c, m, o) && Finds(c, o, e)))
      && p.reaped == m.reaped
      && (m.killed || o.now >= c.started + c.wallClockMs || (Checks(c, m, o) && Finds(c, o, e)) ==> p.killed)
  {
    var clocked := CheckClock(c, m, o.now);
    ClockFlag(c, m, o.now);
    hide CheckClock;
    ResourcesFlag(c, clocked, o, e);
    hide CheckResources, Finds;
    FlagsBeside(m.limits, clocked.limits, e);
    TimeIsNotFound(c, o);
    hide Flag;
  }

  lemma FlagsBeside(l: Limits, k: Limits, e: Event)
    requires k == l.(timedOut := k.timedOut)
    ensures !e.TimeUp? ==> (Flag(k, e) <==> Flag(l, e))
    ensures e.TimeUp? ==> Flag(k, e) == k.timedOut && Flag(l, e) == l.timedOut
  {
  }

  lemma TimeIsNotFound(c: Config, o: Observation)
    ensures !Finds(c, o, TimeUp)
  {
  }

  lemma ClearIf(c: Config, m: Monitor, o: Observation, l: Limits)
    requires forall x :: x in {Unverifiable, TooMuch, TooManyEntries} ==>
               (Flag(l, x) <==> Flag(m.limits, x) || (Checks(c, m, o) && Finds(c, o, x)))
    ensures Clear(c, m, o) <==> !l.diskExceeded && !l.entriesExceeded && !l.unverified
  {
    hide Finds, Checks;
    assert Flag(l, Unverifiable) == l.unverified && Flag(l, TooMuch) == l.diskExceeded;
    assert Flag(l, TooManyEntries) == l.entriesExceeded;
    hide Flag;
  }

  /** What the flags and the latest check say of the first n passes. */
  predicate Told(c: Config, obs: seq<Observation>, n: nat)
    requires n <= |obs|
  {
    var m := Before(c, obs, n);
    && m.lastCheck == LastDue(c, obs, n)
    && (forall e :: Flag(m.limits, e) <==> exists i :: 0 <= i < n && Happens(c, obs, i, e))
    && (forall i, e :: 0 <= i < n && Happens(c, obs, i, e) ==> m.killed)
    && (forall i :: 0 <= i < n && ReapedAt(c, obs, i) ==> m.reaped)
  }

  lemma {:induction false} FlagsTell(c: Config, obs: seq<Observation>, n: nat)
    requires Accepted(c) && n <= |obs|
    ensures Told(c, obs, n) && Inv(c, Before(c, obs, n))
    decreases n
  {
    hide Pass, Inv, Happens, Flag, Told;
    if n == 0 {
      NothingYet(c, obs);
    } else {
      FlagsTell(c, obs, n - 1);
      BeforeNext(c, obs, n - 1);
      var m := Before(c, obs, n - 1);
      if !Done(m) { PassKeeps(c, m, obs[n - 1]); }
      hide Before;
      var last := n - 1;
      forall e: Event
        ensures PassTold(c, obs, last, e)
      {
        PassTells(c, obs, last, e);
      }
      ToldNext(c, obs, n - 1);
    }
  }

  /** One pass, in the terms of what was observed. */
  predicate PassTold(c: Config, obs: seq<Observation>, i: nat, e: Event)
    requires i < |obs|
  {
    var m, next := Before(c, obs, i), Before(c, obs, i + 1);
    && (Flag(next.limits, e) <==> Flag(m.limits, e) || Happens(c, obs, i, e))
    && (Happens(c, obs, i, e) || m.killed ==> next.killed)
    && next.lastCheck == LastDue(c, obs, i + 1)
    && (m.reaped || ReapedAt(c, obs, i) ==> next.reaped)
  }

  lemma ToldNext(c: Config, obs: seq<Observation>, n: nat)
    requires n < |obs| && Told(c, obs, n) && forall e: Event :: PassTold(c, obs, n, e)
    ensures Told(c, obs, n + 1)
  {
    hide Before, Happens, Flag, LastDue, ReapedAt;
    var m, next := Before(c, obs, n), Before(c, obs, n + 1);
    assert PassTold(c, obs, n, Many);
    forall e
      ensures Flag(next.limits, e) <==> exists i :: 0 <= i < n + 1 && Happens(c, obs, i, e)
    {
      assert PassTold(c, obs, n, e);
      assert Flag(m.limits, e) <==> exists i :: 0 <= i < n && Happens(c, obs, i, e);
    }
    forall i, e | 0 <= i < n + 1 && Happens(c, obs, i, e)
      ensures next.killed
    {
      assert PassTold(c, obs, n, e);
    }
  }

  lemma PassTells(c: Config, obs: seq<Observation>, i: nat, e: Event)
    requires Accepted(c) && i < |obs| && Told(c, obs, i) && Inv(c, Before(c, obs, i))
    ensures PassTold(c, obs, i, e)
  {
    BeforeNext(c, obs, i);
    var m, o := Before(c, obs, i), obs[i];
    assert m.lastCheck == LastDue(c, obs, i);
    hide Pass, Inv, Flag, Told;
    if Done(m) {
      hide Before;
      assert !Active(c, obs, i);
      assert !Due(c, obs, i) && !ReapedAt(c, obs, i);
      hide Due, ReapedAt;
      assert !Happens(c, obs, i, e);
      hide Happens;
    } else {
      PassFlag(c, m, o, e);
      FoundIs(c, obs, i, e);
      assert Checks(c, m, o) <==> Due(c, obs, i);
      hide Before, Checks, Due, Found, Happens;
    }
  }

  lemma FoundIs(c: Config, obs: seq<Observation>, i: nat, e: Event)
    requires i < |obs| && Told(c, obs, i) && Active(c, obs, i)
    ensures Found(c, Before(c, obs, i), obs[i], e) <==> Happens(c, obs, i, e)
  {
    var m, o := Before(c, obs, i), obs[i];
    assert Checks(c, m, o) <==> Due(c, obs, i);
    hide Before, Flag, Finds, Checks, Due;
    assert forall x :: DueFinds(c, obs, i, x) <==> Checks(c, m, o) && Finds(c, o, x);
    hide DueFinds;
    if !m.reaped {
      ClearIs(c, obs, i);
      assert DiskClear(c, obs, i + 1) <==> Clear(c, m, o);
    }
    hide DiskClear, Clear, Told, FinalIs;
    assert FinalFinds(c, obs, i, e) <==>
           !m.reaped && o.waited.Reaps? && c.diskMonitored && DiskClear(c, obs, i + 1) && FinalIs(o, e);
  }

  /** As long as the child is not reaped, the flags of the disk come from due checks alone. */
  lemma ClearIs(c: Config, obs: seq<Observation>, i: nat)
    requires i < |obs| && Told(c, obs, i) && !Before(c, obs, i).reaped
    ensures DiskClear(c, obs, i + 1) <==>
      forall x :: x in {Unverifiable, TooMuch, TooManyEntries} ==>
        !Flag(Before(c, obs, i).limits, x) && !DueFinds(c, obs, i, x)
  {
    hide Before, Flag, DueFinds, ReapedAt;
    var m := Before(c, obs, i);
    assert forall x :: Flag(m.limits, x) <==> exists j :: 0 <= j < i && Happens(c, obs, j, x);
    forall j, x | 0 <= j < i && x in {Unverifiable, TooMuch, TooManyEntries}
      ensures Happens(c, obs, j, x) <==> DueFinds(c, obs, j, x)
    {
      assert !ReapedAt(c, obs, j);
    }
    hide Happens, Told;
    forall j, x | 0 <= j < i && x in {Unverifiable, TooMuch, TooManyEntries} && DueFinds(c, obs, j, x)
      ensures Flag(m.limits, x)
    {
      assert Happens(c, obs, j, x);
    }
    forall x | x in {Unverifiable, TooMuch, TooManyEntries} && Flag(m.limits, x)
      ensures exists j :: 0 <= j < i && DueFinds(c, obs, j, x)
    {
      var j :| 0 <= j < i && Happens(c, obs, j, x);
      assert DueFinds(c, obs, j, x);
    }
  }

  lemma NothingYet(c: Config, obs: seq<Observation>)
    requires Accepted(c)
    ensures Inv(c, Before(c, obs, 0)) && Told(c, obs, 0)
  {
    assert obs[..0] == [];
    assert forall e :: !Flag(Initial(c).limits, e);
  }

  /**
   Over every run: a limit's flag is set exactly when a due check, the scan after reaping, or the
   clock showed it exceeded, and the group has been killed since then.
   */
  lemma LimitsEnforced(c: Config, obs: seq<Observation>, e: Event)
    requires Accepted(c)
    ensures Flag(Run(c, Initial(c), obs).limits, e) <==> exists i :: 0 <= i < |obs| && Happens(c, obs, i, e)
    ensures forall i :: 0 <= i < |obs| && Happens(c, obs, i, e) ==> Before(c, obs, i + 1).killed
  {
    hide Happens, Flag, Inv;
    FlagsTell(c, obs, |obs|);
    assert obs[..|obs|] == obs;
    hide Told;
    forall i | 0 <= i < |obs| && Happens(c, obs, i, e)
      ensures Before(c, obs, i + 1).killed
    {
      KilledSince(c, obs, i, e);
    }
  }

  lemma KilledSince(c: Config, obs: seq<Observation>, i: nat, e: Event)
    requires Accepted(c) && i < |obs| && Happens(c, obs, i, e)
    ensures Before(c, obs, i + 1).killed
  {
    hide Happens, Flag, Inv;
    FlagsTell(c, obs, i + 1);
  }

  // ----- the output and what goes wrong -----

  /** What one pass reads, until the pipe is empty, closed or broken. */
  function ReadIn(script: seq<OutputRead>): seq<Byte>
  {
    if script == [] || !script[0].Output? || script[0].bytes == [] then []
    else script[0].bytes + ReadIn(script[1..])
  }

  predicate EndRead(script: seq<OutputRead>)
  {
    script != [] && script[0].Output? && (script[0].bytes == [] || EndRead(script[1..]))
  }

  /** A read fails, or the write of a byte within the limit does. */
  predicate Breaks(room: int, script: seq<OutputRead>)
    decreases |script|
  {
    script != [] &&
    match script[0]
    case OutputAgain => false
    case OutputFails => true
    case Output(bytes, stored) =>
      bytes != [] && ((room > 0 && !stored) || Breaks(room - |bytes|, script[1..]))
  }

  lemma {:induction false} DrainTells(limit: nat, s: OutputState, script: seq<OutputRead>)
    requires OutputInv(limit, s)
    ensures
      var d := DrainOutput(limit, s, script);
      && d.total == s.total + ReadIn(script)
      && (d.ended <==> s.ended || EndRead(script))
      && (d.broken <==> s.broken || Breaks(limit - |s.total|, script))
    decreases |script|
  {
    hide Store;
    if script != [] && script[0].Output? && script[0].bytes != [] {
      var bytes := script[0].bytes;
      var next := Store(limit, s, bytes, script[0].stored);
      StoreTells(limit, s, bytes, script[0].stored);
      DrainTells(limit, next, script[1..]);
      assert s.total + bytes + ReadIn(script[1..]) == s.total + (bytes + ReadIn(script[1..]));
      hide OutputInv;
    }
  }

  lemma StoreTells(limit: nat, s: OutputState, bytes: seq<Byte>, succeeds: bool)
    requires OutputInv(limit, s) && bytes != []
    ensures
      var next := Store(limit, s, bytes, succeeds);
      && OutputInv(limit, next) && next.total == s.total + bytes && next.ended == s.ended
      && (next.broken <==> s.broken || (limit - |s.total| > 0 && !succeeds))
  {
    StoreKeeps(limit, s, bytes, succeeds);
  }

  predicate Reads(c: Config, obs: seq<Observation>, i: nat)
    requires i < |obs|
  {
    Active(c, obs, i) && obs[i].outputReady && !Before(c, obs, i).out.eof
  }

  /** Everything that was read of the output in the first n passes. */
  function Output(c: Config, obs: seq<Observation>, n: nat): seq<Byte>
    requires n <= |obs|
  {
    if n == 0 then []
    else Output(c, obs, n - 1) + if Reads(c, obs, n - 1) then ReadIn(obs[n - 1].output) else []
  }

  /** The end of the output was read. */
  predicate Ended(c: Config, obs: seq<Observation>, n: nat)
    requires n <= |obs|
  {
    exists i :: 0 <= i < n && Reads(c, obs, i) && EndRead(obs[i].output)
  }

  /** The child's record arrives, or waiting, polling, reading or writing fails. */
  predicate Trouble(c: Config, obs: seq<Observation>, i: nat)
    requires i < |obs|
  {
    var m, o := Before(c, obs, i), obs[i];
    Active(c, obs, i) &&
    (|| (!m.reaped && o.waited.WaitFails?)
     || o.pollFails
     || (o.setupReady && !m.setupEof &&
         (o.setup.SetupFails? || (o.setup.SetupBytes? && o.setup.count > 0 && m.setupBytes < RECORD)))
     || (Reads(c, obs, i) && Breaks(c.outputBytes - |Output(c, obs, i)|, o.output)))
  }

  /** How the child was reaped in the first n passes. */
  function Status(c: Config, obs: seq<Observation>, n: nat): Option<WaitStatus>
    requires n <= |obs|
  {
    if n == 0 then None
    else if ReapedAt(c, obs, n - 1) then Some(obs[n - 1].waited.status)
    else Status(c, obs, n - 1)
  }

  /** What the stage of a failure, the output and the status say of the first n passes. */
  predicate Noted(c: Config, obs: seq<Observation>, n: nat)
    requires n <= |obs|
  {
    var m := Before(c, obs, n);
    && m.out.total == Output(c, obs, n)
    && (m.out.ended <==> Ended(c, obs, n))
    && !(m.out.ended && m.cleanupUnverified)
    && (m.stage != STAGE_NONE <==> exists i :: 0 <= i < n && Trouble(c, obs, i))
    && (m.setupBytes > 0 ==> m.stage != STAGE_NONE)
    && m.waitStatus == Status(c, obs, n)
  }

  /** What watching the clock and the resources leaves alone. */
  predicate SameNotes(m: Monitor, p: Monitor)
  {
    && p.out == m.out && p.cleanupUnverified == m.cleanupUnverified && p.setupBytes == m.setupBytes
    && p.setupEof == m.setupEof
  }

  lemma CheckNotes(c: Config, m: Monitor, o: Observation)
    ensures
      var p := CheckResources(c, CheckClock(c, m, o.now), o);
      SameNotes(m, p) && p.stage == m.stage && p.waitStatus == m.waitStatus && p.reaped == m.reaped
  {
    var clocked := CheckClock(c, m, o.now);
    assert SameNotes(m, clocked) && clocked.stage == m.stage && clocked.waitStatus == m.waitStatus;
    assert clocked.reaped == m.reaped;
    hide CheckClock;
  }

  lemma ReapNotes(c: Config, m: Monitor, o: Observation)
    ensures
      var w := Watched(c, m, o);
      && SameNotes(m, w)
      && w.stage == (if !m.reaped && o.waited.WaitFails? then STAGE_PROTOCOL else m.stage)
      && w.waitStatus == (if !m.reaped && o.waited.Reaps? then Some(o.waited.status) else m.waitStatus)
  {
    CheckNotes(c, m, o);
    hide CheckClock, CheckResources;
  }

  lemma SetupNotes(m: Monitor, o: Observation)
    requires m.setupBytes > 0 ==> m.stage != STAGE_NONE
    ensures
      var p := ReadSetup(FailPoll(m, o.pollFails), o);
      && p.out == m.out && p.cleanupUnverified == m.cleanupUnverified && p.waitStatus == m.waitStatus
      && (p.stage != STAGE_NONE <==>
            || m.stage != STAGE_NONE || o.pollFails
            || (o.setupReady && !m.setupEof &&
                (o.setup.SetupFails? || (o.setup.SetupBytes? && o.setup.count > 0 && m.setupBytes < RECORD))))
      && (p.setupBytes > 0 ==> p.stage != STAGE_NONE)
  {
  }

  lemma OutputNotes(c: Config, m: Monitor, o: Observation)
    requires OutputInv(c.outputBytes, m.out) && (m.out.eof <==> m.out.ended || m.cleanupUnverified)
    ensures
      var p := ReadOutput(c, m, o);
      var isRead := o.outputReady && !m.out.eof;
      && p.cleanupUnverified == m.cleanupUnverified && p.waitStatus == m.waitStatus && p.setupBytes == m.setupBytes
      && p.out.total == m.out.total + (if isRead then ReadIn(o.output) else [])
      && (p.out.ended <==> m.out.ended || (isRead && EndRead(o.output)))
      && (p.stage != STAGE_NONE <==>
            m.stage != STAGE_NONE || (isRead && Breaks(c.outputBytes - |m.out.total|, o.output)))
      && (p.out.ended && !m.out.ended ==> p.out.eof && !m.cleanupUnverified)
      && (m.out.ended ==> p.out.eof)
  {
    var cleared := m.out.(broken := false);
    DrainTells(c.outputBytes, cleared, o.output);
    DrainKeeps(c.outputBytes, cleared, o.output);
    hide DrainOutput, Breaks, ReadIn, EndRead;
  }

  lemma CloseNotes(m: Monitor, now: int)
    ensures
      var p := CloseDrain(m, now);
      && p.out.total == m.out.total && p.out.ended == m.out.ended && p.stage == m.stage
      && p.setupBytes == m.setupBytes && p.waitStatus == m.waitStatus
      && (p.cleanupUnverified ==> m.cleanupUnverified || !m.out.eof)
  {
  }

  lemma {:induction false} RunNotes(c: Config, obs: seq<Observation>, n: nat)
    requires Accepted(c) && n <= |obs|
    ensures Noted(c, obs, n) && Inv(c, Before(c, obs, n))
    decreases n
  {
    hide Told, Inv;
    FlagsTell(c, obs, n);
    if n == 0 {
      assert obs[..0] == [];
    } else {
      hide Pass, Trouble, EndRead, Noted, Before;
      RunNotes(c, obs, n - 1);
      PassNotes(c, obs, n - 1);
      NotedNext(c, obs, n - 1);
    }
  }

  /** One pass, in the terms of what was observed. */
  predicate PassNoted(c: Config, obs: seq<Observation>, i: nat)
    requires i < |obs|
  {
    var m, next := Before(c, obs, i), Before(c, obs, i + 1);
    && next.out.total == m.out.total + (if Reads(c, obs, i) then ReadIn(obs[i].output) else [])
    && (next.out.ended <==> m.out.ended || (Reads(c, obs, i) && EndRead(obs[i].output)))
    && !(next.out.ended && next.cleanupUnverified)
    && (next.stage != STAGE_NONE <==> m.stage != STAGE_NONE || Trouble(c, obs, i))
    && (next.setupBytes > 0 ==> next.stage != STAGE_NONE)
    && next.waitStatus == if ReapedAt(c, obs, i) then Some(obs[i].waited.status) else m.waitStatus
  }

  lemma PassNotes(c: Config, obs: seq<Observation>, i: nat)
    requires Accepted(c) && i < |obs| && Noted(c, obs, i) && Inv(c, Before(c, obs, i))
    ensures PassNoted(c, obs, i)
  {
    BeforeNext(c, obs, i);
    var m, o := Before(c, obs, i), obs[i];
    if Done(m) {
      assert m.out.total + [] == m.out.total;
      hide Before;
    } else {
      assert m.out.total == Output(c, obs, i);
      hide Noted, Output;
      PassDoes(c, m, o);
      hide Pass, Breaks, ReadIn, EndRead, Before, Inv;
    }
  }

  /** What one active pass does to the output, the stage and the status. */
  lemma PassDoes(c: Config, m: Monitor, o: Observation)
    requires Accepted(c) && Inv(c, m) && !Done(m) && (m.setupBytes > 0 ==> m.stage != STAGE_NONE)
    requires !(m.out.ended && m.cleanupUnverified)
    ensures
      var p := Pass(c, m, o);
      var isRead := o.outputReady && !m.out.eof;
      && p.out.total == m.out.total + (if isRead then ReadIn(o.output) else [])
      && (p.out.ended <==> m.out.ended || (isRead && EndRead(o.output)))
      && !(p.out.ended && p.cleanupUnverified)
      && (p.stage != STAGE_NONE <==>
            || m.stage != STAGE_NONE || (!m.reaped && o.waited.WaitFails?) || o.pollFails
            || (o.setupReady && !m.setupEof &&
                (o.setup.SetupFails? || (o.setup.SetupBytes? && o.setup.count > 0 && m.setupBytes < RECORD)))
            || (isRead && Breaks(c.outputBytes - |m.out.total|, o.output)))
      && (p.setupBytes > 0 ==> p.stage != STAGE_NONE)
      && p.waitStatus == if !m.reaped && o.waited.Reaps? then Some(o.waited.status) else m.waitStatus
  {
    var w := Watched(c, m, o);
    var polled := ReadSetup(FailPoll(w, o.pollFails), o);
    var drained := ReadOutput(c, polled, o);
    assert Pass(c, m, o) == CloseDrain(drained, o.now);
    hide Pass, Watched, ReadSetup, FailPoll, ReadOutput, CloseDrain, Breaks, ReadIn, EndRead, OutputInv;
    ReapNotes(c, m, o);
    SetupNotes(w, o);
    OutputNotes(c, polled, o);
    CloseNotes(drained, o.now);
  }

  lemma NotedNext(c: Config, obs: seq<Observation>, n: nat)
    requires n < |obs| && Noted(c, obs, n) && PassNoted(c, obs, n)
    ensures Noted(c, obs, n + 1)
  {
    hide Before, Trouble, Reads, EndRead, ReadIn, ReapedAt;
  }

  // ----- the bounded drain -----

  /** The end of the drain: 250 ms after the pass in which the group was killed, or at once. */
  function Deadline(c: Config, obs: seq<Observation>, n: nat): int
    requires n <= |obs|
  {
    if n == 0 then -1
    else if Active(c, obs, n - 1) && Deadline(c, obs, n - 1) < 0 && Before(c, obs, n).killed then
      if obs[n - 1].now >= 0 then obs[n - 1].now + 250 else 0
    else Deadline(c, obs, n - 1)
  }

  /** The child is reaped, its output has not ended, and the drain is over or the clock fails. */
  predicate CutOff(c: Config, obs: seq<Observation>, i: nat)
    requires i < |obs|
  {
    var next := Before(c, obs, i + 1);
    && Active(c, obs, i) && next.killed && next.reaped && !next.out.ended
    && (obs[i].now < 0 || obs[i].now >= Deadline(c, obs, i + 1))
  }

  /** Output is given up, and the cleanup called unverified, never before the drain is over. */
  lemma {:induction false} CutOffIff(c: Config, obs: seq<Observation>, n: nat)
    requires Accepted(c) && n <= |obs|
    ensures Before(c, obs, n).drainDeadline == Deadline(c, obs, n)
    ensures Before(c, obs, n).cleanupUnverified <==> exists i :: 0 <= i < n && CutOff(c, obs, i)
    decreases n
  {
    if n == 0 {
      assert obs[..0] == [];
    } else {
      CutOffIff(c, obs, n - 1);
      hide Before, CutOff;
      CutTells(c, obs, n - 1);
      CutNext(c, obs, n - 1);
    }
  }

  /** One pass, in the terms of what was observed. */
  predicate CutTold(c: Config, obs: seq<Observation>, i: nat)
    requires i < |obs|
  {
    var m, next := Before(c, obs, i), Before(c, obs, i + 1);
    && (next.cleanupUnverified <==> m.cleanupUnverified || CutOff(c, obs, i))
    && (m.drainDeadline == Deadline(c, obs, i) ==> next.drainDeadline == Deadline(c, obs, i + 1))
  }

  lemma CutTells(c: Config, obs: seq<Observation>, i: nat)
    requires Accepted(c) && i < |obs| && Before(c, obs, i).drainDeadline == Deadline(c, obs, i)
    ensures CutTold(c, obs, i)
  {
    RunNotes(c, obs, i);
    BeforeNext(c, obs, i);
    hide Noted;
    var m, o := Before(c, obs, i), obs[i];
    if !Done(m) {
      var drained := ReadOutput(c, ReadSetup(FailPoll(Watched(c, m, o), o.pollFails), o), o);
      PassKeepsDrain(c, m, o);
      assert Pass(c, m, o) == CloseDrain(drained, o.now);
      hide Pass, Watched, ReadSetup, FailPoll, ReadOutput, Inv;
      CloseCuts(drained, o.now);
      hide CloseDrain, Before;
    } else {
      hide Before, Inv;
    }
  }

  lemma PassKeepsDrain(c: Config, m: Monitor, o: Observation)
    requires Accepted(c) && Inv(c, m)
    ensures
      var drained := ReadOutput(c, ReadSetup(FailPoll(Watched(c, m, o), o.pollFails), o), o);
      && drained.drainDeadline == m.drainDeadline && drained.cleanupUnverified == m.cleanupUnverified
      && (drained.out.eof <==> drained.out.ended || drained.cleanupUnverified)
  {
    hide Watched, ReadSetup, FailPoll, ReadOutput, OutputInv;
    var w := Watched(c, m, o);
    var polled := ReadSetup(FailPoll(w, o.pollFails), o);
    WatchedKeeps(c, m, o);
    ReapNotes(c, m, o);
    SetupKeeps(c, w, o);
    LaterLeavesCut(c, w, o);
    OutputKeeps(c, polled, o);
    LaterLeavesCut(c, polled, o);
  }

  lemma LaterLeavesCut(c: Config, m: Monitor, o: Observation)
    ensures ReadSetup(FailPoll(m, o.pollFails), o).cleanupUnverified == m.cleanupUnverified
    ensures ReadOutput(c, m, o).cleanupUnverified == m.cleanupUnverified
  {
    hide DrainOutput;
  }

  lemma CloseCuts(m: Monitor, now: int)
    ensures
      var p := CloseDrain(m, now);
      && p.drainDeadline ==
         (if m.drainDeadline < 0 && p.killed then (if now >= 0 then now + 250 else 0) else m.drainDeadline)
      && (p.cleanupUnverified <==>
            || m.cleanupUnverified
            || (p.killed && p.reaped && !m.out.eof && (now < 0 || now >= p.drainDeadline)))
      && p.out.ended == m.out.ended && p.killed == m.killed
  {
  }

  lemma CutNext(c: Config, obs: seq<Observation>, n: nat)
    requires n < |obs| && CutTold(c, obs, n)
    requires Before(c, obs, n).cleanupUnverified <==> exists i :: 0 <= i < n && CutOff(c, obs, i)
    ensures Before(c, obs, n + 1).cleanupUnverified <==> exists i :: 0 <= i < n + 1 && CutOff(c, obs, i)
  {
    hide CutOff, Before;
  }

  // ----- the result -----

  predicate Ever(c: Config, obs: seq<Observation>, e: Event)
  {
    exists i :: 0 <= i < |obs| && Happens(c, obs, i, e)
  }

  predicate Troubled(c: Config, obs: seq<Observation>)
  {
    exists i :: 0 <= i < |obs| && Trouble(c, obs, i)
  }

  /** The result of a child that went its own way. */
  function Own(status: WaitStatus): Verdict
  {
    match status
    case ExitedWith(code) => Exited(code)
    case KilledBy(signal) => if signal == 24 then CpuLimit else if signal == 25 then FileSizeLimit else Signaled(signal)
    case Otherwise => SetupFailed
  }

  /**
   The result that is owed, in order of precedence: for output whose end was never read, for
   trouble, for each limit, for an interruption, and for the child's own end.
   */
  lemma ResultOwed(c: Config, obs: seq<Observation>, forwarded: bool)
    requires Accepted(c) && Done(Run(c, Initial(c), obs))
    ensures
      var v := Classify(Run(c, Initial(c), obs), forwarded);
      if !Ended(c, obs, |obs|) then v.CleanupUnverified?
      else if Troubled(c, obs) then v.SetupFailed?
      else if Ever(c, obs, Unverifiable) then v.MonitorUnverified?
      else if Ever(c, obs, Many) then v.ProcessLimit?
      else if Ever(c, obs, TooMuch) then v.DiskLimit?
      else if Ever(c, obs, TooManyEntries) then v.EntryLimit?
      else if |Output(c, obs, |obs|)| > c.outputBytes then v.OutputLimit?
      else if Ever(c, obs, TimeUp) then v.TimedOut?
      else if forwarded then v.Interrupted?
      else Status(c, obs, |obs|).Some? && v == Own(Status(c, obs, |obs|).value)
  {
    hide Happens, Trouble, Pass;
    var m := Run(c, Initial(c), obs);
    assert obs[..|obs|] == obs;
    RunNotes(c, obs, |obs|);
    LimitsEnforced(c, obs, Unverifiable);
    LimitsEnforced(c, obs, Many);
    LimitsEnforced(c, obs, TooMuch);
    LimitsEnforced(c, obs, TooManyEntries);
    LimitsEnforced(c, obs, TimeUp);
    assert m.out.exceeded <==> |m.out.total| > c.outputBytes;
    assert m.reaped && m.stage == STAGE_NONE ==> m.waitStatus.Some?;
    hide Run, Status, Output, Ended, Inv;
  }

  /** A run reported as exited stayed within every limit at every check that was due. */
  lemma ExitedWasWithin(c: Config, obs: seq<Observation>, forwarded: bool, i: nat)
    requires Accepted(c) && Done(Run(c, Initial(c), obs)) && i < |obs|
    requires Classify(Run(c, Initial(c), obs), forwarded).Exited?
    ensures Due(c, obs, i) ==>
      && 0 <= obs[i].processCount <= c.processes
      && (c.diskMonitored ==> obs[i].disk.WithinLimits?)
    ensures Active(c, obs, i) ==> obs[i].now < c.started + c.wallClockMs && !Trouble(c, obs, i)
  {
    hide Active, Due, Trouble, FinalFinds, Classify, Run, Pass, Before;
    ResultOwed(c, obs, forwarded);
    forall e: Event
      ensures !Happens(c, obs, i, e)
    {
      assert !Ever(c, obs, e);
    }
    assert !Happens(c, obs, i, Many) && !Happens(c, obs, i, Unverifiable);
    assert !Happens(c, obs, i, TooMuch) && !Happens(c, obs, i, TooManyEntries);
    assert !Happens(c, obs, i, TimeUp);
  }

  /** A thousand processes under a limit of four are reported, whatever the child does then. */
  lemma ProcessesAreLimited(now: int, status: WaitStatus)
    requires 0 <= now < 1000
    ensures
      var c := Config(0, 1000, 4, false, 10);
      var o := Observation(now, 1000, WithinLimits, Reaps(status), WithinLimits, false, false, SetupEof, true,
                           [SupervisorSpec.Output([], true)]);
      Done(Run(c, Initial(c), [o])) && Classify(Run(c, Initial(c), [o]), false).ProcessLimit?
  {
    var c := Config(0, 1000, 4, false, 10);
    var o := Observation(now, 1000, WithinLimits, Reaps(status), WithinLimits, false, false, SetupEof, true,
                         [SupervisorSpec.Output([], true)]);
    assert [o][1..] == [];
    assert Run(c, Initial(c), [o]) == Pass(c, Initial(c), o);
  }
}
