/**
 The local supervisor's monitor loop: poll, watch limits, reap, drain. One `Observation` is what
 the clock, the kernel and the child do during one pass; a run is any series of passes.
 */
module SupervisorSpec {
  import opened Bytes
  import opened Wrappers

  const STAGE_NONE: nat := 0
  const STAGE_PROTOCOL: nat := 8
  const STAGE_OUTPUT: nat := 12
  const RECORD: nat := 12
  const DRAIN_MS: int := 250
  const CHECK_MS: int := 25

  datatype Config = Config(started: int, wallClockMs: int, processes: int, diskMonitored: bool, outputBytes: nat)

  datatype WaitStatus = ExitedWith(code: nat) | KilledBy(signal: nat) | Otherwise

  datatype DiskScan = ScanFailed | WithinLimits | OverBytes | OverEntries

  datatype Waited = Reaps(status: WaitStatus) | StillRunning | WaitFails

  /** The child's failure stages; none of them is zero. */
  type FailureStage = n: nat | 0 < n < 0x100 witness 1

  /**
   `child_fail` writes one record, stage first and least significant byte first; reads may deliver
   it in parts.
   */
  datatype SetupRead = SetupBytes(count: nat, stage: FailureStage) | SetupEof | SetupAgain | SetupFails

  datatype OutputRead = Output(bytes: seq<Byte>, stored: bool) | OutputAgain | OutputFails

  datatype Observation = Observation(
    now: int, processCount: int, disk: DiskScan,
    waited: Waited, finalDisk: DiskScan,
    pollFails: bool, setupReady: bool, setup: SetupRead,
    outputReady: bool, output: seq<OutputRead>)

  /**
   The output side of the loop. `total` (every byte read so far), `stored` (every write worked) and
   `ended` (the end of the output was read) are kept only by the specification; `broken` says that
   a read or a write failed in the current pass.
   */
  datatype OutputState = OutputState(
    eof: bool, written: nat, exceeded: bool, file: seq<Byte>, broken: bool,
    total: seq<Byte>, stored: bool, ended: bool)

  datatype Limits = Limits(
    timedOut: bool, processExceeded: bool, diskExceeded: bool, entriesExceeded: bool, unverified: bool)

  /**
   The loop's variables. The specification also keeps whether a scan after reaping found the disk
   within limits (`diskClean`), and the latest reading of the clock.
   */
  datatype Monitor = Monitor(
    setupEof: bool, setupBytes: nat, reaped: bool, killed: bool, stage: nat,
    lastCheck: int, cleanupUnverified: bool, drainDeadline: int, waitStatus: Option<WaitStatus>,
    limits: Limits, out: OutputState, diskClean: bool, clock: int)

  function Initial(c: Config): Monitor
  {
    Monitor(false, 0, false, false, STAGE_NONE, c.started - CHECK_MS, false, -1, None,
            Limits(false, false, false, false, false),
            OutputState(false, 0, false, [], false, [], true, false), false, c.started)
  }

  predicate Done(m: Monitor)
  {
    m.reaped && m.out.eof
  }

  function CheckClock(c: Config, m: Monitor, now: int): Monitor
  {
    var expired := !m.limits.timedOut && now >= 0 && now - c.started >= c.wallClockMs;
    m.(clock := if now > m.clock then now else m.clock,
       limits := m.limits.(timedOut := m.limits.timedOut || expired),
       killed := m.killed || expired)
  }

  function NoteDisk(l: Limits, scan: DiskScan): Limits
  {
    match scan
    case ScanFailed => l.(unverified := true)
    case WithinLimits => l
    case OverBytes => l.(diskExceeded := true)
    case OverEntries => l.(entriesExceeded := true)
  }

  function CheckResources(c: Config, m: Monitor, o: Observation): Monitor
  {
    if m.killed || o.now < 0 || o.now - m.lastCheck < CHECK_MS then m
    else if o.processCount < 0 then
      m.(lastCheck := o.now, limits := m.limits.(unverified := true), killed := true)
    else if o.processCount > c.processes then
      m.(lastCheck := o.now, limits := m.limits.(processExceeded := true), killed := true)
    else if !c.diskMonitored then m.(lastCheck := o.now)
    else m.(lastCheck := o.now, limits := NoteDisk(m.limits, o.disk), killed := !o.disk.WithinLimits?)
  }

  function Reap(c: Config, m: Monitor, o: Observation): Monitor
  {
    if m.reaped then m
    else
      match o.waited
      case StillRunning => m
      case WaitFails => m.(stage := STAGE_PROTOCOL, killed := true, reaped := true)
      case Reaps(status) =>
        var l := m.limits;
        var scanned := c.diskMonitored && !l.diskExceeded && !l.entriesExceeded && !l.unverified;
        m.(reaped := true, killed := true, waitStatus := Some(status),
           limits := if scanned then NoteDisk(l, o.finalDisk) else l,
           diskClean := scanned && o.finalDisk.WithinLimits?)
  }

  function FailPoll(m: Monitor, fails: bool): Monitor
  {
    if fails then m.(stage := STAGE_PROTOCOL, killed := true) else m
  }

  function ReadSetup(m: Monitor, o: Observation): Monitor
  {
    if m.setupEof || !o.setupReady then m
    else
      match o.setup
      case SetupBytes(count, stage) =>
        var room := RECORD - m.setupBytes;
        if count == 0 || room <= 0 then m.(setupEof := true)
        else
          var got := if count < room then count else room;
          m.(setupBytes := m.setupBytes + got,
             stage := if m.setupBytes == 0 then stage else m.stage,
             killed := m.killed || m.setupBytes + got == RECORD)
      case SetupEof => m.(setupEof := true)
      case SetupAgain => m
      case SetupFails => m.(stage := STAGE_PROTOCOL, killed := true)
  }

  function Keep(limit: nat, written: nat, count: nat): nat
  {
    var remaining := limit - written;
    if remaining > 0 && remaining < count then remaining
    else if remaining > 0 then count else 0
  }

  function Store(limit: nat, s: OutputState, bytes: seq<Byte>, succeeds: bool): OutputState
  {
    var keep := Keep(limit, s.written, |bytes|);
    var lost := keep > 0 && !succeeds;
    s.(total := s.total + bytes,
       file := if lost then s.file else s.file + bytes[..keep],
       stored := s.stored && !lost,
       broken := s.broken || lost,
       written := s.written + keep,
       exceeded := s.exceeded || keep < |bytes|)
  }

  /** Reads until the pipe is empty, closed, or broken. */
  function DrainOutput(limit: nat, s: OutputState, script: seq<OutputRead>): OutputState
    decreases |script|
  {
    if script == [] then s
    else
      match script[0]
      case OutputAgain => s
      case OutputFails => s.(broken := true)
      case Output(bytes, stored) =>
        if bytes == [] then s.(eof := true, ended := true)
        else DrainOutput(limit, Store(limit, s, bytes, stored), script[1..])
  }

  function ReadOutput(c: Config, m: Monitor, o: Observation): Monitor
  {
    var cleared := m.out.(broken := false);
    var drained := if !m.out.eof && o.outputReady then DrainOutput(c.outputBytes, cleared, o.output) else cleared;
    m.(out := drained,
       stage := if drained.broken then STAGE_OUTPUT else m.stage,
       killed := m.killed || drained.broken || (drained.exceeded && !m.out.exceeded))
  }

  function CloseDrain(m: Monitor, now: int): Monitor
  {
    var deadline :=
      if m.killed && m.drainDeadline < 0 then (if now >= 0 then now + DRAIN_MS else 0) else m.drainDeadline;
    if m.killed && m.reaped && !m.out.eof && (now < 0 || now >= deadline) then
      m.(drainDeadline := deadline, cleanupUnverified := true, out := m.out.(eof := true))
    else m.(drainDeadline := deadline)
  }

  function Watched(c: Config, m: Monitor, o: Observation): Monitor
  {
    Reap(c, CheckResources(c, CheckClock(c, m, o.now), o), o)
  }

  /** One pass of the loop. */
  function Pass(c: Config, m: Monitor, o: Observation): Monitor
  {
    CloseDrain(ReadOutput(c, ReadSetup(FailPoll(Watched(c, m, o), o.pollFails), o), o), o.now)
  }

  /** Passes until the child is reaped and its output closed, or the observations run out. */
  function Run(c: Config, m: Monitor, observations: seq<Observation>): Monitor
    decreases |observations|
  {
    if Done(m) || observations == [] then m
    else Run(c, Pass(c, m, observations[0]), observations[1..])
  }

  datatype Verdict =
    | CleanupUnverified | SetupFailed | MonitorUnverified
    | ProcessLimit | DiskLimit | EntryLimit | OutputLimit | TimedOut | Interrupted
    | Exited(code: nat) | CpuLimit | FileSizeLimit | Signaled(signal: nat)

  /** Linux: the soft limits on processor time and file size. */
  const SIGXCPU: nat := 24
  const SIGXFSZ: nat := 25

  /** The result reported after the loop, in order of precedence. */
  function Classify(m: Monitor, forwarded: bool): Verdict
  {
    if m.cleanupUnverified then CleanupUnverified
    else if m.stage != STAGE_NONE then SetupFailed
    else if m.limits.unverified then MonitorUnverified
    else if m.limits.processExceeded then ProcessLimit
    else if m.limits.diskExceeded then DiskLimit
    else if m.limits.entriesExceeded then EntryLimit
    else if m.out.exceeded then OutputLimit
    else if m.limits.timedOut then TimedOut
    else if forwarded then Interrupted
    else
      match m.waitStatus
      case None => Exited(0)
      case Some(ExitedWith(code)) => Exited(code)
      case Some(KilledBy(signal)) =>
        if signal == SIGXCPU then CpuLimit else if signal == SIGXFSZ then FileSizeLimit else Signaled(signal)
      case Some(Otherwise) => SetupFailed
  }

  // ----- what every pass keeps -----

  function Min(a: int, b: int): int { if a < b then a else b }

  /** The supervisor refuses any other configuration before it starts. */
  predicate Accepted(c: Config)
  {
    c.started >= 0 && c.wallClockMs > 0 && c.processes > 0 && c.outputBytes > 0
  }

  predicate OutputInv(limit: nat, s: OutputState)
  {
    && s.written == Min(|s.total|, limit)
    && (s.stored ==> s.file == s.total[..s.written])
    && (s.exceeded <==> |s.total| > limit)
  }

  /** What holds between any two stages of a pass. */
  predicate Core(c: Config, m: Monitor)
  {
    && OutputInv(c.outputBytes, m.out)
    && (m.stage == STAGE_NONE ==> m.out.stored)
    && (m.out.eof <==> m.out.ended || m.cleanupUnverified)
    && (m.reaped ==> m.killed)
    && (m.reaped && m.stage == STAGE_NONE ==> m.waitStatus.Some?)
    && (m.reaped && m.stage == STAGE_NONE && c.diskMonitored ==>
          m.diskClean || m.limits.diskExceeded || m.limits.entriesExceeded || m.limits.unverified)
    && (m.limits.timedOut ==> m.killed)
    && (m.limits.timedOut <==> m.clock - c.started >= c.wallClockMs)
    && m.clock >= c.started
    && (m.drainDeadline >= 0 ==> m.killed && m.drainDeadline <= m.clock + DRAIN_MS)
  }

  predicate Inv(c: Config, m: Monitor)
  {
    Core(c, m) && (m.reaped ==> m.drainDeadline >= 0)
  }

  lemma StoreKeeps(limit: nat, s: OutputState, bytes: seq<Byte>, succeeds: bool)
    requires OutputInv(limit, s)
    ensures OutputInv(limit, Store(limit, s, bytes, succeeds))
  {
    var keep := Keep(limit, s.written, |bytes|);
    assert s.written + keep == Min(|s.total| + |bytes|, limit);
    assert s.total[..s.written] + bytes[..keep] == (s.total + bytes)[..s.written + keep];
  }

  lemma {:induction false} DrainKeeps(limit: nat, s: OutputState, script: seq<OutputRead>)
    requires OutputInv(limit, s)
    ensures
      var d := DrainOutput(limit, s, script);
      && OutputInv(limit, d)
      && (s.stored && !d.broken ==> d.stored)
      && (!s.eof && !s.ended ==> (d.eof <==> d.ended))
    decreases |script|
  {
    hide Keep;
    if script != [] && script[0].Output? && script[0].bytes != [] {
      var next := Store(limit, s, script[0].bytes, script[0].stored);
      StoreKeeps(limit, s, script[0].bytes, script[0].stored);
      StoreFlags(limit, s, script[0].bytes, script[0].stored);
      DrainKeeps(limit, next, script[1..]);
      if s.stored && !next.stored { BrokenStays(limit, next, script[1..]); }
    }
  }

  lemma StoreFlags(limit: nat, s: OutputState, bytes: seq<Byte>, succeeds: bool)
    ensures
      var next := Store(limit, s, bytes, succeeds);
      next.eof == s.eof && next.ended == s.ended && (s.stored && !next.stored ==> next.broken)
  {
  }

  lemma {:induction false} BrokenStays(limit: nat, s: OutputState, script: seq<OutputRead>)
    requires s.broken
    ensures DrainOutput(limit, s, script).broken
    decreases |script|
  {
    hide Keep;
    if script != [] && script[0].Output? && script[0].bytes != [] {
      BrokenStays(limit, Store(limit, s, script[0].bytes, script[0].stored), script[1..]);
    }
  }

  lemma WatchedKeeps(c: Config, m: Monitor, o: Observation)
    requires Accepted(c) && Inv(c, m)
    ensures
      var w := Watched(c, m, o);
      Core(c, w) && w.drainDeadline == m.drainDeadline && (m.reaped ==> w.reaped) && w.clock >= o.now
  {
    hide CheckClock, CheckResources, Reap, Core;
    ClockKeeps(c, m, o.now);
    var clocked := CheckClock(c, m, o.now);
    ResourcesKeep(c, clocked, o);
    ReapKeeps(c, CheckResources(c, clocked, o), o);
  }

  lemma ClockKeeps(c: Config, m: Monitor, now: int)
    requires Accepted(c) && Core(c, m)
    ensures
      var p := CheckClock(c, m, now);
      Core(c, p) && p.drainDeadline == m.drainDeadline && p.reaped == m.reaped && p.clock >= now
  {
    hide OutputInv;
  }

  lemma ResourcesKeep(c: Config, m: Monitor, o: Observation)
    requires Accepted(c) && Core(c, m)
    ensures
      var p := CheckResources(c, m, o);
      Core(c, p) && p.drainDeadline == m.drainDeadline && p.reaped == m.reaped && p.clock == m.clock
  {
    hide OutputInv;
  }

  lemma ReapKeeps(c: Config, m: Monitor, o: Observation)
    requires Accepted(c) && Core(c, m)
    ensures
      var p := Reap(c, m, o);
      Core(c, p) && p.drainDeadline == m.drainDeadline && (m.reaped ==> p.reaped) && p.clock == m.clock
  {
    hide OutputInv;
  }

  lemma SetupKeeps(c: Config, m: Monitor, o: Observation)
    requires Accepted(c) && Core(c, m)
    ensures
      var p := ReadSetup(FailPoll(m, o.pollFails), o);
      Core(c, p) && p.drainDeadline == m.drainDeadline && p.reaped == m.reaped && p.clock == m.clock
  {
    hide ReadSetup;
    var failed := FailPoll(m, o.pollFails);
    assert Core(c, failed) by { hide OutputInv; }
    hide Core;
    RecordKeeps(c, failed, o);
  }

  lemma RecordKeeps(c: Config, m: Monitor, o: Observation)
    requires Core(c, m)
    ensures
      var p := ReadSetup(m, o);
      Core(c, p) && p.drainDeadline == m.drainDeadline && p.reaped == m.reaped && p.clock == m.clock
  {
    hide OutputInv;
    var p := ReadSetup(m, o);
    assert p == m.(setupEof := p.setupEof, setupBytes := p.setupBytes, stage := p.stage, killed := p.killed);
  }

  lemma OutputKeeps(c: Config, m: Monitor, o: Observation)
    requires Accepted(c) && Core(c, m)
    ensures
      var p := ReadOutput(c, m, o);
      Core(c, p) && p.drainDeadline == m.drainDeadline && p.reaped == m.reaped && p.clock == m.clock
  {
    hide DrainOutput;
    var cleared := m.out.(broken := false);
    assert OutputInv(c.outputBytes, cleared);
    DrainKeeps(c.outputBytes, cleared, o.output);
    hide OutputInv;
  }

  lemma PassKeeps(c: Config, m: Monitor, o: Observation)
    requires Accepted(c) && Inv(c, m)
    ensures
      var p := Pass(c, m, o);
      && Inv(c, p)
      && (m.drainDeadline >= 0 ==> p.drainDeadline == m.drainDeadline)
      && (m.reaped ==> p.reaped)
      && (p.reaped && (o.now < 0 || o.now >= p.drainDeadline) ==> Done(p))
  {
    WatchedKeeps(c, m, o);
    var watched := Watched(c, m, o);
    SetupKeeps(c, watched, o);
    var polled := ReadSetup(FailPoll(watched, o.pollFails), o);
    OutputKeeps(c, polled, o);
    var drained := ReadOutput(c, polled, o);
    hide Watched, ReadSetup, FailPoll, ReadOutput;
    CloseKeeps(c, drained, o.now);
  }

  lemma CloseKeeps(c: Config, m: Monitor, now: int)
    requires Accepted(c) && Core(c, m) && m.clock >= now
    ensures
      var p := CloseDrain(m, now);
      && Inv(c, p) && p.reaped == m.reaped
      && (m.drainDeadline >= 0 ==> p.drainDeadline == m.drainDeadline)
      && (p.reaped && (now < 0 || now >= p.drainDeadline) ==> Done(p))
  {
  }

  lemma {:induction false} RunKeeps(c: Config, m: Monitor, observations: seq<Observation>)
    requires Accepted(c) && Inv(c, m)
    ensures Inv(c, Run(c, m, observations))
    decreases |observations|
  {
    hide Pass, Inv;
    if !Done(m) && observations != [] {
      PassKeeps(c, m, observations[0]);
      RunKeeps(c, Pass(c, m, observations[0]), observations[1..]);
    }
  }

  /**
   After any run: the file holds the first bytes of the output, up to the limit, as long as
   writing worked, and the output limit is reported exactly when more arrived.
   */
  lemma FileIsOutputPrefix(c: Config, observations: seq<Observation>)
    requires Accepted(c)
    ensures
      var s := Run(c, Initial(c), observations).out;
      && s.written == Min(|s.total|, c.outputBytes)
      && (s.stored ==> s.file == s.total[..Min(|s.total|, c.outputBytes)])
      && (s.exceeded <==> |s.total| > c.outputBytes)
  {
    hide Pass;
    RunKeeps(c, Initial(c), observations);
  }

  /**
   A run reported as exited stored the whole output, to its end, within the limit; the process
   group was killed, the wall clock limit was not reached while it was watched, and with disk
   monitoring on the scan made after reaping found the disk within its limits.
   */
  lemma ExitedIsTruthful(c: Config, observations: seq<Observation>, forwarded: bool)
    requires Accepted(c) && Done(Run(c, Initial(c), observations))
    requires Classify(Run(c, Initial(c), observations), forwarded).Exited?
    ensures
      var m := Run(c, Initial(c), observations);
      && m.out.ended && m.out.file == m.out.total && |m.out.total| <= c.outputBytes
      && m.waitStatus == Some(ExitedWith(Classify(m, forwarded).code))
      && m.killed && m.clock - c.started < c.wallClockMs && !forwarded
      && (c.diskMonitored ==> m.diskClean)
  {
    hide Pass;
    RunKeeps(c, Initial(c), observations);
    var s := Run(c, Initial(c), observations).out;
    assert s.total[..|s.total|] == s.total;
  }

  /**
   Once the child is reaped the loop is bounded: it has ended by the first pass whose clock reads
   250 ms past the latest reading so far, or fails, whatever a descendant does with the pipe.
   */
  lemma {:induction false} DrainIsBounded(c: Config, m: Monitor, observations: seq<Observation>, k: nat)
    requires Accepted(c) && Inv(c, m) && m.reaped && k < |observations|
    requires observations[k].now < 0 || observations[k].now >= m.drainDeadline
    ensures m.drainDeadline <= m.clock + DRAIN_MS
    ensures Done(Run(c, m, observations[..k + 1]))
    decreases k
  {
    hide Pass;
    var front := observations[..k + 1];
    if !Done(m) {
      var p := Pass(c, m, front[0]);
      PassKeeps(c, m, front[0]);
      assert Run(c, m, front) == Run(c, p, front[1..]);
      if k > 0 {
        var rest := observations[1..];
        assert front[1..] == rest[..k];
        DrainIsBounded(c, p, rest, k - 1);
      }
    }
  }
}

/** The loop itself. */
module LocalSupervisor {
  import opened Bytes
  import opened Wrappers
  import opened SupervisorSpec

  class Supervisor {
    const config: Config
    var setupEof: bool
    var setupRead: nat
    var childReaped: bool
    var groupKilled: bool
    var failureStage: nat
    var lastResourceCheck: int
    var cleanupUnverified: bool
    var drainDeadline: int
    var waitStatus: Option<WaitStatus>
    var limits: Limits
    var out: OutputState
    ghost var diskClean: bool
    ghost var clock: int

    constructor (c: Config)
      requires Accepted(c)
      ensures config == c && View() == Initial(c)
    {
      config := c;
      setupEof, setupRead, childReaped, groupKilled, failureStage := false, 0, false, false, STAGE_NONE;
      lastResourceCheck, cleanupUnverified, drainDeadline := c.started - CHECK_MS, false, -1;
      waitStatus, limits := None, Limits(false, false, false, false, false);
      out := OutputState(false, 0, false, [], false, [], true, false);
      diskClean, clock := false, c.started;
    }

    ghost function View(): Monitor
      reads this
    {
      Monitor(setupEof, setupRead, childReaped, groupKilled, failureStage, lastResourceCheck,
              cleanupUnverified, drainDeadline, waitStatus, limits, out, diskClean, clock)
    }

    method WatchClock(now: int)
      modifies this
      ensures View() == CheckClock(config, old(View()), now)
    {
      clock := if now > clock then now else clock;
      if !limits.timedOut && now >= 0 && now - config.started >= config.wallClockMs {
        limits, groupKilled := limits.(timedOut := true), true;
      }
    }

    method WatchResources(o: Observation)
      modifies this
      ensures View() == CheckResources(config, old(View()), o)
    {
      if groupKilled || o.now < 0 || o.now - lastResourceCheck < CHECK_MS { return; }
      lastResourceCheck := o.now;
      if o.processCount < 0 {
        limits, groupKilled := limits.(unverified := true), true;
      } else if o.processCount > config.processes {
        limits, groupKilled := limits.(processExceeded := true), true;
      }
      if !groupKilled && config.diskMonitored {
        NoteDiskScan(o.disk);
        if !o.disk.WithinLimits? { groupKilled := true; }
      }
    }

    method NoteDiskScan(scan: DiskScan)
      modifies this`limits
      ensures limits == NoteDisk(old(limits), scan)
    {
      if scan.ScanFailed? { limits := limits.(unverified := true); }
      if scan.OverBytes? { limits := limits.(diskExceeded := true); }
      if scan.OverEntries? { limits := limits.(entriesExceeded := true); }
    }

    method ReapChild(o: Observation)
      modifies this
      ensures View() == Reap(config, old(View()), o)
    {
      if childReaped { return; }
      match o.waited {
        case StillRunning =>
        case WaitFails =>
          failureStage, groupKilled, childReaped := STAGE_PROTOCOL, true, true;
        case Reaps(status) =>
          childReaped, waitStatus, diskClean := true, Some(status), false;
          if config.diskMonitored && !limits.diskExceeded && !limits.entriesExceeded && !limits.unverified {
            NoteDiskScan(o.finalDisk);
            diskClean := o.finalDisk.WithinLimits?;
          }
          groupKilled := true;
      }
    }

    method ReadSetupPipe(o: Observation)
      modifies this
      ensures View() == ReadSetup(FailPoll(old(View()), o.pollFails), o)
    {
      if o.pollFails { failureStage, groupKilled := STAGE_PROTOCOL, true; }
      if !setupEof && o.setupReady {
        match o.setup {
          case SetupBytes(count, stage) =>
            var room := RECORD - setupRead;
            if count > 0 && room > 0 {
              if setupRead == 0 { failureStage := stage; }
              setupRead := setupRead + (if count < room then count else room);
              if setupRead == RECORD { groupKilled := true; }
            } else {
              setupEof := true;
            }
          case SetupEof => setupEof := true;
          case SetupAgain =>
          case SetupFails => failureStage, groupKilled := STAGE_PROTOCOL, true;
        }
      }
    }

    method ReadOutputPipe(o: Observation)
      requires out.written <= config.outputBytes
      modifies this
      ensures View() == ReadOutput(config, old(View()), o)
    {
      hide DrainOutput;
      out := out.(broken := false);
      if !out.eof && o.outputReady { DrainPipe(o.output); }
    }

    method DrainPipe(script: seq<OutputRead>)
      requires out.written <= config.outputBytes && !out.broken
      modifies this`out, this`failureStage, this`groupKilled
      ensures out == DrainOutput(config.outputBytes, old(out), script)
      ensures failureStage == if out.broken then STAGE_OUTPUT else old(failureStage)
      ensures groupKilled <==> old(groupKilled) || out.broken || (out.exceeded && !old(out).exceeded)
    {
      hide Store, Keep;
      var next := 0;
      assert script[0..] == script;
      while next < |script|
        invariant 0 <= next <= |script| && out.written <= config.outputBytes
        invariant old(out).exceeded ==> out.exceeded
        invariant failureStage == if out.broken then STAGE_OUTPUT else old(failureStage)
        invariant groupKilled <==> old(groupKilled) || out.broken || (out.exceeded && !old(out).exceeded)
        invariant DrainOutput(config.outputBytes, out, script[next..]) ==
                  DrainOutput(config.outputBytes, old(out), script)
      {
        var outcome := script[next];
        assert script[next..][0] == outcome && script[next..][1..] == script[next + 1..];
        if outcome.OutputAgain? { return; }
        if outcome.OutputFails? {
          out := out.(broken := true);
          failureStage, groupKilled := STAGE_OUTPUT, true;
          return;
        }
        if outcome.bytes == [] {
          out := out.(eof := true, ended := true);
          return;
        }
        StoreOutput(outcome.bytes, outcome.stored);
        next := next + 1;
      }
      assert script[next..] == [];
    }

    method StoreOutput(bytes: seq<Byte>, succeeds: bool)
      requires out.written <= config.outputBytes
      modifies this`out, this`failureStage, this`groupKilled
      ensures out == Store(config.outputBytes, old(out), bytes, succeeds) && out.written <= config.outputBytes
      ensures
        var lost := Keep(config.outputBytes, old(out).written, |bytes|) > 0 && !succeeds;
        && (out.broken <==> old(out).broken || lost)
        && failureStage == (if lost then STAGE_OUTPUT else old(failureStage))
        && (groupKilled <==> old(groupKilled) || lost || (out.exceeded && !old(out).exceeded))
        && (old(out).exceeded ==> out.exceeded)
    {
      var keep := Keep(config.outputBytes, out.written, |bytes|);
      var was := out;
      var file, lost := was.file, false;
      if keep > 0 && !succeeds {
        lost := true;
        failureStage, groupKilled := STAGE_OUTPUT, true;
      } else {
        file := file + bytes[..keep];
      }
      if keep < |bytes| && !was.exceeded { groupKilled := true; }
      out := OutputState(
        was.eof, was.written + keep, was.exceeded || keep < |bytes|, file, was.broken || lost,
        was.total + bytes, was.stored && !lost, was.ended);
    }

    method BoundDrain(now: int)
      modifies this
      ensures View() == CloseDrain(old(View()), now)
    {
      if groupKilled && drainDeadline < 0 {
        drainDeadline := if now >= 0 then now + DRAIN_MS else 0;
      }
      if groupKilled && childReaped && !out.eof && (now < 0 || now >= drainDeadline) {
        cleanupUnverified, out := true, out.(eof := true);
      }
    }

    /** The whole loop, until it ends or nothing more is observed. */
    method Watch(observations: seq<Observation>, forwarded: bool) returns (verdict: Verdict)
      requires Accepted(config) && View() == Initial(config)
      modifies this
      ensures View() == Run(config, Initial(config), observations)
      ensures verdict == Classify(View(), forwarded)
    {
      hide CheckResources, CheckClock, Reap, ReadSetup, FailPoll, ReadOutput, CloseDrain;
      var next := 0;
      assert observations[0..] == observations;
      InitialHolds(config);
      while (!childReaped || !out.eof) && next < |observations|
        invariant 0 <= next <= |observations| && Inv(config, View())
        invariant Run(config, View(), observations[next..]) == Run(config, Initial(config), observations)
      {
        var o := observations[next];
        assert observations[next..][0] == o && observations[next..][1..] == observations[next + 1..];
        PassKeeps(config, View(), o);
        ghost var before := View();
        WatchClock(o.now);
        WatchResources(o);
        ReapChild(o);
        ReadSetupPipe(o);
        WatchedKeeps(config, before, o);
        SetupKeeps(config, Watched(config, before, o), o);
        ReadOutputPipe(o);
        BoundDrain(o.now);
        assert View() == Pass(config, before, o);
        next := next + 1;
      }
      verdict := Report(forwarded);
    }

    method Report(forwarded: bool) returns (verdict: Verdict)
      ensures verdict == Classify(View(), forwarded)
    {
      if cleanupUnverified { return CleanupUnverified; }
      if failureStage != STAGE_NONE { return SetupFailed; }
      if limits.unverified { return MonitorUnverified; }
      if limits.processExceeded { return ProcessLimit; }
      if limits.diskExceeded || limits.entriesExceeded {
        return if limits.diskExceeded then DiskLimit else EntryLimit;
      }
      if out.exceeded { return OutputLimit; }
      if limits.timedOut { return TimedOut; }
      if forwarded { return Interrupted; }
      match waitStatus
      case None => return Exited(0);
      case Some(ExitedWith(code)) => return Exited(code);
      case Some(KilledBy(signal)) =>
        if signal == SIGXCPU { return CpuLimit; }
        if signal == SIGXFSZ { return FileSizeLimit; }
        return Signaled(signal);
      case Some(Otherwise) => return SetupFailed;
    }
  }

  lemma InitialHolds(c: Config)
    requires Accepted(c)
    ensures Inv(c, Initial(c))
  {
  }
}
