/**
 * The ping diagnostic of demo/objects/ip_ping.c: the data-model thread and any number of worker threads
 * interleave at single atomic operations. Each worker acts on the object it is meant to receive.
 */
module IpPing {
  import opened ErrorCodes
  import opened Options

  const UINT16_MAX: int := 0xFFFF
  const UINT32_MAX: int := 0xFFFF_FFFF

  datatype Status = NotRun | InProgress | Complete | ErrorHostName | ErrorInternal | ErrorOther

  datatype Conf = Conf(hostname: string, repetitions: nat, timeoutMs: nat, blockSize: nat, dscp: nat)

  datatype Stats = Stats(successes: nat, errors: nat, avg: nat, min: nat, max: nat, stdevUs: nat)

  // ---------------------------------------------------------------- the data-model thread

  /** What is written; on a failed read of a string the buffer may already have been touched. */
  datatype Write =
    | Hostname(text: string, error: int)
    | Repetitions(number: int, error: int)
    | TimeoutMs(number: int, error: int)
    | BlockSize(number: int, error: int)
    | Dscp(number: int, error: int)

  datatype Operation = WriteThen(w: Write) | ExecuteThen

  /** Where the data-model thread is. */
  datatype Control =
    | Idle
    | Resetting(expected: Status, op: Operation)
    | Storing(w: Write)
    | Starting
    | Swapping(next: Status)

  /** How far starting the worker gets. */
  datatype Launch = CommandTooLong | NoPipe | NoThread | Launched

  // ---------------------------------------------------------------- the workers

  datatype Rtt = Rtt(min: nat, avg: nat, max: nat, mdevUs: nat)

  /** A line of output, by what the worker looks for in it. */
  datatype Line = End | Text(unknown: bool, counts: Option<(nat, nat)>, rtt: Option<Rtt>)

  /** Where a worker is; the arguments of Timing are those of update_response_times, stage by stage. */
  datatype Worker =
    | Reading(line: nat)
    | CountingErrors(total: nat, success: nat)
    | Reporting(times: Rtt, last: bool)
    | Timing(stage: nat, min: nat, max: nat, avg: nat, mdevUs: nat, last: bool)
    | Closing
    | Done

  datatype System = System(status: Status, conf: Conf, saved: Conf, inTransaction: bool, control: Control, result: int,
                           stats: Stats, workers: seq<Worker>, launched: Conf)

  const BLANK: Conf := Conf("", 0, 0, 0, 0)

  /** ip_ping_object_create: everything is zero. */
  function Initial(): System {
    System(NotRun, BLANK, BLANK, false, Idle, 0, Stats(0, 0, 0, 0, 0, 0), [], BLANK)
  }

  // ---------------------------------------------------------------- steps

  datatype Event =
    | BeginWrite(w: Write) | BeginExecute | TransactionBegin | TransactionCommit | TransactionRollback
    | CompareExchange(spurious: bool) | Store | Start(launch: Launch) | Swap
    | Work(k: nat, line: Line)

  /** Handlers run one after another, and Execute is never part of a transaction. */
  predicate Enabled(s: System, e: Event) {
    match e
    case BeginWrite(_) => s.control.Idle?
    case BeginExecute => s.control.Idle? && !s.inTransaction
    case TransactionBegin => s.control.Idle? && !s.inTransaction
    case TransactionCommit => s.control.Idle? && s.inTransaction
    case TransactionRollback => s.control.Idle? && s.inTransaction
    case CompareExchange(spurious) => s.control.Resetting? && (spurious ==> s.status == s.control.expected)
    case Store => s.control.Storing?
    case Start(_) => s.control.Starting?
    case Swap => s.control.Swapping?
    case Work(k, _) => k < |s.workers| && !s.workers[k].Done?
  }

  function Proceed(op: Operation): Control {
    match op case WriteThen(w) => Storing(w) case ExecuteThen => Starting
  }

  /** One compare-and-exchange of ip_ping_reset_diagnostic_state and the loop condition after it. */
  function TryReset(s: System, spurious: bool): System
    requires s.control.Resetting?
  {
    var op := s.control.op;
    if s.status == s.control.expected && !spurious then s.(status := NotRun, control := Proceed(op))
    else if s.status.NotRun? then s.(control := Proceed(op))
    else if s.status.InProgress? then s.(control := Idle, result := ERR_INTERNAL)
    else s.(control := Resetting(s.status, op))
  }

  function Checked(value: int, low: int, high: int, error: int): int {
    if error != 0 then error else if value < low || value > high then ERR_BAD_REQUEST else 0
  }

  /** The part of a write after the reset: the new configuration and what the handler returns. */
  function StoreConf(c: Conf, w: Write): (Conf, int) {
    match w
    case Hostname(text, error) => (c.(hostname := text), error)
    case Repetitions(n, error) => var r := Checked(n, 1, UINT32_MAX, error); (if r == 0 then c.(repetitions := n) else c, r)
    case TimeoutMs(n, error) => var r := Checked(n, 1, UINT32_MAX, error); (if r == 0 then c.(timeoutMs := n) else c, r)
    case BlockSize(n, error) => var r := Checked(n, 1, UINT16_MAX, error); (if r == 0 then c.(blockSize := n) else c, r)
    case Dscp(n, error) => var r := Checked(n, 0, 63, error); (if r == 0 then c.(dscp := n) else c, r)
  }

  predicate Incomplete(c: Conf) { c.repetitions == 0 || c.timeoutMs == 0 || c.blockSize == 0 || c.hostname == "" }

  /** start_ip_ping. */
  function StartPing(s: System, launch: Launch): System {
    if Incomplete(s.conf) then s.(control := Swapping(ErrorOther))
    else if !launch.Launched? then s.(control := Swapping(ErrorInternal))
    else s.(control := Swapping(InProgress), workers := s.workers + [Reading(0)], launched := s.conf)
  }

  /** One atomic operation of a worker, or the reading of one line. */
  function WorkerStep(s: System, w: Worker, line: Line): (System, Worker)
    requires !w.Done?
  {
    match w
    case Reading(n) =>
      if line.End? then (s, Closing)
      else if n == 0 then (if line.unknown then (s.(status := ErrorHostName), Closing) else (s, Reading(1)))
      else if n == 3 then
        (match line.counts
         case None => (s, Closing)
         case Some(c) => (s.(stats := s.stats.(successes := c.1)), CountingErrors(c.0, c.1)))
      else if n == 4 then
        (match line.rtt
         case None => (s, Closing)
         case Some(times) => (s, Reporting(times, false)))
      else (s, Reading(n + 1))
    case CountingErrors(total, success) =>
      (s.(stats := s.stats.(errors := (total - success) % 0x1_0000_0000)),
       if success == 0 then Reporting(Rtt(0, 0, 0, 0), true) else Reading(4))
    case Reporting(t, last) =>
      (s.(status := Complete), Timing(0, t.min, t.avg, t.max, t.mdevUs, last))
    case Timing(stage, min, max, avg, mdevUs, last) =>
      if stage == 0 then (s.(stats := s.stats.(min := min)), w.(stage := 1))
      else if stage == 1 then (s.(stats := s.stats.(avg := max)), w.(stage := 2))
      else if stage == 2 then (s.(stats := s.stats.(max := avg)), w.(stage := 3))
      else (s.(stats := s.stats.(stdevUs := mdevUs)), if last then Closing else Reading(5))
    case Closing => (if s.status.InProgress? then s.(status := ErrorInternal) else s, Done)
  }

  function Next(s: System, e: Event): System
    requires Enabled(s, e)
  {
    match e
    case BeginWrite(w) => s.(control := Resetting(Complete, WriteThen(w)))
    case BeginExecute => s.(control := Resetting(Complete, ExecuteThen))
    case TransactionBegin => s.(saved := s.conf, inTransaction := true, result := 0)
    case TransactionCommit => s.(inTransaction := false, result := 0)
    case TransactionRollback => s.(conf := s.saved, inTransaction := false, result := 0)
    case CompareExchange(spurious) => TryReset(s, spurious)
    case Store => var (c, r) := StoreConf(s.conf, s.control.w); s.(conf := c, control := Idle, result := r)
    case Start(launch) => StartPing(s, launch)
    case Swap => s.(status := if s.status.NotRun? then s.control.next else s.status, control := Idle, result := 0)
    case Work(k, line) => var (t, w) := WorkerStep(s, s.workers[k], line); t.(workers := t.workers[k := w])
  }

  // ---------------------------------------------------------------- the invariant

  ghost predicate Inv(s: System) {
    && (s.control.Storing? || s.control.Starting? || s.control.Swapping? ==> !s.status.InProgress?)
    && (s.control.Resetting? ==> !s.control.expected.NotRun? && !s.control.expected.InProgress?)
    && (s.inTransaction ==> !s.control.Starting? && !s.control.Swapping? && (s.control.Resetting? ==> s.control.op.WriteThen?))
    && (s.inTransaction && s.status.InProgress? ==> s.conf == s.saved)
    && (s.status.InProgress? ==> s.conf == s.launched)
    && (s.control.Swapping? && s.control.next.InProgress? ==> s.conf == s.launched)
  }

  lemma InitialInv()
    ensures Inv(Initial())
  {}

  /** A worker never starts a diagnostic and touches neither configuration nor the data-model thread. */
  lemma WorkerInv(s: System, w: Worker, line: Line)
    requires !w.Done?
    ensures var t := WorkerStep(s, w, line).0;
            && t.conf == s.conf && t.saved == s.saved && t.launched == s.launched && t.inTransaction == s.inTransaction
            && t.control == s.control && t.workers == s.workers && t.result == s.result
            && (t.status.InProgress? ==> s.status.InProgress?)
  {}

  lemma StepInv(s: System, e: Event)
    requires Inv(s) && Enabled(s, e)
    ensures Inv(Next(s, e))
  {
    match e
    case Work(k, line) => WorkerInv(s, s.workers[k], line);
    case _ =>
  }

  // ---------------------------------------------------------------- all runs

  /** An interleaving: the states it goes through and the steps between them. */
  ghost predicate IsRun(ss: seq<System>, es: seq<Event>) {
    Linked(ss, es) && ss[0] == Initial()
  }

  ghost predicate Linked(ss: seq<System>, es: seq<Event>) {
    |ss| == |es| + 1 && forall i :: 0 <= i < |es| ==> LinkedAt(ss, es, i)
  }

  ghost predicate LinkedAt(ss: seq<System>, es: seq<Event>, i: nat)
    requires |ss| == |es| + 1 && i < |es|
  {
    Enabled(ss[i], es[i]) && ss[i + 1] == Next(ss[i], es[i])
  }

  lemma {:induction false} RunInv(ss: seq<System>, es: seq<Event>, i: nat)
    requires IsRun(ss, es) && i < |ss|
    ensures Inv(ss[i])
  {
    if i == 0 {
      InitialInv();
    } else {
      RunInv(ss, es, i - 1);
      assert LinkedAt(ss, es, i - 1);
      StepInv(ss[i - 1], es[i - 1]);
    }
  }

  /** No step of the data-model thread takes the status out of IN_PROGRESS. */
  lemma DataModelKeepsInProgress(s: System, e: Event)
    requires Inv(s) && Enabled(s, e) && !e.Work? && s.status.InProgress?
    ensures Next(s, e).status.InProgress?
  {}

  /** No step changes the configuration while the status is IN_PROGRESS; a rollback then restores what is there. */
  lemma FrozenStep(s: System, e: Event)
    requires Inv(s) && Enabled(s, e) && s.status.InProgress?
    ensures Next(s, e).conf == s.conf && Next(s, e).launched == s.launched
  {
    match e
    case Work(k, line) => WorkerInv(s, s.workers[k], line);
    case _ =>
  }

  /** IN_PROGRESS is entered only by Execute, after launching a worker for the configuration in force. */
  lemma EnteredByExecute(s: System, e: Event)
    requires Inv(s) && Enabled(s, e) && !s.status.InProgress? && Next(s, e).status.InProgress?
    ensures e.Swap? && s.status.NotRun? && s.control.next.InProgress? && !s.inTransaction && s.conf == s.launched
  {
    match e
    case Work(k, line) => WorkerInv(s, s.workers[k], line);
    case _ =>
  }

  /** In every interleaving, over every stretch of IN_PROGRESS, the configuration is that of the launched worker. */
  lemma {:induction false} ConfigurationFrozen(ss: seq<System>, es: seq<Event>, i: nat, j: nat)
    requires IsRun(ss, es) && i <= j < |ss| && forall k :: i <= k <= j ==> ss[k].status.InProgress?
    ensures ss[j].conf == ss[i].conf == ss[i].launched
  {
    RunInv(ss, es, j);
    RunInv(ss, es, i);
    if i < j {
      ConfigurationFrozen(ss, es, i, j - 1);
      RunInv(ss, es, j - 1);
      assert LinkedAt(ss, es, j - 1);
      FrozenStep(ss[j - 1], es[j - 1]);
    }
  }

  // ---------------------------------------------------------------- what the configuration is

  datatype Setting = HostnameSetting | RepetitionsSetting | TimeoutSetting | BlockSizeSetting | DscpSetting

  function SettingOf(w: Write): Setting {
    match w
    case Hostname(_, _) => HostnameSetting
    case Repetitions(_, _) => RepetitionsSetting
    case TimeoutMs(_, _) => TimeoutSetting
    case BlockSize(_, _) => BlockSizeSetting
    case Dscp(_, _) => DscpSetting
  }

  /** The number could be read and lies in its range, ends included; a string is stored even if reading it fails. */
  predicate Stores(w: Write) {
    match w
    case Hostname(_, _) => true
    case Repetitions(n, error) => error == 0 && 1 <= n <= 0xFFFF_FFFF
    case TimeoutMs(n, error) => error == 0 && 1 <= n <= 0xFFFF_FFFF
    case BlockSize(n, error) => error == 0 && 1 <= n <= 0xFFFF
    case Dscp(n, error) => error == 0 && 0 <= n <= 63
  }

  /** The configuration has the value written. */
  predicate Carries(c: Conf, w: Write) {
    match w
    case Hostname(text, _) => c.hostname == text
    case Repetitions(n, _) => c.repetitions == n
    case TimeoutMs(n, _) => c.timeoutMs == n
    case BlockSize(n, _) => c.blockSize == n
    case Dscp(n, _) => c.dscp == n
  }

  predicate SameSetting(c: Conf, d: Conf, k: Setting) {
    match k
    case HostnameSetting => c.hostname == d.hostname
    case RepetitionsSetting => c.repetitions == d.repetitions
    case TimeoutSetting => c.timeoutMs == d.timeoutMs
    case BlockSizeSetting => c.blockSize == d.blockSize
    case DscpSetting => c.dscp == d.dscp
  }

  /** A write that stores its value stores it in its own setting and changes no other; one that does not changes none. */
  lemma StoreSpec(c: Conf, w: Write)
    ensures var (d, r) := StoreConf(c, w);
            && (Stores(w) ==> Carries(d, w)) && (!Stores(w) ==> d == c && r != 0)
            && (forall k :: k != SettingOf(w) ==> SameSetting(c, d, k))
            && r == if w.error != 0 then w.error else if Stores(w) then 0 else ERR_BAD_REQUEST
  {}

  /** The writes in force, and those in force when the open transaction began. */
  datatype Journal = Journal(now: seq<Write>, saved: seq<Write>)

  /** A store adds its write if it is one that stores; a rollback goes back to the beginning of the transaction. */
  ghost function Logged(j: Journal, s: System, e: Event): Journal {
    match e
    case TransactionBegin => j.(saved := j.now)
    case TransactionRollback => j.(now := j.saved)
    case Store => if s.control.Storing? && Stores(s.control.w) then j.(now := j.now + [s.control.w]) else j
    case _ => j
  }

  ghost function Log(ss: seq<System>, es: seq<Event>, i: nat): Journal
    requires |ss| == |es| + 1 && i <= |es|
  {
    if i == 0 then Journal([], []) else Logged(Log(ss, es, i - 1), ss[i - 1], es[i - 1])
  }

  ghost predicate LatestOf(ws: seq<Write>, k: nat) {
    k < |ws| && forall j :: k < j < |ws| ==> SettingOf(ws[j]) != SettingOf(ws[k])
  }

  ghost predicate Unset(ws: seq<Write>, k: Setting) { forall j :: 0 <= j < |ws| ==> SettingOf(ws[j]) != k }

  /** Each setting has the value of the latest write to it; without one, it is still blank. */
  ghost predicate Reflects(c: Conf, ws: seq<Write>) {
    && (forall k: nat :: LatestOf(ws, k) ==> Carries(c, ws[k]))
    && (forall k: Setting :: Unset(ws, k) ==> SameSetting(c, BLANK, k))
  }

  lemma CarriedAlong(c: Conf, d: Conf, w: Write)
    requires Carries(c, w) && SameSetting(c, d, SettingOf(w))
    ensures Carries(d, w)
  {}

  lemma ReflectsNext(c: Conf, ws: seq<Write>, w: Write)
    requires Reflects(c, ws) && Stores(w)
    ensures Reflects(StoreConf(c, w).0, ws + [w])
  {
    var d, more := StoreConf(c, w).0, ws + [w];
    StoreSpec(c, w);
    forall k: nat | LatestOf(more, k) ensures Carries(d, more[k]) {
      if k < |ws| {
        assert more[|ws|] == w && SettingOf(ws[k]) != SettingOf(w);
        assert forall j :: k < j < |ws| ==> more[j] == ws[j];
        assert LatestOf(ws, k);
        CarriedAlong(c, d, ws[k]);
      }
    }
    forall k: Setting | Unset(more, k) ensures SameSetting(d, BLANK, k) {
      assert more[|ws|] == w;
      assert forall j :: 0 <= j < |ws| ==> more[j] == ws[j];
      assert Unset(ws, k);
    }
  }

  lemma LoggedStep(s: System, e: Event, j: Journal)
    requires Enabled(s, e) && Reflects(s.conf, j.now) && Reflects(s.saved, j.saved)
    ensures var k := Logged(j, s, e); Reflects(Next(s, e).conf, k.now) == true && Reflects(Next(s, e).saved, k.saved) == true
  {
    match e
    case Work(k, line) => WorkerInv(s, s.workers[k], line);
    case Store =>
      StoreSpec(s.conf, s.control.w);
      if Stores(s.control.w) { ReflectsNext(s.conf, j.now, s.control.w); }
    case _ =>
  }

  /**
   * In every state of every run the configuration is what the writes in force make of it: each setting has the value of
   * the latest write to it that was stored and not rolled back.
   */
  lemma {:induction false} ConfigurationWritten(ss: seq<System>, es: seq<Event>, i: nat)
    requires IsRun(ss, es) && i < |ss|
    ensures Reflects(ss[i].conf, Log(ss, es, i).now) && Reflects(ss[i].saved, Log(ss, es, i).saved)
  {
    if i > 0 {
      ConfigurationWritten(ss, es, i - 1);
      assert LinkedAt(ss, es, i - 1);
      LoggedStep(ss[i - 1], es[i - 1], Log(ss, es, i - 1));
    }
  }

  /** A worker is launched only with host name, repetitions, timeout and block size set, and with what was written last. */
  lemma LaunchedAsWritten(ss: seq<System>, es: seq<Event>, i: nat)
    requires IsRun(ss, es) && i < |es| && |ss[i + 1].workers| > |ss[i].workers|
    ensures es[i].Start? && Reflects(ss[i + 1].launched, Log(ss, es, i + 1).now)
    ensures var c := ss[i + 1].launched; c.hostname != "" && c.repetitions > 0 && c.timeoutMs > 0 && c.blockSize > 0
  {
    assert LinkedAt(ss, es, i);
    ConfigurationWritten(ss, es, i + 1);
    match es[i]
    case Work(k, line) => WorkerInv(ss[i], ss[i].workers[k], line);
    case _ =>
  }

  /** While a diagnostic is in progress its worker's configuration is what the writes in force make of it. */
  lemma InProgressAsWritten(ss: seq<System>, es: seq<Event>, i: nat)
    requires IsRun(ss, es) && i < |ss| && ss[i].status.InProgress?
    ensures Reflects(ss[i].launched, Log(ss, es, i).now)
  {
    RunInv(ss, es, i);
    ConfigurationWritten(ss, es, i);
  }

  // ---------------------------------------------------------------- what is refused

  /**
   * Resetting the diagnostic is refused if and only if one is in progress; it then changes nothing. Otherwise the
   * compare-and-exchange either goes through, leaving the diagnostic not run, or is tried again with the status just seen.
   */
  lemma ResetDecided(s: System, spurious: bool)
    requires Inv(s) && Enabled(s, CompareExchange(spurious))
    ensures var t := Next(s, CompareExchange(spurious));
            && (t.control.Idle? <==> s.status.InProgress?)
            && (s.status.InProgress? ==> t == s.(control := Idle, result := ERR_INTERNAL))
            && (!s.status.InProgress? ==> t.result == s.result && t.conf == s.conf && t.stats == s.stats && t.workers == s.workers)
            && (t.control.Storing? || t.control.Starting? ==> t.status.NotRun?)
            && (t.control.Resetting? ==> t == s.(control := Resetting(s.status, s.control.op)))
            && (s.control.op.ExecuteThen? ==> !t.control.Storing?)
            && (s.control.op.WriteThen? ==> !t.control.Starting? && (t.control.Storing? ==> t.control.w == s.control.op.w))
  {}

  /** Without spurious failures a reset takes two attempts at most. */
  lemma ResetEnds(s: System)
    requires Inv(s) && s.control.Resetting?
    ensures var t := Next(s, CompareExchange(false));
            t.control.Resetting? ==> !Next(t, CompareExchange(false)).control.Resetting?
  {}

  /** Execute fails with ERROR_OTHER if a setting is missing, with ERROR_INTERNAL if no worker can be started, else it is in progress. */
  lemma StartDecided(s: System, launch: Launch)
    requires Enabled(s, Start(launch))
    ensures var t, c := Next(s, Start(launch)), s.conf;
            var complete := c.hostname != "" && c.repetitions != 0 && c.timeoutMs != 0 && c.blockSize != 0;
            && t.control.Swapping? && t.status == s.status && t.conf == s.conf
            && (t.control.next.ErrorOther? <==> !complete)
            && (t.control.next.InProgress? <==> complete && launch.Launched?)
            && (t.control.next.ErrorInternal? <==> complete && !launch.Launched?)
            && (if t.control.next.InProgress? then t.workers == s.workers + [Reading(0)] else t.workers == s.workers)
  {}

  // ---------------------------------------------------------------- can a diagnostic stay in progress for ever?

  predicate AllDone(s: System) { forall k :: 0 <= k < |s.workers| ==> s.workers[k].Done? }

  /** As long as the status is IN_PROGRESS some worker still has to close. */
  predicate Live(s: System) { s.status.InProgress? ==> !AllDone(s) }

  /**
   * A step keeps this property unless it is Execute's compare-and-exchange and every worker, its own included,
   * has already closed: that and nothing else gets the status stuck.
   */
  lemma LiveStep(s: System, e: Event)
    requires Enabled(s, e) && Live(s) && Inv(s)
    ensures Live(Next(s, e)) <==> !(e.Swap? && s.status.NotRun? && s.control.next.InProgress? && AllDone(s))
  {
    var t := Next(s, e);
    match e
    case Work(k, line) =>
      WorkerInv(s, s.workers[k], line);
      if t.status.InProgress? {
        assert !t.workers[k].Done?;
      }
    case Start(_) => EnteredOnlyBySwap(s, e);
    case _ => assert t.workers == s.workers;
  }

  lemma EnteredOnlyBySwap(s: System, e: Event)
    requires Enabled(s, e) && e.Start? && Inv(s)
    ensures !Next(s, e).status.InProgress?
  {}

  /** Stuck: in progress, with nothing left that could end it. */
  predicate Stuck(s: System) {
    s.status.InProgress? && AllDone(s) && !s.control.Storing? && !s.control.Starting? && !s.control.Swapping?
  }

  lemma StuckStep(s: System, e: Event)
    requires Inv(s) && Stuck(s) && Enabled(s, e)
    ensures Stuck(Next(s, e)) && Next(s, e).conf == s.conf
  {}

  /** Once stuck, stuck in every continuation: no Execute gets through, no write changes anything. */
  lemma {:induction false} StuckForever(ss: seq<System>, es: seq<Event>, i: nat, j: nat)
    requires IsRun(ss, es) && i <= j < |ss| && Stuck(ss[i])
    ensures Stuck(ss[j]) && ss[j].conf == ss[i].conf
  {
    if i < j {
      StuckForever(ss, es, i, j - 1);
      RunInv(ss, es, j - 1);
      assert LinkedAt(ss, es, j - 1);
      StuckStep(ss[j - 1], es[j - 1]);
    }
  }

  /** A sequence of steps carried out in order, if all of them are enabled. */
  function After(s: System, es: seq<Event>): Option<System>
    decreases |es|
  {
    if es == [] then Some(s)
    else if !Enabled(s, es[0]) then None
    else After(Next(s, es[0]), es[1..])
  }

  function States(s: System, es: seq<Event>): seq<System>
    requires After(s, es).Some?
    decreases |es|
  {
    if es == [] then [s] else [s] + States(Next(s, es[0]), es[1..])
  }

  /** Steps carried out in order make a run. */
  lemma {:induction false} StatesStep(s: System, es: seq<Event>)
    requires After(s, es).Some?
    ensures var ss := States(s, es); Linked(ss, es) && ss[0] == s && ss[|es|] == After(s, es).value
    decreases |es|
  {
    if es != [] {
      var n, tail, ss := Next(s, es[0]), es[1..], States(s, es);
      StatesStep(n, tail);
      var rest := States(n, tail);
      forall i | 0 <= i < |es| ensures LinkedAt(ss, es, i) {
        if i > 0 { assert LinkedAt(rest, tail, i - 1); }
      }
    }
  }

  lemma AfterCons(s: System, e: Event, es: seq<Event>)
    requires Enabled(s, e)
    ensures After(s, [e] + es) == After(Next(s, e), es)
  {}

  /** A successful write from a state without a diagnostic. */
  function WriteSteps(w: Write): seq<Event> { [BeginWrite(w), CompareExchange(false), Store] }

  lemma Written(s: System, w: Write, es: seq<Event>)
    requires s.control.Idle? && s.status.NotRun?
    ensures After(s, WriteSteps(w) + es) == After(s.(conf := StoreConf(s.conf, w).0, result := StoreConf(s.conf, w).1), es)
  {
    assert WriteSteps(w) + es == [BeginWrite(w)] + ([CompareExchange(false)] + ([Store] + es));
    var a := Next(s, BeginWrite(w));
    AfterCons(s, BeginWrite(w), [CompareExchange(false)] + ([Store] + es));
    AfterCons(a, CompareExchange(false), [Store] + es);
    AfterCons(Next(a, CompareExchange(false)), Store, es);
  }

  /** Where Execute ends up when it gets through. */
  function Outcome(c: Conf, launch: Launch): Status {
    if c.hostname == "" || c.repetitions == 0 || c.timeoutMs == 0 || c.blockSize == 0 then ErrorOther
    else if launch.Launched? then InProgress else ErrorInternal
  }

  /** Execute on its own, after a diagnostic that is complete or none at all: the status tells how it went. */
  lemma ExecuteAlone(s: System, launch: Launch, es: seq<Event>)
    requires s.control.Idle? && !s.inTransaction && (s.status.NotRun? || s.status.Complete?)
    ensures var started := Outcome(s.conf, launch);
            After(s, [BeginExecute] + ([CompareExchange(false)] + ([Start(launch)] + ([Swap] + es))))
            == After(if started.InProgress? then s.(status := started, result := 0, workers := s.workers + [Reading(0)], launched := s.conf)
                     else s.(status := started, result := 0), es)
  {
    var a := Next(s, BeginExecute);
    var b := Next(a, CompareExchange(false));
    var c := Next(b, Start(launch));
    AfterCons(s, BeginExecute, [CompareExchange(false)] + ([Start(launch)] + ([Swap] + es)));
    AfterCons(a, CompareExchange(false), [Start(launch)] + ([Swap] + es));
    AfterCons(b, Start(launch), [Swap] + es);
    AfterCons(c, Swap, es);
  }

  /** While a diagnostic is in progress, writes and Execute fail and change nothing. */
  lemma BusyRefused(s: System, w: Write, es: seq<Event>)
    requires s.control.Idle? && s.status.InProgress?
    ensures After(s, [BeginWrite(w)] + ([CompareExchange(false)] + es)) == After(s.(result := ERR_INTERNAL), es)
    ensures !s.inTransaction ==> After(s, [BeginExecute] + ([CompareExchange(false)] + es)) == After(s.(result := ERR_INTERNAL), es)
  {
    AfterCons(s, BeginWrite(w), [CompareExchange(false)] + es);
    AfterCons(Next(s, BeginWrite(w)), CompareExchange(false), es);
    if !s.inTransaction {
      AfterCons(s, BeginExecute, [CompareExchange(false)] + es);
      AfterCons(Next(s, BeginExecute), CompareExchange(false), es);
    }
  }

  /** The configuration is written, Execute launches a worker, and the worker closes before Execute goes on. */
  function TooFast(): seq<Event> {
    WriteSteps(Hostname("host", 0)) + (WriteSteps(Repetitions(1, 0)) + (WriteSteps(TimeoutMs(1, 0)) + (WriteSteps(BlockSize(1, 0))
    + [BeginExecute, CompareExchange(false), Start(Launched), Work(0, End), Work(0, End), Swap])))
  }

  lemma Launching(s: System, es: seq<Event>)
    requires s.control.Idle? && s.status.NotRun? && !s.inTransaction && !Incomplete(s.conf)
    ensures After(s, [BeginExecute, CompareExchange(false), Start(Launched)] + es)
         == After(s.(control := Swapping(InProgress), workers := s.workers + [Reading(0)], launched := s.conf), es)
  {
    assert [BeginExecute, CompareExchange(false), Start(Launched)] + es
        == [BeginExecute] + ([CompareExchange(false)] + ([Start(Launched)] + es));
    var a := Next(s, BeginExecute);
    var b := Next(a, CompareExchange(false));
    AfterCons(s, BeginExecute, [CompareExchange(false)] + ([Start(Launched)] + es));
    AfterCons(a, CompareExchange(false), [Start(Launched)] + es);
    AfterCons(b, Start(Launched), es);
  }

  lemma ClosingFirst(s: System)
    requires s.control == Swapping(InProgress) && s.status.NotRun? && s.workers == [Reading(0)]
    ensures After(s, [Work(0, End), Work(0, End), Swap])
         == Some(s.(control := Idle, status := InProgress, result := 0, workers := [Done]))
  {
    assert [Work(0, End), Work(0, End), Swap] == [Work(0, End)] + ([Work(0, End)] + ([Swap] + []));
    var a := Next(s, Work(0, End));
    var b := Next(a, Work(0, End));
    AfterCons(s, Work(0, End), [Work(0, End)] + ([Swap] + []));
    assert a.workers == [Closing] && b.workers == [Done];
    AfterCons(a, Work(0, End), [Swap] + []);
    AfterCons(b, Swap, []);
  }

  lemma LaunchAndClose(s: System)
    requires s.control.Idle? && s.status.NotRun? && !s.inTransaction && s.workers == [] && !Incomplete(s.conf)
    ensures var t := After(s, [BeginExecute, CompareExchange(false), Start(Launched), Work(0, End), Work(0, End), Swap]);
            t.Some? && Stuck(t.value)
  {
    assert [BeginExecute, CompareExchange(false), Start(Launched), Work(0, End), Work(0, End), Swap]
        == [BeginExecute, CompareExchange(false), Start(Launched)] + [Work(0, End), Work(0, End), Swap];
    Launching(s, [Work(0, End), Work(0, End), Swap]);
    var t := s.(control := Swapping(InProgress), workers := s.workers + [Reading(0)], launched := s.conf);
    ClosingFirst(t);
  }

  /** It does happen: a worker that reads no output can close before Execute marks the diagnostic as started. */
  lemma StuckReachable() returns (ss: seq<System>, es: seq<Event>)
    ensures IsRun(ss, es) && Stuck(ss[|es|])
  {
    es := TooFast();
    var last := [BeginExecute, CompareExchange(false), Start(Launched), Work(0, End), Work(0, End), Swap];
    var s0 := Initial();
    Written(s0, Hostname("host", 0),
            WriteSteps(Repetitions(1, 0)) + (WriteSteps(TimeoutMs(1, 0)) + (WriteSteps(BlockSize(1, 0)) + last)));
    var s1 := s0.(conf := Conf("host", 0, 0, 0, 0));
    Written(s1, Repetitions(1, 0), WriteSteps(TimeoutMs(1, 0)) + (WriteSteps(BlockSize(1, 0)) + last));
    var s2 := s1.(conf := Conf("host", 1, 0, 0, 0));
    Written(s2, TimeoutMs(1, 0), WriteSteps(BlockSize(1, 0)) + last);
    var s3 := s2.(conf := Conf("host", 1, 1, 0, 0));
    Written(s3, BlockSize(1, 0), last);
    var s4 := s3.(conf := Conf("host", 1, 1, 1, 0));
    LaunchAndClose(s4);
    StatesStep(s0, es);
    ss := States(s0, es);
  }

  // ---------------------------------------------------------------- what a worker reports

  function WithWorker(s: System, k: nat, w: Worker): System
    requires k < |s.workers|
  {
    s.(workers := s.workers[k := w])
  }

  lemma WorkNext(s: System, k: nat, w: Worker, line: Line, es: seq<Event>)
    requires k < |s.workers| && !w.Done?
    ensures var (t, v) := WorkerStep(s, w, line);
            t.workers == s.workers && After(WithWorker(s, k, w), [Work(k, line)] + es) == After(WithWorker(t, k, v), es)
  {
    var a := WithWorker(s, k, w);
    AfterCons(a, Work(k, line), es);
    var (t, v) := WorkerStep(s, w, line);
    assert Next(a, Work(k, line)).workers == s.workers[k := v];
  }

  /** The four stores of update_response_times put every value where it belongs: its two swaps cancel out. */
  lemma TimesStored(s: System, k: nat, t: Rtt, last: bool, l: Line, es: seq<Event>)
    requires k < |s.workers|
    ensures var w := Work(k, l);
            var stored := s.(status := Complete, stats := s.stats.(min := t.min, avg := t.avg, max := t.max, stdevUs := t.mdevUs));
            After(WithWorker(s, k, Reporting(t, last)), [w] + ([w] + ([w] + ([w] + ([w] + es)))))
            == After(WithWorker(stored, k, if last then Closing else Reading(5)), es)
  {
    var w := Work(k, l);
    var t0 := Timing(0, t.min, t.avg, t.max, t.mdevUs, last);
    var a := s.(status := Complete);
    var b := a.(stats := a.stats.(min := t.min));
    var c := b.(stats := b.stats.(avg := t.avg));
    var d := c.(stats := c.stats.(max := t.max));
    WorkNext(s, k, Reporting(t, last), l, [w] + ([w] + ([w] + ([w] + es))));
    WorkNext(a, k, t0, l, [w] + ([w] + ([w] + es)));
    WorkNext(b, k, t0.(stage := 1), l, [w] + ([w] + es));
    WorkNext(c, k, t0.(stage := 2), l, [w] + es);
    WorkNext(d, k, t0.(stage := 3), l, es);
  }

  /** The three lines before the counts. */
  lemma LinesSkipped(s: System, k: nat, l0: Line, l1: Line, l2: Line, es: seq<Event>)
    requires k < |s.workers| && l0.Text? && !l0.unknown && l1.Text? && l2.Text?
    ensures After(WithWorker(s, k, Reading(0)), [Work(k, l0)] + ([Work(k, l1)] + ([Work(k, l2)] + es)))
         == After(WithWorker(s, k, Reading(3)), es)
  {
    WorkNext(s, k, Reading(0), l0, [Work(k, l1)] + ([Work(k, l2)] + es));
    WorkNext(s, k, Reading(1), l1, [Work(k, l2)] + es);
    WorkNext(s, k, Reading(2), l2, es);
  }

  lemma CountsStored(s: System, k: nat, l: Line, es: seq<Event>)
    requires k < |s.workers| && l.Text? && l.counts.Some?
    ensures var (total, success) := l.counts.value;
            var counted := s.(stats := s.stats.(successes := success, errors := (total - success) % 0x1_0000_0000));
            After(WithWorker(s, k, Reading(3)), [Work(k, l)] + ([Work(k, l)] + es))
            == After(WithWorker(counted, k, if success == 0 then Reporting(Rtt(0, 0, 0, 0), true) else Reading(4)), es)
  {
    var (total, success) := l.counts.value;
    WorkNext(s, k, Reading(3), l, [Work(k, l)] + es);
    WorkNext(s.(stats := s.stats.(successes := success)), k, CountingErrors(total, success), l, es);
  }

  lemma RttStored(s: System, k: nat, l: Line, es: seq<Event>)
    requires k < |s.workers| && l.Text? && l.rtt.Some?
    ensures var t, e := l.rtt.value, Work(k, End);
            var stored := s.(status := Complete, stats := s.stats.(min := t.min, avg := t.avg, max := t.max, stdevUs := t.mdevUs));
            After(WithWorker(s, k, Reading(4)), [Work(k, l)] + ([e] + ([e] + ([e] + ([e] + ([e] + es))))))
            == After(WithWorker(stored, k, Reading(5)), es)
  {
    var e := Work(k, End);
    WorkNext(s, k, Reading(4), l, [e] + ([e] + ([e] + ([e] + ([e] + es)))));
    TimesStored(s, k, l.rtt.value, false, End, es);
  }

  lemma ClosedAfter(s: System, k: nat)
    requires k < |s.workers| && s.status.Complete?
    ensures After(WithWorker(s, k, Reading(5)), [Work(k, End)] + ([Work(k, End)] + [])) == Some(WithWorker(s, k, Done))
  {
    WorkNext(s, k, Reading(5), End, [Work(k, End)] + []);
    WorkNext(s, k, Closing, End, []);
  }

  /** The last step of a worker: a diagnostic that is still in progress has failed. */
  lemma Closed(s: System, k: nat, line: Line)
    requires k < |s.workers|
    ensures After(WithWorker(s, k, Closing), [Work(k, line)] + [])
         == Some(WithWorker(s.(status := if s.status.InProgress? then ErrorInternal else s.status), k, Done))
  {
    WorkNext(s, k, Closing, line, []);
  }

  /** An unknown host, told by the first line, ends the diagnostic with ERROR_HOSTNAME and no numbers. */
  lemma HostUnknown(s: System, k: nat, l: Line)
    requires k < |s.workers| && l.Text? && l.unknown
    ensures After(WithWorker(s, k, Reading(0)), [Work(k, l)] + ([Work(k, End)] + []))
         == Some(WithWorker(s.(status := ErrorHostName), k, Done))
  {
    WorkNext(s, k, Reading(0), l, [Work(k, End)] + []);
    Closed(s.(status := ErrorHostName), k, End);
  }

  /** Output that ends too early, or lacks the numbers where they should be, ends a diagnostic in progress with ERROR_INTERNAL. */
  lemma ReportCut(s: System, k: nat, n: nat, l: Line)
    requires k < |s.workers| && s.status.InProgress?
    requires l.End? || (n == 3 && l.counts.None?) || (n == 4 && l.rtt.None?)
    ensures After(WithWorker(s, k, Reading(n)), [Work(k, l)] + ([Work(k, End)] + []))
         == Some(WithWorker(s.(status := ErrorInternal), k, Done))
  {
    WorkNext(s, k, Reading(n), l, [Work(k, End)] + []);
    Closed(s, k, End);
  }

  /** If no reply came, the diagnostic is COMPLETE with the losses counted and all times zero. */
  lemma NoReplies(s: System, k: nat, l: Line)
    requires k < |s.workers| && l.Text? && l.counts.Some? && l.counts.value.1 == 0
    ensures var w := Work(k, End);
            After(WithWorker(s, k, Reading(3)), [Work(k, l)] + ([Work(k, l)] + ([w] + ([w] + ([w] + ([w] + ([w] + ([w] + []))))))))
            == Some(WithWorker(s.(status := Complete, stats := Stats(0, l.counts.value.0 % 0x1_0000_0000, 0, 0, 0, 0)), k, Done))
  {
    var w := Work(k, End);
    CountsStored(s, k, l, [w] + ([w] + ([w] + ([w] + ([w] + ([w] + []))))));
    var counted := s.(stats := s.stats.(successes := 0, errors := l.counts.value.0 % 0x1_0000_0000));
    TimesStored(counted, k, Rtt(0, 0, 0, 0), true, End, [w] + []);
    Closed(counted.(status := Complete, stats := counted.stats.(min := 0, avg := 0, max := 0, stdevUs := 0)), k, End);
  }

  /** The steps of a worker that reads the line with the times, stores them, finds the end of the output and closes. */
  function TimesAndEnd(k: nat, l: Line): seq<Event> {
    var e := Work(k, End);
    [Work(k, l)] + ([e] + ([e] + ([e] + ([e] + ([e] + ([e] + ([e] + [])))))))
  }

  lemma TimesAndEndStored(s: System, k: nat, l: Line)
    requires k < |s.workers| && l.Text? && l.rtt.Some?
    ensures var t := l.rtt.value;
            After(WithWorker(s, k, Reading(4)), TimesAndEnd(k, l))
            == Some(WithWorker(s.(status := Complete,
                                  stats := s.stats.(min := t.min, avg := t.avg, max := t.max, stdevUs := t.mdevUs)), k, Done))
  {
    var t, e := l.rtt.value, Work(k, End);
    RttStored(s, k, l, [e] + ([e] + []));
    ClosedAfter(s.(status := Complete, stats := s.stats.(min := t.min, avg := t.avg, max := t.max, stdevUs := t.mdevUs)), k);
  }

  /** The steps of a worker that reads a complete report with at least one reply, and nothing after it. */
  function FullReport(k: nat, l0: Line, l1: Line, l2: Line, l3: Line, l4: Line): seq<Event> {
    [Work(k, l0)] + ([Work(k, l1)] + ([Work(k, l2)] + ([Work(k, l3)] + ([Work(k, l3)] + TimesAndEnd(k, l4)))))
  }

  lemma NumbersStored(s: System, k: nat, l3: Line, l4: Line)
    requires k < |s.workers| && l3.Text? && l3.counts.Some? && l3.counts.value.1 != 0 && l4.Text? && l4.rtt.Some?
    ensures var (total, success) := l3.counts.value;
            var t := l4.rtt.value;
            After(WithWorker(s, k, Reading(3)), [Work(k, l3)] + ([Work(k, l3)] + TimesAndEnd(k, l4)))
            == Some(WithWorker(s.(status := Complete,
                                  stats := Stats(success, (total - success) % 0x1_0000_0000, t.avg, t.min, t.max, t.mdevUs)), k, Done))
  {
    var (total, success) := l3.counts.value;
    CountsStored(s, k, l3, TimesAndEnd(k, l4));
    TimesAndEndStored(s.(stats := s.stats.(successes := success, errors := (total - success) % 0x1_0000_0000)), k, l4);
  }

  /** A complete report leaves the diagnostic COMPLETE with exactly the numbers reported. */
  lemma ReportStored(s: System, k: nat, l0: Line, l1: Line, l2: Line, l3: Line, l4: Line)
    requires k < |s.workers| && l0.Text? && !l0.unknown && l1.Text? && l2.Text? && l3.Text? && l3.counts.Some?
    requires l3.counts.value.1 != 0 && l4.Text? && l4.rtt.Some?
    ensures var (total, success) := l3.counts.value;
            var t := l4.rtt.value;
            After(WithWorker(s, k, Reading(0)), FullReport(k, l0, l1, l2, l3, l4))
            == Some(WithWorker(s.(status := Complete,
                                  stats := Stats(success, (total - success) % 0x1_0000_0000, t.avg, t.min, t.max, t.mdevUs)), k, Done))
  {
    LinesSkipped(s, k, l0, l1, l2, [Work(k, l3)] + ([Work(k, l3)] + TimesAndEnd(k, l4)));
    NumbersStored(s, k, l3, l4);
  }
}
