/**
 * The foreground controller of src/app.rs: the `App` state, draining the job's
 * channel, key handling, the 2-second auto-exit and the main loop.
 *
 * An `AppState` value is the abstract view of an `App` object. The transition
 * functions below say what each step does to that view, the class's methods are
 * proved to follow them, and the lemmas state the promised properties. The mpsc
 * receiver is a queue consumed from the front; the producer's sends are
 * `Delivery`s into the channel they were sent on. Time is an integer number of
 * milliseconds and the file picker's answer is an input.
 */
module Controller {
  import opened Base
  import opened Protocol
  import Paths

  /** Delay after a finished job before the application exits, in milliseconds. */
  const AUTO_EXIT_MILLIS: int := 2000

  const START_STATUS: string := " Start by pressing 'o' to open a file"
  const COMPLETE_STATUS: string := " Compression complete!"
  const ERROR_PREFIX: string := " Error: "
  const COMPRESSING_PREFIX: string := " Compressing "
  const CANCELLED_STATUS: string := "Not Compressing "

  /** The receiving end of one job's channel: its identity and the messages not yet taken. */
  datatype Receiver = Receiver(channel: nat, queue: seq<CompressMessage>)

  /** What `last_compression_result` reports; the source formats it into a string. */
  datatype Summary = Summary(outputPath: string, originalSize: nat, compressedSize: nat, ratio: real)

  datatype KeyCode = Char(c: char) | OtherKey
  datatype KeyKind = Press | Release | Repeat

  /** What one `event::poll` / `event::read` yields within a tick. */
  datatype Input = NoInput | Key(code: KeyCode, kind: KeyKind) | OtherEvent | InputFailed(error: string)

  /** A compression job handed to the background: its paths and the channel it sends on. */
  datatype Job = Job(inputPath: string, outputPath: string, channel: nat)

  /** Messages a producer sent on a channel since the last tick. */
  datatype Delivery = Delivery(channel: nat, messages: seq<CompressMessage>)

  /** One pass of the main loop: the sends that arrived, the input, the picker's answer and the time. */
  datatype Tick = Tick(deliveries: seq<Delivery>, input: Input, picked: Option<string>, now: int)

  datatype AppState = AppState(
    exit: bool,
    isCompressing: bool,
    progress: real,
    statusMessage: string,
    receiver: Option<Receiver>,
    lastCompressionResult: Option<Summary>,
    compressionFinishedAt: Option<int>,
    channelsOpened: nat)

  /** What the main loop returns: the final state, ticks taken, its result and the jobs started. */
  datatype RunResult = RunResult(state: AppState, taken: nat, outcome: Outcome, jobs: seq<Job>)

  /** `App::default`, with no channel created yet. */
  function Initial(): AppState {
    AppState(false, false, 0.0, START_STATUS, None, None, None, 0)
  }

  /**
   * What every reachable state satisfies: a job runs exactly while a receiver is
   * held, the receiver's channel was opened by this controller, progress is never
   * negative, and a finish time is only kept with a result and no running job.
   */
  predicate Invariant(s: AppState) {
    (s.isCompressing <==> s.receiver.Some?) &&
    (s.receiver.Some? ==> s.receiver.value.channel < s.channelsOpened) &&
    s.progress >= 0.0 &&
    (s.compressionFinishedAt.Some? ==> !s.isCompressing && s.lastCompressionResult.Some?)
  }

  /** The ratio reported for a finished job, in percent; 0 for an empty original. */
  function Ratio(originalSize: nat, compressedSize: nat): (r: real)
    ensures r >= 0.0
    ensures originalSize == 0 ==> r == 0.0
    ensures originalSize > 0 ==> r * (originalSize as real) == (compressedSize as real) * 100.0
  {
    if originalSize > 0 then (compressedSize as real / originalSize as real) * 100.0 else 0.0
  }

  /** The fraction a Progress message shows; the current one when its total is unknown (0). */
  function Fraction(current: real, m: CompressMessage): real
    requires m.Progress?
  {
    if m.totalBytes > 0 then m.bytesProcessed as real / m.totalBytes as real else current
  }

  /** The effect of one message taken off the queue (app.rs lines 80-120). */
  function Receive(s: AppState, m: CompressMessage, now: int): AppState {
    match m
    case Progress(_, _) => s.(progress := Fraction(s.progress, m))
    case Finished(original, compressed, path) =>
      s.(isCompressing := false, progress := 1.0, statusMessage := COMPLETE_STATUS, receiver := None,
         lastCompressionResult := Some(Summary(path, original, compressed, Ratio(original, compressed))),
         compressionFinishedAt := Some(now))
    case Error(e) =>
      s.(isCompressing := false, progress := 0.0, statusMessage := ERROR_PREFIX + e, receiver := None)
  }

  function QueueLength(s: AppState): nat {
    if s.receiver.Some? then |s.receiver.value.queue| else 0
  }

  /**
   * `check_compression_progress`: take messages off the queue in order until it is
   * empty or a terminal message has dropped the receiver. Afterwards nothing is left
   * to take; only the progress-related fields change; the invariant is kept.
   */
  function Drained(s: AppState, now: int): (r: AppState)
    ensures s.receiver.None? ==> r == s
    ensures r.receiver.None? || r.receiver.value.queue == []
    ensures r.receiver.Some? ==> s.receiver.Some? && r.receiver.value.channel == s.receiver.value.channel
    ensures r.exit == s.exit && r.channelsOpened == s.channelsOpened
    ensures Invariant(s) ==> Invariant(r)
    decreases QueueLength(s)
  {
    match s.receiver
    case None => s
    case Some(rx) =>
      if rx.queue == [] then s
      else
        var m := rx.queue[0];
        var next := Receive(s.(receiver := Some(rx.(queue := rx.queue[1..]))), m, now);
        if m.IsTerminal() then next else Drained(next, now)
  }

  /** The fraction shown after a run of Progress messages: that of the last one with a known total. */
  function LastKnownFraction(current: real, ps: seq<CompressMessage>): real
    requires forall i :: 0 <= i < |ps| ==> ps[i].Progress?
  {
    if ps == [] then current
    else if ps[|ps| - 1].totalBytes > 0 then Fraction(current, ps[|ps| - 1])
    else LastKnownFraction(current, ps[..|ps| - 1])
  }

  lemma {:induction false} LastKnownFractionStep(current: real, m: CompressMessage, ps: seq<CompressMessage>)
    requires m.Progress?
    requires forall i :: 0 <= i < |ps| ==> ps[i].Progress?
    ensures LastKnownFraction(Fraction(current, m), ps) == LastKnownFraction(current, [m] + ps)
  {
    if ps != [] {
      assert ([m] + ps)[..|[m] + ps| - 1] == [m] + ps[..|ps| - 1];
      LastKnownFractionStep(current, m, ps[..|ps| - 1]);
    }
  }

  /**
   * Draining a queue of Progress messages only empties it and shows the fraction of
   * the last message whose total is known; messages with total 0 change nothing.
   */
  lemma {:induction false} DrainProgressOnly(s: AppState, ps: seq<CompressMessage>, now: int)
    requires s.receiver.Some? && s.receiver.value.queue == ps
    requires forall i :: 0 <= i < |ps| ==> ps[i].Progress?
    ensures Drained(s, now) == s.(progress := LastKnownFraction(s.progress, ps),
                                  receiver := Some(s.receiver.value.(queue := [])))
    decreases |ps|
  {
    if ps != [] {
      var next := s.(receiver := Some(s.receiver.value.(queue := ps[1..])), progress := Fraction(s.progress, ps[0]));
      DrainProgressOnly(next, ps[1..], now);
      LastKnownFractionStep(s.progress, ps[0], ps[1..]);
      assert [ps[0]] + ps[1..] == ps;
    }
  }

  /**
   * Draining stops at the first terminal message: whatever was queued after it is
   * dropped with the receiver. `Finished` shows progress 1, records the result and
   * the finish time; `Error` shows progress 0 and its message, and keeps the last result.
   */
  lemma {:induction false} DrainStopsAtTerminal(s: AppState, ps: seq<CompressMessage>, t: CompressMessage,
                                             rest: seq<CompressMessage>, now: int)
    requires s.receiver.Some? && s.receiver.value.queue == ps + [t] + rest
    requires forall i :: 0 <= i < |ps| ==> ps[i].Progress?
    requires t.IsTerminal()
    ensures var r := Drained(s, now);
      r.receiver.None? && !r.isCompressing && r.exit == s.exit &&
      (t.Finished? ==>
        r.progress == 1.0 && r.statusMessage == COMPLETE_STATUS &&
        r.compressionFinishedAt == Some(now) &&
        r.lastCompressionResult == Some(Summary(t.outputPath, t.originalSize, t.compressedSize,
                                                Ratio(t.originalSize, t.compressedSize)))) &&
      (t.Error? ==>
        r.progress == 0.0 && r.statusMessage == ERROR_PREFIX + t.message &&
        r.compressionFinishedAt == s.compressionFinishedAt &&
        r.lastCompressionResult == s.lastCompressionResult)
    decreases |ps|
  {
    var q := ps + [t] + rest;
    if ps == [] {
      assert q[0] == t;
    } else {
      assert q[0] == ps[0];
      assert q[1..] == ps[1..] + [t] + rest;
      var next := s.(receiver := Some(s.receiver.value.(queue := q[1..])), progress := Fraction(s.progress, ps[0]));
      DrainStopsAtTerminal(next, ps[1..], t, rest, now);
    }
  }

  /**
   * Draining a job's whole well-formed stream ends the job: the receiver is dropped,
   * and the progress shown is 1 after `Finished` and 0 after `Error`.
   */
  lemma DrainWholeStream(s: AppState, stream: seq<CompressMessage>, now: int)
    requires s.receiver.Some? && s.receiver.value.queue == stream
    requires WellFormedStream(stream)
    ensures var r := Drained(s, now);
      r.receiver.None? && !r.isCompressing &&
      r.progress == (if stream[|stream| - 1].Finished? then 1.0 else 0.0)
  {
    var n := |stream| - 1;
    assert stream == stream[..n] + [stream[n]] + [];
    DrainStopsAtTerminal(s, stream[..n], stream[n], [], now);
  }

  /** Any key press while no job runs first clears a progress left from the last job. */
  function ResetProgress(s: AppState): AppState {
    if !s.isCompressing && s.progress > 0.0 then s.(progress := 0.0) else s
  }

  /**
   * The state after a file is picked (app.rs lines 137-160): a fresh receiver replaces
   * any previous one, the job is running at progress 0 with no finish time, and the
   * status names the file. Returns the job to start.
   */
  function Opened(s: AppState, input: string): (AppState, Job) {
    var c := s.channelsOpened;
    var name := match Paths.FileName(input) case Some(n) => n case None => "";
    (s.(receiver := Some(Receiver(c, [])), isCompressing := true, progress := 0.0,
        compressionFinishedAt := None, statusMessage := COMPRESSING_PREFIX + "\"" + name + "\"",
        channelsOpened := c + 1),
     Job(input, Paths.CompressedPath(input), c))
  }

  /**
   * `handle_key_event`: 'q' exits; 'o' opens the picker and, given a file, starts a
   * job; a cancelled picker only changes the status. Other keys do nothing beyond
   * the progress reset.
   */
  function AfterKey(s: AppState, code: KeyCode, picked: Option<string>): (AppState, Option<Job>) {
    var s := ResetProgress(s);
    if code == Char('q') then
      (s.(exit := true), None)
    else if code == Char('o') then
      match picked
      case Some(input) => var (r, job) := Opened(s, input); (r, Some(job))
      case None => (s.(statusMessage := CANCELLED_STATUS), None)
    else
      (s, None)
  }

  /** After a key press while no job runs, no progress is left over. */
  lemma KeyResetsProgress(s: AppState, code: KeyCode, picked: Option<string>)
    requires Invariant(s) && !s.isCompressing
    ensures AfterKey(s, code, picked).0.progress == 0.0
  {
  }

  /** A key press while a job runs keeps its progress, unless it picks a new file to open. */
  lemma KeyKeepsProgressDuringJob(s: AppState, code: KeyCode, picked: Option<string>)
    requires s.isCompressing && !(code == Char('o') && picked.Some?)
    ensures AfterKey(s, code, picked).0.progress == s.progress
  {
  }

  /**
   * Opening a file starts a compression job to the input with ".zst" appended (the
   * corrected naming, which agrees with app.rs's whenever the file has an extension),
   * on a channel never used before; the job is running at progress 0, no finish time
   * is kept, and only the new channel is received from.
   */
  lemma OpenStartsJob(s: AppState, input: string)
    requires Invariant(s)
    requires Paths.FileName(input).Some?
    ensures var (r, job) := AfterKey(s, Char('o'), Some(input));
      job.Some? && job.value.inputPath == input && job.value.outputPath == input + ".zst" &&
      (Paths.Extension(input).Some? ==> job.value.outputPath == Paths.CompressedPathAsWritten(input)) &&
      r.isCompressing && r.progress == 0.0 && r.compressionFinishedAt.None? &&
      r.receiver == Some(Receiver(job.value.channel, [])) &&
      (s.receiver.Some? ==> s.receiver.value.channel != job.value.channel) &&
      Invariant(r)
  {
  }

  /** Cancelling the picker changes the status and nothing else beyond the progress reset. */
  lemma CancelOnlyChangesStatus(s: AppState)
    ensures AfterKey(s, Char('o'), None) ==
      (s.(statusMessage := CANCELLED_STATUS, progress := ResetProgress(s).progress), None)
  {
  }

  /** The producer's sends on a channel the controller no longer holds are dropped. */
  function AfterDelivery(s: AppState, d: Delivery): AppState {
    match s.receiver
    case Some(rx) =>
      if rx.channel == d.channel then s.(receiver := Some(rx.(queue := rx.queue + d.messages))) else s
    case None => s
  }

  /** The messages of the deliveries on channel `c`, in delivery order. */
  function On(c: nat, ds: seq<Delivery>): seq<CompressMessage>
    decreases |ds|
  {
    if ds == [] then [] else (if ds[0].channel == c then ds[0].messages else []) + On(c, ds[1..])
  }

  /**
   * A run of deliveries appends, in order, exactly the messages sent on the held channel
   * to its queue, drops all others, and changes nothing else.
   */
  function AfterDeliveries(s: AppState, ds: seq<Delivery>): (r: AppState)
    ensures s.receiver.None? ==> r == s
    ensures s.receiver.Some? ==>
      r == s.(receiver := Some(s.receiver.value.(queue := s.receiver.value.queue + On(s.receiver.value.channel, ds))))
    ensures Invariant(s) ==> Invariant(r)
    ensures r.exit == s.exit
    decreases |ds|
  {
    if ds == [] then
      assert s.receiver.Some? ==> s.receiver.value.queue + On(s.receiver.value.channel, ds) == s.receiver.value.queue;
      s
    else
      var r := AfterDeliveries(AfterDelivery(s, ds[0]), ds[1..]);
      if s.receiver.Some? then
        var rx := s.receiver.value;
        var m := if ds[0].channel == rx.channel then ds[0].messages else [];
        assert rx.queue + [] == rx.queue;
        assert AfterDelivery(s, ds[0]) == s.(receiver := Some(rx.(queue := rx.queue + m)));
        assert On(rx.channel, ds) == m + On(rx.channel, ds[1..]);
        assert rx.queue + On(rx.channel, ds) == (rx.queue + m) + On(rx.channel, ds[1..]);
        r
      else
        r
  }

  /**
   * A new open orphans the previous job: once it has run, nothing the old job sends
   * reaches the controller.
   */
  lemma OpenOrphansPreviousJob(s: AppState, input: string, previous: Receiver, msgs: seq<CompressMessage>)
    requires Invariant(s) && s.receiver == Some(previous)
    ensures var r := AfterKey(s, Char('o'), Some(input)).0;
      AfterDelivery(r, Delivery(previous.channel, msgs)) == r
  {
  }

  /** The auto-exit check of `handle_events`: at least 2 s after a finish, exit. */
  function AutoExit(s: AppState, now: int): AppState {
    match s.compressionFinishedAt
    case Some(t) => if now - t >= AUTO_EXIT_MILLIS then s.(exit := true) else s
    case None => s
  }

  /**
   * `handle_events`: a failing poll or read ends the tick with its error; a key press
   * is handled; then the channel is drained and the auto-exit checked.
   */
  function AfterEvents(s: AppState, input: Input, picked: Option<string>, now: int): (AppState, Option<Job>, Outcome) {
    match input
    case InputFailed(e) => (s, None, Fail(e))
    case Key(code, kind) =>
      if kind == Press then
        var (k, job) := AfterKey(s, code, picked);
        (AutoExit(Drained(k, now), now), job, Pass)
      else
        (AutoExit(Drained(s, now), now), None, Pass)
    case _ => (AutoExit(Drained(s, now), now), None, Pass)
  }

  /**
   * A tick keeps the invariant; `exit`, once set, stays set; a tick that ends with a
   * finish time at least 2 s old has set `exit`; and a tick sets `exit` only for a 'q'
   * press or such a finish time.
   */
  lemma TickProperties(s: AppState, input: Input, picked: Option<string>, now: int)
    ensures var (r, job, outcome) := AfterEvents(s, input, picked, now);
      (Invariant(s) ==> Invariant(r)) &&
      (s.exit ==> r.exit) &&
      (outcome.Pass? && r.compressionFinishedAt.Some? && now - r.compressionFinishedAt.value >= AUTO_EXIT_MILLIS ==> r.exit) &&
      (r.exit ==>
         s.exit || input == Key(Char('q'), Press) ||
         (r.compressionFinishedAt.Some? && now - r.compressionFinishedAt.value >= AUTO_EXIT_MILLIS)) &&
      (job.Some? ==> r.channelsOpened == s.channelsOpened + 1 && job.value.channel == s.channelsOpened)
  {
  }

  /** One pass of the main loop: the arrived sends, then `handle_events`. */
  function AfterTick(s: AppState, t: Tick): (AppState, Option<Job>, Outcome) {
    AfterEvents(AfterDeliveries(s, t.deliveries), t.input, t.picked, t.now)
  }

  function JobList(job: Option<Job>): seq<Job> {
    match job case Some(j) => [j] case None => []
  }

  /**
   * `App::run`: `while !self.exit`, run a tick; a failing tick returns its error.
   * The loop stops only when `exit` is set, the error happens or the ticks run out;
   * it takes no tick once `exit` is set, and keeps the invariant.
   */
  function RunFrom(s: AppState, ticks: seq<Tick>): (r: RunResult)
    ensures r.taken <= |ticks|
    ensures r.state.exit || r.taken == |ticks| || r.outcome.Fail?
    ensures s.exit ==> r == RunResult(s, 0, Pass, [])
    ensures Invariant(s) ==> Invariant(r.state)
    decreases |ticks|
  {
    if s.exit || ticks == [] then RunResult(s, 0, Pass, [])
    else
      var (next, job, outcome) := AfterTick(s, ticks[0]);
      TickProperties(AfterDeliveries(s, ticks[0].deliveries), ticks[0].input, ticks[0].picked, ticks[0].now);
      if outcome.Fail? then RunResult(next, 1, outcome, JobList(job))
      else
        var rest := RunFrom(next, ticks[1..]);
        RunResult(rest.state, rest.taken + 1, rest.outcome, JobList(job) + rest.jobs)
  }

  /** One unfolding of the main loop on a state that has not exited. */
  lemma RunFromStep(s: AppState, ticks: seq<Tick>)
    requires !s.exit && ticks != []
    ensures var (next, job, outcome) := AfterTick(s, ticks[0]);
      RunFrom(s, ticks) ==
        if outcome.Fail? then RunResult(next, 1, outcome, JobList(job))
        else
          var rest := RunFrom(next, ticks[1..]);
          RunResult(rest.state, rest.taken + 1, rest.outcome, JobList(job) + rest.jobs)
  {
  }

  /**
   * The main loop's invariant survives one tick: what remains of `RunFrom` from the
   * start is what remains after that tick, with its job and its count added.
   */
  lemma RunLoopStep(s0: AppState, ticks: seq<Tick>, taken: nat, jobs: seq<Job>, before: AppState)
    requires taken < |ticks| && !before.exit
    requires var r := RunFrom(before, ticks[taken..]);
      RunFrom(s0, ticks) == RunResult(r.state, taken + r.taken, r.outcome, jobs + r.jobs)
    ensures var step := AfterTick(before, ticks[taken]);
      if step.2.Fail? then
        RunFrom(s0, ticks) == RunResult(step.0, taken + 1, step.2, jobs + JobList(step.1))
      else
        var r := RunFrom(step.0, ticks[taken + 1..]);
        RunFrom(s0, ticks) == RunResult(r.state, taken + 1 + r.taken, r.outcome, (jobs + JobList(step.1)) + r.jobs)
  {
    var rest := ticks[taken..];
    assert rest[0] == ticks[taken] && rest[1..] == ticks[taken + 1..];
    RunFromStep(before, rest);
    var step := AfterTick(before, ticks[taken]);
    if !step.2.Fail? {
      var r := RunFrom(step.0, ticks[taken + 1..]);
      assert RunFrom(before, rest) == RunResult(r.state, r.taken + 1, r.outcome, JobList(step.1) + r.jobs);
      assert jobs + (JobList(step.1) + r.jobs) == (jobs + JobList(step.1)) + r.jobs;
    }
  }

  /** The `App` object; `State()` is its abstract value. */
  class App {
    var exit: bool
    var isCompressing: bool
    var progress: real
    var statusMessage: string
    var receiver: Option<Receiver>
    var lastCompressionResult: Option<Summary>
    var compressionFinishedAt: Option<int>
    var channelsOpened: nat

    function State(): AppState
      reads this
    {
      AppState(exit, isCompressing, progress, statusMessage, receiver,
               lastCompressionResult, compressionFinishedAt, channelsOpened)
    }

    /** `App::default`. */
    constructor ()
      ensures State() == Initial()
      ensures Invariant(State())
    {
      exit := false;
      isCompressing := false;
      progress := 0.0;
      statusMessage := START_STATUS;
      receiver := None;
      lastCompressionResult := None;
      compressionFinishedAt := None;
      channelsOpened := 0;
    }

    method Exit()
      modifies this
      ensures State() == old(State()).(exit := true)
    {
      exit := true;
    }

    /** A producer's sends on `d.channel` land in the queue if that channel is the one held. */
    method Deliver(d: Delivery)
      modifies this
      ensures State() == AfterDelivery(old(State()), d)
    {
      if receiver.Some? && receiver.value.channel == d.channel {
        receiver := Some(receiver.value.(queue := receiver.value.queue + d.messages));
      }
    }

    method DeliverAll(ds: seq<Delivery>)
      modifies this
      ensures State() == AfterDeliveries(old(State()), ds)
    {
      var i := 0;
      while i < |ds|
        invariant i <= |ds|
        invariant AfterDeliveries(State(), ds[i..]) == AfterDeliveries(old(State()), ds)
      {
        assert ds[i..][1..] == ds[i + 1..];
        Deliver(ds[i]);
        i := i + 1;
      }
    }

    /** `check_compression_progress`. */
    method CheckCompressionProgress(now: int)
      modifies this
      ensures State() == Drained(old(State()), now)
    {
      if receiver.Some? {
        while receiver.value.queue != []
          invariant receiver.Some?
          invariant Drained(State(), now) == Drained(old(State()), now)
          decreases |receiver.value.queue|
        {
          var msg := receiver.value.queue[0];
          receiver := Some(receiver.value.(queue := receiver.value.queue[1..]));
          match msg
          case Progress(bytesProcessed, totalBytes) =>
            if totalBytes > 0 {
              progress := bytesProcessed as real / totalBytes as real;
            }
          case Finished(originalSize, compressedSize, outputPath) =>
            isCompressing := false;
            progress := 1.0;
            statusMessage := COMPLETE_STATUS;
            receiver := None;
            var ratio := Ratio(originalSize, compressedSize);
            lastCompressionResult := Some(Summary(outputPath, originalSize, compressedSize, ratio));
            compressionFinishedAt := Some(now);
            return;
          case Error(e) =>
            isCompressing := false;
            progress := 0.0;
            statusMessage := ERROR_PREFIX + e;
            receiver := None;
            return;
        }
      }
    }

    /** The picked-file branch of `handle_key_event`: set up the channel and the state. */
    method StartJob(inputPath: string) returns (job: Job)
      modifies this
      ensures (State(), job) == Opened(old(State()), inputPath)
    {
      var outputPath := Paths.CompressedPath(inputPath);
      var channel := channelsOpened;
      channelsOpened := channelsOpened + 1;
      receiver := Some(Receiver(channel, []));
      isCompressing := true;
      progress := 0.0;
      compressionFinishedAt := None;
      var name := match Paths.FileName(inputPath) case Some(n) => n case None => "";
      statusMessage := COMPRESSING_PREFIX + "\"" + name + "\"";
      job := Job(inputPath, outputPath, channel);
    }

    /** `handle_key_event`; returns the compression job it starts, if any. */
    method HandleKeyEvent(code: KeyCode, picked: Option<string>) returns (job: Option<Job>)
      modifies this
      ensures (State(), job) == AfterKey(old(State()), code, picked)
    {
      if !isCompressing && progress > 0.0 {
        progress := 0.0;
      }
      job := None;
      if code == Char('q') {
        Exit();
      } else if code == Char('o') {
        if picked.Some? {
          var started := StartJob(picked.value);
          job := Some(started);
        } else {
          statusMessage := CANCELLED_STATUS;
        }
      }
    }

    /** `handle_events`. */
    method HandleEvents(input: Input, picked: Option<string>, now: int) returns (job: Option<Job>, outcome: Outcome)
      modifies this
      ensures (State(), job, outcome) == AfterEvents(old(State()), input, picked, now)
    {
      job := None;
      if input.InputFailed? {
        return job, Fail(input.error);
      }
      if input.Key? && input.kind == Press {
        job := HandleKeyEvent(input.code, picked);
      }
      CheckCompressionProgress(now);
      if compressionFinishedAt.Some? && now - compressionFinishedAt.value >= AUTO_EXIT_MILLIS {
        Exit();
      }
      outcome := Pass;
    }

    /** `App::run` over a finite run of ticks; drawing is left out. */
    method Run(ticks: seq<Tick>) returns (taken: nat, outcome: Outcome, jobs: seq<Job>)
      modifies this
      ensures RunResult(State(), taken, outcome, jobs) == RunFrom(old(State()), ticks)
    {
      taken, outcome, jobs := 0, Pass, [];
      ghost var s0 := State();
      while !exit && taken < |ticks|
        invariant taken <= |ticks|
        invariant var r := RunFrom(State(), ticks[taken..]);
          RunFrom(s0, ticks) == RunResult(r.state, taken + r.taken, r.outcome, jobs + r.jobs)
        decreases |ticks| - taken
      {
        var t := ticks[taken];
        ghost var before := State();
        RunLoopStep(s0, ticks, taken, jobs, before);
        DeliverAll(t.deliveries);
        ghost var delivered := State();
        assert delivered == AfterDeliveries(before, t.deliveries);
        var job, out := HandleEvents(t.input, t.picked, t.now);
        assert (State(), job, out) == AfterEvents(delivered, t.input, t.picked, t.now);
        assert (State(), job, out) == AfterTick(before, t);
        taken := taken + 1;
        jobs := jobs + JobList(job);
        if out.Fail? {
          outcome := out;
          return;
        }
      }
    }
  }
}
