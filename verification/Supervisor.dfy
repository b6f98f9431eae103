/**
 * The process supervisor as a step system: two reader threads, a bounded line queue and the polling loop,
 * interleaved in every possible way with cancellation, timeout and child exit.
 */
module Supervisor {
  import opened CaptureBuffer
  import opened LineReader
  import opened Machine

  const PROGRESS_QUEUE_LIMIT := 64

  /**
   * What one pipe yields before end of file, seen through the reader that drains it: after `n` of its `length`
   * bytes the reader has completed `lines(n)`, holds `capture(n)` and has raised the overflow flag if
   * `overflow(n)`; at end of file it completes `fragment`.
   */
  datatype Pipe = Pipe(length: nat, lines: nat -> seq<string>, fragment: seq<string>,
                       capture: nat -> Captured, overflow: nat -> bool)

  datatype Phase = Reading | Finishing | Finished | Broken {
    predicate Done() {
      Finished? || Broken?
    }
  }

  // ---- The path of a line: reader, outbox, queue, caller ----

  /** `outbox` holds lines read but not yet handed to the queue; a full queue blocks the reader there. */
  datatype Flow = Flow(consumed: nat, phase: Phase, outbox: seq<string>, queue: seq<string>,
                       delivered: seq<string>, receiver: bool)

  /** Reading on completes more lines, at most one a byte, and an overflow stays raised. */
  ghost predicate Steady(p: Pipe) {
    && |p.fragment| <= 1
    && forall k: nat, n: nat {:trigger p.lines(k), p.lines(n)} | k <= n <= p.length ::
         p.lines(k) <= p.lines(n) && |p.lines(n)| <= |p.lines(k)| + (n - k)
  }

  function Produced(p: Pipe, f: Flow): seq<string> {
    if f.phase.Reading? || f.phase.Broken? then p.lines(f.consumed) else p.lines(f.consumed) + p.fragment
  }

  /** Lines pass from the reader to the caller without loss, change or reordering. */
  predicate FlowInv(p: Pipe, f: Flow) {
    && f.consumed <= p.length
    && (f.phase.Finishing? || f.phase.Finished? ==> f.consumed == p.length)
    && (f.phase.Done() ==> f.outbox == [])
    && |f.queue| <= PROGRESS_QUEUE_LIMIT
    && if f.receiver then f.delivered + f.queue + f.outbox == Produced(p, f)
       else f.delivered <= Produced(p, f) && f.queue == []
  }

  /** A bound on the steps the flow still allows. */
  function FlowWork(p: Pipe, f: Flow): nat
    requires f.consumed <= p.length
  {
    3 * (p.length - f.consumed) + 2 * |f.outbox| + |f.queue|
    + match f.phase case Reading => 4 case Finishing => 1 case _ => 0
  }

  predicate CanRead(p: Pipe, f: Flow, n: nat) {
    f.phase.Reading? && f.outbox == [] && 1 <= n && f.consumed + n <= p.length
  }

  function ReadMore(p: Pipe, f: Flow, n: nat): Flow {
    var before, after := p.lines(f.consumed), p.lines(f.consumed + n);
    f.(consumed := f.consumed + n, outbox := if |before| <= |after| then after[|before|..] else [])
  }

  predicate CanSend(f: Flow) {
    f.outbox != [] && (f.receiver ==> |f.queue| < PROGRESS_QUEUE_LIMIT)
  }

  /** A send to a dropped receiver fails at once and is ignored. */
  function SendOne(f: Flow): Flow
    requires f.outbox != []
  {
    f.(outbox := f.outbox[1..], queue := if f.receiver then f.queue + [f.outbox[0]] else f.queue)
  }

  function ReceiveOne(f: Flow): Flow
    requires f.queue != []
  {
    f.(delivered := f.delivered + [f.queue[0]], queue := f.queue[1..])
  }

  function DropReceiver(f: Flow): Flow {
    f.(receiver := false, queue := [])
  }

  lemma ReadFlows(p: Pipe, f: Flow, n: nat)
    requires Steady(p) && FlowInv(p, f) && CanRead(p, f, n)
    ensures FlowInv(p, ReadMore(p, f, n)) && FlowWork(p, ReadMore(p, f, n)) < FlowWork(p, f)
  {
    var before, after := p.lines(f.consumed), p.lines(f.consumed + n);
    assert before <= after;
    assert f.delivered + f.queue + [] == f.delivered + f.queue;
    assert before + after[|before|..] == after;
  }

  lemma EofFlows(p: Pipe, f: Flow)
    requires Steady(p) && FlowInv(p, f) && f.phase.Reading? && f.outbox == [] && f.consumed == p.length
    ensures var g := f.(phase := Finishing, outbox := p.fragment);
            FlowInv(p, g) && FlowWork(p, g) < FlowWork(p, f)
  {
    assert f.delivered + f.queue + [] == f.delivered + f.queue;
  }

  lemma SendFlows(p: Pipe, f: Flow)
    requires FlowInv(p, f) && CanSend(f)
    ensures FlowInv(p, SendOne(f)) && FlowWork(p, SendOne(f)) < FlowWork(p, f)
  {
    var head, rest := f.outbox[0], f.outbox[1..];
    assert f.delivered + f.queue + f.outbox == f.delivered + (f.queue + [head]) + rest;
  }

  lemma ReceiveFlows(p: Pipe, f: Flow)
    requires FlowInv(p, f) && f.queue != []
    ensures FlowInv(p, ReceiveOne(f)) && FlowWork(p, ReceiveOne(f)) < FlowWork(p, f)
  {
    var head, rest := f.queue[0], f.queue[1..];
    assert f.delivered + f.queue + f.outbox == (f.delivered + [head]) + rest + f.outbox;
  }

  lemma DropFlows(p: Pipe, f: Flow)
    requires FlowInv(p, f)
    ensures FlowInv(p, DropReceiver(f)) && FlowWork(p, DropReceiver(f)) <= FlowWork(p, f)
  {
    if f.receiver {
      assert f.delivered + f.queue + f.outbox == f.delivered + (f.queue + f.outbox);
    }
  }

  // ---- The whole system ----

  /** `main` is the pipe whose lines are delivered, `other` the one that is only drained. */
  datatype Config = Config(main: Pipe, other: Pipe, strict: bool)

  datatype Flags = Flags(cancelled: bool, expired: bool, overflow: bool, waitFailed: bool, exited: bool, exitSeen: bool)

  datatype Alarm = Cancelled | TimedOut | TooMuchOutput | WaitFailed

  datatype Answer =
    | Success(main: Captured, other: Captured)
    | Failure(alarm: Alarm)
    | ReadError
    | Truncated

  /** Where the polling loop is. */
  datatype Pc =
    | Draining(received: nat)
    | CheckCancel
    | CheckTimeout
    | CheckOverflow
    | CheckExit
    | CheckDone
    | FinalDrain
    | Joining
    | Terminating(alarm: Alarm)
    | Returned(answer: Answer)

  datatype State = State(flow: Flow, drained: nat, drain: Phase, flags: Flags, pc: Pc) {
    predicate ReadersDone() {
      flow.phase.Done() && drain.Done()
    }

    predicate ReaderBroke() {
      flow.phase.Broken? || drain.Broken?
    }
  }

  datatype Action =
    | Read(count: nat)
    | Eof
    | Break
    | Send
    | Finish
    | ReadOther(count: nat)
    | EofOther
    | BreakOther
    | Poll
    | PollFails
    | Cancel
    | Expire
    | Exit

  const INITIAL := State(Flow(0, Reading, [], [], [], true), 0, Reading,
                         Flags(false, false, false, false, false, false), Draining(0))

  predicate Enabled(c: Config, s: State, a: Action) {
    match a
    case Read(n) => CanRead(c.main, s.flow, n)
    case Eof => s.flow.phase.Reading? && s.flow.outbox == [] && s.flow.consumed == c.main.length
    case Break => s.flow.phase.Reading? && s.flow.outbox == []
    case Send => CanSend(s.flow)
    case Finish => s.flow.phase.Finishing? && s.flow.outbox == []
    case ReadOther(n) => s.drain.Reading? && 1 <= n && s.drained + n <= c.other.length
    case EofOther => s.drain.Reading? && s.drained == c.other.length
    case BreakOther => s.drain.Reading?
    case Poll => !s.pc.Returned? && (s.pc.Terminating? ==> s.ReadersDone())
    case PollFails => s.pc.CheckExit? && !s.flags.exitSeen
    case Cancel => !s.flags.cancelled
    case Expire => !s.flags.expired
    case Exit => !s.flags.exited
  }

  /** Kill the child and drop the receiver, then wait for the readers. */
  function Stop(s: State, alarm: Alarm): State {
    s.(pc := Terminating(alarm), flow := DropReceiver(s.flow))
  }

  function Join(c: Config, s: State): Answer {
    if s.ReaderBroke() then ReadError
    else
      var main, other := c.main.capture(s.flow.consumed), c.other.capture(s.drained);
      if c.strict && (main.truncated || other.truncated) then Truncated else Success(main, other)
  }

  /** One step of the polling loop. */
  function PollStep(c: Config, s: State): State
    requires Enabled(c, s, Poll)
  {
    match s.pc
    case Draining(n) =>
      if s.flow.queue == [] then s.(pc := CheckCancel)
      else s.(flow := ReceiveOne(s.flow), pc := if n + 1 >= PROGRESS_QUEUE_LIMIT then CheckCancel else Draining(n + 1))
    case CheckCancel => if s.flags.cancelled then Stop(s, Cancelled) else s.(pc := CheckTimeout)
    case CheckTimeout => if s.flags.expired then Stop(s, TimedOut) else s.(pc := CheckOverflow)
    case CheckOverflow => if s.flags.overflow then Stop(s, TooMuchOutput) else s.(pc := CheckExit)
    case CheckExit => s.(flags := s.flags.(exitSeen := s.flags.exitSeen || s.flags.exited), pc := CheckDone)
    case CheckDone => s.(pc := if s.flags.exitSeen && s.ReadersDone() then FinalDrain else Draining(0))
    case FinalDrain => if s.flow.queue == [] then s.(pc := Joining) else s.(flow := ReceiveOne(s.flow))
    case Joining => s.(pc := Returned(Join(c, s)))
    case Terminating(alarm) => s.(pc := Returned(if s.ReaderBroke() then ReadError else Failure(alarm)))
  }

  function Apply(c: Config, s: State, a: Action): State
    requires Enabled(c, s, a)
  {
    match a
    case Read(n) =>
      var flow := ReadMore(c.main, s.flow, n);
      s.(flow := flow, flags := s.flags.(overflow := s.flags.overflow || c.main.overflow(flow.consumed)))
    case Eof => s.(flow := s.flow.(phase := Finishing, outbox := c.main.fragment))
    case Break => s.(flow := s.flow.(phase := Broken))
    case Send => s.(flow := SendOne(s.flow))
    case Finish => s.(flow := s.flow.(phase := Finished))
    case ReadOther(n) =>
      s.(drained := s.drained + n, flags := s.flags.(overflow := s.flags.overflow || c.other.overflow(s.drained + n)))
    case EofOther => s.(drain := Finished)
    case BreakOther => s.(drain := Broken)
    case Poll => PollStep(c, s)
    case PollFails => Stop(s.(flags := s.flags.(waitFailed := true)), WaitFailed)
    case Cancel => s.(flags := s.flags.(cancelled := true))
    case Expire => s.(flags := s.flags.(expired := true))
    case Exit => s.(flags := s.flags.(exited := true))
  }

  predicate Runnable(c: Config, s: State, actions: seq<Action>)
    decreases |actions|
  {
    actions != [] ==> Enabled(c, s, actions[0]) && Runnable(c, Apply(c, s, actions[0]), actions[1..])
  }

  function Run(c: Config, s: State, actions: seq<Action>): State
    requires Runnable(c, s, actions)
    decreases |actions|
  {
    if actions == [] then s else Run(c, Apply(c, s, actions[0]), actions[1..])
  }

  // ---- Invariant ----

  predicate DrainInv(c: Config, s: State) {
    s.drained <= c.other.length && !s.drain.Finishing? && (s.drain.Finished? ==> s.drained == c.other.length)
  }

  predicate PcInv(c: Config, s: State) {
    && (s.pc.Terminating? ==> !s.flow.receiver)
    && (!s.pc.Terminating? && !s.pc.Returned? ==> s.flow.receiver)
    && (s.pc.Draining? ==> s.pc.received < PROGRESS_QUEUE_LIMIT)
    && (s.pc.FinalDrain? || s.pc.Joining? || s.pc.Returned? ==> s.ReadersDone())
    && (s.pc.Joining? ==> s.flow.queue == [])
    && (s.pc.Returned? && s.pc.answer.Success? ==>
          s.flow.receiver && s.flow.queue == [] && s.pc.answer == Join(c, s))
  }

  predicate Inv(c: Config, s: State) {
    FlowInv(c.main, s.flow) && DrainInv(c, s) && PcInv(c, s)
  }

  /** Reading, sending and closing use up work on the pipe whose lines are delivered. */
  lemma ReaderKeepsFlow(c: Config, s: State, a: Action)
    requires Steady(c.main) && Inv(c, s) && Enabled(c, s, a)
    requires a.Read? || a.Eof? || a.Break? || a.Send? || a.Finish?
    ensures FlowInv(c.main, Apply(c, s, a).flow)
    ensures FlowWork(c.main, Apply(c, s, a).flow) < FlowWork(c.main, s.flow)
  {
    match a
    case Read(n) => ReadFlows(c.main, s.flow, n);
    case Eof => EofFlows(c.main, s.flow);
    case Send => SendFlows(c.main, s.flow);
    case _ =>
  }

  /** Nobody else adds any. */
  lemma OthersKeepFlow(c: Config, s: State, a: Action)
    requires Steady(c.main) && Inv(c, s) && Enabled(c, s, a)
    requires !(a.Read? || a.Eof? || a.Break? || a.Send? || a.Finish?)
    ensures FlowInv(c.main, Apply(c, s, a).flow)
    ensures FlowWork(c.main, Apply(c, s, a).flow) <= FlowWork(c.main, s.flow)
    ensures a.Poll? && s.pc.FinalDrain? && s.flow.queue != [] ==>
              FlowWork(c.main, Apply(c, s, a).flow) < FlowWork(c.main, s.flow)
  {
    DropFlows(c.main, s.flow);
    if s.flow.queue != [] {
      ReceiveFlows(c.main, s.flow);
    }
    if a.Poll? {
      assert Apply(c, s, a).flow == s.flow || Apply(c, s, a).flow == DropReceiver(s.flow)
             || (s.flow.queue != [] && Apply(c, s, a).flow == ReceiveOne(s.flow));
    }
  }

  lemma StepKeepsFlow(c: Config, s: State, a: Action)
    requires Steady(c.main) && Inv(c, s) && Enabled(c, s, a)
    ensures FlowInv(c.main, Apply(c, s, a).flow)
    ensures FlowWork(c.main, Apply(c, s, a).flow) <= FlowWork(c.main, s.flow)
    ensures a.Read? || a.Eof? || a.Break? || a.Send? || a.Finish? ==>
              FlowWork(c.main, Apply(c, s, a).flow) < FlowWork(c.main, s.flow)
    ensures a.Poll? && s.pc.FinalDrain? && s.flow.queue != [] ==>
              FlowWork(c.main, Apply(c, s, a).flow) < FlowWork(c.main, s.flow)
  {
    if a.Read? || a.Eof? || a.Break? || a.Send? || a.Finish? {
      ReaderKeepsFlow(c, s, a);
    } else {
      OthersKeepFlow(c, s, a);
    }
  }

  lemma StepKeepsPc(c: Config, s: State, a: Action)
    requires Inv(c, s) && Enabled(c, s, a)
    ensures PcInv(c, Apply(c, s, a)) && DrainInv(c, Apply(c, s, a))
  {
  }

  lemma {:induction false} RunKeepsInv(c: Config, s: State, actions: seq<Action>)
    requires Steady(c.main) && Inv(c, s) && Runnable(c, s, actions)
    ensures Inv(c, Run(c, s, actions))
    decreases |actions|
  {
    if actions != [] {
      StepKeepsFlow(c, s, actions[0]);
      StepKeepsPc(c, s, actions[0]);
      RunKeepsInv(c, Apply(c, s, actions[0]), actions[1..]);
    }
  }

  // ---- Safety ----

  datatype Which = Stdout | Stderr
  datatype LineStream = NoLines | LinesOf(which: Which)

  /** The pipe of a child that writes `stream` and then closes. */
  function PipeOf(decode: Decoder, policy: Policy, stream: seq<byte>, sends: bool): Pipe {
    Pipe(|stream|,
         (n: nat) => if sends then Terminated(decode, Take(stream, n)) else [],
         if sends then Fragment(decode, stream) else [],
         (n: nat) => Capture(policy, Take(stream, n)),
         (n: nat) => Overflowed(policy, Take(stream, n)))
  }

  /** The reader of the selected stream sends lines; with no selection neither does. */
  function ConfigOf(decode: Decoder, policy: Policy, lines: LineStream, stdout: seq<byte>, stderr: seq<byte>): Config {
    var out := PipeOf(decode, policy, stdout, lines == LinesOf(Stdout));
    var err := PipeOf(decode, policy, stderr, lines == LinesOf(Stderr));
    if lines == LinesOf(Stderr) then Config(err, out, policy.failOnOverflow) else Config(out, err, policy.failOnOverflow)
  }

  lemma PipeIsSteady(decode: Decoder, policy: Policy, stream: seq<byte>, sends: bool)
    ensures Steady(PipeOf(decode, policy, stream, sends))
  {
    var p := PipeOf(decode, policy, stream, sends);
    forall k: nat, n: nat | k <= n <= p.length
      ensures p.lines(k) <= p.lines(n) && |p.lines(n)| <= |p.lines(k)| + (n - k)
    {
      assert Take(stream, k) + stream[k..n] == Take(stream, n);
      TerminatedGrows(decode, Take(stream, k), stream[k..n]);
    }
  }

  lemma RunsStart(decode: Decoder, policy: Policy, lines: LineStream, stdout: seq<byte>, stderr: seq<byte>)
    ensures var c := ConfigOf(decode, policy, lines, stdout, stderr); Steady(c.main) && Inv(c, INITIAL)
  {
    var c := ConfigOf(decode, policy, lines, stdout, stderr);
    PipeIsSteady(decode, policy, stdout, lines == LinesOf(Stdout));
    PipeIsSteady(decode, policy, stderr, lines == LinesOf(Stderr));
    assert Take(stdout, 0) == [] && Take(stderr, 0) == [];
    assert Terminated(decode, []) == [];
    assert c.main.lines(0) == [];
  }

  /** The lines the selected stream has. */
  function Expected(decode: Decoder, lines: LineStream, stdout: seq<byte>, stderr: seq<byte>): seq<string> {
    match lines
    case NoLines => []
    case LinesOf(w) => Lines(decode, if w.Stdout? then stdout else stderr)
  }

  /** The answer of a run in which the child wrote all of both streams. */
  function Complete(policy: Policy, lines: LineStream, stdout: seq<byte>, stderr: seq<byte>): Answer {
    var out, err := Capture(policy, stdout), Capture(policy, stderr);
    if lines == LinesOf(Stderr) then Success(err, out) else Success(out, err)
  }

  /**
   * In every interleaving, a successful return has passed the caller exactly the selected stream's lines, in
   * order, and holds each stream's capture; under the strict policy both captures are the whole streams.
   */
  lemma SuccessIsComplete(decode: Decoder, policy: Policy, lines: LineStream, stdout: seq<byte>, stderr: seq<byte>,
                          actions: seq<Action>)
    requires Runnable(ConfigOf(decode, policy, lines, stdout, stderr), INITIAL, actions)
    ensures var s := Run(ConfigOf(decode, policy, lines, stdout, stderr), INITIAL, actions);
            s.pc.Returned? && s.pc.answer.Success? ==>
              && s.flow.delivered == Expected(decode, lines, stdout, stderr)
              && s.pc.answer == Complete(policy, lines, stdout, stderr)
              && (policy.failOnOverflow ==> |stdout| <= policy.limit && |stderr| <= policy.limit)
  {
    var c := ConfigOf(decode, policy, lines, stdout, stderr);
    RunsStart(decode, policy, lines, stdout, stderr);
    RunKeepsInv(c, INITIAL, actions);
    var s := Run(c, INITIAL, actions);
    if s.pc.Returned? && s.pc.answer.Success? {
      SuccessDrained(c, s);
      WholePipes(decode, policy, lines, stdout, stderr);
    }
  }

  lemma SuccessDrained(c: Config, s: State)
    requires Inv(c, s) && s.pc.Returned? && s.pc.answer.Success?
    ensures s.flow.delivered == c.main.lines(c.main.length) + c.main.fragment
    ensures s.pc.answer == Success(c.main.capture(c.main.length), c.other.capture(c.other.length))
    ensures c.strict ==> !s.pc.answer.main.truncated && !s.pc.answer.other.truncated
  {
    assert s.flow.delivered + [] + [] == s.flow.delivered;
  }

  lemma WholePipes(decode: Decoder, policy: Policy, lines: LineStream, stdout: seq<byte>, stderr: seq<byte>)
    ensures var c := ConfigOf(decode, policy, lines, stdout, stderr);
            && c.main.lines(c.main.length) + c.main.fragment == Expected(decode, lines, stdout, stderr)
            && Success(c.main.capture(c.main.length), c.other.capture(c.other.length))
               == Complete(policy, lines, stdout, stderr)
  {
    assert Take(stdout, |stdout|) == stdout && Take(stderr, |stderr|) == stderr;
  }

  /** At every moment of every run, what the caller has seen is a prefix of the stream's lines. */
  lemma DeliveredIsPrefix(decode: Decoder, policy: Policy, lines: LineStream, stdout: seq<byte>, stderr: seq<byte>,
                          actions: seq<Action>)
    requires Runnable(ConfigOf(decode, policy, lines, stdout, stderr), INITIAL, actions)
    ensures Run(ConfigOf(decode, policy, lines, stdout, stderr), INITIAL, actions).flow.delivered
            <= Expected(decode, lines, stdout, stderr)
  {
    var c := ConfigOf(decode, policy, lines, stdout, stderr);
    RunsStart(decode, policy, lines, stdout, stderr);
    RunKeepsInv(c, INITIAL, actions);
    ProducedIsPrefix(c.main, Run(c, INITIAL, actions).flow);
    WholePipes(decode, policy, lines, stdout, stderr);
  }

  lemma ProducedIsPrefix(p: Pipe, f: Flow)
    requires Steady(p) && FlowInv(p, f)
    ensures f.delivered <= p.lines(p.length) + p.fragment
  {
    assert p.lines(f.consumed) <= p.lines(p.length);
    assert f.delivered <= Produced(p, f);
    assert Produced(p, f) <= p.lines(p.length) + p.fragment;
  }

  // ---- What an answer means ----

  /** An overflow, once raised, stays raised. */
  ghost predicate Rising(p: Pipe) {
    forall k: nat, n: nat {:trigger p.overflow(k), p.overflow(n)} | k <= n <= p.length :: p.overflow(k) ==> p.overflow(n)
  }

  predicate Justified(flags: Flags, alarm: Alarm) {
    match alarm
    case Cancelled => flags.cancelled
    case TimedOut => flags.expired
    case TooMuchOutput => flags.overflow
    case WaitFailed => flags.waitFailed
  }

  predicate OverflowInv(c: Config, s: State) {
    s.flags.overflow ==> c.main.overflow(s.flow.consumed) || c.other.overflow(s.drained)
  }

  predicate ExitInv(s: State) {
    && (s.flags.exitSeen ==> s.flags.exited)
    && (s.pc.FinalDrain? || s.pc.Joining? ==> s.flags.exitSeen)
    && (s.pc.Terminating? ==> Justified(s.flags, s.pc.alarm))
  }

  /** An answer is given once the readers are done, and says what happened. */
  predicate AnswerInv(c: Config, s: State) {
    s.pc.Returned? ==>
      && s.ReadersDone()
      && (s.pc.answer.ReadError? <==> s.flow.phase.Broken? || s.drain.Broken?)
      && (s.pc.answer.Failure? ==> Justified(s.flags, s.pc.answer.alarm))
      && (s.pc.answer.Success? || s.pc.answer.Truncated? ==>
            && s.flags.exited
            && (s.pc.answer.Truncated? <==>
                  c.strict && (c.main.capture(s.flow.consumed).truncated || c.other.capture(s.drained).truncated)))
  }

  lemma OverflowStep(c: Config, s: State, a: Action)
    requires Rising(c.main) && Rising(c.other) && Inv(c, s) && OverflowInv(c, s) && Enabled(c, s, a)
    ensures OverflowInv(c, Apply(c, s, a))
  {
    if s.flags.overflow {
      match a
      case Read(n) => assert c.main.overflow(s.flow.consumed) ==> c.main.overflow(s.flow.consumed + n);
      case ReadOther(n) => assert c.other.overflow(s.drained) ==> c.other.overflow(s.drained + n);
      case _ =>
    }
  }

  lemma ExitStep(c: Config, s: State, a: Action)
    requires ExitInv(s) && Enabled(c, s, a)
    ensures ExitInv(Apply(c, s, a))
  {
  }

  lemma AnswerStep(c: Config, s: State, a: Action)
    requires Inv(c, s) && ExitInv(s) && AnswerInv(c, s) && Enabled(c, s, a)
    ensures AnswerInv(c, Apply(c, s, a))
  {
    if a.Poll? {
      AnswerGiven(c, s);
    }
  }

  lemma AnswerGiven(c: Config, s: State)
    requires Inv(c, s) && ExitInv(s) && Enabled(c, s, Poll)
    ensures AnswerInv(c, PollStep(c, s))
  {
  }

  lemma {:induction false} AnswersStayTrue(c: Config, s: State, actions: seq<Action>)
    requires Steady(c.main) && Rising(c.main) && Rising(c.other) && Runnable(c, s, actions)
    requires Inv(c, s) && OverflowInv(c, s) && ExitInv(s) && AnswerInv(c, s)
    ensures var end := Run(c, s, actions); Inv(c, end) && OverflowInv(c, end) && AnswerInv(c, end)
    decreases |actions|
  {
    if actions != [] {
      StepKeepsFlow(c, s, actions[0]);
      StepKeepsPc(c, s, actions[0]);
      OverflowStep(c, s, actions[0]);
      ExitStep(c, s, actions[0]);
      AnswerStep(c, s, actions[0]);
      AnswersStayTrue(c, Apply(c, s, actions[0]), actions[1..]);
    }
  }

  lemma PipeIsRising(decode: Decoder, policy: Policy, stream: seq<byte>, sends: bool)
    ensures Rising(PipeOf(decode, policy, stream, sends))
  {
  }

  /** Whichever stream delivers the lines, more than the limit is more than the limit. */
  predicate TooLong(policy: Policy, stdout: seq<byte>, stderr: seq<byte>) {
    policy.failOnOverflow && (|stdout| > policy.limit || |stderr| > policy.limit)
  }

  lemma LongPipes(decode: Decoder, policy: Policy, lines: LineStream, stdout: seq<byte>, stderr: seq<byte>, m: nat, n: nat)
    requires var c := ConfigOf(decode, policy, lines, stdout, stderr); m <= c.main.length && n <= c.other.length
    ensures var c := ConfigOf(decode, policy, lines, stdout, stderr);
            && (c.main.overflow(m) || c.other.overflow(n) ==> TooLong(policy, stdout, stderr))
            && (c.strict && (c.main.capture(m).truncated || c.other.capture(n).truncated) ==>
                  TooLong(policy, stdout, stderr))
  {
  }

  /**
   * Whatever the child writes and however the threads interleave, once the call has returned: it failed to read if
   * and only if a reader broke; every failure has its cause; output is called too long only under the strict policy
   * and when a stream is; and with none of these causes the answer is a success, after the child has exited.
   */
  lemma AnswersAreJustified(decode: Decoder, policy: Policy, lines: LineStream, stdout: seq<byte>, stderr: seq<byte>,
                            actions: seq<Action>)
    requires Runnable(ConfigOf(decode, policy, lines, stdout, stderr), INITIAL, actions)
    requires Run(ConfigOf(decode, policy, lines, stdout, stderr), INITIAL, actions).pc.Returned?
    ensures var s := Run(ConfigOf(decode, policy, lines, stdout, stderr), INITIAL, actions);
            var broke := s.flow.phase.Broken? || s.drain.Broken?;
            var tooLong := policy.failOnOverflow && (|stdout| > policy.limit || |stderr| > policy.limit);
            && (s.pc.answer == ReadError <==> broke)
            && (s.pc.answer == Truncated ==> tooLong && s.flags.exited)
            && (s.pc.answer == Failure(Cancelled) ==> s.flags.cancelled)
            && (s.pc.answer == Failure(TimedOut) ==> s.flags.expired)
            && (s.pc.answer == Failure(TooMuchOutput) ==> s.flags.overflow && tooLong)
            && (s.pc.answer == Failure(WaitFailed) ==> s.flags.waitFailed)
            && (s.pc.answer.Success? ==> s.flags.exited && !tooLong)
            && (!s.flags.cancelled && !s.flags.expired && !s.flags.waitFailed && !broke && !tooLong ==>
                  s.pc.answer.Success?)
  {
    var c := ConfigOf(decode, policy, lines, stdout, stderr);
    RunsStart(decode, policy, lines, stdout, stderr);
    PipeIsRising(decode, policy, stdout, lines == LinesOf(Stdout));
    PipeIsRising(decode, policy, stderr, lines == LinesOf(Stderr));
    AnswersStayTrue(c, INITIAL, actions);
    var s := Run(c, INITIAL, actions);
    LongPipes(decode, policy, lines, stdout, stderr, s.flow.consumed, s.drained);
    if s.pc.answer.Success? {
      SuccessIsComplete(decode, policy, lines, stdout, stderr, actions);
    }
  }

  predicate OverflowSeen(c: Config, s: State) {
    c.main.overflow(s.flow.consumed) || c.other.overflow(s.drained) ==> s.flags.overflow
  }

  lemma {:induction false} OverflowStaysSeen(c: Config, s: State, actions: seq<Action>)
    requires OverflowSeen(c, s) && Runnable(c, s, actions)
    ensures OverflowSeen(c, Run(c, s, actions))
    decreases |actions|
  {
    if actions != [] {
      OverflowStaysSeen(c, Apply(c, s, actions[0]), actions[1..]);
    }
  }

  /**
   * Under the strict policy the alarm is raised as soon as more than the limit has been read from either stream, while
   * the child may still be running, and otherwise never.
   */
  lemma OverflowIsSeen(decode: Decoder, policy: Policy, lines: LineStream, stdout: seq<byte>, stderr: seq<byte>,
                       actions: seq<Action>)
    requires Runnable(ConfigOf(decode, policy, lines, stdout, stderr), INITIAL, actions) && policy.limit < USIZE_MAX
    ensures var s := Run(ConfigOf(decode, policy, lines, stdout, stderr), INITIAL, actions);
            s.flags.overflow <==> policy.failOnOverflow && (s.flow.consumed > policy.limit || s.drained > policy.limit)
  {
    var c := ConfigOf(decode, policy, lines, stdout, stderr);
    RunsStart(decode, policy, lines, stdout, stderr);
    PipeIsRising(decode, policy, stdout, lines == LinesOf(Stdout));
    PipeIsRising(decode, policy, stderr, lines == LinesOf(Stderr));
    AnswersStayTrue(c, INITIAL, actions);
    OverflowStaysSeen(c, INITIAL, actions);
    var s := Run(c, INITIAL, actions);
    OverflowIsLength(decode, policy, stdout, lines == LinesOf(Stdout), s.flow.consumed);
    OverflowIsLength(decode, policy, stderr, lines == LinesOf(Stderr), s.flow.consumed);
    OverflowIsLength(decode, policy, stdout, lines == LinesOf(Stdout), s.drained);
    OverflowIsLength(decode, policy, stderr, lines == LinesOf(Stderr), s.drained);
  }

  lemma OverflowIsLength(decode: Decoder, policy: Policy, stream: seq<byte>, sends: bool, n: nat)
    requires policy.limit < USIZE_MAX
    ensures n <= |stream| ==>
              (PipeOf(decode, policy, stream, sends).overflow(n) <==> policy.failOnOverflow && n > policy.limit)
  {
  }

  /** The queue holds 64 lines: with fewer a reader can send, and with 64 it waits. */
  lemma QueueHolds64(c: Config, s: State)
    requires Inv(c, s) && s.flow.receiver && s.flow.outbox != []
    ensures |s.flow.queue| <= 64 && (Enabled(c, s, Send) <==> |s.flow.queue| < 64)
  {
  }

  // ---- No deadlock, and every alarm leads to a return ----

  predicate Environment(a: Action) {
    a.Cancel? || a.Expire? || a.Exit?
  }

  /** The child may exit, the caller cancel and the time run out in any state; a read or a wait may fail when made. */
  lemma EnvironmentIsFree(c: Config, s: State)
    ensures !s.flags.cancelled ==> Enabled(c, s, Cancel) && Apply(c, s, Cancel).flags.cancelled
    ensures !s.flags.expired ==> Enabled(c, s, Expire) && Apply(c, s, Expire).flags.expired
    ensures !s.flags.exited ==> Enabled(c, s, Exit) && Apply(c, s, Exit).flags.exited
    ensures s.flow.phase.Reading? && s.flow.outbox == [] ==> Enabled(c, s, Break) && Apply(c, s, Break).ReaderBroke()
    ensures s.drain.Reading? ==> Enabled(c, s, BreakOther) && Apply(c, s, BreakOther).ReaderBroke()
    ensures s.pc.CheckExit? && !s.flags.exitSeen ==>
              Enabled(c, s, PollFails) && Apply(c, s, PollFails).pc == Terminating(WaitFailed)
  {
  }

  /**
   * Some thread can always move until the call returns.  In particular, once termination has dropped the
   * receiver, a reader blocked on a full queue is free.
   */
  lemma NeverStuck(c: Config, s: State) returns (a: Action)
    requires Inv(c, s) && !s.pc.Returned?
    ensures Enabled(c, s, a) && !Environment(a)
  {
    if !s.pc.Terminating? || s.ReadersDone() {
      a := Poll;
    } else if !s.flow.phase.Done() {
      a := if s.flow.outbox != [] then Send
           else if s.flow.phase.Finishing? then Finish
           else if s.flow.consumed < c.main.length then Read(1)
           else Eof;
    } else {
      a := if s.drained < c.other.length then ReadOther(1) else EofOther;
    }
  }

  predicate Alarmed(s: State) {
    s.flags.cancelled || s.flags.expired || s.flags.overflow
  }

  const ROUND := 100

  /** An alarm that the current round of checks has not passed yet. */
  predicate CaughtThisRound(flags: Flags, pc: Pc) {
    pc.Draining? || pc.CheckCancel?
    || (pc.CheckTimeout? && (flags.expired || flags.overflow))
    || (pc.CheckOverflow? && flags.overflow)
  }

  function PollWork(flags: Flags, pc: Pc): nat {
    match pc
    case Returned(_) => 0
    case Terminating(_) => 1
    case Joining => 1
    case FinalDrain => 2
    case Draining(n) => 10 + (if n < PROGRESS_QUEUE_LIMIT then PROGRESS_QUEUE_LIMIT - n else 0)
    case CheckCancel => 9
    case CheckTimeout => 8 + if CaughtThisRound(flags, pc) then 0 else ROUND
    case CheckOverflow => 7 + if CaughtThisRound(flags, pc) then 0 else ROUND
    case CheckExit => 6 + ROUND
    case CheckDone => 5 + ROUND
  }

  function FlagWork(flags: Flags): nat {
    (if flags.cancelled then 0 else 1) + (if flags.expired then 0 else 1) + (if flags.exited then 0 else 1)
  }

  function DrainWork(c: Config, s: State): nat
    requires s.drained <= c.other.length
  {
    c.other.length - s.drained + if s.drain.Done() then 0 else 1
  }

  /** A bound on the steps left once an alarm is raised. */
  function Work(c: Config, s: State): nat
    requires s.flow.consumed <= c.main.length && s.drained <= c.other.length
  {
    FlowWork(c.main, s.flow) + DrainWork(c, s) + PollWork(s.flags, s.pc) + FlagWork(s.flags)
  }

  lemma PollWorks(c: Config, s: State)
    requires Inv(c, s) && Alarmed(s) && Enabled(c, s, Poll)
    ensures var next := PollStep(c, s);
            && DrainWork(c, next) == DrainWork(c, s) && FlagWork(next.flags) == FlagWork(s.flags)
            && if s.pc.FinalDrain? && s.flow.queue != [] then PollWork(next.flags, next.pc) == PollWork(s.flags, s.pc)
               else PollWork(next.flags, next.pc) < PollWork(s.flags, s.pc)
  {
  }

  lemma OtherWorks(c: Config, s: State, a: Action)
    requires Inv(c, s) && Enabled(c, s, a) && !a.Poll?
    ensures var next := Apply(c, s, a);
            && next.drained <= c.other.length
            && PollWork(next.flags, next.pc) <= PollWork(s.flags, s.pc)
            && DrainWork(c, next) <= DrainWork(c, s) && FlagWork(next.flags) <= FlagWork(s.flags)
            && (a.PollFails? ==> PollWork(next.flags, next.pc) < PollWork(s.flags, s.pc))
            && (a.ReadOther? || a.EofOther? || a.BreakOther? ==> DrainWork(c, next) < DrainWork(c, s))
            && (Environment(a) ==> FlagWork(next.flags) < FlagWork(s.flags))
  {
  }

  lemma AlarmedStepWorks(c: Config, s: State, a: Action)
    requires Steady(c.main) && Inv(c, s) && Alarmed(s) && Enabled(c, s, a)
    ensures Inv(c, Apply(c, s, a)) && Alarmed(Apply(c, s, a))
    ensures Work(c, Apply(c, s, a)) < Work(c, s)
  {
    StepKeepsFlow(c, s, a);
    StepKeepsPc(c, s, a);
    if a.Poll? {
      PollWorks(c, s);
    } else {
      OtherWorks(c, s, a);
    }
  }

  /**
   * After a cancel, a timeout or an overflow, no run can go on for more than `Work` steps, and none can stop
   * before the call has returned.
   */
  lemma {:induction false} AlarmReturns(c: Config, s: State, actions: seq<Action>)
    requires Steady(c.main) && Inv(c, s) && Alarmed(s) && Runnable(c, s, actions)
    ensures |actions| <= Work(c, s)
    ensures var end := Run(c, s, actions);
            end.pc.Returned? || exists a :: Enabled(c, end, a) && !Environment(a)
    decreases |actions|
  {
    if actions == [] {
      if !s.pc.Returned? {
        var a := NeverStuck(c, s);
      }
    } else {
      AlarmedStepWorks(c, s, actions[0]);
      AlarmReturns(c, Apply(c, s, actions[0]), actions[1..]);
    }
  }

  /**
   * So from every state that any child, policy and interleaving can lead to: once an alarm is up the call returns,
   * within a number of steps that the state bounds.
   */
  lemma AlarmAlwaysReturns(decode: Decoder, policy: Policy, lines: LineStream, stdout: seq<byte>, stderr: seq<byte>,
                           before: seq<Action>, after: seq<Action>)
    requires Runnable(ConfigOf(decode, policy, lines, stdout, stderr), INITIAL, before)
    requires Alarmed(Run(ConfigOf(decode, policy, lines, stdout, stderr), INITIAL, before))
    requires var c := ConfigOf(decode, policy, lines, stdout, stderr); Runnable(c, Run(c, INITIAL, before), after)
    ensures var c := ConfigOf(decode, policy, lines, stdout, stderr);
            var s := Run(c, INITIAL, before);
            && Inv(c, s) && |after| <= Work(c, s)
            && (Run(c, s, after).pc.Returned? || exists a :: Enabled(c, Run(c, s, after), a) && !Environment(a))
  {
    var c := ConfigOf(decode, policy, lines, stdout, stderr);
    RunsStart(decode, policy, lines, stdout, stderr);
    RunKeepsInv(c, INITIAL, before);
    AlarmReturns(c, Run(c, INITIAL, before), after);
  }

  // ---- A child that has exited ----

  /** The child has exited and both readers have read everything. */
  predicate Settled(s: State) {
    s.flags.exited && s.ReadersDone()
  }

  /** A bound on the polls left; the exit may have been missed in this round of checks, but not in the next. */
  function PollsLeft(s: State): nat {
    |s.flow.queue| +
    match s.pc
    case Returned(_) => 0
    case Terminating(_) => 1
    case Joining => 1
    case FinalDrain => 2
    case CheckDone => if s.flags.exitSeen then 3 else 3 + ROUND
    case CheckExit => 4
    case CheckOverflow => 5
    case CheckTimeout => 6
    case CheckCancel => 7
    case Draining(n) => 8 + (if n < PROGRESS_QUEUE_LIMIT then PROGRESS_QUEUE_LIMIT - n else 0)
  }

  lemma SettledStays(c: Config, s: State)
    requires Settled(s) && Enabled(c, s, Poll)
    ensures Settled(PollStep(c, s)) && FlagWork(PollStep(c, s).flags) == FlagWork(s.flags)
  {
  }

  lemma SettledPolls(c: Config, s: State)
    requires Inv(c, s) && Settled(s) && Enabled(c, s, Poll)
    ensures PollsLeft(PollStep(c, s)) < PollsLeft(s)
  {
  }

  lemma SettledStep(c: Config, s: State, a: Action)
    requires Inv(c, s) && Settled(s) && Enabled(c, s, a)
    ensures var next := Apply(c, s, a);
            && Settled(next)
            && PollsLeft(next) + FlagWork(next.flags) < PollsLeft(s) + FlagWork(s.flags)
  {
    if a.Poll? {
      SettledStays(c, s);
      SettledPolls(c, s);
    }
  }

  /**
   * Once the child has exited and both readers are done, with or without an alarm, the call returns after a bounded
   * number of steps: until then it can always poll, and nobody else can do anything but raise an alarm.
   */
  lemma {:induction false} ExitReturns(c: Config, s: State, actions: seq<Action>)
    requires Steady(c.main) && Inv(c, s) && Settled(s) && Runnable(c, s, actions)
    ensures |actions| <= PollsLeft(s) + FlagWork(s.flags)
    ensures var end := Run(c, s, actions); end.pc.Returned? <==> !Enabled(c, end, Poll)
    decreases |actions|
  {
    if actions != [] {
      StepKeepsFlow(c, s, actions[0]);
      StepKeepsPc(c, s, actions[0]);
      SettledStep(c, s, actions[0]);
      ExitReturns(c, Apply(c, s, actions[0]), actions[1..]);
    }
  }
}
