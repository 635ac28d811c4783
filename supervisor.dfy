/**
 * The streaming supervisor (main): connect, stream one temperature frame per
 * second, close and reconnect on any failure, exit only on an interrupt that
 * reaches the outer handler.
 *
 * The environment is given as two streams of outcomes, consumed in order: what
 * each connection attempt gives, and what each streaming cycle gives. The
 * observable behaviour is a trace of Actions.
 */
module Supervisor {
  import opened Wrappers
  import opened PeerTalkFrame

  /**
   * What one pass of the outer loop meets before streaming starts. connect_to_ipad
   * catches the exceptions of the connect itself and returns None for them, but a
   * print raising inside one of its handlers escapes to the outer handler.
   */
  datatype ConnectOutcome =
    | Refused      // connect_to_ipad returned None (timeout, refusal or other error); a 5 s wait follows
    | Accepted     // connect_to_ipad returned a connected socket
    | Faulted      // an exception escaped connect_to_ipad's handlers and reached the outer handler; a 5 s pause follows
    | Interrupted  // Ctrl-C reached the outer handler (during the connect, which then leaves no attempt, or the 5 s wait)

  /** What one pass of the streaming loop meets. */
  datatype CycleOutcome =
    // The sample is taken and serialised to `payload`, the counter moves, the frame is sent
    // (`sendallOk`: sock.sendall completed); `interruptedInSleep`: Ctrl-C arrives in the 1 s sleep.
    | Cycle(payload: seq<uint8>, sendallOk: bool, interruptedInSleep: bool)
    // An exception or Ctrl-C while sampling, before the counter moves.
    | Raised

  /** The supervisor's observable effects. */
  datatype Action =
    | ConnectAttempt(accepted: bool)
    | RetryWait                            // time.sleep(5) after a failed connect
    | FaultPause                           // time.sleep(5) after the outer handler caught an exception
    | FrameAttempt(num: nat, delivered: bool)  // frame number `num` handed to send_peertalk_frame
    | Close(frames: nat)                   // sock.close(), with the frame counter at that moment
    | Shutdown                             // sys.exit(0)

  datatype Phase = Disconnected | Streaming(frameNum: nat) | Exited

  /** One pass of the outer loop that does not stream: its actions and the phase it leads to. */
  function ConnectStep(outcome: ConnectOutcome): (seq<Action>, Phase) {
    match outcome
    case Refused => ([ConnectAttempt(false), RetryWait], Disconnected)
    case Accepted => ([ConnectAttempt(true)], Streaming(0))
    case Faulted => ([FaultPause], Disconnected)
    case Interrupted => ([Shutdown], Exited)
  }

  /** Whether send_peertalk_frame returns True for this cycle's temperature frame: the length fits the header and sendall completes. */
  predicate Sent(payload: seq<uint8>, sendallOk: bool) {
    |payload| < UINT32_LIMIT && sendallOk
  }

  /** Sent is exactly the sender's verdict on a temperature frame. */
  lemma SentIsSenderResult(payload: seq<uint8>, sendallOk: bool)
    ensures Sent(payload, sendallOk) == SendPeerTalkFrame(FRAME_TYPE_TEMPERATURE, payload, sendallOk).ok
  {
  }

  /** A cycle that sends its frame and keeps streaming. */
  predicate Delivers(outcome: CycleOutcome) {
    outcome.Cycle? && Sent(outcome.payload, outcome.sendallOk) && !outcome.interruptedInSleep
  }

  /** The frame counter after one cycle: it moves before the send, and not at all if sampling raised. */
  function CycleCount(frameNum: nat, outcome: CycleOutcome): nat {
    if outcome.Cycle? then frameNum + 1 else frameNum
  }

  /** The frame attempt one cycle makes, if it gets that far. */
  function CycleSends(frameNum: nat, outcome: CycleOutcome): seq<Action> {
    match outcome
    case Raised => []
    case Cycle(payload, sendallOk, _) => [FrameAttempt(frameNum + 1, Sent(payload, sendallOk))]
  }

  /** One pass of the streaming loop with the counter at `frameNum`; a break closes the socket. */
  function CycleStep(frameNum: nat, outcome: CycleOutcome): (seq<Action>, Phase) {
    if Delivers(outcome) then (CycleSends(frameNum, outcome), Streaming(frameNum + 1))
    else (CycleSends(frameNum, outcome) + [Close(CycleCount(frameNum, outcome))], Disconnected)
  }

  /**
   * The actions of main from `phase`, with connects[i..] and cycles[j..] still to come,
   * until the process exits or the outcome stream it needs next runs out.
   */
  function Trace(phase: Phase, connects: seq<ConnectOutcome>, i: nat, cycles: seq<CycleOutcome>, j: nat): seq<Action>
    requires i <= |connects| && j <= |cycles|
    decreases |connects| - i + |cycles| - j
  {
    match phase
    case Exited => []
    case Disconnected =>
      if i >= |connects| then []
      else ConnectStep(connects[i]).0 + Trace(ConnectStep(connects[i]).1, connects, i + 1, cycles, j)
    case Streaming(n) =>
      if j >= |cycles| then []
      else CycleStep(n, cycles[j]).0 + Trace(CycleStep(n, cycles[j]).1, connects, i, cycles, j + 1)
  }

  // ---------------------------------------------------------------------------
  // The shape of every trace, as an automaton over adjacent actions.

  /** The actions that may come first in `phase`. */
  predicate Opens(phase: Phase, a: Action) {
    match phase
    case Disconnected => a.ConnectAttempt? || a.FaultPause? || a.Shutdown?
    case Streaming(n) => (a.FrameAttempt? && a.num == n + 1) || a == Close(n)
    case Exited => false
  }

  /** Whether `next` may directly follow `prev`. */
  predicate Follows(prev: Action, next: Action) {
    match prev
    case ConnectAttempt(accepted) => if accepted then Opens(Streaming(0), next) else next == RetryWait
    case RetryWait => Opens(Disconnected, next)
    case FaultPause => Opens(Disconnected, next)
    case FrameAttempt(n, delivered) => if delivered then Opens(Streaming(n), next) else next == Close(n)
    case Close(_) => Opens(Disconnected, next)
    case Shutdown => false
  }

  predicate WellFormed(phase: Phase, t: seq<Action>) {
    && (|t| > 0 ==> Opens(phase, t[0]))
    && forall k :: 0 < k < |t| ==> Follows(t[k - 1], t[k])
  }

  /** Gluing a step's actions to a well-formed rest whose phase the step leads to. */
  lemma AppendStep(phase: Phase, step: seq<Action>, next: Phase, rest: seq<Action>)
    requires WellFormed(phase, step) && |step| > 0
    requires WellFormed(next, rest)
    requires forall a :: Opens(next, a) ==> Follows(step[|step| - 1], a)
    ensures WellFormed(phase, step + rest)
  {
    var t := step + rest;
    forall k | 0 < k < |t| ensures Follows(t[k - 1], t[k]) {
      if k < |step| {
        assert t[k - 1] == step[k - 1] && t[k] == step[k];
      } else if k == |step| {
        assert t[k - 1] == step[|step| - 1] && t[k] == rest[0];
      } else {
        assert t[k - 1] == rest[k - 1 - |step|] && t[k] == rest[k - |step|];
      }
    }
  }

  /** One connect step is well formed, and whatever may open its next phase may follow it. */
  lemma ConnectStepGlues(outcome: ConnectOutcome)
    ensures var (step, next) := ConnectStep(outcome);
            && |step| > 0 && WellFormed(Disconnected, step)
            && forall a :: Opens(next, a) ==> Follows(step[|step| - 1], a)
  {
  }

  /** One cycle step is well formed, and whatever may open its next phase may follow it. */
  lemma CycleStepGlues(n: nat, outcome: CycleOutcome)
    ensures var (step, next) := CycleStep(n, outcome);
            && |step| > 0 && WellFormed(Streaming(n), step)
            && forall a :: Opens(next, a) ==> Follows(step[|step| - 1], a)
  {
  }

  /** Every trace of main is well formed. */
  lemma {:induction false} TraceWellFormed(phase: Phase, connects: seq<ConnectOutcome>, i: nat, cycles: seq<CycleOutcome>, j: nat)
    requires i <= |connects| && j <= |cycles|
    ensures WellFormed(phase, Trace(phase, connects, i, cycles, j))
    decreases |connects| - i + |cycles| - j
  {
    match phase
    case Exited =>
    case Disconnected =>
      if i < |connects| {
        var (step, next) := ConnectStep(connects[i]);
        ConnectStepGlues(connects[i]);
        TraceWellFormed(next, connects, i + 1, cycles, j);
        AppendStep(phase, step, next, Trace(next, connects, i + 1, cycles, j));
      }
    case Streaming(n) =>
      if j < |cycles| {
        var (step, next) := CycleStep(n, cycles[j]);
        CycleStepGlues(n, cycles[j]);
        TraceWellFormed(next, connects, i, cycles, j + 1);
        AppendStep(phase, step, next, Trace(next, connects, i, cycles, j + 1));
      }
  }

  /**
   * Frame numbering: a frame attempt numbered n is the n-th since the last accepted
   * connect, and the n-1 attempts before it on that connection were all delivered.
   */
  lemma {:induction false} FrameNumbering(t: seq<Action>, k: nat)
    requires WellFormed(Disconnected, t)
    requires k < |t| && t[k].FrameAttempt?
    ensures 1 <= t[k].num <= k
    ensures t[k - t[k].num] == ConnectAttempt(true)
    ensures forall m :: 1 <= m < t[k].num ==> t[k - t[k].num + m] == FrameAttempt(m, true)
  {
    assert k > 0;
    assert Follows(t[k - 1], t[k]);
    if t[k - 1].FrameAttempt? {
      FrameNumbering(t, k - 1);
    }
  }

  /**
   * One close per connection: after an accepted connect, the actions are frame attempts
   * numbered 1, 2, ..., all delivered but the last, then exactly one Close carrying the
   * number of attempts, and then no further frame or close before the next connect.
   */
  lemma OneClosePerConnection(t: seq<Action>, i: nat, c: nat)
    requires WellFormed(Disconnected, t)
    requires i < c < |t| && t[i] == ConnectAttempt(true)
    requires forall k :: i < k < c ==> t[k].FrameAttempt?
    requires !t[c].FrameAttempt?
    ensures t[c] == Close(c - i - 1)
    ensures forall k :: i < k < c ==> t[k].num == k - i
    ensures forall k :: i < k < c - 1 ==> t[k].delivered
    ensures c + 1 < |t| ==> Opens(Disconnected, t[c + 1])
  {
    forall k | i < k < c ensures t[k].num == k - i {
      AttemptsCountFromConnect(t, i, k);
    }
    forall k | i < k < c - 1 ensures t[k].delivered {
      assert Follows(t[k], t[k + 1]);
    }
    assert Follows(t[c - 1], t[c]);
    if c + 1 < |t| {
      assert Follows(t[c], t[c + 1]);
    }
  }

  /** Counting forward from an accepted connect, the k-th consecutive frame attempt carries number k. */
  lemma {:induction false} AttemptsCountFromConnect(t: seq<Action>, i: nat, k: nat)
    requires WellFormed(Disconnected, t)
    requires i < k < |t| && t[i] == ConnectAttempt(true)
    requires forall m :: i < m <= k ==> t[m].FrameAttempt?
    ensures t[k].num == k - i
  {
    assert Follows(t[k - 1], t[k]);
    if k > i + 1 {
      AttemptsCountFromConnect(t, i, k - 1);
    }
  }

  /** The process exits only on an interrupt that reaches the outer handler. */
  lemma {:induction false} ShutdownOnlyOnOuterInterrupt(phase: Phase, connects: seq<ConnectOutcome>, i: nat,
                                                        cycles: seq<CycleOutcome>, j: nat)
    requires i <= |connects| && j <= |cycles|
    requires Shutdown in Trace(phase, connects, i, cycles, j)
    ensures Interrupted in connects[i..]
    decreases |connects| - i + |cycles| - j
  {
    match phase
    case Exited =>
    case Disconnected =>
      if connects[i] != Interrupted {
        ShutdownOnlyOnOuterInterrupt(ConnectStep(connects[i]).1, connects, i + 1, cycles, j);
        assert connects[i + 1..] == connects[i..][1..];
      }
    case Streaming(n) =>
      ShutdownOnlyOnOuterInterrupt(CycleStep(n, cycles[j]).1, connects, i, cycles, j + 1);
  }

  /** Ctrl-C in the inter-frame sleep ends the connection and the supervisor goes back to connecting; it does not exit. */
  lemma InterruptInSleepReconnects(n: nat, connects: seq<ConnectOutcome>, i: nat, cycles: seq<CycleOutcome>, j: nat)
    requires i <= |connects| && j < |cycles| && cycles[j].Cycle? && cycles[j].interruptedInSleep
    requires Sent(cycles[j].payload, cycles[j].sendallOk)
    requires Interrupted !in connects[i..]
    ensures Trace(Streaming(n), connects, i, cycles, j)
            == [FrameAttempt(n + 1, true), Close(n + 1)] + Trace(Disconnected, connects, i, cycles, j + 1)
    ensures Shutdown !in Trace(Streaming(n), connects, i, cycles, j)
  {
    if Shutdown in Trace(Disconnected, connects, i, cycles, j + 1) {
      ShutdownOnlyOnOuterInterrupt(Disconnected, connects, i, cycles, j + 1);
    }
  }

  // ---------------------------------------------------------------------------
  // Connect-fault and send-fault scenarios.

  /** The actions of n refused connects: n attempts, each followed by the 5 s wait. */
  function Retries(n: nat): (r: seq<Action>)
    ensures |r| == 2 * n
    ensures forall k :: 0 <= k < |r| ==> r[k] == if k % 2 == 0 then ConnectAttempt(false) else RetryWait
  {
    if n == 0 then []
    else
      var r := [ConnectAttempt(false), RetryWait] + Retries(n - 1);
      assert forall k :: 2 <= k < |r| ==> r[k] == Retries(n - 1)[k - 2];
      r
  }

  /**
   * n refused connects lead to n attempts and n waits, never to streaming or exit,
   * and leave the supervisor disconnected: a connect that succeeds on attempt n+1
   * starts streaming after exactly n failed attempts.
   */
  lemma {:induction false} RefusedConnects(n: nat, connects: seq<ConnectOutcome>, i: nat, cycles: seq<CycleOutcome>, j: nat)
    requires i + n <= |connects| && j <= |cycles|
    requires forall k :: i <= k < i + n ==> connects[k] == Refused
    ensures Trace(Disconnected, connects, i, cycles, j) == Retries(n) + Trace(Disconnected, connects, i + n, cycles, j)
  {
    if n > 0 {
      RefusedConnects(n - 1, connects, i + 1, cycles, j);
      assert Trace(Disconnected, connects, i, cycles, j)
             == [ConnectAttempt(false), RetryWait] + Trace(Disconnected, connects, i + 1, cycles, j);
      AppendAssociates([ConnectAttempt(false), RetryWait], Retries(n - 1), Trace(Disconnected, connects, i + n, cycles, j));
    }
  }

  /**
   * A connect that succeeds on attempt n + 1 starts streaming after exactly n refused
   * attempts and their waits, with the frame counter at 0.
   */
  lemma ConnectSucceedsAfterRetries(n: nat, connects: seq<ConnectOutcome>, i: nat, cycles: seq<CycleOutcome>, j: nat)
    requires i + n < |connects| && j <= |cycles|
    requires forall k :: i <= k < i + n ==> connects[k] == Refused
    requires connects[i + n] == Accepted
    ensures Trace(Disconnected, connects, i, cycles, j)
            == Retries(n) + ([ConnectAttempt(true)] + Trace(Streaming(0), connects, i + n + 1, cycles, j))
  {
    RefusedConnects(n, connects, i, cycles, j);
  }

  /** Delivered frames numbered from + 1 to from + count. */
  function DeliveredFrames(from: nat, count: nat): seq<Action>
    decreases count
  {
    if count == 0 then [] else [FrameAttempt(from + 1, true)] + DeliveredFrames(from + 1, count - 1)
  }

  /** Delivering cycles number their frames consecutively and keep the connection. */
  lemma {:induction false} DeliveringCycles(n: nat, m: nat, connects: seq<ConnectOutcome>, i: nat, cycles: seq<CycleOutcome>, j: nat)
    requires i <= |connects| && j + m <= |cycles|
    requires forall k :: j <= k < j + m ==> Delivers(cycles[k])
    ensures Trace(Streaming(n), connects, i, cycles, j)
            == DeliveredFrames(n, m) + Trace(Streaming(n + m), connects, i, cycles, j + m)
    decreases m
  {
    if m > 0 {
      assert CycleStep(n, cycles[j]) == ([FrameAttempt(n + 1, true)], Streaming(n + 1));
      DeliveringCycles(n + 1, m - 1, connects, i, cycles, j + 1);
      AppendAssociates([FrameAttempt(n + 1, true)], DeliveredFrames(n + 1, m - 1),
                       Trace(Streaming(n + m), connects, i, cycles, j + m));
    }
  }

  /** A cycle whose send fails makes one undelivered attempt, closes the socket and goes back to connecting. */
  lemma FailedSendCloses(n: nat, connects: seq<ConnectOutcome>, i: nat, cycles: seq<CycleOutcome>, j: nat)
    requires i <= |connects| && j < |cycles|
    requires cycles[j].Cycle? && !Sent(cycles[j].payload, cycles[j].sendallOk)
    ensures Trace(Streaming(n), connects, i, cycles, j)
            == [FrameAttempt(n + 1, false), Close(n + 1)] + Trace(Disconnected, connects, i, cycles, j + 1)
  {
    assert CycleSends(n, cycles[j]) + [Close(n + 1)] == [FrameAttempt(n + 1, false), Close(n + 1)];
  }

  /**
   * When the send after d delivered frames fails, the failed attempt carries number
   * d + 1, the socket is closed once with the counter at d + 1, and the supervisor
   * is back to connecting.
   */
  lemma SendFailureEndsConnection(d: nat, connects: seq<ConnectOutcome>, i: nat, cycles: seq<CycleOutcome>, j: nat)
    requires i <= |connects| && j + d < |cycles|
    requires forall m :: j <= m < j + d ==> Delivers(cycles[m])
    requires cycles[j + d].Cycle? && !Sent(cycles[j + d].payload, cycles[j + d].sendallOk)
    ensures Trace(Streaming(0), connects, i, cycles, j)
            == DeliveredFrames(0, d) + [FrameAttempt(d + 1, false), Close(d + 1)] + Trace(Disconnected, connects, i, cycles, j + d + 1)
  {
    var after := Trace(Disconnected, connects, i, cycles, j + d + 1);
    DeliveringCycles(0, d, connects, i, cycles, j);
    FailedSendCloses(d, connects, i, cycles, j + d);
    AppendAssociates(DeliveredFrames(0, d), [FrameAttempt(d + 1, false), Close(d + 1)], after);
  }

  // ---------------------------------------------------------------------------
  // main, as the loops that run it.

  lemma AppendAssociates(a: seq<Action>, b: seq<Action>, c: seq<Action>)
    ensures a + (b + c) == (a + b) + c
  {
  }

  /** An action after which the socket is open: an accepted connect or a delivered frame. */
  predicate LeavesOpen(a: Action) {
    a == ConnectAttempt(true) || (a.FrameAttempt? && a.delivered)
  }

  /** Whether the socket is open after the actions `t`: the last one left it open. */
  predicate SocketOpenAfter(t: seq<Action>) {
    |t| > 0 && LeavesOpen(t[|t| - 1])
  }

  /** A pass of the outer loop that goes on: the actions so far grow by its step and still neither exit nor leave the socket open. */
  lemma PassContinues(spec: seq<Action>, done: seq<Action>, step: seq<Action>, before: seq<Action>, after: seq<Action>)
    requires spec == done + before && before == step + after
    requires Shutdown !in done && !SocketOpenAfter(done)
    requires |step| > 0 && Shutdown !in step && !SocketOpenAfter(step)
    ensures spec == (done + step) + after
    ensures Shutdown !in done + step && !SocketOpenAfter(done + step)
  {
    assert (done + step)[|done + step| - 1] == step[|step| - 1];
  }

  /** A pass of the outer loop that stops: whether the run exited and whether the socket is open are decided by its step. */
  lemma PassStops(spec: seq<Action>, done: seq<Action>, step: seq<Action>)
    requires spec == done + step && Shutdown !in done && |step| > 0
    ensures (Shutdown in spec) == (Shutdown in step)
    ensures SocketOpenAfter(spec) == SocketOpenAfter(step)
  {
    assert spec[|spec| - 1] == step[|step| - 1];
  }

  /** The connect outcomes ran out: the actions so far are the whole run. */
  lemma PassesEnd(spec: seq<Action>, done: seq<Action>, rest: seq<Action>)
    requires spec == done + rest && rest == []
    ensures (Shutdown in spec) == (Shutdown in done)
    ensures SocketOpenAfter(spec) == SocketOpenAfter(done)
  {
    assert spec == done;
  }

  /** A cycle that keeps streaming: its delivered frame becomes the last action so far. */
  lemma CycleContinues(spec: seq<Action>, streamed: seq<Action>, sends: seq<Action>, before: seq<Action>, after: seq<Action>, n: nat)
    requires spec == streamed + before && before == sends + after
    requires sends == [FrameAttempt(n, true)] && Shutdown !in streamed
    ensures spec == (streamed + sends) + after
    ensures Shutdown !in streamed + sends && (streamed + sends)[|streamed + sends| - 1] == FrameAttempt(n, true)
  {
    AppendAssociates(streamed, sends, after);
  }

  /** A cycle that breaks out: what it sent, then the close, then the rest. */
  lemma CycleBreaks(spec: seq<Action>, streamed: seq<Action>, sends: seq<Action>, before: seq<Action>,
                    close: seq<Action>, rest: seq<Action>)
    requires spec == streamed + before && before == (sends + close) + rest
    requires Shutdown !in streamed && Shutdown !in sends
    ensures spec == (streamed + sends) + (close + rest) && Shutdown !in streamed + sends
  {
    AppendAssociates(sends, close, rest);
    AppendAssociates(streamed, sends, close + rest);
  }

  /** A connection that streams and then closes leaves no shutdown and a closed socket. */
  lemma AcceptedCloses(streamed: seq<Action>, n: nat, rest: seq<Action>)
    requires Shutdown !in streamed
    ensures [ConnectAttempt(true)] + (streamed + ([Close(n)] + rest))
            == ([ConnectAttempt(true)] + streamed + [Close(n)]) + rest
    ensures Shutdown !in [ConnectAttempt(true)] + streamed + [Close(n)]
    ensures !SocketOpenAfter([ConnectAttempt(true)] + streamed + [Close(n)])
  {
    AppendAssociates(streamed, [Close(n)], rest);
    AppendAssociates([ConnectAttempt(true)], streamed, [Close(n)] + rest);
    AppendAssociates([ConnectAttempt(true)] + streamed, [Close(n)], rest);
  }

  /** A connection still streaming when the outcomes run out leaves its socket open. */
  lemma AcceptedStops(streamed: seq<Action>, n: nat)
    requires Shutdown !in streamed
    requires streamed == [] || streamed[|streamed| - 1] == FrameAttempt(n, true)
    ensures Shutdown !in [ConnectAttempt(true)] + streamed
    ensures SocketOpenAfter([ConnectAttempt(true)] + streamed)
  {
    var t := [ConnectAttempt(true)] + streamed;
    assert t[|t| - 1] == if streamed == [] then ConnectAttempt(true) else streamed[|streamed| - 1];
  }

  class StreamSupervisor {
    /** Whether `sock` holds an open connection. */
    var sockOpen: bool
    var frameNum: nat
    /** Whether sys.exit(0) has been called. */
    var exited: bool
    /** The actions performed so far. */
    ghost var trace: seq<Action>

    constructor ()
      ensures !sockOpen && !exited && frameNum == 0 && trace == []
    {
      sockOpen, frameNum, exited := false, 0, false;
      trace := [];
    }

    /**
     * main's outer `while True`: connect, stream, close, and again, until the process
     * exits or one of the outcome streams runs out (the rest of the run is not observed).
     */
    method Run(connects: seq<ConnectOutcome>, cycles: seq<CycleOutcome>)
      requires !sockOpen && !exited
      modifies this
      ensures trace == old(trace) + Trace(Disconnected, connects, 0, cycles, 0)
      ensures exited <==> Shutdown in Trace(Disconnected, connects, 0, cycles, 0)
      ensures sockOpen <==> SocketOpenAfter(Trace(Disconnected, connects, 0, cycles, 0))
    {
      ghost var spec := Trace(Disconnected, connects, 0, cycles, 0);
      ghost var done: seq<Action> := [];
      var i: nat, j: nat := 0, 0;
      while i < |connects|
        invariant i <= |connects| && j <= |cycles|
        invariant !sockOpen && !exited
        invariant trace == old(trace) + done && Shutdown !in done && !SocketOpenAfter(done)
        invariant spec == done + Trace(Disconnected, connects, i, cycles, j)
        decreases |connects| - i
      {
        var stop;
        ghost var step;
        ghost var before := Trace(Disconnected, connects, i, cycles, j);
        j, stop, step := Attempt(connects, i, cycles, j);
        AppendAssociates(old(trace), done, step);
        i := i + 1;
        if stop {
          PassStops(spec, done, step);
          done := done + step;
          return;
        }
        PassContinues(spec, done, step, before, Trace(Disconnected, connects, i, cycles, j));
        done := done + step;
      }
      PassesEnd(spec, done, Trace(Disconnected, connects, i, cycles, j));
    }

    /**
     * One pass of main's outer loop with the connect outcome `connects[i]`: retry,
     * pause, exit, or stream over the cycle outcomes from `from` and close. `stop`:
     * the process exited or the cycle outcomes ran out while streaming.
     */
    method Attempt(connects: seq<ConnectOutcome>, i: nat, cycles: seq<CycleOutcome>, from: nat)
      returns (next: nat, stop: bool, ghost step: seq<Action>)
      requires i < |connects| && from <= |cycles|
      requires !sockOpen && !exited
      modifies this
      ensures from <= next <= |cycles| && trace == old(trace) + step && |step| > 0
      ensures stop ==> && Trace(Disconnected, connects, i, cycles, from) == step
                       && (exited <==> Shutdown in step)
                       && (sockOpen <==> SocketOpenAfter(step))
      ensures !stop ==> && Trace(Disconnected, connects, i, cycles, from)
                             == step + Trace(Disconnected, connects, i + 1, cycles, next)
                         && !sockOpen && !exited && Shutdown !in step && !SocketOpenAfter(step)
    {
      next, stop := from, false;
      match connects[i] {
      case Interrupted =>
        step := [Shutdown];
        exited, stop := true, true;
      case Faulted =>
        step := [FaultPause];
      case Refused =>
        step := [ConnectAttempt(false), RetryWait];
      case Accepted =>
        sockOpen := true;
        frameNum := 0;
        trace := trace + [ConnectAttempt(true)];
        var broke;
        ghost var streamed;
        next, broke, streamed := Stream(connects, i + 1, cycles, from);
        AppendAssociates(old(trace), [ConnectAttempt(true)], streamed);
        if broke {
          step := [ConnectAttempt(true)] + streamed + [Close(frameNum)];
          AcceptedCloses(streamed, frameNum, Trace(Disconnected, connects, i + 1, cycles, next));
          AppendAssociates(old(trace), [ConnectAttempt(true)] + streamed, [Close(frameNum)]);
          sockOpen := false;
          trace := trace + [Close(frameNum)];
        } else {
          // The cycle outcomes ran out while streaming: nothing more is observed.
          step := [ConnectAttempt(true)] + streamed;
          AcceptedStops(streamed, frameNum);
          stop := true;
        }
        return;
      }
      trace := trace + step;
    }

    /**
     * main's inner `while True` over the cycle outcomes from index `from`: one frame
     * per cycle until a cycle breaks out (`broke`; the caller then closes the socket)
     * or the outcomes run out. `streamed` is what it did.
     */
    method Stream(ghost connects: seq<ConnectOutcome>, ghost i: nat, cycles: seq<CycleOutcome>, from: nat)
      returns (next: nat, broke: bool, ghost streamed: seq<Action>)
      requires sockOpen && !exited && i <= |connects| && from <= |cycles|
      modifies this
      ensures sockOpen && !exited && from <= next <= |cycles|
      ensures !broke ==> streamed == [] || streamed[|streamed| - 1] == FrameAttempt(frameNum, true)
      ensures trace == old(trace) + streamed && Shutdown !in streamed
      ensures broke ==> Trace(Streaming(old(frameNum)), connects, i, cycles, from)
                        == streamed + ([Close(frameNum)] + Trace(Disconnected, connects, i, cycles, next))
      ensures !broke ==> Trace(Streaming(old(frameNum)), connects, i, cycles, from) == streamed
    {
      ghost var spec := Trace(Streaming(frameNum), connects, i, cycles, from);
      streamed := [];
      next, broke := from, false;
      while next < |cycles|
        invariant from <= next <= |cycles|
        invariant sockOpen && !exited
        invariant trace == old(trace) + streamed && Shutdown !in streamed
        invariant streamed == [] || streamed[|streamed| - 1] == FrameAttempt(frameNum, true)
        invariant spec == streamed + Trace(Streaming(frameNum), connects, i, cycles, next)
        decreases |cycles| - next
      {
        var cycle := cycles[next];
        ghost var before := frameNum;
        ghost var unfolded := Trace(Streaming(before), connects, i, cycles, next);
        var keepStreaming;
        ghost var sends;
        keepStreaming, sends := StreamCycle(cycle);
        AppendAssociates(old(trace), streamed, sends);
        ghost var rest := Trace(CycleStep(before, cycle).1, connects, i, cycles, next + 1);
        assert unfolded == CycleStep(before, cycle).0 + rest;
        next := next + 1;
        if !keepStreaming {
          CycleBreaks(spec, streamed, sends, unfolded, [Close(frameNum)], rest);
          streamed := streamed + sends;
          broke := true;
          break;
        }
        CycleContinues(spec, streamed, sends, unfolded, rest, frameNum);
        streamed := streamed + sends;
      }
    }

    /**
     * One pass of the streaming loop (its try block): sample, move the counter, send
     * the frame; `keepStreaming` is false where main breaks out.
     */
    method StreamCycle(cycle: CycleOutcome) returns (keepStreaming: bool, ghost sends: seq<Action>)
      modifies this`frameNum, this`trace
      ensures frameNum == CycleCount(old(frameNum), cycle)
      ensures sends == CycleSends(old(frameNum), cycle) && trace == old(trace) + sends
      ensures keepStreaming == Delivers(cycle)
    {
      match cycle
      case Raised =>
        // read_temperature_data raised (or Ctrl-C arrived) before the counter moved.
        keepStreaming, sends := false, [];
      case Cycle(payload, sendallOk, interrupted) =>
        frameNum := frameNum + 1;
        var result := SendPeerTalkFrame(FRAME_TYPE_TEMPERATURE, payload, sendallOk);
        SentIsSenderResult(payload, sendallOk);
        sends := [FrameAttempt(frameNum, result.ok)];
        trace := trace + sends;
        // A failed send breaks out; so does Ctrl-C in the one-second sleep after a good one.
        keepStreaming := result.ok && !interrupted;
    }
  }
}
