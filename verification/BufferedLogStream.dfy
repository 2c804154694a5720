/**
 A log stream behind a producer goroutine. The first entry is taken while constructing; the producer
 is started by the first call that needs another one and feeds a bounded channel. Calls of the single
 consumer and steps of the producer interleave freely, and the context may be cancelled at any time.
 */
module BufferedLogStreams {
  import opened Common
  import opened LogEntries

  const READ_CHAN_SIZE: nat := 512

  // ---------- Plain streams, as the reference ----------

  datatype Kind = PeekCall | PopCall

  /** A finished call; None is the answer ok == false. */
  datatype Call = Call(kind: Kind, result: Option<Entry>)

  /** How many entries the calls have consumed. */
  function Consumed(log: seq<Call>): nat
  {
    if log == [] then 0
    else
      var last := log[|log| - 1];
      Consumed(log[..|log| - 1]) + if last.kind.PopCall? && last.result.Some? then 1 else 0
  }

  function At(all: seq<Entry>, n: nat): Option<Entry>
  {
    if n < |all| then Some(all[n]) else None
  }

  /** The calls were answered as by a plain stream of exactly `all`: in order, each entry consumed
      once, and nothing after the end. */
  ghost predicate Answers(all: seq<Entry>, log: seq<Call>)
  {
    forall k :: 0 <= k < |log| ==> log[k].result == At(all, Consumed(log[..k]))
  }

  /** In a plain stream a pop returns what a peek just before it returned. */
  lemma PopAfterPeek(all: seq<Entry>, log: seq<Call>, k: nat)
    requires Answers(all, log) && k + 1 < |log|
    requires log[k].kind.PeekCall? && log[k + 1].kind.PopCall?
    ensures log[k + 1].result == log[k].result
  {
    assert log[..k + 1][..k] == log[..k];
  }

  lemma {:induction false} ConsumedGrows(log: seq<Call>, k: nat)
    requires k < |log|
    ensures Consumed(log[..k]) + (if log[k].kind.PopCall? && log[k].result.Some? then 1 else 0) <= Consumed(log)
  {
    var init := log[..|log| - 1];
    if k < |init| {
      ConsumedGrows(init, k);
      assert init[..k] == log[..k];
    }
  }

  /** Taken together, the successful pops returned the beginning of the stream, in order. */
  function Popped(log: seq<Call>): seq<Entry>
  {
    if log == [] then []
    else
      var last := log[|log| - 1];
      Popped(log[..|log| - 1]) +
      if last.kind.PopCall? && last.result.Some? then [last.result.value] else []
  }

  lemma AnswersInit(all: seq<Entry>, log: seq<Call>)
    requires Answers(all, log) && log != []
    ensures Answers(all, log[..|log| - 1])
  {
    var init := log[..|log| - 1];
    forall k | 0 <= k < |init|
      ensures init[k].result == At(all, Consumed(init[..k]))
    {
      assert init[..k] == log[..k];
    }
  }

  lemma OneMore(all: seq<Entry>, n: nat)
    requires n < |all|
    ensures all[..n] + [all[n]] == all[..n + 1]
  {
  }

  lemma {:induction false} PopsAreThePrefix(all: seq<Entry>, log: seq<Call>)
    requires Answers(all, log)
    ensures Consumed(log) <= |all| && Popped(log) == all[..Consumed(log)]
  {
    if log != [] {
      var init, last := log[..|log| - 1], log[|log| - 1];
      AnswersInit(all, log);
      PopsAreThePrefix(all, init);
      var n := Consumed(init);
      assert last.result == At(all, n);
      if last.result.Some? {
        OneMore(all, n);
      }
    }
  }

  // ---------- Producer and consumer ----------

  datatype Producer = NotStarted | Popping | Holding(e: Entry) | Finished(dropped: bool)

  datatype Consumer = Idle | In(kind: Kind)

  datatype State = State(
    src: seq<Entry>,     // what the wrapped stream still holds
    c: seq<Entry>,       // the channel; closed exactly when the producer has finished
    producer: Producer,
    consumer: Consumer,
    e: Entry,
    ok: bool,
    read: bool,
    cancelled: bool,
    log: seq<Call>)

  datatype Step =
    | StartCall(kind: Kind) | RunOnce | Receive | ReceiveClosed | Return
    | ProducerPop | ProducerSend | ProducerCancel | Cancel

  function Init(all: seq<Entry>): State
  {
    if all == [] then State([], [], NotStarted, Idle, ZERO_ENTRY, false, true, false, [])
    else State(all[1..], [], NotStarted, Idle, all[0], true, true, false, [])
  }

  predicate Needs(s: State)
  {
    s.consumer.In? && s.ok && !s.read
  }

  predicate Enabled(s: State, step: Step)
  {
    match step
    case StartCall(_) => s.consumer.Idle?
    case RunOnce => Needs(s) && s.producer.NotStarted?
    case Receive => Needs(s) && s.c != []
    case ReceiveClosed => Needs(s) && s.c == [] && s.producer.Finished?
    case Return => s.consumer.In? && !Needs(s)
    case ProducerPop => s.producer.Popping?
    case ProducerSend => s.producer.Holding? && |s.c| < READ_CHAN_SIZE
    case ProducerCancel => s.producer.Holding? && s.cancelled
    case Cancel => !s.cancelled
  }

  function Apply(s: State, step: Step): State
    requires Enabled(s, step)
  {
    match step
    case StartCall(kind) => s.(consumer := In(kind))
    case RunOnce => s.(producer := Popping)
    case Receive => s.(e := s.c[0], c := s.c[1..], read := true)
    case ReceiveClosed => s.(e := ZERO_ENTRY, ok := false, read := true)
    case Return =>
      s.(log := s.log + [Call(s.consumer.kind, if s.ok then Some(s.e) else None)],
         read := s.read && s.consumer.kind.PeekCall?,
         consumer := Idle)
    case ProducerPop =>
      if s.src == [] then s.(producer := Finished(false))
      else s.(producer := Holding(s.src[0]), src := s.src[1..])
    case ProducerSend => s.(c := s.c + [s.producer.e], producer := Popping)
    case ProducerCancel => s.(producer := Finished(true))
    case Cancel => s.(cancelled := true)
  }

  ghost predicate Next(s: State, s': State)
  {
    exists step :: Enabled(s, step) && s' == Apply(s, step)
  }

  ghost predicate IsRun(all: seq<Entry>, trace: seq<State>)
  {
    && trace != []
    && trace[0] == Init(all)
    && forall i :: 0 < i < |trace| ==> Next(trace[i - 1], trace[i])
  }

  // ---------- The invariant ----------

  function Current(s: State): seq<Entry>
  {
    if s.ok && s.read then [s.e] else []
  }

  function Held(s: State): seq<Entry>
  {
    if s.producer.Holding? then [s.producer.e] else []
  }

  predicate Dropped(s: State)
  {
    s.producer.Finished? && s.producer.dropped
  }

  /** The entries the consumer will ever see: all of them, unless cancelling made the producer drop
      some. */
  ghost function Visible(all: seq<Entry>, s: State): seq<Entry>
  {
    var n := Consumed(s.log) + |Current(s)| + |s.c|;
    if Dropped(s) && n <= |all| then all[..n] else all
  }

  /** Every entry is consumed, current, in the channel, held by the producer or still in the wrapped
      stream, and in that order. */
  ghost predicate InPlace(all: seq<Entry>, s: State)
  {
    var n := Consumed(s.log);
    && n <= |all|
    && (if Dropped(s) then Current(s) + s.c <= all[n..] && s.cancelled
        else Current(s) + s.c + Held(s) + s.src == all[n..])
    && (s.producer.NotStarted? ==> s.c == [])
    && (s.producer == Finished(false) ==> s.src == [])
    && (!s.ok ==> s.c == [] && Held(s) == [] && (Dropped(s) || s.src == []))
  }

  /** An answered entry is consumed or current, and only the end of the stream is answered by None. */
  ghost predicate Settled(s: State)
  {
    forall k :: 0 <= k < |s.log| ==>
      if s.log[k].result.Some? then Consumed(s.log[..k]) < Consumed(s.log) + |Current(s)| else !s.ok
  }

  /** The first entry was taken while constructing; it is current or consumed, and never dropped. */
  ghost predicate FirstIsSafe(all: seq<Entry>, s: State)
  {
    |all| > 0 ==> Consumed(s.log) + |Current(s)| > 0
  }

  ghost predicate Inv(all: seq<Entry>, s: State)
  {
    InPlace(all, s) && Settled(s) && Answers(Visible(all, s), s.log) && FirstIsSafe(all, s)
  }

  lemma InitInv(all: seq<Entry>)
    ensures Inv(all, Init(all))
  {
  }

  lemma MoveFirst<T>(front: seq<T>, src: seq<T>)
    requires src != []
    ensures front + [] + src == front + [src[0]] + src[1..]
  {
  }

  lemma DropFirst<T>(e: T, c: seq<T>, back: seq<T>, tail: seq<T>)
    ensures [e] + c + back == tail ==> tail != [] && [] + c + back == tail[1..]
    ensures [e] + c <= tail ==> tail != [] && [] + c <= tail[1..]
  {
    assert ([e] + c + back)[1..] == [] + c + back;
    if [e] + c <= tail {
      assert tail[..1 + |c|] == [e] + c;
      assert [] + c == tail[1..][..|c|];
    }
  }

  /** A step that changes neither what was answered nor what will be. */
  lemma SameView(all: seq<Entry>, s: State, s': State)
    requires Inv(all, s) && InPlace(all, s') && Visible(all, s') == Visible(all, s)
    requires s'.log == s.log && |Current(s')| >= |Current(s)| && (s'.ok ==> s.ok)
    ensures Inv(all, s')
  {
  }

  lemma PopKeepsPlaces(all: seq<Entry>, s: State)
    requires InPlace(all, s) && Enabled(s, ProducerPop)
    ensures InPlace(all, Apply(s, ProducerPop))
  {
    assert Held(s) == [];
    if s.src != [] {
      MoveFirst(Current(s) + s.c, s.src);
    }
  }

  lemma PopKeepsInv(all: seq<Entry>, s: State)
    requires Inv(all, s) && Enabled(s, ProducerPop)
    ensures Inv(all, Apply(s, ProducerPop))
  {
    PopKeepsPlaces(all, s);
    SameView(all, s, Apply(s, ProducerPop));
  }

  lemma SendKeepsPlaces(all: seq<Entry>, s: State)
    requires InPlace(all, s) && Enabled(s, ProducerSend)
    ensures InPlace(all, Apply(s, ProducerSend))
  {
    var s' := Apply(s, ProducerSend);
    Regroup(Current(s), s.c, Held(s));
    assert Current(s') == Current(s) && s'.c == s.c + Held(s) && Held(s') == [];
    assert Current(s') + s'.c + [] == Current(s') + s'.c;
  }

  lemma SendKeepsInv(all: seq<Entry>, s: State)
    requires Inv(all, s) && Enabled(s, ProducerSend)
    ensures Inv(all, Apply(s, ProducerSend))
  {
    SendKeepsPlaces(all, s);
    SameView(all, s, Apply(s, ProducerSend));
  }

  /** Cutting the stream after everything the consumer can still receive changes no answer given. */
  lemma DropKeepsInv(all: seq<Entry>, s: State)
    requires Inv(all, s) && Enabled(s, ProducerCancel)
    ensures Inv(all, Apply(s, ProducerCancel))
  {
    var s' := Apply(s, ProducerCancel);
    var n := Consumed(s.log);
    assert Current(s) + s.c <= all[n..];
    var cut := Visible(all, s');
    assert cut == all[..n + |Current(s)| + |s.c|];
    forall k | 0 <= k < |s.log|
      ensures s.log[k].result == At(cut, Consumed(s.log[..k]))
    {
      assert s.log[k].result == At(all, Consumed(s.log[..k]));
    }
  }

  lemma ControlKeepsPlaces(all: seq<Entry>, s: State, step: Step)
    requires InPlace(all, s) && Enabled(s, step)
    requires step.Cancel? || step.RunOnce? || step.StartCall?
    ensures InPlace(all, Apply(s, step)) && Visible(all, Apply(s, step)) == Visible(all, s)
  {
    var s' := Apply(s, step);
    assert Current(s') == Current(s) && Held(s') == Held(s) && Dropped(s') == Dropped(s);
  }

  lemma ControlKeepsInv(all: seq<Entry>, s: State, step: Step)
    requires Inv(all, s) && Enabled(s, step)
    requires step.Cancel? || step.RunOnce? || step.StartCall?
    ensures Inv(all, Apply(s, step))
  {
    ControlKeepsPlaces(all, s, step);
    SameView(all, s, Apply(s, step));
  }

  lemma ReceiveKeepsPlaces(all: seq<Entry>, s: State)
    requires InPlace(all, s) && Enabled(s, Receive)
    ensures InPlace(all, Apply(s, Receive)) && Visible(all, Apply(s, Receive)) == Visible(all, s)
  {
    var s' := Apply(s, Receive);
    assert Current(s) == [] && Current(s') == [s.c[0]];
    assert Current(s) + s.c == Current(s') + s'.c;
  }

  lemma CloseKeepsPlaces(all: seq<Entry>, s: State)
    requires InPlace(all, s) && Enabled(s, ReceiveClosed)
    ensures InPlace(all, Apply(s, ReceiveClosed)) && Visible(all, Apply(s, ReceiveClosed)) == Visible(all, s)
  {
    assert Current(s) == [] && Current(Apply(s, ReceiveClosed)) == [];
  }

  lemma ReceiveKeepsInv(all: seq<Entry>, s: State, step: Step)
    requires Inv(all, s) && Enabled(s, step)
    requires step.Receive? || step.ReceiveClosed?
    ensures Inv(all, Apply(s, step))
  {
    if step.Receive? {
      ReceiveKeepsPlaces(all, s);
    } else {
      CloseKeepsPlaces(all, s);
    }
    SameView(all, s, Apply(s, step));
  }

  lemma ReturnCounts(s: State)
    requires Enabled(s, Return)
    ensures var s' := Apply(s, Return);
            if s.ok && s.consumer.kind.PopCall?
            then Current(s) == [s.e] && Current(s') == [] && Consumed(s'.log) == Consumed(s.log) + 1
            else Current(s') == Current(s) && Consumed(s'.log) == Consumed(s.log)
  {
    assert Apply(s, Return).log[..|s.log|] == s.log;
  }

  lemma PopReturnDropped(all: seq<Entry>, s: State)
    requires InPlace(all, s) && Enabled(s, Return) && s.ok && s.consumer.kind.PopCall? && Dropped(s)
    ensures InPlace(all, Apply(s, Return))
  {
    ReturnCounts(s);
    var n := Consumed(s.log);
    DropFirst(s.e, s.c, [], all[n..]);
    assert all[n..][1..] == all[n + 1..];
  }

  lemma PopReturnWhole(all: seq<Entry>, s: State)
    requires InPlace(all, s) && Enabled(s, Return) && s.ok && s.consumer.kind.PopCall? && !Dropped(s)
    ensures InPlace(all, Apply(s, Return))
  {
    ReturnCounts(s);
    var n, back := Consumed(s.log), Held(s) + s.src;
    Regroup([s.e] + s.c, Held(s), s.src);
    Regroup([] + s.c, Held(s), s.src);
    DropFirst(s.e, s.c, back, all[n..]);
    assert all[n..][1..] == all[n + 1..];
  }

  lemma ReturnKeepsPlaces(all: seq<Entry>, s: State)
    requires InPlace(all, s) && Enabled(s, Return)
    ensures InPlace(all, Apply(s, Return)) && Visible(all, Apply(s, Return)) == Visible(all, s)
  {
    ReturnCounts(s);
    if s.ok && s.consumer.kind.PopCall? {
      if Dropped(s) {
        PopReturnDropped(all, s);
      } else {
        PopReturnWhole(all, s);
      }
    }
  }

  lemma AnswerIsNext(all: seq<Entry>, s: State)
    requires InPlace(all, s) && Enabled(s, Return)
    ensures (if s.ok then Some(s.e) else None) == At(Visible(all, s), Consumed(s.log))
  {
    var n := Consumed(s.log);
    if s.ok {
      assert Current(s) == [s.e];
      assert all[n..][0] == s.e;
    } else if !Dropped(s) {
      assert all[n..] == [];
    }
  }

  lemma ReturnAnswers(all: seq<Entry>, s: State, k: nat)
    requires Inv(all, s) && Enabled(s, Return) && k <= |s.log|
    ensures var s' := Apply(s, Return);
            && s'.log[k].result == At(Visible(all, s), Consumed(s'.log[..k]))
            && if s'.log[k].result.Some? then Consumed(s'.log[..k]) < Consumed(s'.log) + |Current(s')| else !s'.ok
  {
    var s' := Apply(s, Return);
    ReturnCounts(s);
    if k < |s.log| {
      assert s'.log[..k] == s.log[..k] && s'.log[k] == s.log[k];
    } else {
      assert s'.log[..k] == s.log;
      AnswerIsNext(all, s);
    }
  }

  lemma ReturnKeepsAnswers(all: seq<Entry>, s: State)
    requires Inv(all, s) && Enabled(s, Return)
    ensures Answers(Visible(all, s), Apply(s, Return).log) && Settled(Apply(s, Return))
  {
    forall k | 0 <= k < |Apply(s, Return).log|
      ensures var s' := Apply(s, Return);
              && s'.log[k].result == At(Visible(all, s), Consumed(s'.log[..k]))
              && if s'.log[k].result.Some? then Consumed(s'.log[..k]) < Consumed(s'.log) + |Current(s')| else !s'.ok
    {
      ReturnAnswers(all, s, k);
    }
  }

  lemma ReturnKeepsInv(all: seq<Entry>, s: State)
    requires Inv(all, s) && Enabled(s, Return)
    ensures Inv(all, Apply(s, Return))
  {
    ReturnCounts(s);
    ReturnKeepsPlaces(all, s);
    ReturnKeepsAnswers(all, s);
  }

  lemma StepKeepsInv(all: seq<Entry>, s: State, step: Step)
    requires Inv(all, s) && Enabled(s, step)
    ensures Inv(all, Apply(s, step))
  {
    match step
    case Return => ReturnKeepsInv(all, s);
    case Receive => ReceiveKeepsInv(all, s, step);
    case ReceiveClosed => ReceiveKeepsInv(all, s, step);
    case ProducerPop => PopKeepsInv(all, s);
    case ProducerSend => SendKeepsInv(all, s);
    case ProducerCancel => DropKeepsInv(all, s);
    case _ => ControlKeepsInv(all, s, step);
  }

  lemma {:induction false} RunInv(all: seq<Entry>, trace: seq<State>)
    requires IsRun(all, trace)
    ensures Inv(all, trace[|trace| - 1])
  {
    if |trace| == 1 {
      InitInv(all);
    } else {
      var prefix := trace[..|trace| - 1];
      RunInv(all, prefix);
      var s, s' := prefix[|prefix| - 1], trace[|trace| - 1];
      assert Next(s, s');
      var step :| Enabled(s, step) && s' == Apply(s, step);
      StepKeepsInv(all, s, step);
    }
  }

  // ---------- Refinement ----------

  /** However calls and producer interleave, the calls are answered as the wrapped stream itself would
      answer them; if the context was cancelled, as a stream that ends early would. */
  lemma RefinesWrappedStream(all: seq<Entry>, trace: seq<State>)
    requires IsRun(all, trace)
    ensures var s := trace[|trace| - 1];
            && Answers(Visible(all, s), s.log)
            && Visible(all, s) <= all
            && (!s.cancelled ==> Visible(all, s) == all)
            && Consumed(s.log) <= |all| && Popped(s.log) == all[..Consumed(s.log)]
  {
    RunInv(all, trace);
    var s := trace[|trace| - 1];
    PopsAreThePrefix(Visible(all, s), s.log);
  }

  // ---------- A run that loses an entry ----------

  lemma RunExtends(all: seq<Entry>, trace: seq<State>, step: Step) returns (longer: seq<State>)
    requires IsRun(all, trace) && Enabled(trace[|trace| - 1], step)
    ensures IsRun(all, longer) && longer != [] && longer[|longer| - 1] == Apply(trace[|trace| - 1], step)
  {
    longer := trace + [Apply(trace[|trace| - 1], step)];
    forall i | 0 < i < |longer|
      ensures Next(longer[i - 1], longer[i])
    {
      if i < |trace| {
        assert Next(trace[i - 1], trace[i]);
      } else {
        assert Enabled(longer[i - 1], step) && longer[i] == Apply(longer[i - 1], step);
      }
    }
  }

  lemma OneConsumed(log: seq<Call>, e: Entry)
    requires log == [Call(PopCall, Some(e)), Call(PeekCall, None)]
    ensures Consumed(log) == 1
  {
    var front := log[..1];
    assert front == [Call(PopCall, Some(e))] && front[..0] == [];
    assert Consumed(front) == Consumed(front[..0]) + 1;
  }

  lemma FirstPopped(first: Entry, second: Entry) returns (trace: seq<State>)
    ensures IsRun([first, second], trace)
    ensures trace[|trace| - 1] ==
            State([second], [], NotStarted, Idle, first, true, false, true, [Call(PopCall, Some(first))])
  {
    var all := [first, second];
    trace := [Init(all)];
    assert all[1..] == [second];
    trace := RunExtends(all, trace, StartCall(PopCall));
    trace := RunExtends(all, trace, Return);
    trace := RunExtends(all, trace, Cancel);
  }

  lemma SecondHeld(all: seq<Entry>, before: seq<State>, e: Entry, second: Entry, log: seq<Call>) returns (trace: seq<State>)
    requires IsRun(all, before)
    requires before[|before| - 1] == State([second], [], NotStarted, Idle, e, true, false, true, log)
    ensures IsRun(all, trace)
    ensures trace[|trace| - 1] == State([], [], Holding(second), In(PeekCall), e, true, false, true, log)
  {
    trace := RunExtends(all, before, StartCall(PeekCall));
    trace := RunExtends(all, trace, RunOnce);
    trace := RunExtends(all, trace, ProducerPop);
  }

  lemma SecondDropped(all: seq<Entry>, before: seq<State>, e: Entry, second: Entry, log: seq<Call>) returns (trace: seq<State>)
    requires IsRun(all, before)
    requires before[|before| - 1] == State([], [], Holding(second), In(PeekCall), e, true, false, true, log)
    ensures IsRun(all, trace)
    ensures trace[|trace| - 1] ==
            State([], [], Finished(true), Idle, ZERO_ENTRY, false, true, true, log + [Call(PeekCall, None)])
  {
    trace := RunExtends(all, before, ProducerCancel);
    trace := RunExtends(all, trace, ReceiveClosed);
    trace := RunExtends(all, trace, Return);
  }

  /** The first entry is popped, the context is cancelled, and the producer that the next call starts takes
      the second entry and drops it: the stream seems to end, without an error. */
  lemma CancellingLosesAnEntry(first: Entry, second: Entry) returns (trace: seq<State>)
    ensures IsRun([first, second], trace)
    ensures trace[|trace| - 1].log == [Call(PopCall, Some(first)), Call(PeekCall, None)]
    ensures Visible([first, second], trace[|trace| - 1]) == [first]
  {
    var all, log := [first, second], [Call(PopCall, Some(first))];
    trace := FirstPopped(first, second);
    trace := SecondHeld(all, trace, first, second, log);
    trace := SecondDropped(all, trace, first, second, log);
    OneConsumed(log + [Call(PeekCall, None)], first);
    assert all[..1] == [first];
  }

  // ---------- Calls return ----------

  predicate Internal(step: Step)
  {
    !step.StartCall?
  }

  /** Work left for the two goroutines before the current call must have returned. */
  ghost function Work(s: State): nat
  {
    3 * |s.src| + |s.c| + (if s.read || !s.ok then 0 else 1) + (if s.consumer.In? then 2 else 0)
    + (if s.cancelled then 0 else 1)
    + match s.producer
      case NotStarted => 2
      case Popping => 1
      case Holding(_) => 3
      case Finished(_) => 0
  }

  /** A call in progress is never stuck. */
  lemma CallsAreNeverStuck(s: State)
    requires s.consumer.In?
    ensures exists step :: Internal(step) && Enabled(s, step)
  {
    var step :=
      if !Needs(s) then Return
      else if s.c != [] then Receive
      else
        match s.producer
        case NotStarted => RunOnce
        case Popping => ProducerPop
        case Holding(_) => ProducerSend
        case Finished(_) => ReceiveClosed;
    assert Internal(step) && Enabled(s, step);
  }

  /** Every step but starting a call uses up work, and only returning answers it. */
  lemma CallsReturn(s: State, step: Step)
    requires s.consumer.In? && Internal(step) && Enabled(s, step)
    ensures var s' := Apply(s, step);
            && Work(s') < Work(s)
            && if step.Return? then s'.consumer.Idle? && |s'.log| == |s.log| + 1 && s.log <= s'.log
                                    && s'.log[|s.log|].kind == s.consumer.kind
               else s'.consumer == s.consumer && s'.log == s.log
  {
  }

  /** However producer and consumer are scheduled, and whenever the context is cancelled, a call that was
      started returns with one more answer. */
  ghost function FinishCall(all: seq<Entry>, s: State, scheduler: State -> Step): (end: State)
    requires Inv(all, s) && s.consumer.In?
    requires forall t: State :: t.consumer.In? ==> Internal(scheduler(t)) && Enabled(t, scheduler(t))
    ensures Inv(all, end) && end.consumer.Idle?
    ensures |end.log| == |s.log| + 1 && s.log <= end.log && end.log[|s.log|].kind == s.consumer.kind
    decreases Work(s)
  {
    var step := scheduler(s);
    CallsReturn(s, step);
    StepKeepsInv(all, s, step);
    if step.Return? then Apply(s, step) else FinishCall(all, Apply(s, step), scheduler)
  }
}

/**
 The streams of a merge side by side. Their producers belong to one group, whose context is cancelled when a
 producer returns an error, that is, when it has read a file that fails to its end.
 */
module LogStreamGroups {
  import opened LogEntries
  import opened MergeSpec
  import Buffered = BufferedLogStreams

  type Stream = Buffered.State

  /** A step of one stream, or the cancellation of all. */
  datatype Step = One(i: nat, step: Buffered.Step) | CancelAll

  /** The producer of a file that fails has come to the error. */
  predicate HasFailed(fails: bool, s: Stream)
  {
    fails && s.producer == Buffered.Finished(false)
  }

  ghost predicate SomeFailed(fails: seq<bool>, g: seq<Stream>)
    requires |fails| == |g|
  {
    exists i :: 0 <= i < |g| && HasFailed(fails[i], g[i])
  }

  ghost predicate Enabled(fails: seq<bool>, g: seq<Stream>, step: Step)
    requires |fails| == |g|
  {
    match step
    case One(i, st) => i < |g| && !st.Cancel? && Buffered.Enabled(g[i], st)
    case CancelAll => SomeFailed(fails, g)
  }

  function Cancelled(s: Stream): Stream
  {
    s.(cancelled := true)
  }

  ghost function Apply(fails: seq<bool>, g: seq<Stream>, step: Step): (g': seq<Stream>)
    requires |fails| == |g| && Enabled(fails, g, step)
    ensures |g'| == |g|
  {
    match step
    case One(i, st) => g[i := Buffered.Apply(g[i], st)]
    case CancelAll => seq(|g|, i requires 0 <= i < |g| => Cancelled(g[i]))
  }

  ghost predicate Next(fails: seq<bool>, g: seq<Stream>, g': seq<Stream>)
  {
    |fails| == |g| && exists step :: Enabled(fails, g, step) && g' == Apply(fails, g, step)
  }

  function Init(files: seq<seq<Entry>>): (g: seq<Stream>)
    ensures |g| == |files|
  {
    seq(|files|, i requires 0 <= i < |files| => Buffered.Init(files[i]))
  }

  ghost predicate IsRun(files: seq<seq<Entry>>, fails: seq<bool>, trace: seq<seq<Stream>>)
  {
    && |fails| == |files| && trace != []
    && trace[0] == Init(files)
    && forall i :: 0 < i < |trace| ==> Next(fails, trace[i - 1], trace[i])
  }

  // ---------- The invariant ----------

  ghost predicate StreamsInv(files: seq<seq<Entry>>, g: seq<Stream>)
  {
    |files| == |g| && forall i :: 0 <= i < |g| ==> Buffered.Inv(files[i], g[i])
  }

  /** The context is cancelled only after a failure. */
  ghost predicate CancelEarned(fails: seq<bool>, g: seq<Stream>)
  {
    |fails| == |g| && forall i :: 0 <= i < |g| && g[i].cancelled ==> SomeFailed(fails, g)
  }

  ghost predicate Inv(files: seq<seq<Entry>>, fails: seq<bool>, g: seq<Stream>)
  {
    StreamsInv(files, g) && CancelEarned(fails, g)
  }

  lemma InitInv(files: seq<seq<Entry>>, fails: seq<bool>)
    requires |files| == |fails|
    ensures Inv(files, fails, Init(files))
  {
    forall i | 0 <= i < |files|
      ensures Buffered.Inv(files[i], Init(files)[i])
    {
      Buffered.InitInv(files[i]);
    }
  }

  /** A producer that has finished stays so, and cancelling is no step of a stream alone. */
  lemma StreamStep(s: Stream, step: Buffered.Step)
    requires !step.Cancel? && Buffered.Enabled(s, step)
    ensures Buffered.Apply(s, step).cancelled == s.cancelled
    ensures s.producer == Buffered.Finished(false) ==> Buffered.Apply(s, step).producer == s.producer
  {
  }

  lemma CancelKeepsStream(all: seq<Entry>, s: Stream)
    requires Buffered.Inv(all, s)
    ensures Buffered.Inv(all, Cancelled(s))
  {
    if !s.cancelled {
      Buffered.StepKeepsInv(all, s, Buffered.Cancel);
    } else {
      assert Cancelled(s) == s;
    }
  }

  lemma OneKeepsStreams(files: seq<seq<Entry>>, g: seq<Stream>, k: nat, step: Buffered.Step)
    requires StreamsInv(files, g) && k < |g| && Buffered.Enabled(g[k], step)
    ensures StreamsInv(files, g[k := Buffered.Apply(g[k], step)])
  {
    Buffered.StepKeepsInv(files[k], g[k], step);
  }

  lemma OneKeepsEarned(fails: seq<bool>, g: seq<Stream>, k: nat, s: Stream)
    requires CancelEarned(fails, g) && k < |g| && s.cancelled == g[k].cancelled
    requires g[k].producer == Buffered.Finished(false) ==> s.producer == g[k].producer
    ensures CancelEarned(fails, g[k := s])
  {
    var g' := g[k := s];
    if SomeFailed(fails, g) {
      var i :| 0 <= i < |g| && HasFailed(fails[i], g[i]);
      assert HasFailed(fails[i], g'[i]);
    }
    forall i | 0 <= i < |g'| && g'[i].cancelled
      ensures SomeFailed(fails, g')
    {
      assert g[i].cancelled;
    }
  }

  lemma CancelKeepsStreams(files: seq<seq<Entry>>, g: seq<Stream>, g': seq<Stream>)
    requires StreamsInv(files, g) && |g'| == |g| && forall i :: 0 <= i < |g| ==> g'[i] == Cancelled(g[i])
    ensures StreamsInv(files, g')
  {
    forall i | 0 <= i < |g|
      ensures Buffered.Inv(files[i], g'[i])
    {
      CancelKeepsStream(files[i], g[i]);
    }
  }

  lemma CancelKeepsEarned(fails: seq<bool>, g: seq<Stream>, g': seq<Stream>)
    requires |fails| == |g| && SomeFailed(fails, g)
    requires |g'| == |g| && forall i :: 0 <= i < |g| ==> g'[i] == Cancelled(g[i])
    ensures CancelEarned(fails, g')
  {
    var i :| 0 <= i < |g| && HasFailed(fails[i], g[i]);
    assert HasFailed(fails[i], g'[i]);
  }

  lemma StepKeepsInv(files: seq<seq<Entry>>, fails: seq<bool>, g: seq<Stream>, step: Step)
    requires Inv(files, fails, g) && Enabled(fails, g, step)
    ensures Inv(files, fails, Apply(fails, g, step))
  {
    match step
    case One(k, st) =>
      StreamStep(g[k], st);
      OneKeepsStreams(files, g, k, st);
      OneKeepsEarned(fails, g, k, Buffered.Apply(g[k], st));
    case CancelAll =>
      CancelKeepsStreams(files, g, Apply(fails, g, step));
      CancelKeepsEarned(fails, g, Apply(fails, g, step));
  }

  lemma {:induction false} RunInv(files: seq<seq<Entry>>, fails: seq<bool>, trace: seq<seq<Stream>>)
    requires IsRun(files, fails, trace)
    ensures Inv(files, fails, trace[|trace| - 1])
  {
    if |trace| == 1 {
      InitInv(files, fails);
    } else {
      var prefix := trace[..|trace| - 1];
      RunInv(files, fails, prefix);
      var g, g' := prefix[|prefix| - 1], trace[|trace| - 1];
      assert Next(fails, g, g');
      var step :| Enabled(fails, g, step) && g' == Apply(fails, g, step);
      StepKeepsInv(files, fails, g, step);
    }
  }

  // ---------- What the merge sees ----------

  /** How much of each file its consumer ever sees. */
  ghost function Cuts(files: seq<seq<Entry>>, g: seq<Stream>): (keep: seq<nat>)
    requires |files| == |g|
    ensures |keep| == |files|
  {
    seq(|files|, i requires 0 <= i < |files| => |Buffered.Visible(files[i], g[i])|)
  }

  lemma StreamIsCut(all: seq<Entry>, s: Stream)
    requires Buffered.Inv(all, s)
    ensures var k := |Buffered.Visible(all, s)|;
            && k <= |all| && (|all| > 0 ==> k > 0) && Buffered.Visible(all, s) == all[..k]
            && (k < |all| ==> s.cancelled)
            && (s.producer == Buffered.Finished(false) ==> k == |all|)
  {
  }

  /** In every interleaving, each stream answers as a plain stream of the kept entries, and the cuts are
      allowed: something is cut only if a file fails whose producer read it to its end. */
  lemma StreamsAnswerAsCut(files: seq<seq<Entry>>, fails: seq<bool>, trace: seq<seq<Stream>>)
    requires IsRun(files, fails, trace)
    ensures var g := trace[|trace| - 1];
            && |g| == |files|
            && var keep := Cuts(files, g);
               && CutsAllowed(files, fails, keep)
               && forall i :: 0 <= i < |files| ==> Buffered.Answers(Kept(files, keep)[i], g[i].log)
  {
    var g := trace[|trace| - 1];
    RunInv(files, fails, trace);
    var keep := Cuts(files, g);
    forall i | 0 <= i < |files|
      ensures keep[i] <= |files[i]| && (files[i] != [] ==> keep[i] > 0)
      ensures Buffered.Visible(files[i], g[i]) == files[i][..keep[i]]
      ensures keep[i] < |files[i]| ==> SomeFailed(fails, g)
      ensures g[i].producer == Buffered.Finished(false) ==> keep[i] == |files[i]|
    {
      StreamIsCut(files[i], g[i]);
    }
    if SomeFailed(fails, g) {
      var f :| 0 <= f < |g| && HasFailed(fails[f], g[f]);
      assert fails[f] && keep[f] == |files[f]|;
    }
  }
}
