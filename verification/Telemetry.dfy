/** class MemoryTelemetryBuffer (shared/memory-telemetry.ts:127-196): a bounded queue drained by an
    asynchronous flush loop.  JavaScript runs one step at a time, from one await to the next; a run
    is any interleaving of such steps.  What a sink does when it is handed an event is open: it may
    enqueue more events on the spot or drain the buffer, and it may throw at once (then the loop goes
    on without yielding) or not (then the loop awaits, until completion, failure or timeout). */
module Telemetry {

  datatype Fate = Recorded | Drained
  datatype Exit<E> = Exit(event: E, fate: Fate)

  /** What a sink may call on the buffer; flush() would do nothing, since the flush is running. */
  datatype Call<E> = Accept(event: E) | Empty

  /** One call of sink.record: what it calls in turn, and whether it throws synchronously. */
  datatype Turn<E> = Turn(calls: seq<Call<E>>, throws: bool)

  /** The buffer and its history: accepted events in order, and how events left the queue. */
  datatype State<E> = State(
    maxSize: int, hasSink: bool, queue: seq<E>, flushing: bool, accepted: seq<E>, exits: seq<Exit<E>>)

  datatype Op<E> = Enqueue(event: E, turns: seq<Turn<E>>) | Drain | Flush(turns: seq<Turn<E>>) | Resume(turns: seq<Turn<E>>)

  function Start<E>(maxSize: int, hasSink: bool): State<E> {
    State(if maxSize < 1 then 1 else maxSize, hasSink, [], false, [], [])
  }

  /** Push unless full. */
  function Push<E>(s: State<E>, e: E): State<E> {
    if |s.queue| >= s.maxSize then s else s.(queue := s.queue + [e], accepted := s.accepted + [e])
  }

  function DrainAll<E>(s: State<E>): State<E> {
    s.(queue := [], exits := s.exits + AllDrained(s.queue))
  }

  function Perform<E>(s: State<E>, calls: seq<Call<E>>): State<E>
    decreases calls
  {
    if calls == [] then s
    else Perform(if calls[0].Accept? then Push(s, calls[0].event) else DrainAll(s), calls[1..])
  }

  function Shift<E>(s: State<E>): State<E>
    requires s.queue != []
  {
    s.(queue := s.queue[1..], exits := s.exits + [Exit(s.queue[0], Recorded)])
  }

  /** The flush loop from its test to the next await, or to its end. */
  function Loop<E>(s: State<E>, turns: seq<Turn<E>>): State<E>
    decreases turns
  {
    if s.queue == [] then s.(flushing := false)
    else if turns == [] then Shift(s)
    else
      var handed := Perform(Shift(s), turns[0].calls);
      if turns[0].throws then Loop(handed, turns[1..]) else handed
  }

  function StartFlush<E>(s: State<E>, turns: seq<Turn<E>>): State<E> {
    if s.flushing || !s.hasSink then s else Loop(s.(flushing := true), turns)
  }

  function AllDrained<E>(queue: seq<E>): (r: seq<Exit<E>>)
    ensures |r| == |queue| && forall i :: 0 <= i < |r| ==> r[i] == Exit(queue[i], Drained)
  {
    seq(|queue|, i requires 0 <= i < |queue| => Exit(queue[i], Drained))
  }

  function Step<E>(s: State<E>, op: Op<E>): State<E> {
    match op
    case Enqueue(e, turns) => if |s.queue| >= s.maxSize then s else StartFlush(Push(s, e), turns)
    case Drain => DrainAll(s)
    case Flush(turns) => StartFlush(s, turns)
    case Resume(turns) => if s.flushing then Loop(s, turns) else s
  }

  function Run<E>(s: State<E>, ops: seq<Op<E>>): State<E>
    decreases ops
  {
    if ops == [] then s else Run(Step(s, ops[0]), ops[1..])
  }

  // ---------------------------------------------------------------- the buffer itself

  class Buffer<E(==)> {
    const maxSize: int
    const hasSink: bool
    var queue: seq<E>
    var flushing: bool
    ghost var accepted: seq<E>
    ghost var exits: seq<Exit<E>>

    ghost function Model(): State<E>
      reads this
    {
      State(maxSize, hasSink, queue, flushing, accepted, exits)
    }

    constructor (maxSize: int, hasSink: bool)
      ensures Model() == Start(maxSize, hasSink)
    {
      this.maxSize, this.hasSink := if maxSize < 1 then 1 else maxSize, hasSink;
      queue, flushing, accepted, exits := [], false, [], [];
    }

    /** enqueue: true exactly when there was room, and then the event is accepted next. */
    method Enqueue(event: E, turns: seq<Turn<E>>) returns (ok: bool)
      modifies this
      ensures Model() == Step(old(Model()), Op.Enqueue(event, turns))
      ensures ok <==> old(|queue|) < maxSize
      ensures ok ==> old(accepted) + [event] <= accepted
      ensures !ok ==> Model() == old(Model())
    {
      if |queue| >= maxSize {
        return false;
      }
      StepAdmits(Model(), Op.Enqueue(event, turns));
      queue, accepted := queue + [event], accepted + [event];
      Flush(turns);
      ok := true;
    }

    method Drain() returns (events: seq<E>)
      modifies this
      ensures Model() == Step(old(Model()), Op.Drain)
      ensures events == old(queue)
    {
      events := queue;
      exits := exits + AllDrained(queue);
      queue := [];
    }

    method Flush(turns: seq<Turn<E>>)
      modifies this
      ensures Model() == Step(old(Model()), Op.Flush(turns))
    {
      if flushing || !hasSink {
        return;
      }
      flushing := true;
      RunLoop(turns);
    }

    /** The awaited promise settled: go on with the loop. */
    method Resume(turns: seq<Turn<E>>)
      modifies this
      ensures Model() == Step(old(Model()), Op.Resume(turns))
    {
      if flushing {
        RunLoop(turns);
      }
    }

    method RunLoop(turns: seq<Turn<E>>)
      modifies this
      ensures Model() == Loop(old(Model()), turns)
    {
      var rest := turns;
      while |queue| > 0
        invariant Loop(Model(), rest) == Loop(old(Model()), turns)
        decreases |rest|
      {
        exits := exits + [Exit(queue[0], Recorded)];
        queue := queue[1..];
        if rest == [] {
          return;
        }
        var turn := rest[0];
        rest := rest[1..];
        Serve(turn.calls);
        if !turn.throws {
          return;
        }
      }
      flushing := false;
    }

    /** What the sink calls while it holds an event: flush() is already running. */
    method Serve(calls: seq<Call<E>>)
      modifies this
      ensures Model() == Perform(old(Model()), calls)
    {
      var rest := calls;
      while rest != []
        invariant Perform(Model(), rest) == Perform(old(Model()), calls)
        decreases |rest|
      {
        match rest[0] {
        case Accept(event) =>
          if |queue| < maxSize {
            queue, accepted := queue + [event], accepted + [event];
          }
        case Empty =>
          exits := exits + AllDrained(queue);
          queue := [];
        }
        rest := rest[1..];
      }
    }
  }

  // ---------------------------------------------------------------- what every run keeps

  ghost function Left<E>(exits: seq<Exit<E>>): (r: seq<E>)
    ensures |r| == |exits| && forall i :: 0 <= i < |r| ==> r[i] == exits[i].event
  {
    seq(|exits|, i requires 0 <= i < |exits| => exits[i].event)
  }

  ghost predicate Bounded<E>(s: State<E>) {
    1 <= s.maxSize && |s.queue| <= s.maxSize
  }

  /** First in, first out: the accepted events are those that left, in the order they left, then
      those still queued. */
  ghost predicate Accounted<E>(s: State<E>) {
    s.accepted == Left(s.exits) + s.queue
  }

  /** No lost wake-up: with a sink, a non-empty queue is being flushed. */
  ghost predicate Awake<E>(s: State<E>) {
    && (s.hasSink && s.queue != [] ==> s.flushing)
    && (s.flushing ==> s.hasSink)
  }

  ghost predicate Inv<E>(s: State<E>) {
    Bounded(s) && Accounted(s) && Awake(s)
  }

  lemma {:induction false} PushKeeps<E>(s: State<E>, e: E)
    requires Bounded(s) && Accounted(s)
    ensures Bounded(Push(s, e)) && Accounted(Push(s, e))
    ensures Push(s, e).flushing == s.flushing && Push(s, e).hasSink == s.hasSink
  {
  }

  lemma {:induction false} DrainKeeps<E>(s: State<E>)
    requires Bounded(s) && Accounted(s)
    ensures Bounded(DrainAll(s)) && Accounted(DrainAll(s))
  {
    assert Left(s.exits + AllDrained(s.queue)) == Left(s.exits) + s.queue;
  }

  lemma {:induction false} PerformKeeps<E>(s: State<E>, calls: seq<Call<E>>)
    requires Bounded(s) && Accounted(s)
    ensures Bounded(Perform(s, calls)) && Accounted(Perform(s, calls))
    ensures Perform(s, calls).flushing == s.flushing && Perform(s, calls).hasSink == s.hasSink
    decreases calls
  {
    if calls != [] {
      if calls[0].Accept? {
        PushKeeps(s, calls[0].event);
        PerformKeeps(Push(s, calls[0].event), calls[1..]);
      } else {
        DrainKeeps(s);
        PerformKeeps(DrainAll(s), calls[1..]);
      }
    }
  }

  lemma {:induction false} ShiftKeeps<E>(s: State<E>)
    requires Bounded(s) && Accounted(s) && s.queue != []
    ensures Bounded(Shift(s)) && Accounted(Shift(s))
  {
    var t := Shift(s);
    assert s.queue == [s.queue[0]] + t.queue;
    assert Left(t.exits) == Left(s.exits) + [s.queue[0]];
  }

  lemma {:induction false} LoopKeeps<E>(s: State<E>, turns: seq<Turn<E>>)
    requires Bounded(s) && Accounted(s) && s.flushing && s.hasSink
    ensures Inv(Loop(s, turns))
    decreases turns
  {
    if s.queue != [] {
      ShiftKeeps(s);
      if turns != [] {
        PerformKeeps(Shift(s), turns[0].calls);
        if turns[0].throws {
          LoopKeeps(Perform(Shift(s), turns[0].calls), turns[1..]);
        }
      }
    }
  }

  lemma {:induction false} StepKeeps<E>(s: State<E>, op: Op<E>)
    requires Inv(s)
    ensures Inv(Step(s, op))
  {
    match op
    case Enqueue(e, turns) =>
      PushKeeps(s, e);
      if |s.queue| < s.maxSize && !s.flushing && s.hasSink {
        LoopKeeps(Push(s, e).(flushing := true), turns);
      }
    case Drain => DrainKeeps(s);
    case Flush(turns) =>
      if !s.flushing && s.hasSink {
        LoopKeeps(s.(flushing := true), turns);
      }
    case Resume(turns) =>
      if s.flushing {
        LoopKeeps(s, turns);
      }
  }

  /** A new buffer starts right. */
  lemma {:induction false} StartIsRight<E>(maxSize: int, hasSink: bool)
    ensures Inv(Start<E>(maxSize, hasSink))
  {
    assert Left<E>([]) == [];
  }

  lemma {:induction false} StepsKeep<E>(s: State<E>, ops: seq<Op<E>>)
    requires Inv(s)
    ensures Inv(Run(s, ops))
    decreases ops
  {
    if ops != [] {
      StepKeeps(s, ops[0]);
      StepsKeep(Step(s, ops[0]), ops[1..]);
    }
  }

  /** In every run of a new buffer: the queue stays within its bound, no event is lost, repeated or
      reordered, and no non-empty queue waits without a flush under way. */
  lemma {:induction false} RunKeeps<E>(maxSize: int, hasSink: bool, ops: seq<Op<E>>)
    ensures Inv(Run(Start(maxSize, hasSink), ops))
  {
    StartIsRight<E>(maxSize, hasSink);
    StepsKeep(Start(maxSize, hasSink), ops);
  }

  ghost function WithFate<E>(exits: seq<Exit<E>>, fate: Fate): seq<E> {
    if exits == [] then []
    else
      var last := exits[|exits| - 1];
      WithFate(exits[..|exits| - 1], fate) + if last.fate == fate then [last.event] else []
  }

  /** s can be had from t by leaving out events. */
  ghost predicate Within<E>(s: seq<E>, t: seq<E>)
    decreases |t|
  {
    || s == []
    || (t != [] && Within(s, t[..|t| - 1]))
    || (t != [] && s[|s| - 1] == t[|t| - 1] && Within(s[..|s| - 1], t[..|t| - 1]))
  }

  lemma {:induction false} OneMore<E>(s: seq<E>, x: E)
    ensures multiset(s + [x]) == multiset(s) + multiset{x}
  {
  }

  lemma {:induction false} FateStep<E>(exits: seq<Exit<E>>, before: seq<Exit<E>>, last: Exit<E>, fate: Fate)
    requires exits == before + [last]
    ensures WithFate(exits, fate) == if last.fate == fate then WithFate(before, fate) + [last.event] else WithFate(before, fate)
  {
    assert exits[..|exits| - 1] == before;
  }

  /** Every event that left is exactly one of recorded and drained. */
  ghost predicate Splits<E>(left: seq<E>, recorded: seq<E>, drained: seq<E>) {
    multiset(left) == multiset(recorded) + multiset(drained)
  }

  lemma {:induction false} SplitStep<E>(left: seq<E>, recorded: seq<E>, drained: seq<E>, x: E)
    requires Splits(left, recorded, drained)
    ensures Splits(left + [x], recorded + [x], drained) && Splits(left + [x], recorded, drained + [x])
  {
    OneMore(left, x);
    OneMore(recorded, x);
    OneMore(drained, x);
  }

  lemma {:induction false} SplitNext<E>(exits: seq<Exit<E>>, before: seq<Exit<E>>, last: Exit<E>)
    requires exits == before + [last]
    requires Splits(Left(before), WithFate(before, Recorded), WithFate(before, Drained))
    ensures Splits(Left(exits), WithFate(exits, Recorded), WithFate(exits, Drained))
  {
    FateStep(exits, before, last, Recorded);
    FateStep(exits, before, last, Drained);
    LeftStep(exits, before, last);
    SplitStep(Left(before), WithFate(before, Recorded), WithFate(before, Drained), last.event);
  }

  lemma {:induction false} LeftStep<E>(exits: seq<Exit<E>>, before: seq<Exit<E>>, last: Exit<E>)
    requires exits == before + [last]
    ensures Left(exits) == Left(before) + [last.event]
  {
  }

  lemma {:induction false} FatesSplit<E>(exits: seq<Exit<E>>)
    ensures Splits(Left(exits), WithFate(exits, Recorded), WithFate(exits, Drained))
  {
    if exits != [] {
      FatesSplit(exits[..|exits| - 1]);
      SplitNext(exits, exits[..|exits| - 1], exits[|exits| - 1]);
    }
  }

  lemma {:induction false} FateInOrder<E>(exits: seq<Exit<E>>, fate: Fate)
    ensures Within(WithFate(exits, fate), Left(exits))
  {
    if exits != [] {
      var before, last := exits[..|exits| - 1], exits[|exits| - 1];
      FateInOrder(before, fate);
      assert Left(exits)[..|exits| - 1] == Left(before);
      var r := WithFate(before, fate);
      if last.fate == fate {
        assert (r + [last.event])[..|r|] == r;
      } else {
        assert r + [] == r;
      }
    }
  }

  lemma {:induction false} WithinMore<E>(s: seq<E>, t: seq<E>, u: seq<E>)
    requires Within(s, t)
    ensures Within(s, t + u)
    decreases |u|
  {
    if u == [] {
      assert t + u == t;
    } else {
      WithinMore(s, t, u[..|u| - 1]);
      assert (t + u)[..|t + u| - 1] == t + u[..|u| - 1];
    }
  }

  /** Every accepted event is exactly one of recorded, drained or queued, and recording keeps the
      order of acceptance. */
  lemma {:induction false} EveryEventHasOneFate<E>(maxSize: int, hasSink: bool, ops: seq<Op<E>>)
    ensures var t := Run(Start(maxSize, hasSink), ops);
            && multiset(t.accepted)
               == multiset(WithFate(t.exits, Recorded)) + multiset(WithFate(t.exits, Drained)) + multiset(t.queue)
            && Within(WithFate(t.exits, Recorded), t.accepted)
  {
    RunKeeps(maxSize, hasSink, ops);
    var t := Run(Start(maxSize, hasSink), ops);
    FatesSplit(t.exits);
    FateInOrder(t.exits, Recorded);
    WithinMore(WithFate(t.exits, Recorded), Left(t.exits), t.queue);
  }

  /** The sink accepts nothing while it holds an event. */
  ghost predicate Quiet<E>(turns: seq<Turn<E>>) {
    forall k :: 0 <= k < |turns| ==> forall c :: c in turns[k].calls ==> c.Empty?
  }

  lemma {:induction false} QuietCallsShrink<E>(s: State<E>, calls: seq<Call<E>>)
    requires forall c :: c in calls ==> c.Empty?
    ensures |Perform(s, calls).queue| <= |s.queue|
    decreases calls
  {
    if calls != [] {
      assert calls[0] in calls;
      QuietCallsShrink(DrainAll(s), calls[1..]);
    }
  }

  /** A loop turn in which nothing is accepted removes at least one event. */
  lemma {:induction false} QuietLoopShrinks<E>(s: State<E>, turns: seq<Turn<E>>)
    requires Quiet(turns)
    ensures |Loop(s, turns).queue| < |s.queue| || (Loop(s, turns).queue == [] && !Loop(s, turns).flushing)
    decreases turns
  {
    if s.queue != [] && turns != [] {
      QuietCallsShrink(Shift(s), turns[0].calls);
      if turns[0].throws {
        QuietLoopShrinks(Perform(Shift(s), turns[0].calls), turns[1..]);
      }
    }
  }

  /** Left alone, a flush that keeps being resumed empties the queue and ends. */
  lemma {:induction false} FlushFinishes<E>(s: State<E>, ops: seq<Op<E>>)
    requires Inv(s) && s.hasSink && |ops| > |s.queue|
    requires forall k :: 0 <= k < |ops| ==> ops[k].Resume? && Quiet(ops[k].turns)
    ensures Run(s, ops).queue == [] && !Run(s, ops).flushing
    decreases ops
  {
    var t := Step(s, ops[0]);
    StepKeeps(s, ops[0]);
    if s.flushing {
      QuietLoopShrinks(s, ops[0].turns);
      LoopKeepsSink(s, ops[0].turns);
    }
    if t.queue == [] && !t.flushing {
      Idle(t, ops[1..]);
    } else {
      FlushFinishes(t, ops[1..]);
    }
  }

  lemma {:induction false} LoopKeepsSink<E>(s: State<E>, turns: seq<Turn<E>>)
    requires Bounded(s) && Accounted(s)
    ensures Loop(s, turns).hasSink == s.hasSink
    decreases turns
  {
    if s.queue != [] && turns != [] {
      ShiftKeeps(s);
      PerformKeeps(Shift(s), turns[0].calls);
      if turns[0].throws {
        LoopKeepsSink(Perform(Shift(s), turns[0].calls), turns[1..]);
      }
    }
  }

  lemma {:induction false} Idle<E>(s: State<E>, ops: seq<Op<E>>)
    requires !s.flushing && forall k :: 0 <= k < |ops| ==> ops[k].Resume?
    ensures Run(s, ops) == s
    decreases ops
  {
    if ops != [] {
      Idle(s, ops[1..]);
    }
  }

  // ---------------------------------------------------------------- what is accepted, and what becomes of it

  /** Of what a sink offers while it holds an event, what there is room for. */
  ghost function AdmittedCalls<E>(s: State<E>, calls: seq<Call<E>>): seq<E>
    decreases calls
  {
    if calls == [] then []
    else if calls[0].Empty? then AdmittedCalls(DrainAll(s), calls[1..])
    else
      (if |s.queue| < s.maxSize then [calls[0].event] else []) + AdmittedCalls(Push(s, calls[0].event), calls[1..])
  }

  ghost function AdmittedLoop<E>(s: State<E>, turns: seq<Turn<E>>): seq<E>
    decreases turns
  {
    if s.queue == [] || turns == [] then []
    else
      AdmittedCalls(Shift(s), turns[0].calls)
      + if turns[0].throws then AdmittedLoop(Perform(Shift(s), turns[0].calls), turns[1..]) else []
  }

  ghost function AdmittedFlush<E>(s: State<E>, turns: seq<Turn<E>>): seq<E> {
    if s.flushing || !s.hasSink then [] else AdmittedLoop(s.(flushing := true), turns)
  }

  /** The events offered in one step while there is room, in the order in which they are offered. */
  ghost function AdmittedBy<E>(s: State<E>, op: Op<E>): seq<E> {
    match op
    case Enqueue(e, turns) => if |s.queue| < s.maxSize then [e] + AdmittedFlush(Push(s, e), turns) else []
    case Drain => []
    case Flush(turns) => AdmittedFlush(s, turns)
    case Resume(turns) => if s.flushing then AdmittedLoop(s, turns) else []
  }

  ghost function Admitted<E>(s: State<E>, ops: seq<Op<E>>): seq<E>
    decreases ops
  {
    if ops == [] then [] else AdmittedBy(s, ops[0]) + Admitted(Step(s, ops[0]), ops[1..])
  }

  lemma {:induction false} CallsAdmit<E>(s: State<E>, calls: seq<Call<E>>)
    ensures Perform(s, calls).accepted == s.accepted + AdmittedCalls(s, calls)
    decreases calls
  {
    if calls != [] {
      CallsAdmit(if calls[0].Accept? then Push(s, calls[0].event) else DrainAll(s), calls[1..]);
    }
  }

  lemma {:induction false} LoopAdmits<E>(s: State<E>, turns: seq<Turn<E>>)
    ensures Loop(s, turns).accepted == s.accepted + AdmittedLoop(s, turns)
    decreases turns
  {
    if s.queue != [] && turns != [] {
      CallsAdmit(Shift(s), turns[0].calls);
      if turns[0].throws {
        LoopAdmits(Perform(Shift(s), turns[0].calls), turns[1..]);
      }
    }
  }

  lemma {:induction false} FlushAdmits<E>(s: State<E>, turns: seq<Turn<E>>)
    ensures StartFlush(s, turns).accepted == s.accepted + AdmittedFlush(s, turns)
  {
    LoopAdmits(s.(flushing := true), turns);
  }

  lemma {:induction false} StepAdmits<E>(s: State<E>, op: Op<E>)
    ensures Step(s, op).accepted == s.accepted + AdmittedBy(s, op)
    ensures op.Enqueue? && |s.queue| < s.maxSize ==> s.accepted + [op.event] <= Step(s, op).accepted
  {
    match op
    case Enqueue(e, turns) => FlushAdmits(Push(s, e), turns);
    case Drain =>
    case Flush(turns) => FlushAdmits(s, turns);
    case Resume(turns) => LoopAdmits(s, turns);
  }

  /** In every run exactly the events are accepted that are offered while there is room, in that order. */
  lemma {:induction false} AcceptsWhatFits<E>(s: State<E>, ops: seq<Op<E>>)
    ensures Run(s, ops).accepted == s.accepted + Admitted(s, ops)
    decreases ops
  {
    if ops != [] {
      StepAdmits(s, ops[0]);
      AcceptsWhatFits(Step(s, ops[0]), ops[1..]);
    }
  }

  ghost function AllRecorded<E>(queue: seq<E>): (r: seq<Exit<E>>)
    ensures |r| == |queue| && forall i :: 0 <= i < |r| ==> r[i] == Exit(queue[i], Recorded)
  {
    seq(|queue|, i requires 0 <= i < |queue| => Exit(queue[i], Recorded))
  }

  /** The exits there will have been once the sink has been handed the whole queue. */
  ghost function Outlook<E>(s: State<E>): seq<Exit<E>> {
    s.exits + AllRecorded(s.queue)
  }

  /** The sink only takes what it is handed. */
  ghost predicate Silent<E>(turns: seq<Turn<E>>) {
    forall k :: 0 <= k < |turns| ==> turns[k].calls == []
  }

  lemma {:induction false} ShiftKeepsOutlook<E>(s: State<E>)
    requires s.queue != []
    ensures Outlook(Shift(s)) == Outlook(s)
  {
    assert s.queue == [s.queue[0]] + s.queue[1..];
  }

  lemma {:induction false} LoopKeepsOutlook<E>(s: State<E>, turns: seq<Turn<E>>)
    requires Silent(turns)
    ensures Outlook(Loop(s, turns)) == Outlook(s)
    decreases turns
  {
    if s.queue != [] {
      ShiftKeepsOutlook(s);
      if turns != [] && turns[0].throws {
        LoopKeepsOutlook(Shift(s), turns[1..]);
      }
    }
  }

  lemma {:induction false} ResumesKeepOutlook<E>(s: State<E>, ops: seq<Op<E>>)
    requires forall k :: 0 <= k < |ops| ==> ops[k].Resume? && Silent(ops[k].turns)
    ensures Outlook(Run(s, ops)) == Outlook(s)
    decreases ops
  {
    if ops != [] {
      LoopKeepsOutlook(s, ops[0].turns);
      ResumesKeepOutlook(Step(s, ops[0]), ops[1..]);
    }
  }

  lemma {:induction false} SilentIsQuiet<E>(turns: seq<Turn<E>>)
    requires Silent(turns)
    ensures Quiet(turns)
  {
  }

  lemma {:induction false} EnqueueKeepsOutlook<E>(s: State<E>, e: E, turns: seq<Turn<E>>)
    requires Bounded(s) && |s.queue| < s.maxSize && Silent(turns)
    ensures Outlook(Step(s, Op.Enqueue(e, turns))) == s.exits + AllRecorded(s.queue + [e])
    ensures |Step(s, Op.Enqueue(e, turns)).queue| <= |s.queue| + 1
  {
    var t := Push(s, e).(flushing := true);
    LoopKeepsOutlook(t, turns);
    SilentIsQuiet(turns);
    QuietLoopShrinks(t, turns);
  }

  /** With a sink that takes what it is handed, an event there is room for is recorded, after all that was
      queued before it, once the flush has been resumed often enough; and then nothing is left to do. */
  lemma {:induction false} EnqueuedIsRecorded<E>(s: State<E>, e: E, turns: seq<Turn<E>>, ops: seq<Op<E>>)
    requires Inv(s) && s.hasSink && |s.queue| < s.maxSize && Silent(turns) && |ops| > |s.queue| + 1
    requires forall k :: 0 <= k < |ops| ==> ops[k].Resume? && Silent(ops[k].turns)
    ensures var t := Run(Step(s, Op.Enqueue(e, turns)), ops);
            t.exits == s.exits + AllRecorded(s.queue + [e]) && t.queue == [] && !t.flushing
  {
    var u := Step(s, Op.Enqueue(e, turns));
    StepKeeps(s, Op.Enqueue(e, turns));
    StepKeepsSink(s, Op.Enqueue(e, turns));
    EnqueueKeepsOutlook(s, e, turns);
    forall k | 0 <= k < |ops| ensures Quiet(ops[k].turns) {
      SilentIsQuiet(ops[k].turns);
    }
    FlushFinishes(u, ops);
    ResumesKeepOutlook(u, ops);
  }

  lemma {:induction false} StepKeepsSink<E>(s: State<E>, op: Op<E>)
    requires Inv(s)
    ensures Step(s, op).hasSink == s.hasSink
  {
    match op
    case Enqueue(e, turns) =>
      PushKeeps(s, e);
      LoopKeepsSink(Push(s, e).(flushing := true), turns);
    case Drain =>
    case Flush(turns) => LoopKeepsSink(s.(flushing := true), turns);
    case Resume(turns) => LoopKeepsSink(s, turns);
  }

  /** Draining marks the queue as drained, in order, and records nothing. */
  lemma {:induction false} DrainRecordsNothing<E>(s: State<E>)
    ensures WithFate(DrainAll(s).exits, Recorded) == WithFate(s.exits, Recorded)
    ensures WithFate(DrainAll(s).exits, Drained) == WithFate(s.exits, Drained) + s.queue
  {
    DrainedFates(s.exits, s.queue);
  }

  lemma {:induction false} DrainedFates<E>(exits: seq<Exit<E>>, queue: seq<E>)
    ensures WithFate(exits + AllDrained(queue), Recorded) == WithFate(exits, Recorded)
    ensures WithFate(exits + AllDrained(queue), Drained) == WithFate(exits, Drained) + queue
  {
    if queue == [] {
      assert exits + AllDrained(queue) == exits;
    } else {
      var last := |queue| - 1;
      var before := exits + AllDrained(queue[..last]);
      DrainedFates(exits, queue[..last]);
      DrainedLast(exits, queue);
      FateStep(exits + AllDrained(queue), before, Exit(queue[last], Drained), Recorded);
      FateStep(exits + AllDrained(queue), before, Exit(queue[last], Drained), Drained);
      LastAgain(WithFate(exits, Drained), queue);
    }
  }

  lemma {:induction false} DrainedLast<E>(exits: seq<Exit<E>>, queue: seq<E>)
    requires queue != []
    ensures var last := |queue| - 1;
            exits + AllDrained(queue) == (exits + AllDrained(queue[..last])) + [Exit(queue[last], Drained)]
  {
  }

  lemma {:induction false} LastAgain<T>(p: seq<T>, s: seq<T>)
    requires s != []
    ensures (p + s[..|s| - 1]) + [s[|s| - 1]] == p + s
  {
  }
}
