/**
 The linked in-memory transport (scripts/current-mcp-test-harness.ts): two endpoints
 and one FIFO microtask queue. A handler that sends or closes does so in later steps.
 */
module LinkedTransports {
  import opened Wrappers

  type Message = string

  datatype TransportError = AlreadyStarted | Closed | PeerClosed

  datatype Side = Left | Right

  function Other(side: Side): Side { if side == Left then Right else Left }

  // ---------------------------------------------------------------- the classes

  class LinkedTransport {
    var peer: LinkedTransport?
    var started: bool
    var closed: bool
    /** What onmessage has been called with, and how often onclose has been called. */
    var received: seq<Message>
    var closeCalls: nat

    constructor ()
      ensures peer == null && !started && !closed && received == [] && closeCalls == 0
    {
      peer := null;
      started, closed, received, closeCalls := false, false, [], 0;
    }

    method Link(peer: LinkedTransport)
      modifies this`peer
      ensures this.peer == peer
    {
      this.peer := peer;
    }

    method Start() returns (r: Result<(), TransportError>)
      modifies this`started
      ensures started
      ensures r == if old(started) then Err(AlreadyStarted) else Ok(())
    {
      if started {
        return Err(AlreadyStarted);
      }
      started := true;
      return Ok(());
    }

    /** The synchronous part of send: the checks, and queueing the delivery. */
    method Send(message: Message, microtasks: MicrotaskQueue) returns (r: Result<(), TransportError>)
      modifies microtasks
      ensures r == if !started || closed then Err(Closed)
                   else if peer == null || peer.closed then Err(PeerClosed)
                   else Ok(())
      ensures microtasks.tasks == if r.Ok? && peer != null then old(microtasks.tasks) + [Delivery(peer, message)]
                                  else old(microtasks.tasks)
    {
      if !started || closed {
        return Err(Closed);
      }
      var peer := this.peer;
      if peer == null || peer.closed {
        return Err(PeerClosed);
      }
      microtasks.Enqueue(peer, message);
      return Ok(());
    }

    method Close()
      modifies this`closed, this`closeCalls
      ensures closed
      ensures closeCalls == old(closeCalls) + (if old(closed) then 0 else 1)
    {
      if closed {
        return;
      }
      closed := true;
      closeCalls := closeCalls + 1;
    }

    method OnMessage(message: Message)
      modifies this`received
      ensures received == old(received) + [message]
    {
      received := received + [message];
    }
  }

  datatype Delivery = Delivery(target: LinkedTransport, message: Message)

  class MicrotaskQueue {
    var tasks: seq<Delivery>

    constructor ()
      ensures tasks == []
    {
      tasks := [];
    }

    method Enqueue(target: LinkedTransport, message: Message)
      modifies this
      ensures tasks == old(tasks) + [Delivery(target, message)]
    {
      tasks := tasks + [Delivery(target, message)];
    }
  }

  /** linkedTransportPair and the queue, driven one step at a time. */
  class LinkedPair {
    const left: LinkedTransport
    const right: LinkedTransport
    const microtasks: MicrotaskQueue
    /** Every message each side was allowed to send. */
    ghost var sentLeft: seq<Message>
    ghost var sentRight: seq<Message>

    ghost predicate Valid()
      reads this, left, right, microtasks
    {
      && left != right && left.peer == right && right.peer == left
      && forall d :: d in microtasks.tasks ==> d.target == left || d.target == right
    }

    ghost function SideOf(t: LinkedTransport): Side { if t == left then Left else Right }

    ghost function End(t: LinkedTransport, sent: seq<Message>): Endpoint
      reads t
    {
      Endpoint(t.started, t.closed, t.received, t.closeCalls, sent)
    }

    ghost function View(): Network
      reads this, left, right, microtasks
    {
      Network(
        End(left, sentLeft), End(right, sentRight),
        seq(|microtasks.tasks|, i requires 0 <= i < |microtasks.tasks| reads microtasks =>
          Flight(SideOf(microtasks.tasks[i].target), microtasks.tasks[i].message)))
    }

    constructor ()
      ensures Valid() && View() == INITIAL
    {
      var l := new LinkedTransport();
      var r := new LinkedTransport();
      var queue := new MicrotaskQueue();
      left, right, microtasks := l, r, queue;
      sentLeft, sentRight := [], [];
      new;
      left.Link(right);
      right.Link(left);
    }

    method Start(side: Side) returns (r: Result<(), TransportError>)
      requires Valid()
      modifies left`started, right`started
      ensures Valid() && View() == Step(old(View()), StartStep(side))
      ensures r.Ok? <==> !old(View()).Get(side).started
    {
      if side == Left {
        r := left.Start();
      } else {
        r := right.Start();
      }
    }

    method Send(side: Side, message: Message) returns (r: Result<(), TransportError>)
      requires Valid()
      modifies microtasks, this`sentLeft, this`sentRight
      ensures Valid() && View() == Step(old(View()), SendStep(side, message))
      ensures r.Ok? <==> MaySend(old(View()), side)
    {
      if side == Left {
        r := left.Send(message, microtasks);
        if r.Ok? {
          sentLeft := sentLeft + [message];
        }
      } else {
        r := right.Send(message, microtasks);
        if r.Ok? {
          sentRight := sentRight + [message];
        }
      }
    }

    method Close(side: Side)
      requires Valid()
      modifies left`closed, left`closeCalls, right`closed, right`closeCalls
      ensures Valid() && View() == Step(old(View()), CloseStep(side))
    {
      if side == Left {
        left.Close();
      } else {
        right.Close();
      }
    }

    /** The event loop takes the oldest microtask; the target's state is not consulted again. */
    method RunMicrotask()
      requires Valid()
      modifies left`received, right`received, microtasks
      ensures Valid() && View() == Step(old(View()), MicrotaskStep)
    {
      if |microtasks.tasks| == 0 {
        return;
      }
      var next := microtasks.tasks[0];
      microtasks.tasks := microtasks.tasks[1..];
      next.target.OnMessage(next.message);
    }
  }

  // ---------------------------------------------------------- every interleaving

  datatype Endpoint = Endpoint(
    started: bool, closed: bool, received: seq<Message>, closeCalls: nat, sent: seq<Message>)

  datatype Flight = Flight(to: Side, message: Message)

  datatype Network = Network(left: Endpoint, right: Endpoint, queue: seq<Flight>) {
    function Get(side: Side): Endpoint { if side == Left then left else right }

    function With(side: Side, e: Endpoint): Network {
      if side == Left then this.(left := e) else this.(right := e)
    }
  }

  datatype NetworkStep =
    | StartStep(side: Side)
    | SendStep(side: Side, message: Message)
    | CloseStep(side: Side)
    | MicrotaskStep

  const FRESH := Endpoint(false, false, [], 0, [])
  const INITIAL := Network(FRESH, FRESH, [])

  predicate MaySend(n: Network, side: Side) {
    n.Get(side).started && !n.Get(side).closed && !n.Get(Other(side)).closed
  }

  function Step(n: Network, step: NetworkStep): Network {
    match step
    case StartStep(side) => n.With(side, n.Get(side).(started := true))
    case SendStep(side, message) =>
      if MaySend(n, side) then
        n.With(side, n.Get(side).(sent := n.Get(side).sent + [message]))
         .(queue := n.queue + [Flight(Other(side), message)])
      else n
    case CloseStep(side) =>
      if n.Get(side).closed then n
      else n.With(side, n.Get(side).(closed := true, closeCalls := n.Get(side).closeCalls + 1))
    case MicrotaskStep =>
      if n.queue == [] then n
      else
        var f := n.queue[0];
        n.With(f.to, n.Get(f.to).(received := n.Get(f.to).received + [f.message])).(queue := n.queue[1..])
  }

  function Steps(n: Network, steps: seq<NetworkStep>): Network {
    if steps == [] then n else Step(Steps(n, steps[..|steps| - 1]), steps[|steps| - 1])
  }

  /** The queued messages for one side, oldest first. */
  function InFlight(queue: seq<Flight>, side: Side): seq<Message> {
    if queue == [] then []
    else (if queue[0].to == side then [queue[0].message] else []) + InFlight(queue[1..], side)
  }

  lemma {:induction false} InFlightAppend(queue: seq<Flight>, f: Flight, side: Side)
    ensures InFlight(queue + [f], side) == InFlight(queue, side) + (if f.to == side then [f.message] else [])
  {
    if queue == [] {
      assert ([f])[1..] == [];
    } else {
      InFlightAppend(queue[1..], f, side);
      assert (queue + [f])[1..] == queue[1..] + [f];
    }
  }

  /** Delivered, then in flight, is what the peer sent; onclose has fired once for a closed end. */
  predicate ConservesAt(n: Network, side: Side) {
    && n.Get(side).received + InFlight(n.queue, side) == n.Get(Other(side)).sent
    && n.Get(side).closeCalls == (if n.Get(side).closed then 1 else 0)
  }

  predicate Conserves(n: Network) {
    ConservesAt(n, Left) && ConservesAt(n, Right)
  }

  lemma SendConserves(n: Network, sender: Side, message: Message, side: Side)
    requires ConservesAt(n, side)
    ensures ConservesAt(Step(n, SendStep(sender, message)), side)
  {
    InFlightAppend(n.queue, Flight(Other(sender), message), side);
  }

  lemma MicrotaskConserves(n: Network, side: Side)
    requires ConservesAt(n, side)
    ensures ConservesAt(Step(n, MicrotaskStep), side)
  {
    if n.queue != [] && n.queue[0].to == side {
      var f := n.queue[0];
      assert (n.Get(side).received + [f.message]) + InFlight(n.queue[1..], side)
          == n.Get(side).received + InFlight(n.queue, side);
    }
  }

  lemma StepConserves(n: Network, step: NetworkStep, side: Side)
    requires ConservesAt(n, side)
    ensures ConservesAt(Step(n, step), side)
  {
    match step
    case SendStep(sender, message) => SendConserves(n, sender, message, side);
    case MicrotaskStep => MicrotaskConserves(n, side);
    case _ =>
  }

  /** In order, without loss or duplication, in every interleaving. */
  lemma Conservation(steps: seq<NetworkStep>)
    ensures
      var n := Steps(INITIAL, steps);
      && n.left.received + InFlight(n.queue, Left) == n.right.sent
      && n.right.received + InFlight(n.queue, Right) == n.left.sent
      && n.left.closeCalls == (if n.left.closed then 1 else 0)
      && n.right.closeCalls == (if n.right.closed then 1 else 0)
  {
    ConservesThrough(INITIAL, steps);
  }

  lemma {:induction false} ConservesThrough(n: Network, steps: seq<NetworkStep>)
    requires Conserves(n)
    ensures Conserves(Steps(n, steps))
  {
    if steps != [] {
      ConservesThrough(n, steps[..|steps| - 1]);
      StepConserves(Steps(n, steps[..|steps| - 1]), steps[|steps| - 1], Left);
      StepConserves(Steps(n, steps[..|steps| - 1]), steps[|steps| - 1], Right);
    }
  }

  /** Only a start step starts an end, and an end whose sent messages grow has started. */
  lemma StepStarts(n: Network, step: NetworkStep, side: Side)
    ensures Step(n, step).Get(side).started <==> n.Get(side).started || step == StartStep(side)
    ensures Step(n, step).Get(side).sent == n.Get(side).sent || n.Get(side).started
  {
  }

  /** Nothing is sent from an end that was never started, and starting is never undone. */
  lemma {:induction false} SendersHaveStarted(steps: seq<NetworkStep>)
    ensures
      var n := Steps(INITIAL, steps);
      && (n.left.sent != [] ==> n.left.started) && (n.right.sent != [] ==> n.right.started)
      && (n.left.started <==> StartStep(Left) in steps) && (n.right.started <==> StartStep(Right) in steps)
  {
    if steps != [] {
      SendersHaveStarted(steps[..|steps| - 1]);
      StepStarts(Steps(INITIAL, steps[..|steps| - 1]), steps[|steps| - 1], Left);
      StepStarts(Steps(INITIAL, steps[..|steps| - 1]), steps[|steps| - 1], Right);
      assert steps == steps[..|steps| - 1] + [steps[|steps| - 1]];
    }
  }

  /** m follows n without any send: what is queued is a suffix of what was. */
  predicate Quiet(n: Network, m: Network) {
    && m.left.sent == n.left.sent && m.right.sent == n.right.sent
    && (n.left.closed ==> m.left.closed) && (n.right.closed ==> m.right.closed)
    && |m.queue| <= |n.queue| && m.queue == n.queue[|n.queue| - |m.queue|..]
  }

  lemma MicrotaskQuiet(n: Network)
    ensures Quiet(n, Step(n, MicrotaskStep))
  {
    var m := Step(n, MicrotaskStep);
    if n.queue != [] {
      assert m.queue == n.queue[1..] && |n.queue| - |m.queue| == 1;
    } else {
      assert n.queue[0..] == n.queue;
    }
  }

  lemma StepQuiet(n: Network, step: NetworkStep)
    requires n.left.closed || n.right.closed
    ensures Quiet(n, Step(n, step))
  {
    if step.MicrotaskStep? {
      MicrotaskQuiet(n);
    } else {
      assert step.SendStep? ==> !MaySend(n, step.side);
      assert n.queue[0..] == n.queue && Step(n, step).queue == n.queue;
    }
  }

  lemma QuietTransitive(n: Network, m: Network, l: Network)
    requires Quiet(n, m) && Quiet(m, l)
    ensures Quiet(n, l)
  {
    var a, b := |n.queue| - |m.queue|, |m.queue| - |l.queue|;
    assert n.queue[a..][b..] == n.queue[a + b..];
  }

  /** Once an end is closed nothing more is sent in either direction, and the queue only drains from its front. */
  lemma {:induction false} ClosedIsQuiet(n: Network, steps: seq<NetworkStep>)
    requires n.left.closed || n.right.closed
    ensures Quiet(n, Steps(n, steps))
  {
    if steps != [] {
      var m := Steps(n, steps[..|steps| - 1]);
      ClosedIsQuiet(n, steps[..|steps| - 1]);
      StepQuiet(m, steps[|steps| - 1]);
      QuietTransitive(n, m, Steps(n, steps));
    }
  }

  function Microtasks(k: nat): seq<NetworkStep> { seq(k, _ => MicrotaskStep) }

  /** Messages already queued still arrive, closed or not: draining the queue delivers all that was sent. */
  lemma {:induction false} QueuedMessagesArrive(n: Network)
    requires Conserves(n)
    ensures
      var m := Steps(n, Microtasks(|n.queue|));
      && m.queue == []
      && m.left.received == n.right.sent && m.right.received == n.left.sent
  {
    DrainLength(n, |n.queue|);
    ConservesThrough(n, Microtasks(|n.queue|));
    var m := Steps(n, Microtasks(|n.queue|));
    assert InFlight(m.queue, Left) == [] && InFlight(m.queue, Right) == [];
  }

  lemma {:induction false} DrainLength(n: Network, k: nat)
    requires k <= |n.queue|
    ensures
      var m := Steps(n, Microtasks(k));
      && |m.queue| == |n.queue| - k
      && m.left.sent == n.left.sent && m.right.sent == n.right.sent
  {
    if k > 0 {
      DrainLength(n, k - 1);
      assert Microtasks(k)[..k - 1] == Microtasks(k - 1);
    }
  }
}
