/**
  The locks of a takeover (vaux-broker/src/lib.rs, `handle_connect` and `handle_takeover`). The connect holds the
  pool's write lock and the session's read lock while it waits for room in the session's control channel, which only
  the old connection's handler empties. That handler, busy with something else, may be waiting for one of the locks.
 */
module Takeover {

  /** What the handler does between two turns of its loop: the locks it needs, in order. */
  datatype Plan =
    | Acknowledge               // PUBACK: the session's write lock
    | Publish                   // routing: the pool's read lock
    | Leave(closed: bool)       // keep-alive expiry, DISCONNECT or a closed socket: session, then pool

  datatype Handler = Selecting | NeedsSession(plan: Plan) | NeedsPool(plan: Plan) | Ended

  /** The connect that takes the session over. */
  datatype Connect = Before | Sending | Finishing | Over

  datatype State = State(capacity: nat, queued: nat, handler: Handler, connect: Connect)

  datatype Event =
    | Route             // a publish for the session goes into its channel
    | Begin             // the connect takes the pool's write lock and the session's read lock
    | Send              // there is room, or nobody listens any more: the session's lock is given back
    | Finish            // and the pool's
    | Receive           // the handler takes a message from the channel
    | Start(plan: Plan)
    | GetSession
    | GetPool
    | Fail              // a write of the handler fails

  predicate Enabled(s: State, e: Event) {
    match e
    case Route => s.connect == Before && s.queued < s.capacity
    case Begin => s.connect == Before
    case Send => s.connect == Sending && (s.queued < s.capacity || s.handler == Ended)
    case Finish => s.connect == Finishing
    case Receive => s.handler == Selecting && s.queued > 0
    case Start(_) => s.handler == Selecting
    case GetSession => s.handler.NeedsSession? && s.connect != Sending
    case GetPool => s.handler.NeedsPool? && (s.connect == Before || s.connect == Over)
    case Fail => s.handler == Selecting
  }

  function Apply(s: State, e: Event): State
    requires Enabled(s, e)
  {
    match e
    case Route => s.(queued := s.queued + 1)
    case Begin => s.(connect := Sending)
    case Send => s.(connect := Finishing, queued := if s.handler == Ended then s.queued else s.queued + 1)
    case Finish => s.(connect := Over)
    case Receive => s.(queued := s.queued - 1)
    case Start(plan) => s.(handler := if plan.Publish? then NeedsPool(plan) else NeedsSession(plan))
    case GetSession => s.(handler := if s.handler.plan.Leave? then NeedsPool(s.handler.plan) else Selecting)
    case GetPool => s.(handler := if s.handler.plan == Leave(true) then Ended else Selecting)
    case Fail => s.(handler := Ended)
  }

  function Run(s: State, events: seq<Event>): State
    decreases events
  {
    if events == [] then s
    else Run(if Enabled(s, events[0]) then Apply(s, events[0]) else s, events[1..])
  }

  /** A channel has room for one message at least. */
  predicate Valid(s: State) {
    0 < s.capacity && s.queued <= s.capacity
  }

  /** The channel is full, the connect waits for room, and the handler waits for a lock the connect holds. */
  predicate Stuck(s: State) {
    s.connect == Sending && s.queued == s.capacity && (s.handler.NeedsSession? || s.handler.NeedsPool?)
  }

  lemma {:induction false} RunValid(s: State, events: seq<Event>)
    requires Valid(s)
    ensures Valid(Run(s, events))
    decreases events
  {
    if events != [] {
      RunValid(if Enabled(s, events[0]) then Apply(s, events[0]) else s, events[1..]);
    }
  }

  /** Then nothing moves again, and the pool stays locked for every other connection. */
  lemma {:induction false} StuckForever(s: State, events: seq<Event>)
    requires Stuck(s)
    ensures Run(s, events) == s
    decreases events
  {
    if events != [] {
      assert !Enabled(s, events[0]);
      StuckForever(s, events[1..]);
    }
  }

  ghost predicate CanComplete(s: State) {
    exists events :: Run(s, events).connect == Over
  }

  lemma RunTwo(s: State, a: Event, b: Event)
    requires Enabled(s, a) && Enabled(Apply(s, a), b)
    ensures Run(s, [a, b]) == Apply(Apply(s, a), b)
  {
    assert [a, b][1..] == [b] && [b][1..] == [];
    assert Run(Apply(s, a), [b]) == Run(Apply(Apply(s, a), b), []);
  }

  lemma RunThree(s: State, a: Event, b: Event, c: Event)
    requires Enabled(s, a) && Enabled(Apply(s, a), b) && Enabled(Apply(Apply(s, a), b), c)
    ensures Run(s, [a, b, c]) == Apply(Apply(Apply(s, a), b), c)
  {
    assert [a, b, c][1..] == [b, c];
    RunTwo(Apply(s, a), b, c);
  }

  /** A takeover that has begun can come to its end exactly if it is not stuck. */
  lemma CompletesIff(s: State)
    requires Valid(s) && s.connect != Before
    ensures CanComplete(s) <==> !Stuck(s)
  {
    if Stuck(s) {
      forall events ensures Run(s, events).connect != Over {
        StuckForever(s, events);
      }
    } else if s.connect == Over {
      assert Run(s, []).connect == Over;
    } else if s.connect == Finishing {
      assert [Finish][1..] == [];
      assert Run(s, [Finish]).connect == Over;
    } else if s.queued < s.capacity || s.handler == Ended {
      RunTwo(s, Send, Finish);
    } else {
      RunThree(s, Receive, Send, Finish);
    }
  }

  function Routes(n: nat): seq<Event> {
    seq(n, i => Route)
  }

  lemma {:induction false} Filled(s: State, n: nat, more: seq<Event>)
    requires s.connect == Before && s.queued + n <= s.capacity
    ensures Run(s, Routes(n) + more) == Run(s.(queued := s.queued + n), more)
    decreases n
  {
    if n == 0 {
      assert Routes(0) + more == more;
    } else {
      assert (Routes(n) + more)[1..] == Routes(n - 1) + more;
      Filled(s.(queued := s.queued + 1), n - 1, more);
    }
  }

  /** It does get stuck, for channels of any size: the channel fills up, and a PUBACK comes before the next receive. */
  lemma StuckReachable(capacity: nat)
    requires capacity > 0
    ensures Stuck(Run(State(capacity, 0, Selecting, Before), Routes(capacity) + [Begin, Start(Acknowledge)]))
  {
    var s := State(capacity, 0, Selecting, Before);
    Filled(s, capacity, [Begin, Start(Acknowledge)]);
    RunTwo(s.(queued := capacity), Begin, Start(Acknowledge));
  }

  /**
    Before the connect begins, a run into the deadlock exists exactly if the handler is still there to go and wait:
    a handler that has ended drops its end of the channel, and the connect does not wait for room.
   */
  lemma StuckPossibleIff(s: State)
    requires Valid(s) && s.connect == Before
    ensures (exists events :: Stuck(Run(s, events))) <==> s.handler != Ended
  {
    if s.handler == Ended {
      forall events ensures !Stuck(Run(s, events)) {
        EndedStays(s, events);
      }
    } else {
      var n := s.capacity - s.queued;
      var more := if s.handler == Selecting then [Begin, Start(Acknowledge)] else [Begin];
      Filled(s, n, more);
      if s.handler == Selecting {
        RunTwo(s.(queued := s.capacity), Begin, Start(Acknowledge));
      } else {
        assert [Begin][1..] == [];
      }
      assert Stuck(Run(s, Routes(n) + more));
    }
  }

  lemma {:induction false} EndedStays(s: State, events: seq<Event>)
    requires s.handler == Ended
    ensures Run(s, events).handler == Ended
    decreases events
  {
    if events != [] {
      EndedStays(if Enabled(s, events[0]) then Apply(s, events[0]) else s, events[1..]);
    }
  }
}
