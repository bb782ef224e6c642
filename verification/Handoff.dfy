/** The hand-over of requests between the IO threads and the worker threads (src/server.c), as a step system.

    The threads have no identity here: a task that epoll_wait has delivered to some thread may be carried on by any
    thread at any time, so the runs of this system include those of every number of IO and worker threads with every
    batch size.  Every descriptor is armed for one event at a time: delivering the event disarms it.

    A handler is a sequence of sections, each of them atomic (what it does between taking and releasing the spin lock,
    or between two such stretches) and each at a time of its own.  Between the sections of one request anything may
    happen: sections of other requests, and the expiry ticks that the workers run on the same database. */
module Handoff {

  type Client = nat

  /** struct io_event: a decoded request on its way to a worker and its reply on the way back. */
  datatype Event<R, A> = Event(c: Client, req: R, reply: Reply<A>)

  datatype Reply<A> = NoReply | Reply(a: A)

  /** How the io_epollfd watches the descriptor of a client. */
  datatype Watch<R, A> = In | Out(e: Event<R, A>) | Off | Closed

  /** What some thread is about to do. */
  datatype Task<R, A> =
    | Read(c: Client)
    | Raise(e: Event<R, A>)
    | Handle(e: Event<R, A>, rest: R)   // rest: what the handler has left to do
    | Post(e: Event<R, A>)
    | Send(e: Event<R, A>)
    | Rearm(e: Event<R, A>)

  ghost function ClientOf<R, A>(t: Task<R, A>): Client {
    if t.Read? then t.c else t.e.c
  }

  /** How a section of a handler ends: with something left to do, which holds the handler's local variables, or with
      the reply. */
  datatype Outcome<R, A> = Pauses(rest: R) | Replies(a: A)

  /** What the workers run on the database: the sections of the handlers and expire_keys, both at a time they read. */
  datatype Server<!S, !R, !A> = Server(section: (S, R, int) -> (S, Outcome<R, A>), expire: (S, int) -> S)

  /** What has been done to the database, in order: a section of the handler for a client's request, or a tick. */
  datatype Entry<R, A> = Ran(c: Client, req: R, rest: R, now: int, out: Outcome<R, A>) | Ticked(now: int)

  datatype State<S, R(==), A(==)> = State(
    watch: map<Client, Watch<R, A>>,
    tasks: multiset<Task<R, A>>,
    queue: multiset<Event<R, A>>,       // armed in the workers' epoll
    db: S,
    log: seq<Entry<R, A>>,
    decoded: map<Client, seq<R>>,       // what read_data has decoded for each client, in order
    sent: map<Client, seq<A>>)          // what has been sent to each client, in order

  datatype Step<R, A> =
    | Accept(c: Client)                 // accept_loop registers a new client
    | Ready(c: Client)                  // epoll_wait delivers EPOLLIN to an IO thread
    | Hangup(c: Client)                 // epoll_wait delivers an error: the descriptor stays disarmed
    | Decode(c: Client, req: R)         // read_data decodes a request
    | Garbled(c: Client)                // read_data finds a bad packet: nothing re-arms the descriptor
    | Leave(c: Client)                  // read_data finds the client gone
    | Hand(e: Event<R, A>)              // the IO thread arms the event for the workers
    | Take(e: Event<R, A>)              // epoll_wait delivers the event to a worker
    | Serve(e: Event<R, A>, rest: R, now: int)  // the next section of the handler runs
    | Tick(now: int)                    // the timer goes off and a worker runs expire_keys
    | Answer(e: Event<R, A>)            // the worker arms the descriptor for EPOLLOUT
    | Writable(c: Client)               // epoll_wait delivers EPOLLOUT to an IO thread
    | Write(e: Event<R, A>)             // send_bytes succeeds
    | Fail(e: Event<R, A>)              // send_bytes fails and the descriptor is closed
    | Again(e: Event<R, A>)             // the IO thread arms the descriptor for EPOLLIN

  ghost predicate Enabled<S, R, A>(s: State<S, R, A>, step: Step<R, A>) {
    match step
    case Accept(c) => c !in s.watch
    case Ready(c) => c in s.watch && s.watch[c] == In
    case Hangup(c) => c in s.watch && (s.watch[c] == In || s.watch[c].Out?)
    case Decode(c, _) => Read(c) in s.tasks && c in s.decoded
    case Garbled(c) => Read(c) in s.tasks
    case Leave(c) => Read(c) in s.tasks
    case Hand(e) => Raise(e) in s.tasks
    case Take(e) => e in s.queue
    case Serve(e, rest, _) => Handle(e, rest) in s.tasks
    case Tick(_) => true
    case Answer(e) => Post(e) in s.tasks && e.c in s.watch
    case Writable(c) => c in s.watch && s.watch[c].Out?
    case Write(e) => Send(e) in s.tasks && e.c in s.sent && e.reply.Reply?
    case Fail(e) => Send(e) in s.tasks
    case Again(e) => Rearm(e) in s.tasks && e.c in s.watch
  }

  ghost function Swap<R, A>(ts: multiset<Task<R, A>>, t: Task<R, A>, u: Task<R, A>): multiset<Task<R, A>> {
    ts - multiset{t} + multiset{u}
  }

  /** epoll_mod: has no effect on a closed descriptor. */
  ghost function Arm<R, A>(w: map<Client, Watch<R, A>>, c: Client, to: Watch<R, A>): map<Client, Watch<R, A>>
    requires c in w
  {
    if w[c].Closed? then w else w[c := to]
  }

  /** How the descriptors are watched after a step: delivering an event disarms, epoll_add and epoll_mod arm. */
  ghost function WatchAfter<S, R, A>(s: State<S, R, A>, step: Step<R, A>): map<Client, Watch<R, A>>
    requires Enabled(s, step)
  {
    match step
    case Accept(c) => s.watch[c := In]
    case Ready(c) => s.watch[c := Off]
    case Hangup(c) => s.watch[c := Off]
    case Leave(c) => s.watch[c := Closed]
    case Answer(e) => Arm(s.watch, e.c, Out(e))
    case Writable(c) => s.watch[c := Off]
    case Fail(e) => s.watch[e.c := Closed]
    case Again(e) => Arm(s.watch, e.c, In)
    case _ => s.watch
  }

  ghost function AfterSection<R, A>(e: Event<R, A>, out: Outcome<R, A>): Task<R, A> {
    match out
    case Pauses(rest) => Handle(e, rest)
    case Replies(a) => Post(e.(reply := Reply(a)))
  }

  /** The tasks under way after a step. */
  ghost function TasksAfter<S, R, A>(h: Server<S, R, A>, s: State<S, R, A>, step: Step<R, A>): multiset<Task<R, A>>
    requires Enabled(s, step)
  {
    match step
    case Ready(c) => s.tasks + multiset{Read(c)}
    case Decode(c, r) => Swap(s.tasks, Read(c), Raise(Event(c, r, NoReply)))
    case Garbled(c) => s.tasks - multiset{Read(c)}
    case Leave(c) => s.tasks - multiset{Read(c)}
    case Hand(e) => s.tasks - multiset{Raise(e)}
    case Take(e) => s.tasks + multiset{Handle(e, e.req)}
    case Serve(e, rest, now) => Swap(s.tasks, Handle(e, rest), AfterSection(e, h.section(s.db, rest, now).1))
    case Answer(e) => s.tasks - multiset{Post(e)}
    case Writable(c) => s.tasks + multiset{Send(s.watch[c].e)}
    case Write(e) => Swap(s.tasks, Send(e), Rearm(e))
    case Fail(e) => Swap(s.tasks, Send(e), Rearm(e))
    case Again(e) => s.tasks - multiset{Rearm(e)}
    case _ => s.tasks
  }

  ghost function QueueAfter<S, R, A>(s: State<S, R, A>, step: Step<R, A>): multiset<Event<R, A>>
    requires Enabled(s, step)
  {
    match step
    case Hand(e) => s.queue + multiset{e}
    case Take(e) => s.queue - multiset{e}
    case _ => s.queue
  }

  ghost function DecodedAfter<S, R, A>(s: State<S, R, A>, step: Step<R, A>): map<Client, seq<R>>
    requires Enabled(s, step)
  {
    match step
    case Accept(c) => s.decoded[c := []]
    case Decode(c, r) => s.decoded[c := s.decoded[c] + [r]]
    case _ => s.decoded
  }

  ghost function SentAfter<S, R, A>(s: State<S, R, A>, step: Step<R, A>): map<Client, seq<A>>
    requires Enabled(s, step)
  {
    match step
    case Accept(c) => s.sent[c := []]
    case Write(e) => s.sent[e.c := s.sent[e.c] + [e.reply.a]]
    case _ => s.sent
  }

  ghost function EntryOf<S, R, A>(h: Server<S, R, A>, db: S, step: Step<R, A>): Entry<R, A>
    requires step.Serve? || step.Tick?
  {
    if step.Tick? then Ticked(step.now)
    else Ran(step.e.c, step.e.req, step.rest, step.now, h.section(db, step.rest, step.now).1)
  }

  ghost function LogAfter<S, R, A>(h: Server<S, R, A>, s: State<S, R, A>, step: Step<R, A>): seq<Entry<R, A>> {
    if step.Serve? || step.Tick? then s.log + [EntryOf(h, s.db, step)] else s.log
  }

  ghost function DbAfter<S, R, A>(h: Server<S, R, A>, s: State<S, R, A>, step: Step<R, A>): S {
    match step
    case Serve(_, rest, now) => h.section(s.db, rest, now).0
    case Tick(now) => h.expire(s.db, now)
    case _ => s.db
  }

  ghost function Apply<S, R, A>(h: Server<S, R, A>, s: State<S, R, A>, step: Step<R, A>): State<S, R, A>
    requires Enabled(s, step)
  {
    State(WatchAfter(s, step), TasksAfter(h, s, step), QueueAfter(s, step),
          DbAfter(h, s, step), LogAfter(h, s, step), DecodedAfter(s, step), SentAfter(s, step))
  }

  // ---------------------------------------------------------------- runs

  ghost function Initial<S, R, A>(db: S): State<S, R, A> {
    State(map[], multiset{}, multiset{}, db, [], map[], map[])
  }

  /** A run from the start of the server: every step is enabled where it is taken. */
  ghost predicate Runs<S, R, A>(h: Server<S, R, A>, db: S, steps: seq<Step<R, A>>)
    decreases |steps|, 0
  {
    steps == [] || (var n := |steps| - 1; Runs(h, db, steps[..n]) && Enabled(After(h, db, steps[..n]), steps[n]))
  }

  ghost function After<S, R, A>(h: Server<S, R, A>, db: S, steps: seq<Step<R, A>>): State<S, R, A>
    requires Runs(h, db, steps)
    decreases |steps|, 1
  {
    if steps == [] then Initial(db) else var n := |steps| - 1; Apply(h, After(h, db, steps[..n]), steps[n])
  }

  // ---------------------------------------------------------------- the one token of a client

  /** Where the one token of a client is. */
  datatype Phase<R, A> = Armed | Awaiting(e: Event<R, A>) | Doing(t: Task<R, A>) | Queued(e: Event<R, A>) | Lost

  type Phases<R, A> = map<Client, Phase<R, A>>

  ghost predicate Watches<R, A>(w: Watch<R, A>, p: Phase<R, A>) {
    match p
    case Armed => w == In
    case Awaiting(e) => w == Out(e)
    case Doing(t) => w == Off || (w == Closed && t.Rearm?)
    case Queued(_) => w == Off
    case Lost => w == Off || w == Closed
  }

  ghost predicate Mine<R, A>(c: Client, p: Phase<R, A>) {
    match p
    case Awaiting(e) => e.c == c
    case Doing(t) => ClientOf(t) == c
    case Queued(e) => e.c == c
    case _ => true
  }

  ghost function TaskOf<R, A>(p: Phase<R, A>): multiset<Task<R, A>> {
    if p.Doing? then multiset{p.t} else multiset{}
  }

  ghost function EventOf<R, A>(p: Phase<R, A>): multiset<Event<R, A>> {
    if p.Queued? then multiset{p.e} else multiset{}
  }

  /** Exactly the tasks of the phases are under way, each once. */
  ghost predicate TasksAre<R(!new), A(!new)>(tasks: multiset<Task<R, A>>, p: Phases<R, A>) {
    forall t :: tasks[t] == if ClientOf(t) in p && p[ClientOf(t)] == Doing(t) then 1 else 0
  }

  /** Exactly the events of the phases are queued, each once. */
  ghost predicate QueueIs<R(!new), A(!new)>(queue: multiset<Event<R, A>>, p: Phases<R, A>) {
    forall e :: queue[e] == if e.c in p && p[e.c] == Queued(e) then 1 else 0
  }

  ghost predicate WatchIs<R, A>(watch: map<Client, Watch<R, A>>, p: Phases<R, A>) {
    watch.Keys == p.Keys && forall c <- p :: Watches(watch[c], p[c]) && Mine(c, p[c])
  }

  /** The phases tell exactly which descriptors are armed, which tasks are under way and which events are queued. */
  ghost predicate Placed<S, R(!new), A(!new)>(s: State<S, R, A>, p: Phases<R, A>) {
    WatchIs(s.watch, p) && TasksAre(s.tasks, p) && QueueIs(s.queue, p)
  }

  lemma {:induction false} TasksMove<R(!new), A(!new)>(tasks: multiset<Task<R, A>>, p: Phases<R, A>, c: Client,
                                                       to: Phase<R, A>)
    requires TasksAre(tasks, p) && Mine(c, to) && (c in p ==> Mine(c, p[c]))
    ensures TasksAre(tasks - (if c in p then TaskOf(p[c]) else multiset{}) + TaskOf(to), p[c := to])
  {
  }

  lemma {:induction false} QueueMoves<R(!new), A(!new)>(queue: multiset<Event<R, A>>, p: Phases<R, A>, c: Client,
                                                        to: Phase<R, A>)
    requires QueueIs(queue, p) && Mine(c, to) && (c in p ==> Mine(c, p[c]))
    ensures QueueIs(queue - (if c in p then EventOf(p[c]) else multiset{}) + EventOf(to), p[c := to])
  {
  }

  /** The client a step other than a tick concerns and the phase it moves to. */
  ghost function Mover<S, R, A>(s: State<S, R, A>, step: Step<R, A>): Client
    requires !step.Tick?
  {
    match step
    case Accept(c) => c
    case Ready(c) => c
    case Hangup(c) => c
    case Decode(c, _) => c
    case Garbled(c) => c
    case Leave(c) => c
    case Writable(c) => c
    case Hand(e) => e.c
    case Take(e) => e.c
    case Serve(e, _, _) => e.c
    case Answer(e) => e.c
    case Write(e) => e.c
    case Fail(e) => e.c
    case Again(e) => e.c
  }

  ghost function Target<S, R, A>(h: Server<S, R, A>, s: State<S, R, A>, step: Step<R, A>): Phase<R, A>
    requires Enabled(s, step) && !step.Tick?
  {
    match step
    case Accept(c) => Armed
    case Ready(c) => Doing(Read(c))
    case Hangup(c) => Lost
    case Decode(c, r) => Doing(Raise(Event(c, r, NoReply)))
    case Garbled(c) => Lost
    case Leave(c) => Lost
    case Hand(e) => Queued(e)
    case Take(e) => Doing(Handle(e, e.req))
    case Serve(e, rest, now) => Doing(AfterSection(e, h.section(s.db, rest, now).1))
    case Answer(e) => Awaiting(e)
    case Writable(c) => Doing(Send(s.watch[c].e))
    case Write(e) => Doing(Rearm(e))
    case Fail(e) => Doing(Rearm(e))
    case Again(e) => if s.watch[e.c].Closed? then Lost else Armed
  }

  ghost function Moved<S, R, A>(h: Server<S, R, A>, s: State<S, R, A>, p: Phases<R, A>,
                                step: Step<R, A>): Phases<R, A>
    requires Enabled(s, step)
  {
    if step.Tick? then p else p[Mover(s, step) := Target(h, s, step)]
  }

  /** The phase a step takes its client from; a new client has none, which comes to the same as `Lost`. */
  ghost function Source<S, R, A>(s: State<S, R, A>, step: Step<R, A>): Phase<R, A>
    requires Enabled(s, step) && !step.Tick?
  {
    match step
    case Accept(_) => Lost
    case Ready(_) => Armed
    case Hangup(c) => if s.watch[c].In? then Armed else Awaiting(s.watch[c].e)
    case Decode(c, _) => Doing(Read(c))
    case Garbled(c) => Doing(Read(c))
    case Leave(c) => Doing(Read(c))
    case Hand(e) => Doing(Raise(e))
    case Take(e) => Queued(e)
    case Serve(e, rest, _) => Doing(Handle(e, rest))
    case Answer(e) => Doing(Post(e))
    case Writable(c) => Awaiting(s.watch[c].e)
    case Write(e) => Doing(Send(e))
    case Fail(e) => Doing(Send(e))
    case Again(e) => Doing(Rearm(e))
  }

  lemma {:induction false} ArmedBy<R, A>(w: Watch<R, A>, p: Phase<R, A>)
    requires Watches(w, p)
    ensures w.In? ==> p == Armed
    ensures w.Out? ==> p == Awaiting(w.e)
  {
  }

  lemma {:induction false} TaskBy<R(!new), A(!new)>(tasks: multiset<Task<R, A>>, p: Phases<R, A>, t: Task<R, A>)
    requires TasksAre(tasks, p) && t in tasks
    ensures ClientOf(t) in p && p[ClientOf(t)] == Doing(t)
  {
  }

  lemma {:induction false} SourceIs<S, R(!new), A(!new)>(s: State<S, R, A>, p: Phases<R, A>, step: Step<R, A>)
    requires Placed(s, p) && Enabled(s, step) && !step.Accept? && !step.Tick?
    ensures Mover(s, step) in p && p[Mover(s, step)] == Source(s, step)
  {
    match step
    case Ready(c) => ArmedBy(s.watch[c], p[c]);
    case Hangup(c) => ArmedBy(s.watch[c], p[c]);
    case Writable(c) => ArmedBy(s.watch[c], p[c]);
    case Decode(c, _) => TaskBy(s.tasks, p, Read(c));
    case Garbled(c) => TaskBy(s.tasks, p, Read(c));
    case Leave(c) => TaskBy(s.tasks, p, Read(c));
    case Hand(e) => TaskBy(s.tasks, p, Raise(e));
    case Take(e) => assert s.queue[e] > 0;
    case Serve(e, rest, _) => TaskBy(s.tasks, p, Handle(e, rest));
    case Answer(e) => TaskBy(s.tasks, p, Post(e));
    case Write(e) => TaskBy(s.tasks, p, Send(e));
    case Fail(e) => TaskBy(s.tasks, p, Send(e));
    case Again(e) => TaskBy(s.tasks, p, Rearm(e));
  }

  lemma {:induction false} TasksApplied<S, R, A>(h: Server<S, R, A>, s: State<S, R, A>, step: Step<R, A>)
    requires Enabled(s, step) && !step.Tick?
    ensures TasksAfter(h, s, step) == s.tasks - TaskOf(Source(s, step)) + TaskOf(Target(h, s, step))
  {
    if step.Accept? || step.Hangup? {
      assert TaskOf(Source(s, step)) == TaskOf(Target(h, s, step)) == multiset{};
    }
  }

  lemma {:induction false} QueueApplied<S, R, A>(h: Server<S, R, A>, s: State<S, R, A>, step: Step<R, A>)
    requires Enabled(s, step) && !step.Tick?
    ensures QueueAfter(s, step) == s.queue - EventOf(Source(s, step)) + EventOf(Target(h, s, step))
  {
    if step.Hand? || step.Take? {
    } else {
      assert EventOf(Source(s, step)) == EventOf(Target(h, s, step)) == multiset{};
    }
  }

  ghost predicate SameElsewhere<R, A>(w: map<Client, Watch<R, A>>, w': map<Client, Watch<R, A>>, c: Client) {
    w'.Keys == w.Keys + {c} && forall d <- w :: d != c ==> w'[d] == w[d]
  }

  /** Only the mover's watch changes ... */
  lemma {:induction false} OthersWatched<S, R, A>(s: State<S, R, A>, step: Step<R, A>)
    requires Enabled(s, step) && !step.Tick? && (!step.Accept? ==> Mover(s, step) in s.watch)
    ensures SameElsewhere(s.watch, WatchAfter(s, step), Mover(s, step))
  {
  }

  lemma {:induction false} WatchMoves<R, A>(w: map<Client, Watch<R, A>>, w': map<Client, Watch<R, A>>,
                                            p: Phases<R, A>, c: Client, to: Phase<R, A>)
    requires WatchIs(w, p) && SameElsewhere(w, w', c) && Watches(w'[c], to) && Mine(c, to)
    ensures WatchIs(w', p[c := to])
  {
  }

  /** ... to one that fits its new phase. */
  lemma {:induction false} MoverWatched<S, R, A>(h: Server<S, R, A>, s: State<S, R, A>, step: Step<R, A>)
    requires Enabled(s, step) && !step.Tick? && Mine(Mover(s, step), Source(s, step))
    requires !step.Accept? ==> Mover(s, step) in s.watch && Watches(s.watch[Mover(s, step)], Source(s, step))
    ensures Mover(s, step) in WatchAfter(s, step)
    ensures Watches(WatchAfter(s, step)[Mover(s, step)], Target(h, s, step)) && Mine(Mover(s, step), Target(h, s, step))
  {
  }

  lemma {:induction false} WatchKept<S, R(!new), A(!new)>(h: Server<S, R, A>, s: State<S, R, A>, p: Phases<R, A>,
                                                          step: Step<R, A>)
    requires Placed(s, p) && Enabled(s, step) && !step.Tick?
    ensures WatchIs(WatchAfter(s, step), Moved(h, s, p, step)) && Mine(Mover(s, step), Target(h, s, step))
  {
    if !step.Accept? {
      SourceIs(s, p, step);
    }
    OthersWatched(s, step);
    MoverWatched(h, s, step);
    WatchMoves(s.watch, WatchAfter(s, step), p, Mover(s, step), Target(h, s, step));
  }

  lemma {:induction false} TokensKept<S, R(!new), A(!new)>(h: Server<S, R, A>, s: State<S, R, A>, p: Phases<R, A>,
                                                           step: Step<R, A>)
    requires Placed(s, p) && Enabled(s, step) && !step.Tick? && Mine(Mover(s, step), Target(h, s, step))
    ensures TasksAre(TasksAfter(h, s, step), Moved(h, s, p, step)) && QueueIs(QueueAfter(s, step), Moved(h, s, p, step))
  {
    var c, to := Mover(s, step), Target(h, s, step);
    if !step.Accept? {
      SourceIs(s, p, step);
    }
    TasksApplied(h, s, step);
    TasksMove(s.tasks, p, c, to);
    QueueApplied(h, s, step);
    QueueMoves(s.queue, p, c, to);
  }

  /** Every step keeps every client's token single: it moves the token of one client from one place to another. */
  lemma {:induction false} PlacedKept<S, R(!new), A(!new)>(h: Server<S, R, A>, s: State<S, R, A>, p: Phases<R, A>,
                                                           step: Step<R, A>)
    requires Placed(s, p) && Enabled(s, step)
    ensures Placed(Apply(h, s, step), Moved(h, s, p, step))
  {
    if !step.Tick? {
      WatchKept(h, s, p, step);
      TokensKept(h, s, p, step);
    }
  }

  // ---------------------------------------------------------------- histories

  ghost predicate Ends<R, A>(x: Entry<R, A>, c: Client) {
    x.Ran? && x.c == c && x.out.Replies?
  }

  /** The requests of one client that the handlers have served, and the replies, in order. */
  ghost function Served<R, A>(log: seq<Entry<R, A>>, c: Client): seq<R> {
    if log == [] then []
    else var n := |log| - 1; Served(log[..n], c) + if Ends(log[n], c) then [log[n].req] else []
  }

  ghost function Answers<R, A>(log: seq<Entry<R, A>>, c: Client): seq<A> {
    if log == [] then []
    else var n := |log| - 1; Answers(log[..n], c) + if Ends(log[n], c) then [log[n].out.a] else []
  }

  /** The request of a client that a handler is in the middle of, and what is left of it. */
  datatype Left<R> = Nothing | Left(req: R, rest: R)

  ghost function LeftBy<R, A>(log: seq<Entry<R, A>>, c: Client): Left<R> {
    if log == [] then Nothing
    else var x := log[|log| - 1];
      if x.Ran? && x.c == c then (if x.out.Pauses? then Left(x.req, x.out.rest) else Nothing)
      else LeftBy(log[..|log| - 1], c)
  }

  /** A handler goes on where its last section paused, and otherwise starts on the whole request. */
  ghost predicate Resumes<R>(l: Left<R>, req: R, rest: R) {
    match l
    case Nothing => rest == req
    case Left(q, left) => q == req && left == rest
  }

  /** The database after the sections and ticks of the log, one after the other. */
  ghost function Folded<S, R, A>(h: Server<S, R, A>, db: S, log: seq<Entry<R, A>>): S {
    if log == [] then db else
      var n := |log| - 1;
      var before := Folded(h, db, log[..n]);
      match log[n]
      case Ran(_, _, rest, now, _) => h.section(before, rest, now).0
      case Ticked(now) => h.expire(before, now)
  }

  /** An entry at its place: a section does to the database before it what the handler does at that time, and it takes
      up its request where the client's section before it left off. */
  ghost predicate InPlace<S, R, A>(h: Server<S, R, A>, before: S, l: Left<R>, x: Entry<R, A>)
  {
    x.Ran? ==> x.out == h.section(before, x.rest, x.now).1 && Resumes(l, x.req, x.rest)
  }

  ghost function LeftFor<R, A>(log: seq<Entry<R, A>>, x: Entry<R, A>): Left<R> {
    if x.Ran? then LeftBy(log, x.c) else Nothing
  }

  ghost predicate Sequential<S, R, A>(h: Server<S, R, A>, db: S, log: seq<Entry<R, A>>) {
    log == [] || (var n := |log| - 1;
                  Sequential(h, db, log[..n]) && InPlace(h, Folded(h, db, log[..n]), LeftFor(log[..n], log[n]), log[n]))
  }

  /** A request has been decoded and not yet served. */
  ghost predicate Pending<R, A>(p: Phase<R, A>) {
    p.Queued? || (p.Doing? && (p.t.Raise? || p.t.Handle?))
  }

  /** A reply has been computed and not yet sent. */
  ghost predicate Answered<R, A>(p: Phase<R, A>) {
    p.Awaiting? || (p.Doing? && (p.t.Post? || p.t.Send?))
  }

  ghost function EventAt<R, A>(p: Phase<R, A>): Event<R, A>
    requires Pending(p) || Answered(p)
  {
    if p.Doing? then p.t.e else p.e
  }

  /** What has been done of the requests of one client. */
  datatype Done<R, A> = Done(reqs: seq<R>, answers: seq<A>, left: Left<R>)

  ghost function DoneIn<R, A>(log: seq<Entry<R, A>>, c: Client): Done<R, A> {
    Done(Served(log, c), Answers(log, c), LeftBy(log, c))
  }

  /** How what was decoded and what was sent stand to what was served, in a phase. */
  ghost predicate Balanced<R, A>(decoded: seq<R>, sent: seq<A>, d: Done<R, A>, p: Phase<R, A>, closed: bool) {
    && (if p.Doing? && p.t.Handle? then Resumes(d.left, p.t.e.req, p.t.rest) else d.left == Nothing)
    && if Pending(p) then decoded == d.reqs + [EventAt(p).req] && sent == d.answers
       else if Answered(p) then
         decoded == d.reqs && EventAt(p).reply.Reply? && d.answers == sent + [EventAt(p).reply.a]
       else if p.Lost? || closed then decoded == d.reqs && sent <= d.answers && |d.answers| <= |sent| + 1
       else decoded == d.reqs && sent == d.answers
  }

  ghost predicate BalancedAt<S, R, A>(s: State<S, R, A>, p: Phases<R, A>, c: Client)
    requires c in p && c in s.watch && c in s.decoded && c in s.sent
  {
    Balanced(s.decoded[c], s.sent[c], DoneIn(s.log, c), p[c], s.watch[c].Closed?)
  }

  ghost predicate Known<S, R, A>(s: State<S, R, A>, p: Phases<R, A>) {
    s.watch.Keys == p.Keys == s.decoded.Keys == s.sent.Keys
  }

  /** What every step keeps. */
  ghost predicate Inv<S, R(!new), A(!new)>(h: Server<S, R, A>, db: S, s: State<S, R, A>, p: Phases<R, A>) {
    && Placed(s, p) && Known(s, p)
    && (forall c {:trigger BalancedAt(s, p, c)} :: c in p ==> BalancedAt(s, p, c))
    && Logged(s.log, p) && Sequential(h, db, s.log) && s.db == Folded(h, db, s.log)
  }

  ghost predicate Logged<R, A>(log: seq<Entry<R, A>>, p: Phases<R, A>) {
    forall i :: 0 <= i < |log| ==> log[i].Ran? ==> log[i].c in p
  }

  ghost function Gains<R, A>(d: Done<R, A>, x: Entry<R, A>, c: Client): Done<R, A> {
    if !x.Ran? || x.c != c then d
    else match x.out
      case Pauses(rest) => Done(d.reqs, d.answers, Left(x.req, rest))
      case Replies(a) => Done(d.reqs + [x.req], d.answers + [a], Nothing)
  }

  lemma {:induction false} LogGrows<R, A>(log: seq<Entry<R, A>>, x: Entry<R, A>, c: Client)
    ensures DoneIn(log + [x], c) == Gains(DoneIn(log, c), x, c)
  {
    assert (log + [x])[..|log|] == log;
  }

  lemma {:induction false} LogElsewhere<S, R, A>(h: Server<S, R, A>, s: State<S, R, A>, step: Step<R, A>, c: Client)
    requires Enabled(s, step) && (!step.Tick? ==> c != Mover(s, step))
    ensures DoneIn(LogAfter(h, s, step), c) == DoneIn(s.log, c)
  {
    if step.Serve? || step.Tick? {
      LogGrows(s.log, EntryOf(h, s.db, step), c);
    }
  }

  lemma {:induction false} HistoryElsewhere<S, R, A>(s: State<S, R, A>, step: Step<R, A>, c: Client)
    requires Enabled(s, step) && !step.Tick? && c != Mover(s, step) && c in s.decoded && c in s.sent
    ensures c in DecodedAfter(s, step) && DecodedAfter(s, step)[c] == s.decoded[c]
    ensures c in SentAfter(s, step) && SentAfter(s, step)[c] == s.sent[c]
  {
  }

  /** A client that does not move keeps its balance. */
  lemma {:induction false} StillBalanced<S, R(!new), A(!new)>(h: Server<S, R, A>, s: State<S, R, A>, p: Phases<R, A>,
                                                              step: Step<R, A>, c: Client)
    requires Known(s, p) && Enabled(s, step) && !step.Tick? && c in p && c != Mover(s, step) && BalancedAt(s, p, c)
    requires SameElsewhere(s.watch, WatchAfter(s, step), Mover(s, step))
    ensures c in WatchAfter(s, step) && c in DecodedAfter(s, step) && c in SentAfter(s, step)
    ensures BalancedAt(Apply(h, s, step), Moved(h, s, p, step), c)
  {
    LogElsewhere(h, s, step, c);
    HistoryElsewhere(s, step, c);
  }

  /** The step itself turns the mover's balance into that of its new phase. */
  lemma {:induction false} MoverBalanced<S, R(!new), A(!new)>(h: Server<S, R, A>, s: State<S, R, A>,
          step: Step<R, A>)
    requires Enabled(s, step) && !step.Tick? && !step.Accept?
    requires var c := Mover(s, step);
      && c in s.watch && c in s.decoded && c in s.sent
      && Balanced(s.decoded[c], s.sent[c], DoneIn(s.log, c), Source(s, step), s.watch[c].Closed?)
      && Watches(s.watch[c], Source(s, step)) && Mine(c, Source(s, step))
    ensures var c := Mover(s, step);
      && c in WatchAfter(s, step) && c in DecodedAfter(s, step) && c in SentAfter(s, step)
      && Balanced(DecodedAfter(s, step)[c], SentAfter(s, step)[c], DoneIn(LogAfter(h, s, step), c),
                  Target(h, s, step), WatchAfter(s, step)[c].Closed?)
  {
    if step.Serve? {
      LogGrows(s.log, EntryOf(h, s.db, step), step.e.c);
    }
  }

  lemma {:induction false} NoneServed<R, A>(log: seq<Entry<R, A>>, c: Client)
    requires forall i :: 0 <= i < |log| ==> log[i].Ran? ==> log[i].c != c
    ensures DoneIn(log, c) == Done([], [], Nothing)
  {
    if log != [] {
      NoneServed(log[..|log| - 1], c);
    }
  }

  lemma {:induction false} LogKept<S, R(!new), A(!new)>(h: Server<S, R, A>, db: S, s: State<S, R, A>, p: Phases<R, A>,
                                                        step: Step<R, A>)
    requires Inv(h, db, s, p) && Enabled(s, step)
    ensures Logged(LogAfter(h, s, step), Moved(h, s, p, step)) && Sequential(h, db, LogAfter(h, s, step))
    ensures DbAfter(h, s, step) == Folded(h, db, LogAfter(h, s, step))
  {
    if step.Serve? {
      SourceIs(s, p, step);
      assert BalancedAt(s, p, step.e.c);
    }
    if step.Serve? || step.Tick? {
      LogExtends(h, db, s.log, EntryOf(h, s.db, step));
    }
  }

  lemma {:induction false} LogExtends<S, R, A>(h: Server<S, R, A>, db: S, log: seq<Entry<R, A>>, x: Entry<R, A>)
    requires Sequential(h, db, log) && InPlace(h, Folded(h, db, log), LeftFor(log, x), x)
    ensures Sequential(h, db, log + [x])
    ensures Folded(h, db, log + [x]) == if x.Ran? then h.section(Folded(h, db, log), x.rest, x.now).0
                                        else h.expire(Folded(h, db, log), x.now)
  {
    assert (log + [x])[..|log|] == log;
  }

  lemma {:induction false} MoverKept<S, R(!new), A(!new)>(h: Server<S, R, A>, db: S, s: State<S, R, A>,
                                                          p: Phases<R, A>,
                                                          step: Step<R, A>)
    requires Inv(h, db, s, p) && Enabled(s, step) && !step.Tick?
    ensures var m := Mover(s, step); m in WatchAfter(s, step) && m in DecodedAfter(s, step) && m in SentAfter(s, step)
    ensures BalancedAt(Apply(h, s, step), Moved(h, s, p, step), Mover(s, step))
  {
    if step.Accept? {
      NoneServed(s.log, step.c);
    } else {
      SourceIs(s, p, step);
      assert BalancedAt(s, p, Mover(s, step));
      MoverBalanced(h, s, step);
    }
  }

  lemma {:induction false} MovesWatched<S, R(!new), A(!new)>(s: State<S, R, A>, p: Phases<R, A>, step: Step<R, A>)
    requires Placed(s, p) && Enabled(s, step) && !step.Tick?
    ensures SameElsewhere(s.watch, WatchAfter(s, step), Mover(s, step))
    ensures !step.Accept? ==> Mover(s, step) in s.watch
  {
    if !step.Accept? {
      SourceIs(s, p, step);
    }
    OthersWatched(s, step);
  }

  lemma {:induction false} AddedKey<K, V>(m: map<K, V>, k: K, v: V)
    ensures m[k := v].Keys == m.Keys + {k}
  {
  }

  lemma {:induction false} KnownKept<S, R, A>(h: Server<S, R, A>, s: State<S, R, A>, p: Phases<R, A>,
                                              step: Step<R, A>)
    requires Known(s, p) && Enabled(s, step) && !step.Tick?
    requires SameElsewhere(s.watch, WatchAfter(s, step), Mover(s, step))
    requires !step.Accept? ==> Mover(s, step) in s.watch
    ensures Known(Apply(h, s, step), Moved(h, s, p, step))
  {
    KeysKept(s, step);
    AddedKey(p, Mover(s, step), Target(h, s, step));
  }

  lemma {:induction false} HistoriesKept<S, R(!new), A(!new)>(h: Server<S, R, A>, db: S, s: State<S, R, A>,
                                                              p: Phases<R, A>, step: Step<R, A>)
    requires Inv(h, db, s, p) && Enabled(s, step) && !step.Tick?
    ensures Known(Apply(h, s, step), Moved(h, s, p, step))
    ensures forall c {:trigger BalancedAt(Apply(h, s, step), Moved(h, s, p, step), c)} ::
              c in Moved(h, s, p, step) ==> BalancedAt(Apply(h, s, step), Moved(h, s, p, step), c)
  {
    MovesWatched(s, p, step);
    KnownKept(h, s, p, step);
    forall c | c in Moved(h, s, p, step)
      ensures BalancedAt(Apply(h, s, step), Moved(h, s, p, step), c)
    {
      if c == Mover(s, step) {
        MoverKept(h, db, s, p, step);
      } else {
        assert BalancedAt(s, p, c);
        StillBalanced(h, s, p, step, c);
      }
    }
  }

  lemma {:induction false} KeysKept<S, R, A>(s: State<S, R, A>, step: Step<R, A>)
    requires Enabled(s, step) && !step.Tick? && s.watch.Keys == s.decoded.Keys == s.sent.Keys
    requires !step.Accept? ==> Mover(s, step) in s.watch
    ensures DecodedAfter(s, step).Keys == SentAfter(s, step).Keys == s.watch.Keys + {Mover(s, step)}
  {
  }

  /** A tick concerns no client. */
  lemma {:induction false} TickBalanced<S, R(!new), A(!new)>(h: Server<S, R, A>, s: State<S, R, A>, p: Phases<R, A>,
                                                             step: Step<R, A>)
    requires Known(s, p) && Enabled(s, step) && step.Tick?
    requires forall c {:trigger BalancedAt(s, p, c)} :: c in p ==> BalancedAt(s, p, c)
    ensures forall c {:trigger BalancedAt(Apply(h, s, step), p, c)} :: c in p ==> BalancedAt(Apply(h, s, step), p, c)
  {
    forall c | c in p
      ensures BalancedAt(Apply(h, s, step), p, c)
    {
      assert BalancedAt(s, p, c);
      LogElsewhere(h, s, step, c);
    }
  }

  lemma {:induction false} InvKept<S, R(!new), A(!new)>(h: Server<S, R, A>, db: S, s: State<S, R, A>,
                                                        p: Phases<R, A>,
                                                        step: Step<R, A>)
    requires Inv(h, db, s, p) && Enabled(s, step)
    ensures Inv(h, db, Apply(h, s, step), Moved(h, s, p, step))
  {
    PlacedKept(h, s, p, step);
    LogKept(h, db, s, p, step);
    if step.Tick? {
      TickBalanced(h, s, p, step);
    } else {
      HistoriesKept(h, db, s, p, step);
    }
  }

  ghost function PhasesAfter<S, R, A>(h: Server<S, R, A>, db: S, steps: seq<Step<R, A>>): Phases<R, A>
    requires Runs(h, db, steps)
  {
    if steps == [] then map[]
    else var n := |steps| - 1; Moved(h, After(h, db, steps[..n]), PhasesAfter(h, db, steps[..n]), steps[n])
  }

  /** The invariant holds after every run. */
  lemma {:induction false} Invariant<S, R(!new), A(!new)>(h: Server<S, R, A>, db: S, steps: seq<Step<R, A>>)
    requires Runs(h, db, steps)
    ensures Inv(h, db, After(h, db, steps), PhasesAfter(h, db, steps))
  {
    if steps != [] {
      var n := |steps| - 1;
      Invariant(h, db, steps[..n]);
      InvKept(h, db, After(h, db, steps[..n]), PhasesAfter(h, db, steps[..n]), steps[n]);
    }
  }

  // ---------------------------------------------------------------- what a client sees

  /** At most one thing is under way for the client, and while it is, its descriptor is not armed for reading. */
  ghost predicate OneInFlight<S, R(!new), A(!new)>(s: State<S, R, A>, c: Client) {
    && (forall t, u :: t in s.tasks && u in s.tasks && ClientOf(t) == ClientOf(u) == c ==> t == u && s.tasks[t] == 1)
    && (forall e, f :: e in s.queue && f in s.queue && e.c == f.c == c ==> e == f && s.queue[e] == 1)
    && (forall t, e :: t in s.tasks && ClientOf(t) == c && e in s.queue ==> e.c != c)
    && (forall t :: t in s.tasks && ClientOf(t) == c ==> c in s.watch && !s.watch[c].In? && !s.watch[c].Out?)
    && (forall e :: e in s.queue && e.c == c ==> c in s.watch && !s.watch[c].In? && !s.watch[c].Out?)
  }

  /** In every run, every client has at most one request in flight. */
  lemma {:induction false} AlwaysOneInFlight<S, R(!new), A(!new)>(h: Server<S, R, A>, db: S, steps: seq<Step<R, A>>,
                                                                  c: Client)
    requires Runs(h, db, steps)
    ensures OneInFlight(After(h, db, steps), c)
  {
    Invariant(h, db, steps);
    PlacedIsOne(After(h, db, steps), PhasesAfter(h, db, steps), c);
  }

  lemma {:induction false} PlacedIsOne<S, R(!new), A(!new)>(s: State<S, R, A>, p: Phases<R, A>, c: Client)
    requires Placed(s, p)
    ensures OneInFlight(s, c)
  {
  }

  /** In every run, the k-th reply sent to a client is the one its handler computed for the client's k-th decoded
      request; every section of a handler had its effect and its outcome on the database as the sections and ticks
      before it in the log left it; and of the decoded requests at most one has not been answered by its handler, and of
      the handlers' replies at most one has not been sent. */
  lemma {:induction false} RepliesInOrder<S, R(!new), A(!new)>(h: Server<S, R, A>, db: S, steps: seq<Step<R, A>>,
          c: Client)
    requires Runs(h, db, steps) && c in After(h, db, steps).watch
    ensures var s := After(h, db, steps);
      && c in s.sent && c in s.decoded && s.sent[c] <= Answers(s.log, c) && Served(s.log, c) <= s.decoded[c]
      && |Answers(s.log, c)| == |Served(s.log, c)| && |s.decoded[c]| <= |s.sent[c]| + 1
      && Sequential(h, db, s.log) && s.db == Folded(h, db, s.log)
  {
    Invariant(h, db, steps);
    var s, p := After(h, db, steps), PhasesAfter(h, db, steps);
    assert BalancedAt(s, p, c);
    SameLength(s.log, c);
  }

  lemma {:induction false} SameLength<R, A>(log: seq<Entry<R, A>>, c: Client)
    ensures |Answers(log, c)| == |Served(log, c)|
  {
    if log != [] {
      SameLength(log[..|log| - 1], c);
    }
  }

  /** The handler of the request is a single section. */
  ghost predicate Whole<S(!new), R, A>(h: Server<S, R, A>, req: R) {
    forall db, now :: h.section(db, req, now).1.Replies?
  }

  lemma {:induction false} NeverLeft<S(!new), R, A>(h: Server<S, R, A>, db: S, log: seq<Entry<R, A>>, c: Client)
    requires Sequential(h, db, log)
    ensures LeftBy(log, c).Left? ==> !Whole(h, LeftBy(log, c).req)
  {
    if log != [] {
      var n := |log| - 1;
      NeverLeft(h, db, log[..n], c);
      if log[n].Ran? && log[n].c == c && log[n].out.Pauses? && log[n].rest == log[n].req {
        assert h.section(Folded(h, db, log[..n]), log[n].req, log[n].now).1.Pauses?;
      }
    }
  }

  /** A request whose handler is a single section is answered as if it ran alone at its place in the log: on the
      database that the sections and ticks before it left. */
  lemma {:induction false} WholeAtOnce<S(!new), R, A>(h: Server<S, R, A>, db: S, log: seq<Entry<R, A>>, i: nat)
    requires Sequential(h, db, log) && i < |log| && log[i].Ran? && Whole(h, log[i].req)
    ensures log[i].rest == log[i].req
    ensures log[i].out.Replies? && log[i].out == h.section(Folded(h, db, log[..i]), log[i].req, log[i].now).1
  {
    if i == |log| - 1 {
      NeverLeft(h, db, log[..i], log[i].c);
    } else {
      var shorter := log[..|log| - 1];
      assert shorter[..i] == log[..i];
      WholeAtOnce(h, db, shorter, i);
    }
  }

  ghost predicate GoesOn<S, R(!new), A>(s: State<S, R, A>, t: Task<R, A>) {
    match t
    case Read(c) => Enabled(s, Garbled(c)) && Enabled(s, Leave(c)) && forall r :: Enabled(s, Decode(c, r))
    case Raise(e) => Enabled(s, Hand(e))
    case Handle(e, rest) => forall now :: Enabled(s, Serve(e, rest, now))
    case Post(e) => Enabled(s, Answer(e))
    case Send(e) => Enabled(s, Write(e)) && Enabled(s, Fail(e))
    case Rearm(e) => Enabled(s, Again(e))
  }

  lemma {:induction false} PlacedGoesOn<S, R(!new), A(!new)>(s: State<S, R, A>, p: Phases<R, A>, t: Task<R, A>)
    requires Known(s, p) && t in s.tasks && ClientOf(t) in p && p[ClientOf(t)] == Doing(t)
    requires BalancedAt(s, p, ClientOf(t))
    ensures GoesOn(s, t)
  {
  }

  /** In every run, whatever is under way can go on: no task finds its client unknown or its reply missing. */
  lemma {:induction false} NothingStuck<S, R(!new), A(!new)>(h: Server<S, R, A>, db: S, steps: seq<Step<R, A>>,
          t: Task<R, A>)
    requires Runs(h, db, steps) && t in After(h, db, steps).tasks
    ensures GoesOn(After(h, db, steps), t)
  {
    Invariant(h, db, steps);
    var s, p := After(h, db, steps), PhasesAfter(h, db, steps);
    TaskBy(s.tasks, p, t);
    assert BalancedAt(s, p, ClientOf(t));
    PlacedGoesOn(s, p, t);
  }

  /** In every state, whatever waits can be picked up: a queued event by a worker, an armed descriptor by an IO thread,
      a new client by accept_loop, the timer at any time. */
  lemma NothingWaitsForever<S, R, A>(s: State<S, R, A>, c: Client, e: Event<R, A>, now: int)
    ensures e in s.queue ==> Enabled(s, Take(e))
    ensures c in s.watch && s.watch[c].In? ==> Enabled(s, Ready(c)) && Enabled(s, Hangup(c))
    ensures c in s.watch && s.watch[c].Out? ==> Enabled(s, Writable(c)) && Enabled(s, Hangup(c))
    ensures c !in s.watch ==> Enabled(s, Accept(c))
    ensures Enabled(s, Tick(now))
  {
  }

  lemma {:induction false} RunsOn<S, R, A>(h: Server<S, R, A>, db: S, run: seq<Step<R, A>>, s: Step<R, A>)
    requires Runs(h, db, run) && Enabled(After(h, db, run), s)
    ensures Runs(h, db, run + [s]) && After(h, db, run + [s]) == Apply(h, After(h, db, run), s)
  {
    assert (run + [s])[..|run|] == run;
  }

  /** The run ends in the state s. */
  ghost predicate EndsIn<S, R, A>(h: Server<S, R, A>, db: S, run: seq<Step<R, A>>, s: State<S, R, A>) {
    Runs(h, db, run) && After(h, db, run) == s
  }

  lemma {:induction false} GoOn<S, R, A>(h: Server<S, R, A>, db: S, run: seq<Step<R, A>>, s: State<S, R, A>,
                                         x: Step<R, A>, s': State<S, R, A>) returns (on: seq<Step<R, A>>)
    requires EndsIn(h, db, run, s) && Enabled(s, x) && Apply(h, s, x) == s'
    ensures run <= on && EndsIn(h, db, on, s')
  {
    RunsOn(h, db, run, x);
    on := run + [x];
  }

  /** The IO thread that has decoded a request hands it over ... */
  lemma {:induction false} HandIs<S, R, A>(h: Server<S, R, A>, s: State<S, R, A>, ts: multiset<Task<R, A>>,
                                           e: Event<R, A>)
    requires s.tasks == ts + multiset{Raise(e)}
    ensures Enabled(s, Hand(e)) && Apply(h, s, Hand(e)) == s.(tasks := ts, queue := s.queue + multiset{e})
  {
    assert s.tasks - multiset{Raise(e)} == ts;
  }

  /** ... a worker takes it ... */
  lemma {:induction false} TakeIs<S, R, A>(h: Server<S, R, A>, s: State<S, R, A>, q: multiset<Event<R, A>>,
                                           e: Event<R, A>)
    requires s.queue == q + multiset{e}
    ensures Enabled(s, Take(e))
    ensures Apply(h, s, Take(e)) == s.(tasks := s.tasks + multiset{Handle(e, e.req)}, queue := q)
  {
    assert s.queue - multiset{e} == q;
  }

  /** The state after the handler of e, in one section, has given the reply a; ts are the other tasks. */
  ghost function Replied<S, R, A>(h: Server<S, R, A>, s: State<S, R, A>, ts: multiset<Task<R, A>>, e: Event<R, A>,
                                  now: int, a: A): State<S, R, A> {
    s.(tasks := ts + multiset{Post(e.(reply := Reply(a)))}, db := h.section(s.db, e.req, now).0,
       log := s.log + [Ran(e.c, e.req, e.req, now, Outcome.Replies(a))])
  }

  /** ... handles it ... */
  lemma {:induction false} ServeIs<S, R, A>(h: Server<S, R, A>, s: State<S, R, A>, ts: multiset<Task<R, A>>,
                                            e: Event<R, A>, now: int, a: A)
    requires s.tasks == ts + multiset{Handle(e, e.req)} && h.section(s.db, e.req, now).1 == Outcome.Replies(a)
    ensures Enabled(s, Serve(e, e.req, now)) && Apply(h, s, Serve(e, e.req, now)) == Replied(h, s, ts, e, now, a)
  {
    assert s.tasks - multiset{Handle(e, e.req)} == ts;
  }

  /** ... and arms the client's descriptor for writing. */
  lemma {:induction false} AnswerIs<S, R, A>(h: Server<S, R, A>, s: State<S, R, A>, ts: multiset<Task<R, A>>,
                                             e: Event<R, A>)
    requires s.tasks == ts + multiset{Post(e)} && e.c in s.watch && !s.watch[e.c].Closed?
    ensures Enabled(s, Answer(e)) && Apply(h, s, Answer(e)) == s.(tasks := ts, watch := s.watch[e.c := Out(e)])
  {
    assert s.tasks - multiset{Post(e)} == ts;
  }

  /** An IO thread finds it writable ... */
  lemma {:induction false} WritableIs<S, R, A>(h: Server<S, R, A>, s: State<S, R, A>, e: Event<R, A>)
    requires e.c in s.watch && s.watch[e.c] == Out(e)
    ensures Enabled(s, Writable(e.c))
    ensures Apply(h, s, Writable(e.c)) == s.(tasks := s.tasks + multiset{Send(e)}, watch := s.watch[e.c := Off])
  {
  }

  /** ... sends the reply ... */
  lemma {:induction false} WriteIs<S, R, A>(h: Server<S, R, A>, s: State<S, R, A>, ts: multiset<Task<R, A>>,
                                            e: Event<R, A>)
    requires s.tasks == ts + multiset{Send(e)} && e.c in s.sent && e.reply.Reply?
    ensures Enabled(s, Write(e))
    ensures Apply(h, s, Write(e)) ==
            s.(tasks := ts + multiset{Rearm(e)}, sent := s.sent[e.c := s.sent[e.c] + [e.reply.a]])
  {
    assert s.tasks - multiset{Send(e)} == ts;
  }

  /** ... and arms it for reading. */
  lemma {:induction false} AgainIs<S, R, A>(h: Server<S, R, A>, s: State<S, R, A>, ts: multiset<Task<R, A>>,
                                            e: Event<R, A>)
    requires s.tasks == ts + multiset{Rearm(e)} && e.c in s.watch && !s.watch[e.c].Closed?
    ensures Enabled(s, Again(e)) && Apply(h, s, Again(e)) == s.(tasks := ts, watch := s.watch[e.c := In])
  {
    assert s.tasks - multiset{Rearm(e)} == ts;
  }

  lemma {:induction false} ToReply<S, R, A>(h: Server<S, R, A>, db: S, run: seq<Step<R, A>>, s: State<S, R, A>,
                                            ts: multiset<Task<R, A>>, e: Event<R, A>, now: int, a: A)
    returns (on: seq<Step<R, A>>)
    requires EndsIn(h, db, run, s) && s.tasks == ts + multiset{Raise(e)}
    requires h.section(s.db, e.req, now).1 == Outcome.Replies(a)
    ensures run <= on && EndsIn(h, db, on, Replied(h, s, ts, e, now, a))
  {
    var s1, s2 := s.(tasks := ts, queue := s.queue + multiset{e}), s.(tasks := ts + multiset{Handle(e, e.req)});
    HandIs(h, s, ts, e);
    on := GoOn(h, db, run, s, Hand(e), s1);
    TakeIs(h, s1, s.queue, e);
    on := GoOn(h, db, on, s1, Take(e), s2);
    ServeIs(h, s2, ts, e, now, a);
    on := GoOn(h, db, on, s2, Serve(e, e.req, now), Replied(h, s2, ts, e, now, a));
  }

  lemma {:induction false} ToWritable<S, R, A>(h: Server<S, R, A>, db: S, run: seq<Step<R, A>>, s: State<S, R, A>,
                                               ts: multiset<Task<R, A>>, e: Event<R, A>)
    returns (on: seq<Step<R, A>>)
    requires EndsIn(h, db, run, s) && s.tasks == ts + multiset{Post(e)} && e.c in s.watch && s.watch[e.c].Off?
    ensures run <= on && EndsIn(h, db, on, s.(tasks := ts + multiset{Send(e)}))
  {
    var s1 := s.(tasks := ts, watch := s.watch[e.c := Out(e)]);
    AnswerIs(h, s, ts, e);
    on := GoOn(h, db, run, s, Answer(e), s1);
    WritableIs(h, s1, e);
    SetBack(s.watch, e.c, Out(e));
    on := GoOn(h, db, on, s1, Writable(e.c), s.(tasks := ts + multiset{Send(e)}));
  }

  lemma SetBack<K, V>(m: map<K, V>, k: K, v: V)
    requires k in m
    ensures m[k := v][k := m[k]] == m
  {
  }

  /** The state after the reply of e has been sent and the client's descriptor armed; ts are the other tasks. */
  ghost function Sent<S, R, A>(s: State<S, R, A>, ts: multiset<Task<R, A>>, c: Client, a: A): State<S, R, A>
    requires c in s.sent
  {
    s.(tasks := ts, watch := s.watch[c := In], sent := s.sent[c := s.sent[c] + [a]])
  }

  lemma {:induction false} ToClient<S, R, A>(h: Server<S, R, A>, db: S, run: seq<Step<R, A>>, s: State<S, R, A>,
                                             ts: multiset<Task<R, A>>, e: Event<R, A>)
    returns (on: seq<Step<R, A>>)
    requires EndsIn(h, db, run, s) && s.tasks == ts + multiset{Send(e)} && e.reply.Reply?
    requires e.c in s.watch && s.watch[e.c].Off? && e.c in s.sent
    ensures run <= on && EndsIn(h, db, on, Sent(s, ts, e.c, e.reply.a))
  {
    var s1 := s.(tasks := ts + multiset{Rearm(e)}, sent := s.sent[e.c := s.sent[e.c] + [e.reply.a]]);
    WriteIs(h, s, ts, e);
    on := GoOn(h, db, run, s, Write(e), s1);
    AgainIs(h, s1, ts, e);
    on := GoOn(h, db, on, s1, Again(e), Sent(s, ts, e.c, e.reply.a));
  }

  /** The client of a request that has just been decoded is known and its descriptor is open. */
  lemma {:induction false} RaisedOpen<S, R(!new), A(!new)>(h: Server<S, R, A>, db: S, run: seq<Step<R, A>>,
                                                           s: State<S, R, A>, e: Event<R, A>)
    requires EndsIn(h, db, run, s) && Raise(e) in s.tasks
    ensures e.c in s.watch && s.watch[e.c].Off? && e.c in s.sent
  {
    Invariant(h, db, run);
    var p := PhasesAfter(h, db, run);
    TaskBy(s.tasks, p, Raise(e));
    assert Watches(s.watch[e.c], p[e.c]);
  }

  /** After every run, a decoded request can be served to its end: there is a continuation that sends the handler's
      reply, arms the client's descriptor for the next request and leaves everything else as it is. */
  lemma {:induction false} Completes<S, R(!new), A(!new)>(h: Server<S, R, A>, db: S, run: seq<Step<R, A>>,
                                                          s: State<S, R, A>, e: Event<R, A>, now: int, a: A)
    returns (on: seq<Step<R, A>>)
    requires EndsIn(h, db, run, s) && Raise(e) in s.tasks && h.section(s.db, e.req, now).1 == Outcome.Replies(a)
    ensures e.c in s.watch && e.c in s.sent && run <= on
    ensures EndsIn(h, db, on, s.(tasks := s.tasks - multiset{Raise(e)}, watch := s.watch[e.c := In],
                                 sent := s.sent[e.c := s.sent[e.c] + [a]], db := h.section(s.db, e.req, now).0,
                                 log := s.log + [Ran(e.c, e.req, e.req, now, Outcome.Replies(a))]))
  {
    var ts, f := s.tasks - multiset{Raise(e)}, e.(reply := Reply(a));
    RaisedOpen(h, db, run, s, e);
    var s1 := Replied(h, s, ts, e, now, a);
    var r1 := ToReply(h, db, run, s, ts, e, now, a);
    var r2 := ToWritable(h, db, r1, s1, ts, f);
    on := ToClient(h, db, r2, s1.(tasks := ts + multiset{Send(f)}), ts, f);
  }

  lemma {:induction false} ReadIs<S, R, A>(h: Server<S, R, A>, s: State<S, R, A>, c: Client, r: R, s1: State<S, R, A>)
    requires c in s.watch && s.watch[c].In? && c in s.decoded
    requires s1 == s.(watch := s.watch[c := Off], tasks := s.tasks + multiset{Read(c)})
    ensures Enabled(s, Ready(c)) && Apply(h, s, Ready(c)) == s1 && Enabled(s1, Decode(c, r))
    ensures Apply(h, s1, Decode(c, r)) ==
            s1.(tasks := s.tasks + multiset{Raise(Event(c, r, NoReply))},
                decoded := s.decoded[c := s.decoded[c] + [r]])
  {
    assert s1.tasks - multiset{Read(c)} == s.tasks;
  }

  lemma {:induction false} WatchedKnown<S, R(!new), A(!new)>(h: Server<S, R, A>, db: S, run: seq<Step<R, A>>,
                                                             s: State<S, R, A>)
    requires EndsIn(h, db, run, s)
    ensures s.watch.Keys == s.decoded.Keys == s.sent.Keys
  {
    Invariant(h, db, run);
  }

  /** The state after the request e of an armed client has been read. */
  ghost function RequestRead<S, R, A>(s: State<S, R, A>, e: Event<R, A>): State<S, R, A>
    requires e.c in s.decoded
  {
    s.(watch := s.watch[e.c := Off], tasks := s.tasks + multiset{Raise(e)},
       decoded := s.decoded[e.c := s.decoded[e.c] + [e.req]])
  }

  lemma {:induction false} ReadOne<S, R(!new), A(!new)>(h: Server<S, R, A>, db: S, run: seq<Step<R, A>>,
                                                        s: State<S, R, A>, e: Event<R, A>)
    returns (on: seq<Step<R, A>>)
    requires EndsIn(h, db, run, s) && e.c in s.watch && s.watch[e.c].In? && e.reply.NoReply?
    ensures e.c in s.decoded && e.c in s.sent && run <= on && EndsIn(h, db, on, RequestRead(s, e))
  {
    WatchedKnown(h, db, run, s);
    var s1 := s.(watch := s.watch[e.c := Off], tasks := s.tasks + multiset{Read(e.c)});
    ReadIs(h, s, e.c, e.req, s1);
    on := GoOn(h, db, run, s, Ready(e.c), s1);
    on := GoOn(h, db, on, s1, Decode(e.c, e.req), RequestRead(s, e));
  }

  /** After every run, a client whose descriptor is armed for reading can send any request, have it served and be ready
      for the next. */
  lemma {:induction false} ServesNext<S, R(!new), A(!new)>(h: Server<S, R, A>, db: S, run: seq<Step<R, A>>,
                                                           s: State<S, R, A>, c: Client, r: R, now: int, a: A)
    returns (on: seq<Step<R, A>>)
    requires EndsIn(h, db, run, s) && c in s.watch && s.watch[c].In?
    requires h.section(s.db, r, now).1 == Outcome.Replies(a)
    ensures c in s.decoded && c in s.sent && run <= on
    ensures EndsIn(h, db, on, s.(decoded := s.decoded[c := s.decoded[c] + [r]], sent := s.sent[c := s.sent[c] + [a]],
                                 db := h.section(s.db, r, now).0,
                                 log := s.log + [Ran(c, r, r, now, Outcome.Replies(a))]))
  {
    var e := Event(c, r, NoReply);
    var r1 := ReadOne(h, db, run, s, e);
    var s1 := RequestRead(s, e);
    on := Completes(h, db, r1, s1, e, now, a);
    assert s1.tasks - multiset{Raise(e)} == s.tasks;
    SetBack(s.watch, c, Off);
  }
}
