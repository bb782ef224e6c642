/** The hand-over of requests with descriptor numbers (src/server.c).

    `Handoff` names clients by their connection.  The code names them by descriptor: close gives the number back,
    accept may hand it out again, and epoll_mod and close act on whatever connection the number stands for by then.
    Here the connections have descriptors, and the two systems are compared. */
module Descriptors {
  import opened Handoff

  type Fd = nat

  /** What the io_epollfd holds for an open descriptor: the client or the event its data pointer leads to. */
  datatype Aim<R, A> = Reading(c: Client) | Writing(e: Event<R, A>) | Idle

  /** The descriptor of every client, the connection behind every open descriptor and what it is armed for; `dropping`
      are the clients whose descriptor read_data has closed and io_worker is about to close again.  The rest is as in
      `Handoff`, except that core.watch is not used. */
  datatype Net<S, R(==), A(==)> = Net(
    core: State<S, R, A>,
    fd: map<Client, Fd>,
    owner: map<Fd, Client>,
    aim: map<Fd, Aim<R, A>>,
    dropping: multiset<Client>)

  datatype NetStep<R, A> =
    | Accepts(c: Client, n: Fd)
    | Incoming(n: Fd)                   // EPOLLIN is delivered
    | Broken(n: Fd)                     // an error is delivered
    | Outgoing(n: Fd)                   // EPOLLOUT is delivered
    | Parts(c: Client)                  // read_data finds the client gone and closes its descriptor
    | Recloses(c: Client)               // io_worker closes the same number again
    | Posts(e: Event<R, A>)             // epoll_mod with EPOLLOUT
    | Breaks(e: Event<R, A>)            // send_bytes fails and the descriptor is closed
    | Rearms(e: Event<R, A>)            // epoll_mod with EPOLLIN
    | Inner(step: Step<R, A>)           // a step that names no descriptor

  ghost predicate NamesNone<R, A>(step: Step<R, A>) {
    step.Decode? || step.Garbled? || step.Hand? || step.Take? || step.Serve? || step.Tick? || step.Write?
  }

  ghost predicate CanStep<S, R, A>(net: Net<S, R, A>, step: NetStep<R, A>) {
    match step
    case Accepts(c, n) => c !in net.fd && n !in net.owner && n !in net.aim
    case Incoming(n) => n in net.aim && net.aim[n].Reading?
    case Broken(n) => n in net.aim && !net.aim[n].Idle?
    case Outgoing(n) => n in net.aim && net.aim[n].Writing?
    case Parts(c) => Read(c) in net.core.tasks && c in net.fd
    case Recloses(c) => c in net.dropping && c in net.fd
    case Posts(e) => Post(e) in net.core.tasks && e.c in net.fd
    case Breaks(e) => Send(e) in net.core.tasks && e.c in net.fd
    case Rearms(e) => Rearm(e) in net.core.tasks && e.c in net.fd
    case Inner(s) => NamesNone(s) && Enabled(net.core, s)
  }

  ghost function CloseFd<S, R, A>(net: Net<S, R, A>, n: Fd): Net<S, R, A> {
    net.(owner := net.owner - {n}, aim := net.aim - {n})
  }

  /** epoll_mod: fails on a descriptor that is not open. */
  ghost function Aimed<S, R, A>(net: Net<S, R, A>, n: Fd, to: Aim<R, A>): Net<S, R, A> {
    if n in net.aim then net.(aim := net.aim[n := to]) else net
  }

  ghost function Tasked<S, R, A>(net: Net<S, R, A>, tasks: multiset<Task<R, A>>): Net<S, R, A> {
    net.(core := net.core.(tasks := tasks))
  }

  ghost function Moves<S, R, A>(h: Server<S, R, A>, net: Net<S, R, A>, step: NetStep<R, A>): Net<S, R, A>
    requires CanStep(net, step)
  {
    var ts := net.core.tasks;
    match step
    case Accepts(c, n) =>
      Net(net.core.(decoded := net.core.decoded[c := []], sent := net.core.sent[c := []]),
          net.fd[c := n], net.owner[n := c], net.aim[n := Reading(c)], net.dropping)
    case Incoming(n) => Tasked(Aimed(net, n, Idle), ts + multiset{Read(net.aim[n].c)})
    case Broken(n) => Aimed(net, n, Idle)
    case Outgoing(n) => Tasked(Aimed(net, n, Idle), ts + multiset{Send(net.aim[n].e)})
    case Parts(c) =>
      Tasked(CloseFd(net, net.fd[c]), ts - multiset{Read(c)}).(dropping := net.dropping + multiset{c})
    case Recloses(c) => CloseFd(net, net.fd[c]).(dropping := net.dropping - multiset{c})
    case Posts(e) => Tasked(Aimed(net, net.fd[e.c], Writing(e)), ts - multiset{Post(e)})
    case Breaks(e) => Tasked(CloseFd(net, net.fd[e.c]), Swap(ts, Send(e), Rearm(e)))
    case Rearms(e) => Tasked(Aimed(net, net.fd[e.c], Reading(e.c)), ts - multiset{Rearm(e)})
    case Inner(s) => net.(core := Apply(h, net.core, s))
  }

  // ---------------------------------------------------------------- the view of the connections

  /** The descriptor of the client is open and its own. */
  ghost predicate Owns<S, R, A>(net: Net<S, R, A>, c: Client) {
    c in net.fd && net.fd[c] in net.owner && net.owner[net.fd[c]] == c && net.fd[c] in net.aim
  }

  ghost function Shows<R, A>(a: Aim<R, A>): Watch<R, A> {
    match a
    case Reading(_) => In
    case Writing(e) => Out(e)
    case Idle => Off
  }

  /** How the descriptor of a client is watched, as far as it still is the client's. */
  ghost function ViewOf<S, R, A>(net: Net<S, R, A>, c: Client): Watch<R, A>
    requires c in net.fd
  {
    var n := net.fd[c];
    if n !in net.owner || net.owner[n] != c || n !in net.aim then Watch.Closed else Shows(net.aim[n])
  }

  ghost function View<S, R, A>(net: Net<S, R, A>): map<Client, Watch<R, A>> {
    map c | c in net.fd :: ViewOf(net, c)
  }

  ghost function Abs<S, R, A>(net: Net<S, R, A>): State<S, R, A> {
    net.core.(watch := View(net))
  }

  /** The descriptor is open, the client's, and armed for the client if at all. */
  ghost predicate OwnedRight<S, R, A>(net: Net<S, R, A>, n: Fd)
    requires n in net.owner && n in net.aim
  {
    && net.owner[n] in net.fd && net.fd[net.owner[n]] == n
    && (net.aim[n].Reading? ==> net.aim[n].c == net.owner[n])
    && (net.aim[n].Writing? ==> net.aim[n].e.c == net.owner[n])
  }

  /** The number of a client whose connection is closed, and that is still to be named, stands for nothing. */
  ghost predicate StaleFree<S, R(!new), A(!new)>(net: Net<S, R, A>) {
    && (forall e :: Rearm(e) in net.core.tasks && e.c in net.fd && !Owns(net, e.c) ==> net.fd[e.c] !in net.owner)
    && forall c :: c in net.dropping ==> c in net.fd && net.fd[c] !in net.owner
  }

  ghost predicate Fit<S, R(!new), A(!new)>(net: Net<S, R, A>) {
    && net.owner.Keys == net.aim.Keys && net.core.watch == map[]
    && (forall n {:trigger OwnedRight(net, n)} :: n in net.owner ==> OwnedRight(net, n))
    && StaleFree(net)
  }

  /** No thread is still going to name the number n for a connection that is gone. */
  ghost predicate Quiet<S, R(!new), A(!new)>(net: Net<S, R, A>, n: Fd) {
    && (forall e :: Rearm(e) in net.core.tasks && e.c in net.fd ==> net.fd[e.c] != n)
    && forall c :: c in net.dropping && c in net.fd ==> net.fd[c] != n
  }

  /** The step of `Handoff` that a step comes to. */
  ghost function Projected<S, R, A>(net: Net<S, R, A>, step: NetStep<R, A>): Step<R, A>
    requires CanStep(net, step) && !step.Recloses?
    requires step.Broken? || step.Outgoing? ==> step.n in net.owner
  {
    match step
    case Accepts(c, _) => Accept(c)
    case Incoming(n) => Ready(net.aim[n].c)
    case Broken(n) => Hangup(net.owner[n])
    case Outgoing(n) => Writable(net.owner[n])
    case Parts(c) => Leave(c)
    case Posts(e) => Answer(e)
    case Breaks(e) => Handoff.Fail(e)
    case Rearms(e) => Again(e)
    case Inner(s) => s
  }

  // ---------------------------------------------------------------- one step

  lemma {:induction false} ViewAimed<S, R, A>(net: Net<S, R, A>, c: Client, to: Aim<R, A>)
    requires Owns(net, c)
    ensures View(Aimed(net, net.fd[c], to)) == View(net)[c := Shows(to)]
  {
    var net' := Aimed(net, net.fd[c], to);
    forall d | d in net.fd
      ensures View(net')[d] == View(net)[c := Shows(to)][d]
    {
    }
  }

  lemma {:induction false} ViewClosed<S, R, A>(net: Net<S, R, A>, c: Client)
    requires Owns(net, c)
    ensures View(CloseFd(net, net.fd[c])) == View(net)[c := Watch.Closed]
  {
    var net' := CloseFd(net, net.fd[c]);
    forall d | d in net.fd
      ensures View(net')[d] == View(net)[c := Watch.Closed][d]
    {
    }
  }

  lemma {:induction false} ViewAccepted<S, R, A>(net: Net<S, R, A>, net': Net<S, R, A>, c: Client, n: Fd)
    requires c !in net.fd && n !in net.owner && n !in net.aim
    requires net'.fd == net.fd[c := n] && net'.owner == net.owner[n := c] && net'.aim == net.aim[n := Reading(c)]
    ensures View(net') == View(net)[c := In]
  {
    forall d | d in net'.fd
      ensures View(net')[d] == View(net)[c := In][d]
    {
    }
  }

  /** A client with something under way other than a re-arming has an open descriptor of its own, which is not armed. */
  lemma {:induction false} BusyOwns<S, R(!new), A(!new)>(net: Net<S, R, A>, p: Phases<R, A>, c: Client)
    requires WatchIs(View(net), p) && c in p && (p[c].Queued? || (p[c].Doing? && !p[c].t.Rearm?))
    ensures Owns(net, c) && net.aim[net.fd[c]].Idle?
  {
    assert View(net)[c] == Off;
  }

  /** The step comes to the step s of `Handoff`. */
  ghost predicate ComesTo<S, R, A>(h: Server<S, R, A>, net: Net<S, R, A>, step: NetStep<R, A>, s: Step<R, A>)
    requires CanStep(net, step)
  {
    Enabled(Abs(net), s) && Abs(Moves(h, net, step)) == Apply(h, Abs(net), s)
  }

  lemma {:induction false} InnerEnabled<S, R, A>(s: State<S, R, A>, w: map<Client, Watch<R, A>>, step: Step<R, A>)
    requires NamesNone(step) && Enabled(s, step)
    ensures Enabled(s.(watch := w), step)
  {
  }

  lemma {:induction false} InnerTasks<S, R, A>(h: Server<S, R, A>, s: State<S, R, A>, t: State<S, R, A>,
                                               step: Step<R, A>)
    requires NamesNone(step) && Enabled(s, step) && Enabled(t, step) && t == s.(watch := t.watch)
    ensures TasksAfter(h, t, step) == TasksAfter(h, s, step) && WatchAfter(t, step) == t.watch
  {
  }

  lemma {:induction false} InnerQueue<S, R, A>(h: Server<S, R, A>, s: State<S, R, A>, t: State<S, R, A>,
                                               step: Step<R, A>)
    requires NamesNone(step) && Enabled(s, step) && Enabled(t, step) && t == s.(watch := t.watch)
    ensures QueueAfter(t, step) == QueueAfter(s, step)
    ensures DbAfter(h, t, step) == DbAfter(h, s, step) && LogAfter(h, t, step) == LogAfter(h, s, step)
  {
  }

  lemma {:induction false} InnerHistory<S, R, A>(s: State<S, R, A>, t: State<S, R, A>, step: Step<R, A>)
    requires NamesNone(step) && Enabled(s, step) && Enabled(t, step) && t == s.(watch := t.watch)
    ensures DecodedAfter(t, step) == DecodedAfter(s, step) && SentAfter(t, step) == SentAfter(s, step)
  {
  }

  lemma {:induction false} SimInner<S, R, A>(h: Server<S, R, A>, net: Net<S, R, A>, step: Step<R, A>)
    requires CanStep(net, Inner(step))
    ensures ComesTo(h, net, Inner(step), step)
  {
    var s, t := net.core, Abs(net);
    InnerEnabled(s, View(net), step);
    InnerTasks(h, s, t, step);
    InnerQueue(h, s, t, step);
    InnerHistory(s, t, step);
    ViewOfCore(net, Apply(h, s, step));
  }

  lemma {:induction false} ViewOfCore<S, R, A>(net: Net<S, R, A>, core: State<S, R, A>)
    ensures View(net.(core := core)) == View(net)
  {
  }

  lemma {:induction false} SimAccepts<S, R, A>(h: Server<S, R, A>, net: Net<S, R, A>, c: Client, n: Fd)
    requires CanStep(net, Accepts(c, n))
    ensures ComesTo(h, net, Accepts(c, n), Accept(c))
  {
    ViewAccepted(net, Moves(h, net, Accepts(c, n)), c, n);
  }

  lemma {:induction false} SimIncoming<S, R(!new), A(!new)>(h: Server<S, R, A>, net: Net<S, R, A>, n: Fd)
    requires Fit(net) && CanStep(net, Incoming(n))
    ensures ComesTo(h, net, Incoming(n), Ready(net.aim[n].c))
  {
    assert OwnedRight(net, n);
    ViewAimed(net, net.owner[n], Idle);
    ViewOfCore(Aimed(net, n, Idle), Moves(h, net, Incoming(n)).core);
  }

  lemma {:induction false} SimBroken<S, R(!new), A(!new)>(h: Server<S, R, A>, net: Net<S, R, A>, n: Fd)
    requires Fit(net) && CanStep(net, Broken(n))
    ensures ComesTo(h, net, Broken(n), Hangup(net.owner[n]))
  {
    assert OwnedRight(net, n);
    ViewAimed(net, net.owner[n], Idle);
  }

  lemma {:induction false} SimOutgoing<S, R(!new), A(!new)>(h: Server<S, R, A>, net: Net<S, R, A>, n: Fd)
    requires Fit(net) && CanStep(net, Outgoing(n))
    ensures ComesTo(h, net, Outgoing(n), Writable(net.owner[n]))
  {
    assert OwnedRight(net, n);
    ViewAimed(net, net.owner[n], Idle);
    ViewOfCore(Aimed(net, n, Idle), Moves(h, net, Outgoing(n)).core);
  }

  lemma {:induction false} SimParts<S, R(!new), A(!new)>(h: Server<S, R, A>, net: Net<S, R, A>, c: Client)
    requires CanStep(net, Parts(c)) && Owns(net, c)
    ensures ComesTo(h, net, Parts(c), Leave(c))
  {
    ViewClosed(net, c);
    var closed, after := CloseFd(net, net.fd[c]), Moves(h, net, Parts(c));
    ViewOfCore(closed, after.core);
    ViewOfDropping(closed.(core := after.core), after.dropping);
  }

  lemma {:induction false} ViewOfDropping<S, R, A>(net: Net<S, R, A>, dropping: multiset<Client>)
    ensures View(net.(dropping := dropping)) == View(net)
  {
  }

  lemma {:induction false} SimPosts<S, R(!new), A(!new)>(h: Server<S, R, A>, net: Net<S, R, A>, e: Event<R, A>)
    requires CanStep(net, Posts(e)) && Owns(net, e.c)
    ensures ComesTo(h, net, Posts(e), Answer(e))
  {
    ViewAimed(net, e.c, Writing(e));
    ViewOfCore(Aimed(net, net.fd[e.c], Writing(e)), Moves(h, net, Posts(e)).core);
  }

  lemma {:induction false} SimBreaks<S, R(!new), A(!new)>(h: Server<S, R, A>, net: Net<S, R, A>, e: Event<R, A>)
    requires CanStep(net, Breaks(e)) && Owns(net, e.c)
    ensures ComesTo(h, net, Breaks(e), Handoff.Fail(e))
  {
    ViewClosed(net, e.c);
    ViewOfCore(CloseFd(net, net.fd[e.c]), Moves(h, net, Breaks(e)).core);
  }

  /** epoll_mod arms the client's own descriptor and no other. */
  lemma {:induction false} ViewRearmed<S, R(!new), A(!new)>(net: Net<S, R, A>, e: Event<R, A>)
    requires Fit(net) && CanStep(net, Rearms(e))
    ensures View(Aimed(net, net.fd[e.c], Reading(e.c))) == Arm(View(net), e.c, In)
  {
    if Owns(net, e.c) {
      ViewAimed(net, e.c, Reading(e.c));
    }
  }

  lemma {:induction false} SimRearms<S, R(!new), A(!new)>(h: Server<S, R, A>, net: Net<S, R, A>, e: Event<R, A>)
    requires Fit(net) && CanStep(net, Rearms(e))
    ensures ComesTo(h, net, Rearms(e), Again(e))
  {
    ViewRearmed(net, e);
    ViewOfCore(Aimed(net, net.fd[e.c], Reading(e.c)), Moves(h, net, Rearms(e)).core);
  }

  /** The task behind a step is its client's only one, and its descriptor is open. */
  lemma {:induction false} TaskOwns<S, R(!new), A(!new)>(net: Net<S, R, A>, p: Phases<R, A>, t: Task<R, A>)
    requires Placed(Abs(net), p) && t in net.core.tasks && !t.Rearm?
    ensures Owns(net, ClientOf(t)) && net.aim[net.fd[ClientOf(t)]].Idle?
  {
    TaskBy(net.core.tasks, p, t);
    BusyOwns(net, p, ClientOf(t));
  }

  /** With nothing stale, closing again closes nothing ... */
  lemma {:induction false} SimRecloses<S, R(!new), A(!new)>(h: Server<S, R, A>, net: Net<S, R, A>, c: Client)
    requires Fit(net) && CanStep(net, Recloses(c))
    ensures Abs(Moves(h, net, Recloses(c))) == Abs(net)
  {
    assert net.owner - {net.fd[c]} == net.owner && net.aim - {net.fd[c]} == net.aim;
  }

  /** ... and every other step is the step of `Handoff` it comes to. */
  lemma {:induction false} Simulates<S, R(!new), A(!new)>(h: Server<S, R, A>, net: Net<S, R, A>, p: Phases<R, A>,
                                                          step: NetStep<R, A>)
    requires Fit(net) && Placed(Abs(net), p) && CanStep(net, step) && !step.Recloses?
    ensures ComesTo(h, net, step, Projected(net, step))
  {
    match step
    case Accepts(c, n) => SimAccepts(h, net, c, n);
    case Inner(s) => SimInner(h, net, s);
    case Rearms(e) => SimRearms(h, net, e);
    case Parts(c) =>
      TaskOwns(net, p, Read(c));
      SimParts(h, net, c);
    case Posts(e) =>
      TaskOwns(net, p, Post(e));
      SimPosts(h, net, e);
    case Breaks(e) =>
      TaskOwns(net, p, Send(e));
      SimBreaks(h, net, e);
    case Incoming(n) => SimIncoming(h, net, n);
    case Broken(n) => SimBroken(h, net, n);
    case Outgoing(n) => SimOutgoing(h, net, n);
  }

  /** Accept hands out no number that some thread is still going to name for a connection that is gone. */
  ghost predicate Prompt<S, R(!new), A(!new)>(net: Net<S, R, A>, step: NetStep<R, A>) {
    step.Accepts? ==> Quiet(net, step.n)
  }

  /** Only the aim of a descriptor changes, to one that fits its owner, and no re-arming is added. */
  lemma {:induction false} FitAimed<S, R(!new), A(!new)>(net: Net<S, R, A>, net': Net<S, R, A>, n: Fd, to: Aim<R, A>)
    requires Fit(net) && net' == Aimed(net, n, to).(core := net'.core) && net'.core.watch == map[]
    requires forall e :: Rearm(e) in net'.core.tasks ==> Rearm(e) in net.core.tasks
    requires n in net.owner ==>
      (to.Reading? ==> to.c == net.owner[n]) && (to.Writing? ==> to.e.c == net.owner[n])
    ensures Fit(net')
  {
    forall m | m in net'.owner
      ensures OwnedRight(net', m)
    {
      assert OwnedRight(net, m);
    }
  }

  /** A client closes its own descriptor, and a re-arming is added only for this client. */
  lemma {:induction false} FitClosed<S, R(!new), A(!new)>(net: Net<S, R, A>, net': Net<S, R, A>, c: Client)
    requires Fit(net) && Owns(net, c) && net'.core.watch == map[]
    requires net'.fd == net.fd && net'.owner == net.owner - {net.fd[c]} && net'.aim == net.aim - {net.fd[c]}
    requires net'.dropping <= net.dropping + multiset{c}
    requires forall e :: Rearm(e) in net'.core.tasks ==> Rearm(e) in net.core.tasks || e.c == c
    ensures Fit(net')
  {
    forall m | m in net'.owner
      ensures OwnedRight(net', m)
    {
      assert OwnedRight(net, m);
    }
  }

  lemma {:induction false} FitAccepts<S, R(!new), A(!new)>(h: Server<S, R, A>, net: Net<S, R, A>, c: Client, n: Fd)
    requires Fit(net) && CanStep(net, Accepts(c, n)) && Quiet(net, n)
    requires forall e :: Rearm(e) in net.core.tasks ==> e.c in net.fd
    ensures Fit(Moves(h, net, Accepts(c, n)))
  {
    var net' := Moves(h, net, Accepts(c, n));
    forall m | m in net'.owner
      ensures OwnedRight(net', m)
    {
      assert m != n ==> OwnedRight(net, m);
    }
  }

  /** No descriptor is touched; a re-arming is added only for a client that owns its descriptor. */
  lemma {:induction false} FitCore<S, R(!new), A(!new)>(net: Net<S, R, A>, net': Net<S, R, A>)
    requires Fit(net) && net' == net.(core := net'.core) && net'.core.watch == map[]
    requires forall e :: Rearm(e) in net'.core.tasks ==> Rearm(e) in net.core.tasks || Owns(net, e.c)
    ensures Fit(net')
  {
    forall m | m in net'.owner
      ensures OwnedRight(net', m)
    {
      assert OwnedRight(net, m);
    }
  }

  lemma {:induction false} RearmsAfter<S, R, A>(h: Server<S, R, A>, s: State<S, R, A>, step: Step<R, A>, e: Event<R, A>)
    requires NamesNone(step) && Enabled(s, step) && Rearm(e) in TasksAfter(h, s, step)
    ensures Rearm(e) in s.tasks || (step.Write? && e == step.e)
  {
    match step
    case Serve(f, _, now) => assert !AfterSection(f, h.section(s.db, step.rest, now).1).Rearm?;
    case _ =>
  }

  lemma {:induction false} RearmsOwned<S, R(!new), A(!new)>(h: Server<S, R, A>, net: Net<S, R, A>, step: Step<R, A>)
    requires CanStep(net, Inner(step)) && (step.Write? ==> Owns(net, step.e.c))
    ensures forall e :: Rearm(e) in TasksAfter(h, net.core, step) ==> Rearm(e) in net.core.tasks || Owns(net, e.c)
  {
    forall e | Rearm(e) in TasksAfter(h, net.core, step)
      ensures Rearm(e) in net.core.tasks || Owns(net, e.c)
    {
      RearmsAfter(h, net.core, step, e);
    }
  }

  lemma {:induction false} FitInner<S, R(!new), A(!new)>(h: Server<S, R, A>, net: Net<S, R, A>, step: Step<R, A>)
    requires Fit(net) && CanStep(net, Inner(step)) && (step.Write? ==> Owns(net, step.e.c))
    ensures Fit(Moves(h, net, Inner(step)))
  {
    RearmsOwned(h, net, step);
    FitCore(net, net.(core := Apply(h, net.core, step)));
  }

  lemma {:induction false} WriteOwns<S, R(!new), A(!new)>(net: Net<S, R, A>, p: Phases<R, A>, step: Step<R, A>)
    requires Placed(Abs(net), p) && CanStep(net, Inner(step)) && step.Write?
    ensures Owns(net, step.e.c)
  {
    TaskOwns(net, p, Send(step.e));
  }

  lemma {:induction false} TasksKnown<S, R(!new), A(!new)>(net: Net<S, R, A>, p: Phases<R, A>, t: Task<R, A>)
    requires Placed(Abs(net), p) && t in net.core.tasks
    ensures ClientOf(t) in net.fd
  {
    TaskBy(net.core.tasks, p, t);
    assert ClientOf(t) in View(net);
  }

  lemma {:induction false} FitRearms<S, R(!new), A(!new)>(h: Server<S, R, A>, net: Net<S, R, A>, e: Event<R, A>)
    requires Fit(net) && CanStep(net, Rearms(e))
    ensures Fit(Moves(h, net, Rearms(e)))
  {
    FitAimed(net, Moves(h, net, Rearms(e)), net.fd[e.c], Reading(e.c));
  }

  lemma {:induction false} FitDelivered<S, R(!new), A(!new)>(h: Server<S, R, A>, net: Net<S, R, A>, step: NetStep<R, A>)
    requires Fit(net) && CanStep(net, step) && (step.Incoming? || step.Broken? || step.Outgoing?)
    ensures Fit(Moves(h, net, step))
  {
    FitAimed(net, Moves(h, net, step), step.n, Idle);
  }

  lemma {:induction false} FitPosts<S, R(!new), A(!new)>(h: Server<S, R, A>, net: Net<S, R, A>, e: Event<R, A>)
    requires Fit(net) && CanStep(net, Posts(e)) && Owns(net, e.c)
    ensures Fit(Moves(h, net, Posts(e)))
  {
    FitAimed(net, Moves(h, net, Posts(e)), net.fd[e.c], Writing(e));
  }

  lemma {:induction false} FitParts<S, R(!new), A(!new)>(h: Server<S, R, A>, net: Net<S, R, A>, c: Client)
    requires Fit(net) && CanStep(net, Parts(c)) && Owns(net, c)
    ensures Fit(Moves(h, net, Parts(c)))
  {
    FitClosed(net, Moves(h, net, Parts(c)), c);
  }

  lemma {:induction false} FitBreaks<S, R(!new), A(!new)>(h: Server<S, R, A>, net: Net<S, R, A>, e: Event<R, A>)
    requires Fit(net) && CanStep(net, Breaks(e)) && Owns(net, e.c)
    ensures Fit(Moves(h, net, Breaks(e)))
  {
    FitClosed(net, Moves(h, net, Breaks(e)), e.c);
  }

  lemma {:induction false} FitRecloses<S, R(!new), A(!new)>(h: Server<S, R, A>, net: Net<S, R, A>, c: Client)
    requires Fit(net) && CanStep(net, Recloses(c))
    ensures Fit(Moves(h, net, Recloses(c)))
  {
    var net' := Moves(h, net, Recloses(c));
    assert net.owner - {net.fd[c]} == net.owner && net.aim - {net.fd[c]} == net.aim;
    forall m | m in net'.owner
      ensures OwnedRight(net', m)
    {
      assert OwnedRight(net, m);
    }
  }

  /** With prompt accepts nothing becomes stale. */
  lemma {:induction false} FitKept<S, R(!new), A(!new)>(h: Server<S, R, A>, net: Net<S, R, A>, p: Phases<R, A>,
                                                        step: NetStep<R, A>)
    requires Fit(net) && Placed(Abs(net), p) && CanStep(net, step) && Prompt(net, step)
    ensures Fit(Moves(h, net, step))
  {
    match step
    case Accepts(c, n) =>
      forall e | Rearm(e) in net.core.tasks
        ensures e.c in net.fd
      {
        TasksKnown(net, p, Rearm(e));
      }
      FitAccepts(h, net, c, n);
    case Inner(s) =>
      if s.Write? {
        WriteOwns(net, p, s);
      }
      FitInner(h, net, s);
    case Rearms(e) => FitRearms(h, net, e);
    case Recloses(c) => FitRecloses(h, net, c);
    case Parts(c) =>
      TaskOwns(net, p, Read(c));
      FitParts(h, net, c);
    case Posts(e) =>
      TaskOwns(net, p, Post(e));
      FitPosts(h, net, e);
    case Breaks(e) =>
      TaskOwns(net, p, Send(e));
      FitBreaks(h, net, e);
    case _ => FitDelivered(h, net, step);
  }

  // ---------------------------------------------------------------- runs

  ghost function NetInitial<S, R, A>(db: S): Net<S, R, A> {
    Net(Initial(db), map[], map[], map[], multiset{})
  }

  ghost predicate NetRuns<S, R, A>(h: Server<S, R, A>, net: Net<S, R, A>, steps: seq<NetStep<R, A>>)
    decreases |steps|, 0
  {
    steps == [] || (
      var n := |steps| - 1;
      NetRuns(h, net, steps[..n]) && CanStep(NetAfter(h, net, steps[..n]), steps[n]))
  }

  ghost function NetAfter<S, R, A>(h: Server<S, R, A>, net: Net<S, R, A>, steps: seq<NetStep<R, A>>): Net<S, R, A>
    requires NetRuns(h, net, steps)
    decreases |steps|, 1
  {
    if steps == [] then net else var n := |steps| - 1; Moves(h, NetAfter(h, net, steps[..n]), steps[n])
  }

  /** A run from the start of the server in which every accept is prompt. */
  ghost predicate PromptRun<S, R(!new), A(!new)>(h: Server<S, R, A>, db: S, steps: seq<NetStep<R, A>>) {
    steps == [] || (
      var n, start := |steps| - 1, NetInitial(db);
      PromptRun(h, db, steps[..n]) && NetRuns(h, start, steps[..n])
      && CanStep(NetAfter(h, start, steps[..n]), steps[n]) && Prompt(NetAfter(h, start, steps[..n]), steps[n]))
  }

  lemma {:induction false} PromptRuns<S, R(!new), A(!new)>(h: Server<S, R, A>, db: S, steps: seq<NetStep<R, A>>)
    requires PromptRun(h, db, steps)
    ensures NetRuns(h, NetInitial(db), steps)
  {
  }

  /** Every run with prompt accepts is a run of `Handoff`, seen by connections. */
  lemma {:induction false} Refines<S, R(!new), A(!new)>(h: Server<S, R, A>, db: S, steps: seq<NetStep<R, A>>)
    returns (run: seq<Step<R, A>>)
    requires PromptRun(h, db, steps)
    ensures NetRuns(h, NetInitial(db), steps) && Fit(NetAfter(h, NetInitial(db), steps))
    ensures Runs(h, db, run) && After(h, db, run) == Abs(NetAfter(h, NetInitial(db), steps))
  {
    PromptRuns(h, db, steps);
    if steps == [] {
      run := [];
    } else {
      var n := |steps| - 1;
      run := Refines(h, db, steps[..n]);
      var net := NetAfter(h, NetInitial(db), steps[..n]);
      Invariant(h, db, run);
      var p := PhasesAfter(h, db, run);
      FitKept(h, net, p, steps[n]);
      if steps[n].Recloses? {
        SimRecloses(h, net, steps[n].c);
      } else {
        Simulates(h, net, p, steps[n]);
        RunsOn(h, db, run, Projected(net, steps[n]));
        run := run + [Projected(net, steps[n])];
      }
    }
  }

  // ---------------------------------------------------------------- one request on a descriptor

  ghost predicate On<S, R, A>(net: Net<S, R, A>, c: Client, n: Fd) {
    c in net.fd && net.fd[c] == n
  }

  /** A request is read from, handled for or answered to the number n. */
  ghost predicate BusyOn<S, R, A>(net: Net<S, R, A>, t: Task<R, A>, n: Fd) {
    t in net.core.tasks && !t.Rearm? && On(net, ClientOf(t), n)
  }

  ghost predicate QueuedOn<S, R, A>(net: Net<S, R, A>, e: Event<R, A>, n: Fd) {
    e in net.core.queue && On(net, e.c, n)
  }

  ghost predicate OneOn<S, R(!new), A(!new)>(net: Net<S, R, A>, n: Fd) {
    && (forall t, u :: BusyOn(net, t, n) && BusyOn(net, u, n) ==> t == u && net.core.tasks[t] == 1)
    && (forall e, f :: QueuedOn(net, e, n) && QueuedOn(net, f, n) ==> e == f && net.core.queue[e] == 1)
    && (forall t, e :: BusyOn(net, t, n) ==> !QueuedOn(net, e, n))
  }

  lemma {:induction false} BusyOwner<S, R(!new), A(!new)>(net: Net<S, R, A>, p: Phases<R, A>, t: Task<R, A>, n: Fd)
    requires Placed(Abs(net), p) && BusyOn(net, t, n)
    ensures n in net.owner && net.owner[n] == ClientOf(t) && net.owner[n] in p && p[net.owner[n]] == Doing(t)
    ensures net.core.tasks[t] == 1
  {
    TaskBy(net.core.tasks, p, t);
    TaskOwns(net, p, t);
  }

  lemma {:induction false} QueuedOwner<S, R(!new), A(!new)>(net: Net<S, R, A>, p: Phases<R, A>, e: Event<R, A>, n: Fd)
    requires Placed(Abs(net), p) && QueuedOn(net, e, n)
    ensures n in net.owner && net.owner[n] == e.c && net.owner[n] in p && p[net.owner[n]] == Queued(e)
    ensures net.core.queue[e] == 1
  {
    assert net.core.queue[e] > 0;
    BusyOwns(net, p, e.c);
  }

  lemma {:induction false} PlacedOneOn<S, R(!new), A(!new)>(net: Net<S, R, A>, p: Phases<R, A>, n: Fd)
    requires Placed(Abs(net), p)
    ensures OneOn(net, n)
  {
    forall t | BusyOn(net, t, n)
      ensures n in net.owner && net.owner[n] in p && p[net.owner[n]] == Doing(t) && net.core.tasks[t] == 1
    {
      BusyOwner(net, p, t, n);
    }
    forall e | QueuedOn(net, e, n)
      ensures n in net.owner && net.owner[n] in p && p[net.owner[n]] == Queued(e) && net.core.queue[e] == 1
    {
      QueuedOwner(net, p, e, n);
    }
  }

  /** As long as every accept is prompt, every descriptor has at most one request in flight ... */
  lemma {:induction false} PromptOneOn<S, R(!new), A(!new)>(h: Server<S, R, A>, db: S, steps: seq<NetStep<R, A>>, n: Fd)
    requires PromptRun(h, db, steps)
    ensures NetRuns(h, NetInitial(db), steps) && OneOn(NetAfter(h, NetInitial(db), steps), n)
  {
    var run := Refines(h, db, steps);
    Invariant(h, db, run);
    PlacedOneOn(NetAfter(h, NetInitial(db), steps), PhasesAfter(h, db, run), n);
  }

  lemma {:induction false} NetOn<S, R, A>(h: Server<S, R, A>, net: Net<S, R, A>, steps: seq<NetStep<R, A>>,
                                          step: NetStep<R, A>)
    requires NetRuns(h, net, steps) && CanStep(NetAfter(h, net, steps), step)
    ensures NetRuns(h, net, steps + [step])
    ensures NetAfter(h, net, steps + [step]) == Moves(h, NetAfter(h, net, steps), step)
  {
    assert (steps + [step])[..|steps|] == steps;
  }

  lemma {:induction false} TwoOn<S, R(!new), A(!new)>(net: Net<S, R, A>, c: Client, d: Client, n: Fd)
    requires c != d && Read(c) in net.core.tasks && Read(d) in net.core.tasks && On(net, c, n) && On(net, d, n)
    ensures !OneOn(net, n)
  {
    assert BusyOn(net, Read(c), n) && BusyOn(net, Read(d), n);
  }

  /** A new client on the number has its request read, and then the number is armed for the client that is gone. */
  lemma {:induction false} RearmBreaks<S, R(!new), A(!new)>(h: Server<S, R, A>, net: Net<S, R, A>, d: Client, n: Fd,
                                                            e: Event<R, A>)
    returns (steps: seq<NetStep<R, A>>)
    requires CanStep(net, Accepts(d, n)) && Rearm(e) in net.core.tasks && On(net, e.c, n)
    ensures |steps| > 0 && steps[0] == Accepts(d, n) && NetRuns(h, net, steps) && !OneOn(NetAfter(h, net, steps), n)
  {
    var s2, net2 := AcceptAndRead(h, net, d, n);
    var net3 := Moves(h, net2, Rearms(e));
    assert net3.aim[n] == Reading(e.c) && Read(d) in net3.core.tasks;
    NetOn(h, net, s2, Rearms(e));
    NetOn(h, net, s2 + [Rearms(e)], Incoming(n));
    steps := s2 + [Rearms(e)] + [Incoming(n)];
    TwoOn(NetAfter(h, net, steps), d, e.c, n);
  }

  /** A client is accepted and its request is read. */
  lemma {:induction false} AcceptAndRead<S, R, A>(h: Server<S, R, A>, net: Net<S, R, A>, d: Client, n: Fd)
    returns (steps: seq<NetStep<R, A>>, net': Net<S, R, A>)
    requires CanStep(net, Accepts(d, n))
    ensures |steps| > 0 && steps[0] == Accepts(d, n) && NetRuns(h, net, steps) && NetAfter(h, net, steps) == net'
    ensures net'.core.tasks == net.core.tasks + multiset{Read(d)} && net'.dropping == net.dropping
    ensures net'.fd == net.fd[d := n] && net'.aim == net.aim[n := Idle] && net'.owner == net.owner[n := d]
  {
    NetOn(h, net, [], Accepts(d, n));
    NetOn(h, net, [] + [Accepts(d, n)], Incoming(n));
    steps := [] + [Accepts(d, n)] + [Incoming(n)];
    net' := NetAfter(h, net, steps);
    assert net.aim[n := Reading(d)][n := Idle] == net.aim[n := Idle];
  }

  /** A new client on the number has its request read, and then the number is closed under it and handed out again. */
  lemma {:induction false} RecloseBreaks<S, R(!new), A(!new)>(h: Server<S, R, A>, net: Net<S, R, A>, d: Client,
                                                              d': Client, n: Fd, c: Client)
    returns (steps: seq<NetStep<R, A>>)
    requires CanStep(net, Accepts(d, n)) && c in net.dropping && On(net, c, n) && d' !in net.fd && d' != d
    ensures |steps| > 0 && steps[0] == Accepts(d, n) && NetRuns(h, net, steps) && !OneOn(NetAfter(h, net, steps), n)
  {
    var s2, net2 := AcceptAndRead(h, net, d, n);
    NetOn(h, net, s2, Recloses(c));
    var s3, net3 := s2 + [Recloses(c)], Moves(h, net2, Recloses(c));
    assert n !in net3.owner && n !in net3.aim && Read(d) in net3.core.tasks && On(net3, d, n);
    NetOn(h, net, s3, Accepts(d', n));
    NetOn(h, net, s3 + [Accepts(d', n)], Incoming(n));
    steps := s3 + [Accepts(d', n)] + [Incoming(n)];
    TwoOn(NetAfter(h, net, steps), d, d', n);
  }

  lemma {:induction false} AnotherClient(s: set<Client>) returns (c: Client)
    ensures c !in s && forall d <- s :: d < c
  {
    if s == {} {
      c := 0;
    } else {
      var x :| x in s;
      c := AnotherClient(s - {x});
      assert forall d <- s :: d == x || d in s - {x};
      c := if c <= x then x + 1 else c;
    }
  }

  /** ... and only then: an accept that is not prompt can be followed by steps that put two requests on its number. */
  lemma {:induction false} PromptNeeded<S, R(!new), A(!new)>(h: Server<S, R, A>, net: Net<S, R, A>, d: Client, n: Fd)
    returns (steps: seq<NetStep<R, A>>)
    requires CanStep(net, Accepts(d, n)) && !Quiet(net, n)
    ensures |steps| > 0 && steps[0] == Accepts(d, n) && NetRuns(h, net, steps) && !OneOn(NetAfter(h, net, steps), n)
  {
    if e :| Rearm(e) in net.core.tasks && e.c in net.fd && net.fd[e.c] == n {
      steps := RearmBreaks(h, net, d, n, e);
    } else {
      var c :| c in net.dropping && c in net.fd && net.fd[c] == n;
      var d' := AnotherClient(net.fd.Keys + {d});
      steps := RecloseBreaks(h, net, d, d', n, c);
    }
  }

  lemma {:induction false} PromptOn<S, R(!new), A(!new)>(h: Server<S, R, A>, db: S, steps: seq<NetStep<R, A>>,
                                                         step: NetStep<R, A>)
    requires PromptRun(h, db, steps) && NetRuns(h, NetInitial(db), steps)
    requires var net := NetAfter(h, NetInitial(db), steps); CanStep(net, step) && Prompt(net, step)
    ensures PromptRun(h, db, steps + [step]) && NetRuns(h, NetInitial(db), steps + [step])
    ensures NetAfter(h, NetInitial(db), steps + [step]) == Moves(h, NetAfter(h, NetInitial(db), steps), step)
  {
    assert (steps + [step])[..|steps|] == steps;
  }

  /** Such an accept is reached: a client is accepted and gone before its descriptor is closed for the second time. */
  lemma {:induction false} ReusedTooSoon<S, R(!new), A(!new)>(h: Server<S, R, A>, db: S, c: Client, d: Client, n: Fd)
    returns (steps: seq<NetStep<R, A>>)
    requires c != d
    ensures PromptRun(h, db, steps) && NetRuns(h, NetInitial(db), steps)
    ensures var net := NetAfter(h, NetInitial(db), steps); CanStep(net, Accepts(d, n)) && !Quiet(net, n)
  {
    PromptOn(h, db, [], Accepts(c, n));
    PromptOn(h, db, [] + [Accepts(c, n)], Incoming(n));
    PromptOn(h, db, [] + [Accepts(c, n)] + [Incoming(n)], Parts(c));
    steps := [] + [Accepts(c, n)] + [Incoming(n)] + [Parts(c)];
    var net := NetAfter(h, NetInitial(db), steps);
    assert c in net.dropping && net.fd[c] == n;
  }

  // ---------------------------------------------------------------- every run by connections

  ghost predicate Represents<S, R, A>(net: Net<S, R, A>, step: NetStep<R, A>, s: Step<R, A>) {
    && CanStep(net, step) && !step.Recloses? && (step.Broken? || step.Outgoing? ==> step.n in net.owner)
    && Projected(net, step) == s
  }

  lemma {:induction false} ViewOpen<S, R(!new), A(!new)>(net: Net<S, R, A>, c: Client)
    requires Fit(net) && c in net.fd && !ViewOf(net, c).Closed?
    ensures Owns(net, c) && OwnedRight(net, net.fd[c]) && ViewOf(net, c) == Shows(net.aim[net.fd[c]])
  {
    assert OwnedRight(net, net.fd[c]);
  }

  lemma {:induction false} CoversEvent<S, R(!new), A(!new)>(net: Net<S, R, A>, s: Step<R, A>)
    returns (step: NetStep<R, A>)
    requires Fit(net) && Enabled(Abs(net), s) && (s.Ready? || s.Hangup? || s.Writable?)
    ensures Represents(net, step, s) && !step.Accepts?
  {
    ViewOpen(net, s.c);
    var n := net.fd[s.c];
    step := if s.Ready? then Incoming(n) else if s.Hangup? then Broken(n) else Outgoing(n);
  }

  lemma {:induction false} CoversTask<S, R(!new), A(!new)>(net: Net<S, R, A>, p: Phases<R, A>, s: Step<R, A>)
    returns (step: NetStep<R, A>)
    requires Placed(Abs(net), p) && Enabled(Abs(net), s) && (s.Leave? || s.Answer? || s.Fail? || s.Again?)
    ensures Represents(net, step, s) && !step.Accepts?
  {
    var t := if s.Leave? then Read(s.c) else if s.Answer? then Post(s.e) else if s.Fail? then Send(s.e) else Rearm(s.e);
    TasksKnown(net, p, t);
    step := if s.Leave? then Parts(s.c) else if s.Answer? then Posts(s.e) else if s.Fail? then Breaks(s.e)
            else Rearms(s.e);
  }

  /** A number that no connection has had yet. */
  lemma {:induction false} NewNumber<S, R(!new), A(!new)>(net: Net<S, R, A>) returns (n: Fd)
    requires Fit(net)
    ensures n !in net.owner && n !in net.aim && Quiet(net, n)
  {
    n := AnotherClient(net.fd.Values + net.owner.Keys);
  }

  lemma {:induction false} CoversAccept<S, R(!new), A(!new)>(net: Net<S, R, A>, s: Step<R, A>)
    returns (step: NetStep<R, A>)
    requires Fit(net) && s.Accept? && Enabled(Abs(net), s)
    ensures Represents(net, step, s) && Prompt(net, step)
  {
    var n := NewNumber(net);
    assert s.c !in View(net);
    step := Accepts(s.c, n);
  }

  lemma {:induction false} CoversInner<S, R, A>(net: Net<S, R, A>, s: Step<R, A>) returns (step: NetStep<R, A>)
    requires NamesNone(s) && Enabled(Abs(net), s)
    ensures Represents(net, step, s) && step.Inner?
  {
    InnerEnabled(Abs(net), net.core.watch, s);
    assert Abs(net).(watch := net.core.watch) == net.core;
    step := Inner(s);
  }

  /** Every step by connections is the step of some descriptor numbers, with a prompt accept. */
  lemma {:induction false} Covers<S, R(!new), A(!new)>(net: Net<S, R, A>, p: Phases<R, A>, s: Step<R, A>)
    returns (step: NetStep<R, A>)
    requires Fit(net) && Placed(Abs(net), p) && Enabled(Abs(net), s)
    ensures Represents(net, step, s) && Prompt(net, step)
  {
    if s.Accept? {
      step := CoversAccept(net, s);
    } else if s.Ready? || s.Hangup? || s.Writable? {
      step := CoversEvent(net, s);
    } else if s.Leave? || s.Answer? || s.Fail? || s.Again? {
      step := CoversTask(net, p, s);
    } else {
      step := CoversInner(net, s);
    }
  }

  /** So the runs by connections are exactly the prompt runs by descriptor numbers, seen by connections. */
  lemma {:induction false} Realised<S, R(!new), A(!new)>(h: Server<S, R, A>, db: S, run: seq<Step<R, A>>)
    returns (steps: seq<NetStep<R, A>>)
    requires Runs(h, db, run)
    ensures PromptRun(h, db, steps) && NetRuns(h, NetInitial(db), steps)
    ensures Fit(NetAfter(h, NetInitial(db), steps)) && Abs(NetAfter(h, NetInitial(db), steps)) == After(h, db, run)
  {
    if run == [] {
      steps := [];
    } else {
      var n := |run| - 1;
      steps := Realised(h, db, run[..n]);
      var net := NetAfter(h, NetInitial(db), steps);
      Invariant(h, db, run[..n]);
      var p := PhasesAfter(h, db, run[..n]);
      var step := Covers(net, p, run[n]);
      FitKept(h, net, p, step);
      Simulates(h, net, p, step);
      PromptOn(h, db, steps, step);
      steps := steps + [step];
    }
  }
}
