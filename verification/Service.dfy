/**
  A worker whose requests hear replies.

  In module `Worker` a request completes when an event says so.  Here every
  request carries the replies it has heard, and what happens to its connection
  follows from where they leave the client of module `Delivery`: complete or gone
  it goes to the release routine that may save the connection, broken it does
  not.  Timeouts and clients that hang up come from outside, as before.
 */
module Service {
  import opened Rds
  import opened Pool
  import W = Worker
  import D = Delivery

  /** What a request has heard on its connection, and as which client. */
  datatype Dialogue = Dialogue(start: D.Client, heard: seq<D.Reply>)

  function Client(d: Dialogue): D.Client {
    D.After(d.start, d.heard)
  }

  datatype Event =
    | Ask(id: nat, outcome: W.Outcome, established: bool)   // a new connection may be established at once
    | Hear(id: nat, reply: D.Reply)
    | TimeOut(id: nat)
    | HangUp(id: nat)
    | IdleClosed(at: nat)

  /** The worker, the dialogues of the requests in flight, and the last dialogue that ended on each connection. */
  datatype System = System(w: W.World, live: map<nat, Dialogue>, last: map<Conn, Dialogue>)

  const FINISHED: set<D.Phase> := {D.Complete, D.Gone, D.Broken}

  /** What `process_events` makes of a reply: `done`, an error, or nothing that concerns the pool. */
  function Consequence(id: nat, c: D.Client, r: D.Reply): seq<W.Event> {
    var c' := D.Step(c, r);
    match c'.phase
    case Complete => [W.Complete(id, false)]
    case Gone => [W.Complete(id, true)]
    case Broken => [if c.phase == D.Querying && !r.Answered? then W.Abort(id) else W.Fail(id)]
    case _ => if c.owesNames && !c'.owesNames then [W.NamesAnswered(id)] else []
  }

  function WorkerEvents(s: System, e: Event): seq<W.Event> {
    match e
    case Ask(id, outcome, _) => [W.Arrive(id, outcome)]
    case Hear(id, r) => if id in s.live then Consequence(id, Client(s.live[id]), r) else []
    case TimeOut(id) => [W.Fail(id)]
    case HangUp(id) => [W.Abort(id)]
    case IdleClosed(k) => [W.IdleClosed(k)]
  }

  // ---------------------------------------------------------------- the invariant

  /** A request that has not finished, owing set-names exactly if its client does. */
  predicate Speaking(r: Request, d: Dialogue) {
    && r.conn.Some? && d.start.phase in {D.Connecting, D.Querying}
    && Client(d).phase !in FINISHED && Client(d).owesNames == W.Owes(r)
  }

  predicate Ended(d: Dialogue) {
    Client(d).phase == D.Complete || Client(d).phase == D.Gone
  }

  /** The idle connections. */
  function Idle(maxCached: nat, q: Queues): set<Conn>
    requires Partition(maxCached, q)
  {
    W.Cached(W.View(maxCached, q))
  }

  predicate Valid(conf: Conf, s: System) {
    && W.Inv(conf, s.w) && Partition(conf.maxCached, s.w.q) && W.Holding(s.w) && conf.peers != []
    && s.live.Keys == s.w.reqs.Keys
    && (forall id :: id in s.live ==> Speaking(s.w.reqs[id], s.live[id]))
    && (forall c :: c in Idle(conf.maxCached, s.w.q) ==> c in s.last && Ended(s.last[c]))
  }

  // ---------------------------------------------------------------- steps

  /** The dialogues after the worker has gone from `s.w` to `w`. */
  function Spoken(s: System, e: Event, w: W.World): System
    requires s.live.Keys == s.w.reqs.Keys && W.Holding(s.w)
  {
    match e
    case Ask(id, _, established) =>
      if id !in s.live && id in w.reqs then
        var isNew := w.next != s.w.next;
        var phase := if isNew && established then D.Querying else D.Connecting;
        System(w, s.live[id := Dialogue(D.Client(phase, W.Owes(w.reqs[id])), [])], s.last)
      else s.(w := w)
    case Hear(id, r) =>
      if id !in s.live then s.(w := w)
      else
        var d := s.live[id].(heard := s.live[id].heard + [r]);
        if id in w.reqs then System(w, s.live[id := d], s.last)
        else System(w, s.live - {id}, s.last[s.w.reqs[id].conn.value := d])
    case IdleClosed(_) => s.(w := w)
    case _ =>
      if e.id !in s.live then s.(w := w)
      else System(w, s.live - {e.id}, s.last[s.w.reqs[e.id].conn.value := s.live[e.id]])
  }

  function Step(conf: Conf, s: System, e: Event): System
    requires Valid(conf, s)
  {
    Spoken(s, e, W.Run(conf, s.w, WorkerEvents(s, e)))
  }

  // ---------------------------------------------------------------- what a worker event does to requests and idle connections

  lemma OneEvent(conf: Conf, w: W.World, e: W.Event)
    requires W.Inv(conf, w) && Partition(conf.maxCached, w.q) && W.Holding(w) && conf.peers != []
    ensures W.Run(conf, w, [e]) == W.Step(conf, w, e) && W.Run(conf, w, []) == w
    ensures var w' := W.Step(conf, w, e); W.Inv(conf, w') && Partition(conf.maxCached, w'.q) && W.Holding(w')
  {
    hide W.Inv, W.Step, Partition;
    W.RunOne(conf, w, e);
    W.StepKeeps(conf, w, e);
    W.InvHolds(conf, W.Step(conf, w, e));
  }

  lemma IdleAfterUnlink(maxCached: nat, q: Queues, k: nat, q': Queues)
    requires Partition(maxCached, q) && k < |q.cache| && Partition(maxCached, q')
    requires q'.items == q.items && q'.free == Unlink(q, k).free && q'.cache == Unlink(q, k).cache
    ensures Idle(maxCached, q') <= Idle(maxCached, q)
  {
    var v := W.View(maxCached, q);
    assert |v| == |q.cache|;
    W.ViewUnlink(maxCached, q, k);
    W.SameCache(maxCached, Unlink(q, k), q');
    hide Partition, W.View, Unlink;
    var u := v[..k] + v[k + 1..];
    forall i | 0 <= i < |u| ensures u[i].conn in W.Cached(v) {
      assert u[i] == v[if i < k then i else i + 1];
    }
  }

  /** The queues stay as they are, or one item leaves the cache. */
  ghost predicate AtMostOneTaken(q: Queues, q': Queues) {
    && q'.items == q.items
    && ((q'.cache == q.cache && q'.free == q.free)
        || exists k :: 0 <= k < |q.cache| && q'.cache == Unlink(q, k).cache && q'.free == Unlink(q, k).free)
  }

  lemma TakeEffect(w: W.World, w1: W.World, id: nat, k: nat, r: Request)
    requires k < |w.q.cache| && w.q.cache[k] < |w.q.items| && w1 == w.(q := w.q.(current := w1.q.current))
    ensures var w' := W.Take(w1, id, k, r);
      AtMostOneTaken(w.q, w'.q) && w'.reqs == w.reqs[id := w'.reqs[id]] && w'.reqs[id].conn.Some?
  {
    assert Unlink(w1.q, k).cache == Unlink(w.q, k).cache && Unlink(w1.q, k).free == Unlink(w.q, k).free;
  }

  lemma AskEffect(conf: Conf, w: W.World, id: nat, outcome: W.Outcome)
    requires conf.peers != [] && Partition(conf.maxCached, w.q) && id !in w.reqs
    ensures var w' := W.GetPeer(conf, w, id, outcome);
      && (w'.reqs == w.reqs || (id in w'.reqs && w'.reqs == w.reqs[id := w'.reqs[id]] && w'.reqs[id].conn.Some?))
      && AtMostOneTaken(w.q, w'.q)
  {
    var w1, peer := w.(q := W.Turn(conf, w.q)), W.TurnPeer(conf, w.q);
    var f := Find(w1.q, peer.addr, 0);
    hide Find, W.Take;
    if conf.maxCached > 0 && conf.single && w.q.cache != [] {
      TakeEffect(w, w, id, 0, FreshRequest(w.q.items[w.q.cache[0]].addr, 0, None));
    } else if conf.maxCached > 0 && !conf.single && f.Some? {
      TakeEffect(w, w1, id, f.value, FreshRequest(peer.addr, peer.names, None));
    }
  }

  lemma IdleAfterAsk(conf: Conf, w: W.World, id: nat, outcome: W.Outcome)
    requires conf.peers != [] && Partition(conf.maxCached, w.q) && id !in w.reqs
    requires Partition(conf.maxCached, W.GetPeer(conf, w, id, outcome).q)
    ensures Idle(conf.maxCached, W.GetPeer(conf, w, id, outcome).q) <= Idle(conf.maxCached, w.q)
  {
    AskEffect(conf, w, id, outcome);
    hide W.GetPeer, Unlink, Idle, Partition;
    var q' := W.GetPeer(conf, w, id, outcome).q;
    if q'.cache == w.q.cache && q'.free == w.q.free {
      IdleSame(conf.maxCached, w.q, q');
    } else {
      var k :| 0 <= k < |w.q.cache| && q'.cache == Unlink(w.q, k).cache && q'.free == Unlink(w.q, k).free;
      IdleAfterUnlink(conf.maxCached, w.q, k, q');
    }
  }

  lemma IdleSame(maxCached: nat, q: Queues, q': Queues)
    requires Partition(maxCached, q) && q'.items == q.items && q'.free == q.free && q'.cache == q.cache
    ensures Partition(maxCached, q') && Idle(maxCached, q') == Idle(maxCached, q)
  {
    hide Partition, W.View;
    W.SameCache(maxCached, q, q');
  }

  /** Completion is the only way into the cache, and only for the request's own connection. */
  lemma CompleteEffect(conf: Conf, w: W.World, id: nat, gone: bool, w': W.World)
    requires W.Inv(conf, w) && Partition(conf.maxCached, w.q) && W.Holding(w) && conf.peers != [] && id in w.reqs && !W.Owes(w.reqs[id])
    requires w' == W.Step(conf, w, W.Complete(id, gone)) && Partition(conf.maxCached, w'.q)
    ensures w'.reqs == w.reqs - {id} && Idle(conf.maxCached, w'.q) <= Idle(conf.maxCached, w.q) + {w.reqs[id].conn.value}
  {
    hide W.Inv, Partition, Save, Finalize, W.View, W.AsSet;
    W.InFlight(conf, w, id);
    var r := W.Done(w.reqs[id], gone);
    CompleteQueues(conf, w.q, r);
  }

  lemma CompleteQueues(conf: Conf, q: Queues, r: Request)
    requires Partition(conf.maxCached, q) && CanCache(r)
    ensures Partition(conf.maxCached, Finalize(conf, q, r).q)
    ensures Idle(conf.maxCached, Finalize(conf, q, r).q) <= Idle(conf.maxCached, q) + {r.conn.value}
  {
    hide Partition, Save, Finalize, W.View;
    W.CompleteRelease(conf, q, r);
    var rel, v := Finalize(conf, q, r), W.View(conf.maxCached, q);
    if conf.maxCached > 0 {
      W.ViewSave(conf.maxCached, q, r);
      var item := Item(r.conn.value, r.addr, r.hasSetNames, r.used + 1);
      W.CachedWith(v, item);
      W.SaveEffect(conf.maxCached, q, r);
      if q.free == [] {
        var init := v[..|v| - 1];
        W.CachedWith(init, item);
        forall i | 0 <= i < |init| ensures init[i].conn in W.Cached(v) {
          assert init[i] == v[i];
        }
      }
    } else {
      W.SameCache(conf.maxCached, q, rel.q);
    }
  }

  lemma UnfinishedEffect(conf: Conf, w: W.World, id: nat, e: W.Event, w': W.World)
    requires W.Inv(conf, w) && Partition(conf.maxCached, w.q) && W.Holding(w) && conf.peers != [] && id in w.reqs && e in {W.Fail(id), W.Abort(id)}
    requires w' == W.Step(conf, w, e) && Partition(conf.maxCached, w'.q)
    ensures w'.reqs == w.reqs - {id} && Idle(conf.maxCached, w'.q) == Idle(conf.maxCached, w.q)
  {
    hide W.Inv, Partition, Next, Finalize, W.View, W.AsSet, Idle;
    W.InFlight(conf, w, id);
    NextReleasesOnce(conf, w.q, w.reqs[id]);
    UnfinishedIsClosed(conf, w.q, w.reqs[id]);
    IdleSame(conf.maxCached, w.q, w'.q);
  }

  // ---------------------------------------------------------------- every step keeps the invariant

  lemma AskValid(conf: Conf, s: System, id: nat, outcome: W.Outcome, established: bool)
    requires Valid(conf, s)
    ensures Valid(conf, Step(conf, s, Ask(id, outcome, established)))
  {
    hide W.Inv, Partition, Idle, W.GetPeer, W.Run;
    OneEvent(conf, s.w, W.Arrive(id, outcome));
    if id !in s.w.reqs {
      AskEffect(conf, s.w, id, outcome);
      IdleAfterAsk(conf, s.w, id, outcome);
    }
  }

  lemma StepOwes(c: D.Client, r: D.Reply)
    requires c.phase !in {D.Connecting, D.Querying, D.Broken} ==> !c.owesNames
    requires c.phase !in FINISHED
    ensures var c' := D.Step(c, r);
      (c'.owesNames ==> c.owesNames) && (c'.phase == D.Complete || c'.phase == D.Gone ==> !c.owesNames)
  {
    hide D.ChunkAtom;
  }

  /** What a reply means for a client that has not finished. */
  lemma ReplyEffect(d: Dialogue, r: D.Reply)
    requires d.start.phase in {D.Connecting, D.Querying} && Client(d).phase !in FINISHED
    ensures var d', c, c' := d.(heard := d.heard + [r]), Client(d), D.Step(Client(d), r);
      && Client(d') == c' && (c'.owesNames ==> c.owesNames)
      && (c'.phase == D.Complete || c'.phase == D.Gone ==> !c.owesNames)
  {
    hide D.Step, D.Submits, D.Submitted, D.After, D.NamesAnswers;
    D.HearOneMore(true, d.start, d.heard, r);
    D.NamesAreSetOnce(d.start, d.heard);
    StepOwes(Client(d), r);
  }

  lemma CompletedValid(conf: Conf, s: System, id: nat, gone: bool, d: Dialogue)
    requires Valid(conf, s) && id in s.live && !W.Owes(s.w.reqs[id]) && Ended(d)
    ensures var w' := W.Step(conf, s.w, W.Complete(id, gone));
      id !in w'.reqs && Valid(conf, System(w', s.live - {id}, s.last[s.w.reqs[id].conn.value := d]))
  {
    hide W.Inv, Partition, Idle, W.Step, Ended, Speaking;
    OneEvent(conf, s.w, W.Complete(id, gone));
    CompleteEffect(conf, s.w, id, gone, W.Step(conf, s.w, W.Complete(id, gone)));
  }

  lemma ContinuedValid(conf: Conf, s: System, id: nat, d: Dialogue, w': W.World)
    requires Valid(conf, s) && id in s.live && W.Inv(conf, w') && W.Holding(w')
    requires w'.q == s.w.q && id in w'.reqs && w'.reqs == s.w.reqs[id := w'.reqs[id]] && Speaking(w'.reqs[id], d)
    ensures Valid(conf, System(w', s.live[id := d], s.last))
  {
    hide W.Inv, Partition, Idle, Ended, Speaking;
  }

  /** Hearing a reply, spelled out. */
  lemma HearIs(conf: Conf, s: System, id: nat, r: D.Reply)
    requires Valid(conf, s) && id in s.live
    ensures var d, es := s.live[id].(heard := s.live[id].heard + [r]), Consequence(id, Client(s.live[id]), r);
      var w' := if es == [] then s.w else W.Step(conf, s.w, es[0]);
      Step(conf, s, Hear(id, r)) ==
        if id in w'.reqs then System(w', s.live[id := d], s.last)
        else System(w', s.live - {id}, s.last[s.w.reqs[id].conn.value := d])
  {
    hide W.Inv, Partition, Idle, W.Run, W.Step, D.Step, Client, Speaking, Ended;
    var es := Consequence(id, Client(s.live[id]), r);
    OneEvent(conf, s.w, if es == [] then W.Fail(id) else es[0]);
  }

  lemma InFlight(conf: Conf, s: System, id: nat)
    requires Valid(conf, s) && id in s.live
    ensures id in s.w.reqs && Speaking(s.w.reqs[id], s.live[id])
    ensures Partition(conf.maxCached, s.w.q) && W.Holding(s.w) && W.Inv(conf, s.w) && conf.peers != []
  {
    hide W.Inv, Partition, Idle, W.Holding, Speaking;
  }

  lemma HearValid(conf: Conf, s: System, id: nat, r: D.Reply)
    requires Valid(conf, s) && id in s.live
    ensures Valid(conf, Step(conf, s, Hear(id, r)))
  {
    hide Valid, Step, W.Inv, Partition, W.Holding, W.Step, D.Step, Client;
    InFlight(conf, s, id);
    var d, w := s.live[id], s.w;
    HearIs(conf, s, id, r);
    ReplyEffect(d, r);
    var c, c', d' := Client(d), D.Step(Client(d), r), d.(heard := d.heard + [r]);
    var es := Consequence(id, c, r);
    if c'.phase == D.Complete || c'.phase == D.Gone {
      CompletedValid(conf, s, id, c'.phase == D.Gone, d');
    } else if c'.phase == D.Broken {
      BrokenValid(conf, s, id, es[0], d');
    } else if es == [] {
      assert w.reqs == w.reqs[id := w.reqs[id]];
      ContinuedValid(conf, s, id, d', w);
    } else {
      NamesEffect(conf, w, id);
      OneEvent(conf, w, es[0]);
      ContinuedValid(conf, s, id, d', W.Step(conf, w, es[0]));
    }
  }

  lemma NamesEffect(conf: Conf, w: W.World, id: nat)
    requires conf.peers != [] && Partition(conf.maxCached, w.q) && W.Holding(w) && id in w.reqs && W.Owes(w.reqs[id])
    ensures var w' := W.Step(conf, w, W.NamesAnswered(id)); w'.q == w.q && w'.reqs == w.reqs[id := w.reqs[id].(hasSetNames := true)]
  {
    hide Partition;
  }

  /** A request that ends without completing leaves the idle connections alone. */
  lemma BrokenValid(conf: Conf, s: System, id: nat, e: W.Event, d: Dialogue)
    requires Valid(conf, s) && id in s.live && e in {W.Fail(id), W.Abort(id)}
    ensures var w' := W.Step(conf, s.w, e);
      id !in w'.reqs && Valid(conf, System(w', s.live - {id}, s.last[s.w.reqs[id].conn.value := d]))
  {
    hide W.Inv, Partition, Idle, W.Step;
    OneEvent(conf, s.w, e);
    UnfinishedEffect(conf, s.w, id, e, W.Step(conf, s.w, e));
    HeldIsNotIdle(conf, s.w, id);
  }

  lemma HeldIsNotIdle(conf: Conf, w: W.World, id: nat)
    requires W.Inv(conf, w) && Partition(conf.maxCached, w.q) && id in w.reqs && w.reqs[id].conn.Some?
    ensures w.reqs[id].conn.value !in Idle(conf.maxCached, w.q)
  {
    hide W.Inv, Partition, W.View;
    var v := W.View(conf.maxCached, w.q);
    W.InvParts(conf, w);
    W.SoundParts(v, w);
    W.CachedAreOwned(v, w);
  }

  lemma LeaveValid(conf: Conf, s: System, e: Event)
    requires Valid(conf, s) && (e.TimeOut? || e.HangUp?)
    ensures Valid(conf, Step(conf, s, e))
  {
    hide W.Inv, Partition, Idle, W.Run, W.Step;
    var e' := if e.TimeOut? then W.Fail(e.id) else W.Abort(e.id);
    OneEvent(conf, s.w, e');
    if e.id in s.live {
      BrokenValid(conf, s, e.id, e', s.live[e.id]);
    } else {
      NobodyLeaves(conf, s.w, e.id);
    }
  }

  lemma NobodyLeaves(conf: Conf, w: W.World, id: nat)
    requires conf.peers != [] && Partition(conf.maxCached, w.q) && W.Holding(w) && id !in w.reqs
    ensures W.Step(conf, w, W.Fail(id)) == w && W.Step(conf, w, W.Abort(id)) == w
  {
    hide Partition;
  }

  lemma IdleClosedValid(conf: Conf, s: System, k: nat)
    requires Valid(conf, s)
    ensures Valid(conf, Step(conf, s, IdleClosed(k)))
  {
    hide W.Inv, Partition, Idle, W.Run;
    OneEvent(conf, s.w, W.IdleClosed(k));
    if k < |s.w.q.cache| {
      IdleAfterUnlink(conf.maxCached, s.w.q, k, W.Step(conf, s.w, W.IdleClosed(k)).q);
    }
  }

  lemma StepValid(conf: Conf, s: System, e: Event)
    requires Valid(conf, s)
    ensures Valid(conf, Step(conf, s, e))
  {
    hide Valid, Step;
    match e
    case Ask(id, outcome, established) => AskValid(conf, s, id, outcome, established);
    case Hear(id, r) => if id in s.live { HearValid(conf, s, id, r); } else { Unheard(conf, s, id, r); }
    case TimeOut(id) => LeaveValid(conf, s, e);
    case HangUp(id) => LeaveValid(conf, s, e);
    case IdleClosed(k) => IdleClosedValid(conf, s, k);
  }

  lemma Unheard(conf: Conf, s: System, id: nat, r: D.Reply)
    requires Valid(conf, s) && id !in s.live
    ensures Step(conf, s, Hear(id, r)) == s
  {
    hide W.Inv, Partition, Idle, W.Step;
    OneEvent(conf, s.w, W.Fail(id));
  }

  // ---------------------------------------------------------------- runs

  function Start(conf: Conf): System {
    System(W.Start(conf), map[], map[])
  }

  lemma StartValid(conf: Conf)
    requires conf.peers != []
    ensures Valid(conf, Start(conf))
  {
    W.StartInv(conf);
    assert W.View(conf.maxCached, Init(conf.maxCached)) == [];
    hide W.Inv, Partition, W.View;
    W.InvHolds(conf, W.Start(conf));
  }

  function Run(conf: Conf, s: System, es: seq<Event>): (s': System)
    requires Valid(conf, s)
    ensures Valid(conf, s')
    decreases |es|
  {
    hide Valid, Step;
    if es == [] then s
    else
      StepValid(conf, s, es[0]);
      Run(conf, Step(conf, s, es[0]), es[1..])
  }

  function Reach(conf: Conf, es: seq<Event>): (s: System)
    requires conf.peers != []
    ensures Valid(conf, s)
  {
    StartValid(conf);
    Run(conf, Start(conf), es)
  }

  lemma {:induction false} RunIsWorkerRun(conf: Conf, s: System, es: seq<Event>) returns (ws: seq<W.Event>)
    requires Valid(conf, s)
    ensures W.Inv(conf, s.w) && Run(conf, s, es).w == W.Run(conf, s.w, ws)
    decreases |es|
  {
    hide W.Inv, Partition, Idle, W.Run, WorkerEvents;
    if es == [] {
      ws := [];
      assert W.Run(conf, s.w, ws) == s.w by { OneEvent(conf, s.w, W.Fail(0)); }
    } else {
      StepValid(conf, s, es[0]);
      var first := WorkerEvents(s, es[0]);
      var more := RunIsWorkerRun(conf, Step(conf, s, es[0]), es[1..]);
      ws := first + more;
      W.RunAppend(conf, s.w, first, more);
    }
  }

  /** Law: every run with replies is, for the worker, one of its runs; so its laws hold here. */
  lemma RefinesWorker(conf: Conf, es: seq<Event>)
    requires conf.peers != []
    ensures exists ws :: Reach(conf, es).w == W.Reach(conf, ws)
  {
    StartValid(conf);
    W.StartInv(conf);
    hide Valid, Run, W.Run, W.Inv;
    var ws := RunIsWorkerRun(conf, Start(conf), es);
    assert Reach(conf, es).w == W.Reach(conf, ws);
  }

  /**
    Law: over every run, the last request on an idle connection heard its answer to
    the end, or heard that the table is gone; if what it heard is a delivery of
    some result set, it has written exactly the encoding of that result set.
   */
  lemma IdleConnectionsAreClean(conf: Conf, es: seq<Event>, k: nat, big: bool, rest: seq<D.Reply>, rs: ResultSet)
    requires conf.peers != [] && k < |Reach(conf, es).w.q.cache|
    ensures var s := Reach(conf, es);
      Partition(conf.maxCached, s.w.q) &&
      var c := s.w.q.items[s.w.q.cache[k]].conn;
      && c in s.last && Ended(s.last[c])
      && var d := s.last[c];
         WellFormed(rs) && D.Carries(d.start, d.heard + rest, rs) ==> Client(d).phase == D.Complete && D.Written(big, d.start, d.heard) == Encode(big, rs)
  {
    var s := Reach(conf, es);
    var v := W.View(conf.maxCached, s.w.q);
    var c := s.w.q.items[s.w.q.cache[k]].conn;
    assert v[k].conn == c;
    assert c in Idle(conf.maxCached, s.w.q);
    var d := s.last[c];
    hide *;
    assert Ended(d) ==> Client(d).phase == D.Complete || Client(d).phase == D.Gone;
    if WellFormed(rs) && D.Carries(d.start, d.heard + rest, rs) {
      D.FinishedMeansComplete(big, d.start, d.heard, rest, rs);
    }
  }
}
