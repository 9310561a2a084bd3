/**
  One nginx worker over its whole life: any number of concurrent requests share
  the pool, and every handler runs to its end before the next one starts.  A run
  is a sequence of events; the laws hold in every state a run can reach.

  The world carries, beside what the source stores, a record of what happened to
  each connection: who opened it, which set-names queries it answered, how many
  requests completed on it, when it was last saved, and whether its last request
  completed.  That a request completes when it has heard its whole answer is the
  subject of module `Service`.
 */
module Worker {
  import opened Rds
  import opened Pool

  datatype Outcome = Connects | ConnectFails | NoDescriptor | RegistrationFails

  datatype Event =
    | Arrive(id: nat, outcome: Outcome)   // a request asks for a connection
    | NamesAnswered(id: nat)              // the answer to its set-names query arrives
    | Complete(id: nat, gone: bool)       // `done`: the result was read to the end, or the table is gone
    | Fail(id: nat)                       // timeout, broken connection, protocol error
    | Abort(id: nat)                      // the client went away, or a 500
    | IdleClosed(at: nat)                 // the server closes an idle connection

  datatype World = World(
    q: Queues, reqs: map<nat, Request>,
    open: set<Conn>, next: Conn, clock: nat, failures: nat,
    opener: map<Conn, Peer>, names: map<Conn, seq<nat>>, completions: map<Conn, nat>,
    savedAt: map<Conn, nat>, clean: set<Conn>)

  function Start(conf: Conf): World {
    World(Init(conf.maxCached), map[], {}, 0, 0, 0, map[], map[], map[], map[], {})
  }

  // ---------------------------------------------------------------- the elementary changes

  /** A request takes the connection at position `k` of the cache. */
  function Take(w: World, id: nat, k: nat, r: Request): World
    requires k < |w.q.cache| && w.q.cache[k] < |w.q.items|
  {
    var item := w.q.items[w.q.cache[k]];
    w.(q := Unlink(w.q, k), reqs := w.reqs[id := Reusing(r, item)], clean := w.clean - {item.conn})
  }

  /** A request opens a connection of its own. */
  function Open(w: World, id: nat, peer: Peer): World {
    var c := w.next;
    w.(q := w.q.(active := Up(w.q.active)), reqs := w.reqs[id := FreshRequest(peer.addr, peer.names, Some(c))],
       open := w.open + {c}, next := c + 1, opener := w.opener[c := peer], names := w.names[c := []],
       completions := w.completions[c := 0])
  }

  function AsSet(closed: seq<Conn>): set<Conn> {
    set c | c in closed
  }

  lemma AsSetOfOne(c: Conn)
    ensures AsSet([c]) == {c} && AsSet([]) == {}
  {
  }

  /** The request is over; its connection was saved or closed. */
  function Settle(w: World, id: nat, rel: Released): World
    requires rel.saved.Some? ==> rel.saved.value in w.completions
  {
    var w1 := w.(q := rel.q, reqs := w.reqs - {id}, open := w.open - AsSet(rel.closed));
    match rel.saved
    case None => w1
    case Some(c) =>
      w1.(completions := w.completions[c := w.completions[c] + 1], savedAt := w.savedAt[c := w.clock], clock := w.clock + 1)
  }

  // ---------------------------------------------------------------- the handlers

  /** Round robin: the next peer in turn. */
  function TurnPeer(conf: Conf, q: Queues): Peer
    requires conf.peers != []
  {
    conf.peers[if q.current > |conf.peers| - 1 then 0 else q.current]
  }

  function Turn(conf: Conf, q: Queues): Queues
    requires conf.peers != []
  {
    q.(current := (if q.current > |conf.peers| - 1 then 0 else q.current) + 1)
  }

  /** `ngx_http_upstream_drizzle_get_peer` for a request that found no idle connection. */
  function ConnectPeer(conf: Conf, w: World, id: nat, peer: Peer, outcome: Outcome): World {
    if conf.reject && w.q.active >= conf.maxCached then w
    else match outcome
      case Connects => Open(w, id, peer)
      case ConnectFails => w
      case NoDescriptor => w.(q := w.q.(active := Down(Up(w.q.active))))
      case RegistrationFails =>
        // closed once on the `invalid` path and once more by the release of the request
        w.(q := w.q.(active := Down(Down(Up(w.q.active)))), failures := w.failures + 1)
  }

  /** `ngx_http_upstream_drizzle_get_peer` */
  function GetPeer(conf: Conf, w: World, id: nat, outcome: Outcome): World
    requires conf.peers != [] && Partition(conf.maxCached, w.q)
  {
    if conf.maxCached > 0 && conf.single && w.q.cache != [] then
      Take(w, id, 0, FreshRequest(w.q.items[w.q.cache[0]].addr, 0, None))
    else
      var peer := TurnPeer(conf, w.q);
      var w1 := w.(q := Turn(conf, w.q));
      var found := if conf.maxCached > 0 && !conf.single then Find(w1.q, peer.addr, 0) else None;
      match found
      case Some(k) => Take(w1, id, k, FreshRequest(peer.addr, peer.names, None))
      case None => ConnectPeer(conf, w1, id, peer, outcome)
  }

  predicate Owes(r: Request) {
    r.enableCharset && !r.hasSetNames
  }

  /** Every request in flight holds a connection that is on record. */
  predicate Holding(w: World) {
    forall id :: id in w.reqs ==> w.reqs[id].conn.Some? && w.reqs[id].conn.value in w.names && w.reqs[id].conn.value in w.completions
  }

  function AnswerNames(w: World, id: nat): World
    requires id in w.reqs && Holding(w)
  {
    var r := w.reqs[id];
    var c := r.conn.value;
    w.(reqs := w.reqs[id := r.(hasSetNames := true)], names := w.names[c := w.names[c] + [r.names]])
  }

  /** `ngx_http_upstream_drizzle_done`, up to the release. */
  function Done(r: Request, gone: bool): Request {
    if gone then r.(status := Gone, lengthZero := true) else r.(status := Ok, headerSent := true, lengthZero := true)
  }

  function Step(conf: Conf, w: World, e: Event): World
    requires conf.peers != [] && Partition(conf.maxCached, w.q) && Holding(w)
  {
    match e
    case Arrive(id, outcome) => if id in w.reqs then w else GetPeer(conf, w, id, outcome)
    case NamesAnswered(id) => if id in w.reqs && Owes(w.reqs[id]) then AnswerNames(w, id) else w
    case Complete(id, gone) =>
      if id in w.reqs && !Owes(w.reqs[id]) then
        var c := w.reqs[id].conn.value;
        var rel := Finalize(conf, w.q, Done(w.reqs[id], gone));
        Settle(w.(clean := w.clean + {c}), id, rel)
      else w
    case Fail(id) => if id in w.reqs then Settle(w, id, Next(conf, w.q, w.reqs[id])) else w
    case Abort(id) => if id in w.reqs then Settle(w, id, Finalize(conf, w.q, w.reqs[id])) else w
    case IdleClosed(i) =>
      if i < |w.q.cache| then
        w.(q := Unlink(w.q, i).(active := Down(w.q.active)), open := w.open - {w.q.items[w.q.cache[i]].conn})
      else w
  }

  // ---------------------------------------------------------------- the invariant

  /** The cached items, newest first. */
  function View(maxCached: nat, q: Queues): seq<Item>
    requires Partition(maxCached, q)
  {
    seq(|q.cache|, k requires 0 <= k < |q.cache| => q.items[q.cache[k]])
  }

  function Cached(v: seq<Item>): set<Conn> {
    set k | 0 <= k < |v| :: v[k].conn
  }

  function Held(reqs: map<nat, Request>): set<Conn> {
    set id | id in reqs && reqs[id].conn.Some? :: reqs[id].conn.value
  }

  /** Every open connection is in the cache or with a request, never in two places. */
  predicate Owned(v: seq<Item>, w: World) {
    && w.open == Cached(v) + Held(w.reqs) && Cached(v) !! Held(w.reqs)
    && (forall i, j :: 0 <= i < j < |v| ==> v[i].conn != v[j].conn)
    && (forall i, j :: i in w.reqs && j in w.reqs && i != j ==> w.reqs[i].conn != w.reqs[j].conn)
  }

  /** Requests in flight have not been finished, and every open connection is on record. */
  predicate Recorded(w: World) {
    && (forall id :: id in w.reqs ==> w.reqs[id].conn.Some? && w.reqs[id].status == Unset && !w.reqs[id].failed)
    && (forall c :: c in w.open ==> c < w.next && c in w.opener && c in w.names && c in w.completions)
  }

  /** What is stored with a connection is what happened on it. */
  predicate Remembered(v: seq<Item>, w: World) {
    && (forall k :: 0 <= k < |v| ==> var c := v[k].conn;
          c in w.open && c in w.names && c in w.completions && v[k].used == w.completions[c] && (v[k].hasSetNames <==> |w.names[c]| == 1))
    && (forall id :: id in w.reqs ==> var r := w.reqs[id];
          r.conn.Some? && r.conn.value in w.open && r.conn.value in w.names && r.conn.value in w.completions
          && r.used == w.completions[r.conn.value] && (r.hasSetNames <==> |w.names[r.conn.value]| == 1))
    && (forall c :: c in w.names ==> |w.names[c]| <= 1)
  }

  /** The cache is ordered newest save first. */
  predicate Ordered(v: seq<Item>, w: World) {
    && (forall k :: 0 <= k < |v| ==> v[k].conn in w.savedAt && w.savedAt[v[k].conn] < w.clock)
    && (forall i, j :: 0 <= i < j < |v| && v[i].conn in w.savedAt && v[j].conn in w.savedAt ==>
          w.savedAt[v[i].conn] > w.savedAt[v[j].conn])
  }

  /** The last request on an idle connection completed. */
  predicate Clean(v: seq<Item>, w: World) {
    forall k :: 0 <= k < |v| ==> v[k].conn in w.clean
  }

  predicate Counted(w: World) {
    w.q.active == AsWord(|w.q.cache| + |w.reqs| - w.failures)
  }

  predicate Bounded(conf: Conf, w: World) {
    conf.reject && w.failures + conf.maxCached <= WORD ==> |w.q.cache| + |w.reqs| <= conf.maxCached + w.failures
  }

  predicate Inv(conf: Conf, w: World) {
    && conf.peers != [] && Partition(conf.maxCached, w.q)
    && var v := View(conf.maxCached, w.q);
       Sound(v, w) && Counted(w) && Bounded(conf, w)
  }

  predicate Sound(v: seq<Item>, w: World) {
    Owned(v, w) && Recorded(w) && Remembered(v, w) && Ordered(v, w) && Clean(v, w)
  }

  // ---------------------------------------------------------------- the cache as a list

  lemma ViewUnlink(maxCached: nat, q: Queues, k: nat)
    requires Partition(maxCached, q) && k < |q.cache|
    ensures Partition(maxCached, Unlink(q, k))
    ensures var v := View(maxCached, q); View(maxCached, Unlink(q, k)) == v[..k] + v[k + 1..]
  {
    UnlinkKeepsPartition(maxCached, q, k);
  }

  lemma ViewSave(maxCached: nat, q: Queues, r: Request)
    requires Partition(maxCached, q) && maxCached > 0 && r.conn.Some?
    ensures var v, item := View(maxCached, q), Item(r.conn.value, r.addr, r.hasSetNames, r.used + 1);
      View(maxCached, Save(maxCached, q, r).q) == [item] + if q.free == [] then v[..|v| - 1] else v
  {
    var v, item := View(maxCached, q), Item(r.conn.value, r.addr, r.hasSetNames, r.used + 1);
    var q' := Save(maxCached, q, r).q;
    var rest := if q.free == [] then v[..|v| - 1] else v;
    assert |View(maxCached, q')| == 1 + |rest|;
    forall k | 0 <= k < |q'.cache|
      ensures View(maxCached, q')[k] == ([item] + rest)[k]
    {
    }
  }

  lemma CachedWithout(v: seq<Item>, k: nat)
    requires k < |v| && forall i, j :: 0 <= i < j < |v| ==> v[i].conn != v[j].conn
    ensures Cached(v[..k] + v[k + 1..]) == Cached(v) - {v[k].conn}
  {
    var u := v[..k] + v[k + 1..];
    forall c | c in Cached(v) - {v[k].conn}
      ensures c in Cached(u)
    {
      var i :| 0 <= i < |v| && v[i].conn == c;
      assert u[if i < k then i else i - 1] == v[i];
    }
    forall c | c in Cached(u)
      ensures c in Cached(v) - {v[k].conn}
    {
      var i :| 0 <= i < |u| && u[i].conn == c;
      assert u[i] == v[if i < k then i else i + 1];
    }
  }

  lemma CachedWith(v: seq<Item>, item: Item)
    ensures Cached([item] + v) == Cached(v) + {item.conn}
  {
    var u := [item] + v;
    assert forall i :: 0 <= i < |v| ==> u[i + 1] == v[i];
    assert u[0] == item;
  }

  lemma HeldWith(reqs: map<nat, Request>, id: nat, r: Request)
    requires id !in reqs && r.conn.Some?
    ensures Held(reqs[id := r]) == Held(reqs) + {r.conn.value}
  {
    var m := reqs[id := r];
    assert m[id] == r;
    assert forall i :: i in reqs ==> m[i] == reqs[i];
  }

  lemma HeldWithout(reqs: map<nat, Request>, id: nat)
    requires id in reqs && forall i :: i in reqs ==> reqs[i].conn.Some?
    requires forall i, j :: i in reqs && j in reqs && i != j ==> reqs[i].conn != reqs[j].conn
    ensures Held(reqs - {id}) == Held(reqs) - {reqs[id].conn.value}
    ensures |reqs - {id}| == |reqs| - 1
  {
    var m := reqs - {id};
    assert forall i :: i in m ==> m[i] == reqs[i];
    assert m.Keys == reqs.Keys - {id};
  }

  // ---------------------------------------------------------------- the elementary changes keep it

  lemma CachedAreOwned(v: seq<Item>, w: World)
    requires Owned(v, w)
    ensures forall k :: 0 <= k < |v| ==> v[k].conn in Cached(v) && v[k].conn in w.open && v[k].conn !in Held(w.reqs)
    ensures forall id :: id in w.reqs && w.reqs[id].conn.Some? ==>
      w.reqs[id].conn.value in Held(w.reqs) && w.reqs[id].conn.value in w.open && w.reqs[id].conn.value !in Cached(v)
  {
    assert forall k :: 0 <= k < |v| ==> v[k].conn in Cached(v);
    assert forall id :: id in w.reqs && w.reqs[id].conn.Some? ==> w.reqs[id].conn.value in Held(w.reqs);
  }

  /** A list with one item less, as far as the items are concerned. */
  lemma DropKeeps(v: seq<Item>, k: nat, w: World)
    requires k < |v| && Remembered(v, w) && Ordered(v, w) && Clean(v, w)
    ensures var u := v[..k] + v[k + 1..]; Remembered(u, w) && Ordered(u, w) && Clean(u, w)
  {
    var u := v[..k] + v[k + 1..];
    assert forall i :: 0 <= i < |u| ==> u[i] == v[if i < k then i else i + 1];
    assert Clean(u, w) by { hide Remembered, Ordered; }
    assert Ordered(u, w) by { hide Remembered, Clean; }
    hide Ordered, Clean;
  }

  lemma DropOwned(v: seq<Item>, k: nat, w: World)
    requires k < |v| && Owned(v, w)
    ensures var u := v[..k] + v[k + 1..];
      && Cached(u) == Cached(v) - {v[k].conn} && v[k].conn in Cached(v)
      && (forall i, j :: 0 <= i < j < |u| ==> u[i].conn != u[j].conn)
      && (forall i :: 0 <= i < |u| ==> u[i].conn != v[k].conn)
  {
    CachedWithout(v, k);
    assert v[k].conn in Cached(v);
    var u := v[..k] + v[k + 1..];
    assert forall i :: 0 <= i < |u| ==> u[i] == v[if i < k then i else i + 1];
  }

  // A request takes a cached connection.

  lemma TakeKeeps(v: seq<Item>, w: World, id: nat, k: nat, r: Request, w': World)
    requires Sound(v, w) && k < |v| && id !in w.reqs && r.status == Unset && !r.failed
    requires w' == w.(q := w'.q, reqs := w.reqs[id := Reusing(r, v[k])], clean := w.clean - {v[k].conn})
    ensures Sound(v[..k] + v[k + 1..], w')
  {
    hide *;
    assert Sound(v, w) ==> Owned(v, w) && Recorded(w) && Remembered(v, w) && Ordered(v, w) && Clean(v, w) by {
      SoundParts(v, w);
    }
    var u := v[..k] + v[k + 1..];
    DropKeeps(v, k, w);
    TakeOwned(v, w, id, k, r, w');
    TakeRest(v, w, id, k, r, w');
    SoundParts(u, w');
  }

  lemma SoundParts(v: seq<Item>, w: World)
    ensures Sound(v, w) <==> Owned(v, w) && Recorded(w) && Remembered(v, w) && Ordered(v, w) && Clean(v, w)
  {
  }

  lemma TakeOwned(v: seq<Item>, w: World, id: nat, k: nat, r: Request, w': World)
    requires Owned(v, w) && k < |v| && id !in w.reqs
    requires w'.reqs == w.reqs[id := Reusing(r, v[k])] && w'.open == w.open
    ensures Owned(v[..k] + v[k + 1..], w')
  {
    DropOwned(v, k, w);
    CachedAreOwned(v, w);
    HeldWith(w.reqs, id, Reusing(r, v[k]));
    hide Cached, Held;
  }

  lemma TakeRest(v: seq<Item>, w: World, id: nat, k: nat, r: Request, w': World)
    requires Owned(v, w) && Recorded(w) && Remembered(v, w) && k < |v| && id !in w.reqs && r.status == Unset && !r.failed
    requires Remembered(v[..k] + v[k + 1..], w) && Ordered(v[..k] + v[k + 1..], w) && Clean(v[..k] + v[k + 1..], w)
    requires w' == w.(q := w'.q, reqs := w.reqs[id := Reusing(r, v[k])], clean := w.clean - {v[k].conn})
    ensures var u := v[..k] + v[k + 1..]; Recorded(w') && Remembered(u, w') && Ordered(u, w') && Clean(u, w')
  {
    var u := v[..k] + v[k + 1..];
    DropOwned(v, k, w);
    hide Owned, Cached;
    assert Recorded(w') by { hide Remembered, Ordered, Clean; }
    assert Clean(u, w') by { hide Remembered, Ordered, Recorded; }
    assert Ordered(u, w') by { hide Remembered, Recorded, Clean; }
    TakeRemembered(v, u, w, id, k, r, w');
    hide *;
  }

  lemma TakeRemembered(v: seq<Item>, u: seq<Item>, w: World, id: nat, k: nat, r: Request, w': World)
    requires Remembered(v, w) && Remembered(u, w) && k < |v| && id !in w.reqs
    requires w' == w.(q := w'.q, reqs := w.reqs[id := Reusing(r, v[k])], clean := w.clean - {v[k].conn})
    ensures Remembered(u, w')
  {
  }

  // A request opens a connection.

  lemma OpenKeeps(v: seq<Item>, w: World, id: nat, peer: Peer)
    requires Sound(v, w) && id !in w.reqs
    ensures Sound(v, Open(w, id, peer))
  {
    hide *;
    SoundParts(v, w);
    OpenOwned(v, w, id, peer);
    OpenRest(v, w, id, peer);
    SoundParts(v, Open(w, id, peer));
  }

  lemma OpenOwned(v: seq<Item>, w: World, id: nat, peer: Peer)
    requires Owned(v, w) && Recorded(w) && id !in w.reqs
    ensures Owned(v, Open(w, id, peer))
  {
    CachedAreOwned(v, w);
    HeldWith(w.reqs, id, FreshRequest(peer.addr, peer.names, Some(w.next)));
    assert w.next !in w.open;
    hide Cached, Held;
  }

  lemma OpenRest(v: seq<Item>, w: World, id: nat, peer: Peer)
    requires Recorded(w) && Remembered(v, w) && Ordered(v, w) && Clean(v, w) && id !in w.reqs
    ensures var w' := Open(w, id, peer); Recorded(w') && Remembered(v, w') && Ordered(v, w') && Clean(v, w')
  {
    var w' := Open(w, id, peer);
    assert w.next !in w.open;
    assert Recorded(w') by { hide Remembered, Ordered, Clean; }
    assert Clean(v, w') by { hide Remembered, Ordered, Recorded; }
    assert Ordered(v, w') by { hide Remembered, Recorded, Clean; }
    hide Recorded, Clean, Ordered;
  }

  // The set-names query of a request is answered.

  lemma NamesKeep(v: seq<Item>, w: World, id: nat)
    requires Sound(v, w) && id in w.reqs && !w.reqs[id].hasSetNames && Holding(w)
    ensures Sound(v, AnswerNames(w, id))
  {
    hide Owned, Recorded, Remembered, Ordered, Clean, AnswerNames;
    NamesOwned(v, w, id);
    NamesRest(v, w, id);
    NamesRemembered(v, w, id);
  }

  lemma NamesOwned(v: seq<Item>, w: World, id: nat)
    requires Owned(v, w) && id in w.reqs && Holding(w)
    ensures Owned(v, AnswerNames(w, id))
  {
    var w' := AnswerNames(w, id);
    assert forall i :: i in w.reqs ==> w'.reqs[i].conn == w.reqs[i].conn;
    assert Held(w'.reqs) == Held(w.reqs);
    hide Cached, Held;
  }

  lemma NamesRest(v: seq<Item>, w: World, id: nat)
    requires Recorded(w) && Ordered(v, w) && Clean(v, w) && id in w.reqs && Holding(w)
    ensures var w' := AnswerNames(w, id); Recorded(w') && Ordered(v, w') && Clean(v, w')
  {
    var w' := AnswerNames(w, id);
    assert Recorded(w') by { hide Ordered, Clean; }
    assert Ordered(v, w') by { hide Recorded, Clean; }
    hide Recorded, Ordered;
  }

  lemma NamesRemembered(v: seq<Item>, w: World, id: nat)
    requires Owned(v, w) && Remembered(v, w) && id in w.reqs && !w.reqs[id].hasSetNames && Holding(w)
    ensures Remembered(v, AnswerNames(w, id))
  {
    CachedAreOwned(v, w);
    var c := w.reqs[id].conn.value;
    assert forall i :: i in w.reqs && i != id ==> w.reqs[i].conn != w.reqs[id].conn;
    assert |w.names[c]| == 0;
    hide Owned, Cached, Held;
  }

  // The connection of a request that is over leaves with it.

  lemma LeaveKeeps(v: seq<Item>, w: World, id: nat, w': World)
    requires Sound(v, w) && id in w.reqs && w.reqs[id].conn.Some?
    requires w' == w.(q := w'.q, reqs := w.reqs - {id}, open := w.open - {w.reqs[id].conn.value})
    ensures Sound(v, w')
  {
    hide *;
    SoundParts(v, w);
    LeaveOwned(v, w, id, w');
    LeaveRest(v, w, id, w');
    SoundParts(v, w');
  }

  lemma LeaveOwned(v: seq<Item>, w: World, id: nat, w': World)
    requires Owned(v, w) && Recorded(w) && id in w.reqs
    requires w'.reqs == w.reqs - {id} && w'.open == w.open - {w.reqs[id].conn.value}
    ensures Owned(v, w')
  {
    HeldWithout(w.reqs, id);
    CachedAreOwned(v, w);
    hide Cached, Held;
  }

  lemma LeaveRest(v: seq<Item>, w: World, id: nat, w': World)
    requires Owned(v, w) && Recorded(w) && Remembered(v, w) && Ordered(v, w) && Clean(v, w) && id in w.reqs
    requires w' == w.(q := w'.q, reqs := w.reqs - {id}, open := w.open - {w.reqs[id].conn.value})
    ensures Recorded(w') && Remembered(v, w') && Ordered(v, w') && Clean(v, w')
  {
    CachedAreOwned(v, w);
    assert forall i :: i in w.reqs && i != id ==> w.reqs[i].conn != w.reqs[id].conn;
    hide Owned, Cached, Held;
    assert Recorded(w') by { hide Remembered, Ordered, Clean; }
    assert Clean(v, w') by { hide Remembered, Ordered, Recorded; }
    assert Ordered(v, w') by { hide Remembered, Recorded, Clean; }
    hide Clean, Ordered;
  }

  // An idle connection is closed.

  lemma IdleKeeps(v: seq<Item>, w: World, k: nat, w': World)
    requires Sound(v, w) && k < |v|
    requires w' == w.(q := w'.q, open := w.open - {v[k].conn})
    ensures Sound(v[..k] + v[k + 1..], w')
  {
    hide *;
    SoundParts(v, w);
    DropKeeps(v, k, w);
    IdleOwned(v, w, k, w');
    IdleRest(v, w, k, w');
    SoundParts(v[..k] + v[k + 1..], w');
  }

  lemma IdleOwned(v: seq<Item>, w: World, k: nat, w': World)
    requires Owned(v, w) && k < |v| && w'.reqs == w.reqs && w'.open == w.open - {v[k].conn}
    ensures Owned(v[..k] + v[k + 1..], w')
  {
    DropOwned(v, k, w);
    CachedAreOwned(v, w);
    hide Cached, Held;
  }

  lemma IdleRest(v: seq<Item>, w: World, k: nat, w': World)
    requires Owned(v, w) && Recorded(w) && k < |v|
    requires Remembered(v[..k] + v[k + 1..], w) && Ordered(v[..k] + v[k + 1..], w) && Clean(v[..k] + v[k + 1..], w)
    requires w' == w.(q := w'.q, open := w.open - {v[k].conn})
    ensures var u := v[..k] + v[k + 1..]; Recorded(w') && Remembered(u, w') && Ordered(u, w') && Clean(u, w')
  {
    var u := v[..k] + v[k + 1..];
    DropOwned(v, k, w);
    CachedAreOwned(v, w);
    hide Owned, Cached, Held;
    assert Recorded(w') by { hide Remembered, Ordered, Clean; }
    assert Clean(u, w') by { hide Remembered, Ordered, Recorded; }
    assert Ordered(u, w') by { hide Remembered, Recorded, Clean; }
    hide Clean, Ordered;
  }

  // A connection that no request holds any more becomes the newest cached one.

  predicate Entering(w: World, item: Item) {
    && item.conn !in w.open && item.conn in w.clean
    && item.conn < w.next && item.conn in w.opener && item.conn in w.names && item.conn in w.completions
    && item.used == w.completions[item.conn] + 1 && (item.hasSetNames <==> |w.names[item.conn]| == 1)
  }

  predicate Entered(w: World, item: Item, w': World)
    requires item.conn in w.completions
  {
    w' == w.(
      q := w'.q, open := w.open + {item.conn}, clock := w.clock + 1,
      completions := w.completions[item.conn := w.completions[item.conn] + 1], savedAt := w.savedAt[item.conn := w.clock])
  }

  lemma EnterKeeps(v: seq<Item>, w: World, item: Item, w': World)
    requires Sound(v, w) && Entering(w, item) && Entered(w, item, w')
    ensures Sound([item] + v, w')
  {
    hide Owned, Recorded, Remembered, Ordered, Clean;
    EnterOwned(v, w, item, w');
    EnterRest(v, w, item, w');
    EnterRemembered(v, w, item, w');
  }

  lemma EnterOwned(v: seq<Item>, w: World, item: Item, w': World)
    requires Owned(v, w) && item.conn !in w.open
    requires w'.reqs == w.reqs && w'.open == w.open + {item.conn}
    ensures Owned([item] + v, w')
  {
    CachedWith(v, item);
    CachedAreOwned(v, w);
    hide Cached, Held;
  }

  lemma EnterRest(v: seq<Item>, w: World, item: Item, w': World)
    requires Owned(v, w) && Recorded(w) && Ordered(v, w) && Clean(v, w) && Entering(w, item) && Entered(w, item, w')
    ensures Recorded(w') && Ordered([item] + v, w') && Clean([item] + v, w')
  {
    var u := [item] + v;
    CachedAreOwned(v, w);
    assert forall k :: 0 < k < |u| ==> u[k] == v[k - 1];
    hide Owned, Cached, Held;
    assert Recorded(w') by { hide Ordered, Clean; }
    assert Clean(u, w') by { hide Ordered, Recorded; }
    hide Clean, Recorded;
  }

  lemma EnterRemembered(v: seq<Item>, w: World, item: Item, w': World)
    requires Owned(v, w) && Remembered(v, w) && Entering(w, item) && Entered(w, item, w')
    ensures Remembered([item] + v, w')
  {
    var u := [item] + v;
    CachedAreOwned(v, w);
    assert forall k :: 0 < k < |u| ==> u[k] == v[k - 1];
    hide Owned, Cached, Held;
  }

  // ---------------------------------------------------------------- every event keeps it

  /** Only the queues' cache and items matter to the record. */
  lemma QueuesDoNotMatter(v: seq<Item>, w: World, q: Queues)
    requires Sound(v, w)
    ensures Sound(v, w.(q := q))
  {
  }

  lemma MoreCleanKeeps(v: seq<Item>, w: World, c: Conn)
    requires Sound(v, w)
    ensures Sound(v, w.(clean := w.clean + {c}))
  {
  }

  lemma TakeEvent(conf: Conf, w: World, id: nat, k: nat, r: Request)
    requires Inv(conf, w) && id !in w.reqs && k < |w.q.cache| && r.status == Unset && !r.failed
    ensures Inv(conf, Take(w, id, k, r))
  {
    hide Inv, Sound, AsWord;
    InvHolds(conf, w);
    InvParts(conf, w);
    var v, w' := View(conf.maxCached, w.q), Take(w, id, k, r);
    ViewUnlink(conf.maxCached, w.q, k);
    assert v[k] == w.q.items[w.q.cache[k]];
    hide Partition, View;
    OneMore(w.reqs, id, Reusing(r, v[k]));
    TakeKeeps(v, w, id, k, r, w');
    InvParts(conf, w');
  }

  lemma SameCache(maxCached: nat, q: Queues, q': Queues)
    requires Partition(maxCached, q) && q'.items == q.items && q'.free == q.free && q'.cache == q.cache
    ensures Partition(maxCached, q') && View(maxCached, q') == View(maxCached, q)
  {
  }

  lemma OneMore(reqs: map<nat, Request>, id: nat, r: Request)
    requires id !in reqs
    ensures |reqs[id := r]| == |reqs| + 1
  {
    assert reqs[id := r].Keys == reqs.Keys + {id};
  }

  lemma OneLess(reqs: map<nat, Request>, id: nat)
    requires id in reqs
    ensures |reqs - {id}| == |reqs| - 1
  {
    assert (reqs - {id}).Keys == reqs.Keys - {id};
  }

  lemma ConnectEvent(conf: Conf, w: World, id: nat, peer: Peer, outcome: Outcome)
    requires Inv(conf, w) && id !in w.reqs
    ensures Inv(conf, ConnectPeer(conf, w, id, peer, outcome))
  {
    hide Partition, Sound, View, Counted, Bounded, Up, Down;
    var v, w' := View(conf.maxCached, w.q), ConnectPeer(conf, w, id, peer, outcome);
    SameCache(conf.maxCached, w.q, w'.q);
    ConnectCounts(conf, w, id, peer, outcome);
    if outcome == Connects {
      OpenKeeps(v, w, id, peer);
    } else {
      FailuresDoNotMatter(v, w, w'.q, w'.failures);
    }
  }

  lemma ConnectCounts(conf: Conf, w: World, id: nat, peer: Peer, outcome: Outcome)
    requires Counted(w) && Bounded(conf, w) && id !in w.reqs
    ensures var w' := ConnectPeer(conf, w, id, peer, outcome); Counted(w') && Bounded(conf, w')
  {
    WordSteps(|w.q.cache| + |w.reqs| - w.failures);
    UpDown(w.q.active);
    OneMore(w.reqs, id, FreshRequest(peer.addr, peer.names, Some(w.next)));
    hide AsWord, Up, Down;
  }

  lemma FailuresDoNotMatter(v: seq<Item>, w: World, q: Queues, failures: nat)
    requires Sound(v, w)
    ensures Sound(v, w.(q := q, failures := failures))
  {
  }

  lemma ArriveEvent(conf: Conf, w: World, id: nat, outcome: Outcome)
    requires Inv(conf, w) && id !in w.reqs
    ensures Inv(conf, GetPeer(conf, w, id, outcome))
  {
    hide Sound;
    if conf.maxCached > 0 && conf.single && w.q.cache != [] {
      TakeEvent(conf, w, id, 0, FreshRequest(w.q.items[w.q.cache[0]].addr, 0, None));
    } else {
      var w1 := w.(q := Turn(conf, w.q));
      assert Inv(conf, w1) by {
        SameCache(conf.maxCached, w.q, w1.q);
        QueuesDoNotMatter(View(conf.maxCached, w.q), w, w1.q);
      }
      var peer := TurnPeer(conf, w.q);
      if conf.maxCached > 0 && !conf.single && Find(w1.q, peer.addr, 0).Some? {
        TakeEvent(conf, w1, id, Find(w1.q, peer.addr, 0).value, FreshRequest(peer.addr, peer.names, None));
      } else {
        ConnectEvent(conf, w1, id, peer, outcome);
      }
    }
  }

  /** A request is over and its connection closed. */
  lemma CloseEvent(conf: Conf, w: World, id: nat, w': World)
    requires Inv(conf, w) && id in w.reqs && w.reqs[id].conn.Some?
    requires w' == w.(q := w.q.(active := Down(w.q.active)), reqs := w.reqs - {id}, open := w.open - {w.reqs[id].conn.value})
    ensures Inv(conf, w')
  {
    hide Partition, Sound, View, AsWord, Down;
    SameCache(conf.maxCached, w.q, w'.q);
    WordSteps(|w.q.cache| + |w.reqs| - w.failures);
    OneLess(w.reqs, id);
    LeaveKeeps(View(conf.maxCached, w.q), w, id, w');
  }

  lemma IdleEvent(conf: Conf, w: World, k: nat)
    requires Inv(conf, w) && k < |w.q.cache|
    ensures Inv(conf, w.(q := Unlink(w.q, k).(active := Down(w.q.active)), open := w.open - {w.q.items[w.q.cache[k]].conn}))
  {
    hide Inv, Sound, AsWord, Down;
    InvHolds(conf, w);
    InvParts(conf, w);
    var v := View(conf.maxCached, w.q);
    var w' := w.(q := Unlink(w.q, k).(active := Down(w.q.active)), open := w.open - {w.q.items[w.q.cache[k]].conn});
    ViewUnlink(conf.maxCached, w.q, k);
    assert v[k] == w.q.items[w.q.cache[k]] && |v| == |w.q.cache|;
    hide Partition, View;
    SameCache(conf.maxCached, Unlink(w.q, k), w'.q);
    WordSteps(|w.q.cache| + |w.reqs| - w.failures);
    IdleKeeps(v, w, k, w');
    InvParts(conf, w');
  }

  lemma NamesEvent(conf: Conf, w: World, id: nat)
    requires Inv(conf, w) && id in w.reqs && !w.reqs[id].hasSetNames && Holding(w)
    ensures Inv(conf, AnswerNames(w, id))
  {
    hide Sound, Partition;
    NamesKeep(View(conf.maxCached, w.q), w, id);
    assert (w.reqs[id := w.reqs[id].(hasSetNames := true)]).Keys == w.reqs.Keys;
  }

  /** A request is over and its connection becomes the newest cached one; the oldest may have to go. */
  lemma SaveSound(v: seq<Item>, w: World, id: nat, item: Item, full: bool, w': World)
    requires Sound(v, w) && id in w.reqs && w.reqs[id].conn == Some(item.conn) && (full ==> |v| > 0)
    requires item.conn in w.clean && item.conn in w.completions
    requires item.hasSetNames == w.reqs[id].hasSetNames && item.used == w.reqs[id].used + 1
    requires w' == w.(
      q := w'.q, reqs := w.reqs - {id}, open := w.open - (if full then {v[|v| - 1].conn} else {}), clock := w.clock + 1,
      completions := w.completions[item.conn := w.completions[item.conn] + 1], savedAt := w.savedAt[item.conn := w.clock])
    ensures Sound([item] + if full then v[..|v| - 1] else v, w')
  {
    hide Sound;
    var c := item.conn;
    var gone := w.(reqs := w.reqs - {id}, open := w.open - {c});
    SaveOwned(v, w, id);
    assert Entering(gone, item);
    LeaveKeeps(v, w, id, gone);
    if full {
      var dropped := gone.(open := gone.open - {v[|v| - 1].conn});
      IdleKeeps(v, gone, |v| - 1, dropped);
      assert v[..|v| - 1] + v[|v|..] == v[..|v| - 1];
      assert w'.open == dropped.open + {c};
      EnterKeeps(v[..|v| - 1], dropped, item, w');
    } else {
      assert w'.open == gone.open + {c};
      EnterKeeps(v, gone, item, w');
    }
  }

  lemma InvParts(conf: Conf, w: World)
    requires Partition(conf.maxCached, w.q)
    ensures Inv(conf, w) <==> conf.peers != [] && Sound(View(conf.maxCached, w.q), w) && Counted(w) && Bounded(conf, w)
  {
  }

  lemma SaveEvent(conf: Conf, w: World, id: nat, r: Request)
    requires Inv(conf, w) && id in w.reqs && conf.maxCached > 0
    requires w.reqs[id].conn.Some? && w.reqs[id].conn.value in w.clean && w.reqs[id].conn.value in w.completions
    requires r == w.reqs[id].(status := r.status, headerSent := r.headerSent, lengthZero := r.lengthZero)
    requires Partition(conf.maxCached, w.q)
    ensures Inv(conf, Settle(w, id, Save(conf.maxCached, w.q, r)))
  {
    hide Inv, Partition, Sound, View, Save, AsSet, Counted, Bounded;
    InvHolds(conf, w);
    InvParts(conf, w);
    var v, rel := View(conf.maxCached, w.q), Save(conf.maxCached, w.q, r);
    var item := Item(r.conn.value, r.addr, r.hasSetNames, r.used + 1);
    var full := w.q.free == [];
    SaveEffect(conf.maxCached, w.q, r);
    AsSetOfOne(if full then v[|v| - 1].conn else 0);
    var w' := Settle(w, id, rel);
    SaveSound(v, w, id, item, full, w');
    SettleCounts(w, id, rel);
    hide Settle;
    SaveCounts(conf, w, id, w', full);
    InvParts(conf, w');
  }

  /** Saving takes a request away and adds an idle connection, unless one is evicted. */
  lemma SaveCounts(conf: Conf, w: World, id: nat, w': World, full: bool)
    requires Counted(w) && Bounded(conf, w) && id in w.reqs && w'.reqs == w.reqs - {id} && w'.failures == w.failures
    requires if full then |w'.q.cache| == |w.q.cache| && w'.q.active == Down(w.q.active)
             else |w'.q.cache| == |w.q.cache| + 1 && w'.q.active == w.q.active
    ensures Counted(w') && Bounded(conf, w')
  {
    hide AsWord, Down;
    WordSteps(|w.q.cache| + |w.reqs| - w.failures);
    OneLess(w.reqs, id);
  }

  lemma SettleCounts(w: World, id: nat, rel: Released)
    requires rel.saved.Some? ==> rel.saved.value in w.completions
    ensures var w' := Settle(w, id, rel); w'.q == rel.q && w'.reqs == w.reqs - {id} && w'.failures == w.failures
  {
  }

  /** What saving does to the cache and to the counter. */
  lemma SaveEffect(maxCached: nat, q: Queues, r: Request)
    requires Partition(maxCached, q) && maxCached > 0 && r.conn.Some?
    ensures var v, rel := View(maxCached, q), Save(maxCached, q, r);
      var item := Item(r.conn.value, r.addr, r.hasSetNames, r.used + 1);
      && |v| == |q.cache| && rel.saved == r.conn
      && (q.free == [] ==>
            && |v| > 0 && rel.closed == [v[|v| - 1].conn]
            && View(maxCached, rel.q) == [item] + v[..|v| - 1]
            && |rel.q.cache| == |v| && rel.q.active == Down(q.active))
      && (q.free != [] ==>
            && rel.closed == []
            && View(maxCached, rel.q) == [item] + v
            && |rel.q.cache| == |v| + 1 && rel.q.active == q.active)
  {
    ViewSave(maxCached, q, r);
  }

  lemma SaveOwned(v: seq<Item>, w: World, id: nat)
    requires Sound(v, w) && id in w.reqs && w.reqs[id].conn.Some?
    ensures var c := w.reqs[id].conn.value;
      && c in w.open && (forall k :: 0 <= k < |v| ==> v[k].conn != c)
      && c < w.next && c in w.opener && c in w.names && c in w.completions
      && w.reqs[id].used == w.completions[c] && (w.reqs[id].hasSetNames <==> |w.names[c]| == 1)
  {
    CachedAreOwned(v, w);
  }

  lemma InvHolds(conf: Conf, w: World)
    requires Inv(conf, w)
    ensures Partition(conf.maxCached, w.q) && Holding(w)
  {
  }

  lemma MoreCleanInv(conf: Conf, w: World, c: Conn)
    requires Inv(conf, w)
    ensures Inv(conf, w.(clean := w.clean + {c}))
  {
    hide Sound, Partition;
    MoreCleanKeeps(View(conf.maxCached, w.q), w, c);
  }

  /** Saving is what the release does when the request is complete and there is a pool. */
  lemma CompleteRelease(conf: Conf, q: Queues, r: Request)
    requires Partition(conf.maxCached, q) && CanCache(r)
    ensures Finalize(conf, q, r) == if conf.maxCached > 0 then Save(conf.maxCached, q, r) else Close(q, r)
  {
    hide Partition, Save;
    assert r.(failed := r.failed || (conf.maxCached > 0 && false)) == r;
  }

  lemma CompleteEvent(conf: Conf, w: World, id: nat, gone: bool)
    requires Inv(conf, w) && id in w.reqs && !Owes(w.reqs[id]) && Holding(w) && Partition(conf.maxCached, w.q)
    requires !w.reqs[id].failed
    ensures conf.peers != [] && Inv(conf, Step(conf, w, Complete(id, gone)))
  {
    hide Inv, Partition, Save, Finalize, Sound, AsSet, View;
    InvParts(conf, w);
    var r := Done(w.reqs[id], gone);
    var w1 := w.(clean := w.clean + {r.conn.value});
    MoreCleanInv(conf, w, r.conn.value);
    CompleteRelease(conf, w.q, r);
    if conf.maxCached > 0 {
      SaveEvent(conf, w1, id, r);
    } else {
      AsSetOfOne(r.conn.value);
      CloseEvent(conf, w1, id, Settle(w1, id, Close(w.q, r)));
    }
  }

  lemma UnfinishedEvent(conf: Conf, w: World, id: nat, e: Event)
    requires Inv(conf, w) && id in w.reqs && Holding(w) && e in {Fail(id), Abort(id)} && Partition(conf.maxCached, w.q)
    requires w.reqs[id].status == Unset
    ensures conf.peers != [] && Inv(conf, Step(conf, w, e))
  {
    hide Inv, Partition, Next, Finalize, Sound, AsSet, View;
    InvParts(conf, w);
    var r := w.reqs[id];
    NextReleasesOnce(conf, w.q, r);
    UnfinishedIsClosed(conf, w.q, r);
    AsSetOfOne(r.conn.value);
    CloseEvent(conf, w, id, Step(conf, w, e));
  }

  lemma InFlight(conf: Conf, w: World, id: nat)
    requires Inv(conf, w) && id in w.reqs
    ensures !w.reqs[id].failed && w.reqs[id].status == Unset
  {
  }

  lemma StepKeeps(conf: Conf, w: World, e: Event)
    requires Inv(conf, w) && Partition(conf.maxCached, w.q) && Holding(w) && conf.peers != []
    ensures Inv(conf, Step(conf, w, e))
  {
    hide Inv, Partition;
    match e
    case Arrive(id, outcome) => if id !in w.reqs { ArriveEvent(conf, w, id, outcome); }
    case NamesAnswered(id) => if id in w.reqs && Owes(w.reqs[id]) { NamesEvent(conf, w, id); }
    case Complete(id, gone) => if id in w.reqs && !Owes(w.reqs[id]) { InFlight(conf, w, id); CompleteEvent(conf, w, id, gone); }
    case Fail(id) => if id in w.reqs { InFlight(conf, w, id); UnfinishedEvent(conf, w, id, e); }
    case Abort(id) => if id in w.reqs { InFlight(conf, w, id); UnfinishedEvent(conf, w, id, e); }
    case IdleClosed(k) => if k < |w.q.cache| { IdleEvent(conf, w, k); }
  }

  // ---------------------------------------------------------------- runs

  lemma StartInv(conf: Conf)
    requires conf.peers != []
    ensures Inv(conf, Start(conf))
  {
    InitIsPartition(conf.maxCached);
    assert Cached(View(conf.maxCached, Init(conf.maxCached))) == {};
    assert Held(map[]) == {};
  }

  /** The worker after a sequence of events; every state on the way satisfies the invariant. */
  function Run(conf: Conf, w: World, es: seq<Event>): (w': World)
    requires Inv(conf, w)
    ensures Inv(conf, w')
    decreases |es|
  {
    hide Inv, Partition;
    if es == [] then w
    else
      InvHolds(conf, w);
      InvParts(conf, w);
      StepKeeps(conf, w, es[0]);
      Run(conf, Step(conf, w, es[0]), es[1..])
  }

  /** The state a worker reaches by a run of events. */
  function Reach(conf: Conf, es: seq<Event>): (w: World)
    requires conf.peers != []
    ensures Inv(conf, w)
  {
    StartInv(conf);
    Run(conf, Start(conf), es)
  }

  lemma {:induction false} RunAppend(conf: Conf, w: World, s: seq<Event>, t: seq<Event>)
    requires Inv(conf, w)
    ensures Run(conf, w, s + t) == Run(conf, Run(conf, w, s), t)
    decreases |s|
  {
    hide Inv, Partition, Step;
    if s == [] {
      assert s + t == t;
    } else {
      assert (s + t)[0] == s[0] && (s + t)[1..] == s[1..] + t;
      InvHolds(conf, w);
      InvParts(conf, w);
      StepKeeps(conf, w, s[0]);
      RunAppend(conf, Step(conf, w, s[0]), s[1..], t);
    }
  }

  lemma RunOne(conf: Conf, w: World, e: Event)
    requires Inv(conf, w) && Partition(conf.maxCached, w.q) && Holding(w) && conf.peers != []
    ensures Run(conf, w, [e]) == Step(conf, w, e)
  {
    hide Inv, Partition, Step;
    assert [e][1..] == [];
    StepKeeps(conf, w, e);
    assert Run(conf, Step(conf, w, e), []) == Step(conf, w, e);
  }

  /** One more event at the end of a run. */
  lemma Then(conf: Conf, es: seq<Event>, e: Event) returns (es': seq<Event>)
    requires conf.peers != []
    ensures es' == es + [e]
    ensures Partition(conf.maxCached, Reach(conf, es).q) && Holding(Reach(conf, es))
    ensures Reach(conf, es') == Step(conf, Reach(conf, es), e)
  {
    hide Inv, Partition, Step, Run;
    es' := es + [e];
    StartInv(conf);
    RunAppend(conf, Start(conf), es, [e]);
    InvHolds(conf, Reach(conf, es));
    RunOne(conf, Reach(conf, es), e);
  }

  lemma {:induction false} CountCached(v: seq<Item>)
    requires forall i, j :: 0 <= i < j < |v| ==> v[i].conn != v[j].conn
    ensures |Cached(v)| == |v|
  {
    if v != [] {
      var init := v[..|v| - 1];
      CountCached(init);
      CachedWithout(v, |v| - 1);
      assert v[..|v| - 1] + v[|v|..] == init;
      assert v[|v| - 1].conn in Cached(v);
    }
  }

  lemma {:induction false} CountHeld(reqs: map<nat, Request>)
    requires forall i :: i in reqs ==> reqs[i].conn.Some?
    requires forall i, j :: i in reqs && j in reqs && i != j ==> reqs[i].conn != reqs[j].conn
    ensures |Held(reqs)| == |reqs|
    decreases |reqs|
  {
    if reqs == map[] {
      assert Held(reqs) == {};
    } else {
      var id :| id in reqs;
      HeldWithout(reqs, id);
      assert reqs[id].conn.value in Held(reqs);
      CountHeld(reqs - {id});
    }
  }

  lemma OpenCount(conf: Conf, w: World)
    requires Inv(conf, w)
    ensures |w.open| == |w.q.cache| + |w.reqs|
  {
    var v := View(conf.maxCached, w.q);
    CountCached(v);
    CountHeld(w.reqs);
    assert |Cached(v) + Held(w.reqs)| == |Cached(v)| + |Held(w.reqs)|;
  }

  /**
    Law: in every state of every run, each open connection is with exactly one
    request or in exactly one cached item, and the counter of active connections
    is, modulo the size of a word, the number of open connections less one for
    every connection whose event registration failed.
   */
  lemma PoolAccounting(conf: Conf, es: seq<Event>)
    requires conf.peers != []
    ensures var w := Reach(conf, es);
      && Partition(conf.maxCached, w.q)
      && Owned(View(conf.maxCached, w.q), w)
      && w.q.active == AsWord(|w.open| - w.failures)
      && |w.open| == |w.q.cache| + |w.reqs|
  {
    hide Inv, AsWord, Owned;
    var w := Reach(conf, es);
    OpenCount(conf, w);
    InvHolds(conf, w);
    InvParts(conf, w);
    SoundParts(View(conf.maxCached, w.q), w);
  }

  /**
    Law: with overflow rejection the open connections never exceed the pool size
    by more than the failed registrations; without such failures the counter is
    exact and saving never evicts.
   */
  lemma RejectionBounds(conf: Conf, es: seq<Event>)
    requires conf.peers != [] && conf.reject && Reach(conf, es).failures + conf.maxCached <= WORD
    ensures var w := Reach(conf, es);
      && |w.open| <= conf.maxCached + w.failures
      && (w.failures == 0 ==> |w.open| == w.q.active <= conf.maxCached && (w.reqs != map[] ==> w.q.free != []))
  {
    hide Inv, AsWord, Owned, Sound;
    PoolAccounting(conf, es);
    var w := Reach(conf, es);
    InvParts(conf, w);
    hide View;
    WordSteps(|w.open| - w.failures);
    if w.reqs != map[] {
      var id :| id in w.reqs;
      assert |w.reqs| > 0;
    }
  }

  // ---------------------------------------------------------------- after a failed registration

  /** A failed registration on an idle worker leaves the largest counter there is. */
  lemma FailureWrapsTheCounter(conf: Conf)
    requires conf.peers != [] && (conf.reject ==> conf.maxCached > 0)
    ensures var w := Reach(conf, [Arrive(0, RegistrationFails)]);
      w.open == {} && w.failures == 1 && w.q.active == WORD - 1
  {
    StartInv(conf);
    var w0, e := Start(conf), Arrive(0, RegistrationFails);
    FailAtStart(conf);
    hide Inv, Partition, Step;
    InvHolds(conf, w0);
    StepKeeps(conf, w0, e);
    assert [e][1..] == [];
    assert Run(conf, Step(conf, w0, e), []) == Step(conf, w0, e);
  }

  lemma FailAtStart(conf: Conf)
    requires conf.peers != [] && (conf.reject ==> conf.maxCached > 0)
    ensures Partition(conf.maxCached, Start(conf).q) && Holding(Start(conf))
    ensures var w := Step(conf, Start(conf), Arrive(0, RegistrationFails)); w.open == {} && w.failures == 1 && w.q.active == WORD - 1
  {
    InitIsPartition(conf.maxCached);
    var w0 := Start(conf);
    var w1 := w0.(q := Turn(conf, w0.q));
    assert Find(w1.q, TurnPeer(conf, w0.q).addr, 0) == None;
    hide Partition;
  }

  /** The counter has wrapped, and not yet all the way round. */
  predicate Wrapped(conf: Conf, w: World) {
    conf.reject && |w.open| < w.failures && w.failures + conf.maxCached <= WORD
  }

  lemma WrappedRefuses(conf: Conf, w: World)
    requires Inv(conf, w) && Wrapped(conf, w)
    ensures w.q.active >= conf.maxCached
  {
    hide Inv, AsWord, Sound, View;
    OpenCount(conf, w);
    InvHolds(conf, w);
    InvParts(conf, w);
    WordSteps(|w.open| - w.failures);
  }

  lemma WrappedStep(conf: Conf, w: World, e: Event)
    requires Inv(conf, w) && Partition(conf.maxCached, w.q) && Holding(w) && conf.peers != [] && Wrapped(conf, w)
    ensures var w' := Step(conf, w, e); w'.open <= w.open && w'.failures == w.failures
  {
    hide Inv, Partition, Next, Finalize, AsSet, Settle, GetPeer, Unlink;
    match e
    case Arrive(id, outcome) => WrappedRefuses(conf, w); FullRefuses(conf, w, id, outcome);
    case Complete(id, gone) =>
      if id in w.reqs && !Owes(w.reqs[id]) {
        SettleShrinks(w.(clean := w.clean + {w.reqs[id].conn.value}), id, Finalize(conf, w.q, Done(w.reqs[id], gone)));
      }
    case Fail(id) => if id in w.reqs { SettleShrinks(w, id, Next(conf, w.q, w.reqs[id])); }
    case Abort(id) => if id in w.reqs { SettleShrinks(w, id, Finalize(conf, w.q, w.reqs[id])); }
    case _ =>
  }

  lemma SettleShrinks(w: World, id: nat, rel: Released)
    requires rel.saved.Some? ==> rel.saved.value in w.completions
    ensures var w' := Settle(w, id, rel); w'.open <= w.open && w'.failures == w.failures
  {
  }

  lemma FullRefuses(conf: Conf, w: World, id: nat, outcome: Outcome)
    requires conf.peers != [] && Partition(conf.maxCached, w.q) && conf.reject && w.q.active >= conf.maxCached
    ensures var w' := GetPeer(conf, w, id, outcome); w'.open == w.open && w'.failures == w.failures
  {
    hide Partition, Unlink, Find;
  }

  /** Law: once there are more failed registrations than open connections, rejection lets no connection be opened any more. */
  lemma {:induction false} WrappedForever(conf: Conf, w: World, es: seq<Event>)
    requires Inv(conf, w) && Wrapped(conf, w)
    ensures var w' := Run(conf, w, es); w'.open <= w.open && w'.failures == w.failures
    decreases |es|
  {
    hide Inv, Partition, Step, View, Sound;
    if es != [] {
      InvHolds(conf, w);
      InvParts(conf, w);
      WrappedStep(conf, w, es[0]);
      StepKeeps(conf, w, es[0]);
      var w1 := Step(conf, w, es[0]);
      SmallerSet(w1.open, w.open);
      WrappedForever(conf, w1, es[1..]);
    }
  }

  /** Law: after one failed registration on an idle worker, rejection refuses every connection for good. */
  lemma FailureClosesTheDoor(conf: Conf, es: seq<Event>)
    requires conf.peers != [] && conf.reject && conf.maxCached > 0
    ensures Reach(conf, [Arrive(0, RegistrationFails)] + es).open == {}
  {
    hide Inv, Run;
    StartInv(conf);
    FailureWrapsTheCounter(conf);
    RunAppend(conf, Start(conf), [Arrive(0, RegistrationFails)], es);
    WrappedForever(conf, Reach(conf, [Arrive(0, RegistrationFails)]), es);
  }

  lemma SmallerSet(a: set<Conn>, b: set<Conn>)
    requires a <= b
    ensures |a| <= |b|
  {
    assert b == a + (b - a);
  }

  /** Law: the cached connections, newest save first, with what is stored about them. */
  lemma CachedConnections(conf: Conf, es: seq<Event>, k: nat)
    requires conf.peers != [] && k < |Reach(conf, es).q.cache|
    ensures var w := Reach(conf, es);
      Partition(conf.maxCached, w.q) &&
      var v := View(conf.maxCached, w.q);
      var c := v[k].conn;
      && c in w.open && c in w.clean && c in w.completions && c in w.savedAt && c in w.names
      && v[k].used == w.completions[c]
      && (v[k].hasSetNames <==> w.names[c] != [])
      && forall j :: k < j < |v| ==> v[j].conn in w.savedAt && w.savedAt[v[j].conn] < w.savedAt[c]
  {
  }

  /** The item at position `j` of the cache is the newest one that may serve the request: any in single mode, else one with the address of the peer in turn. */
  predicate Newest(conf: Conf, w: World, j: nat)
    requires conf.peers != [] && Partition(conf.maxCached, w.q) && j < |w.q.cache|
  {
    var addr := TurnPeer(conf, w.q).addr;
    && (conf.single || w.q.items[w.q.cache[j]].addr == addr)
    && forall i :: 0 <= i < |w.q.cache| && (conf.single || w.q.items[w.q.cache[i]].addr == addr) ==>
         var c, d := w.q.items[w.q.cache[j]].conn, w.q.items[w.q.cache[i]].conn;
         c in w.savedAt && d in w.savedAt && w.savedAt[c] >= w.savedAt[d]
  }

  /**
    Law: a request is given the newest idle connection that may serve it, if there
    is one, together with its address and what is stored about it, and the
    connection leaves the cache.
   */
  lemma ReuseTakesNewest(conf: Conf, w: World, id: nat, outcome: Outcome, k: nat)
    requires Inv(conf, w) && id !in w.reqs && k < |w.q.cache| && conf.maxCached > 0 && Partition(conf.maxCached, w.q)
    requires conf.single || w.q.items[w.q.cache[k]].addr == TurnPeer(conf, w.q).addr
    ensures var w' := GetPeer(conf, w, id, outcome);
      && id in w'.reqs
      && exists j :: 0 <= j < |w.q.cache| && Newest(conf, w, j)
           && w'.q.cache == w.q.cache[..j] + w.q.cache[j + 1..]
           && var item := w.q.items[w.q.cache[j]];
              && w'.reqs[id].conn == Some(item.conn) && w'.reqs[id].addr == item.addr
              && w'.reqs[id].used == item.used && w'.reqs[id].hasSetNames == item.hasSetNames
  {
    var j := if conf.single then 0 else Find(Turn(conf, w.q), TurnPeer(conf, w.q).addr, 0).value;
    NewestIs(conf, w, j);
    hide Inv, Newest, Find;
  }

  lemma NewestIs(conf: Conf, w: World, j: nat)
    requires Inv(conf, w) && Partition(conf.maxCached, w.q) && j < |w.q.cache|
    requires j == if conf.single then 0 else var f := Find(Turn(conf, w.q), TurnPeer(conf, w.q).addr, 0); if f.Some? then f.value else |w.q.cache|
    ensures Newest(conf, w, j)
  {
    hide Inv, AsWord, Sound, Find;
    var v := View(conf.maxCached, w.q);
    assert |v| == |w.q.cache| && forall i :: 0 <= i < |w.q.cache| ==> v[i] == w.q.items[w.q.cache[i]];
    InvParts(conf, w);
    SoundParts(v, w);
    hide View, Partition, Owned, Recorded, Remembered, Clean;
  }

  /**
    Law: a connection answers at most one set-names query in its life, and a
    request with a configured character set completes only on a connection that
    has answered one.
   */
  lemma NamesAtMostOnce(conf: Conf, es: seq<Event>, c: Conn)
    requires conf.peers != []
    ensures var w := Reach(conf, es);
      && (c in w.names ==> |w.names[c]| <= 1)
      && forall id :: id in w.reqs && w.reqs[id].enableCharset && !Owes(w.reqs[id]) ==>
           w.reqs[id].conn.Some? && w.reqs[id].conn.value in w.names && |w.names[w.reqs[id].conn.value]| == 1
  {
  }

  /** Law: when saving has to evict, the connection saved longest ago goes. */
  lemma EvictionDropsOldest(conf: Conf, w: World, r: Request, k: nat)
    requires Inv(conf, w) && Partition(conf.maxCached, w.q) && conf.maxCached > 0 && r.conn.Some? && w.q.free == [] && k < |w.q.cache|
    ensures var rel := Save(conf.maxCached, w.q, r);
      && |rel.closed| == 1 && rel.closed[0] in w.savedAt && w.q.items[w.q.cache[k]].conn in w.savedAt
      && w.savedAt[rel.closed[0]] <= w.savedAt[w.q.items[w.q.cache[k]].conn]
  {
    var v := View(conf.maxCached, w.q);
    SaveEffect(conf.maxCached, w.q, r);
    hide Save, Partition;
    assert v[k] == w.q.items[w.q.cache[k]];
    assert k < |v| - 1 || v[k] == v[|v| - 1];
  }
}
