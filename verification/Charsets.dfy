/**
  Which character set a pooled connection is in.

  A connection remembers only that a set-names query was answered, not which.
  Multi mode reuses it for any peer with the same address, single mode for any
  peer at all, without sending a set-names query.  The law here says exactly for
  which configurations every request is still served in the character set that
  the peer in turn configures, or in none if it configures none.
 */
module Charsets {
  import opened Rds
  import opened Pool
  import opened Worker

  /** What the set-names query of a peer leaves on a connection; nothing if it configures none. */
  function Asked(names: nat): seq<nat> {
    if names == 0 then [] else [names]
  }

  /** Two peers whose requests can get each other's connections. */
  predicate Share(conf: Conf, i: nat, j: nat)
    requires i < |conf.peers| && j < |conf.peers|
  {
    conf.single || conf.peers[i].addr == conf.peers[j].addr
  }

  /** Peers that share connections configure the same character set, or all of them none. */
  predicate Alike(conf: Conf) {
    forall i, j :: 0 <= i < |conf.peers| && 0 <= j < |conf.peers| && Share(conf, i, j) ==> conf.peers[i].names == conf.peers[j].names
  }

  /** Some peer at this address configures this character set. */
  predicate Configured(conf: Conf, addr: Addr, names: nat) {
    Peer(addr, names) in conf.peers
  }

  // ---------------------------------------------------------------- the invariant

  /** A set-names answer that can have been heard on a connection opened for `opener`. */
  predicate Heard(conf: Conf, opener: Peer, names: nat) {
    names != 0 && if conf.single then names == opener.names else Configured(conf, opener.addr, names)
  }

  predicate ItemTied(conf: Conf, w: World, item: Item) {
    && item.conn in w.opener && item.conn in w.names && item.addr == w.opener[item.conn].addr
    && (conf.single ==> w.names[item.conn] == Asked(w.opener[item.conn].names))
  }

  predicate ItemsTied(conf: Conf, v: seq<Item>, w: World) {
    forall k :: 0 <= k < |v| ==> ItemTied(conf, w, v[k])
  }

  predicate RequestTied(conf: Conf, w: World, r: Request) {
    && r.conn.Some? && r.conn.value in w.opener && r.conn.value in w.names
    && var opener := w.opener[r.conn.value];
       && r.addr == opener.addr && (r.enableCharset ==> Heard(conf, opener, r.names))
       && (conf.single ==> Owes(r) || w.names[r.conn.value] == Asked(opener.names))
  }

  predicate NamesTied(conf: Conf, w: World) {
    forall c :: c in w.names ==>
      c < w.next && c in w.opener && w.opener[c] in conf.peers && forall x :: x in w.names[c] ==> Heard(conf, w.opener[c], x)
  }

  /** Items, requests and set-names answers agree with the peer that opened the connection. */
  predicate Tied(conf: Conf, w: World)
    requires Partition(conf.maxCached, w.q)
  {
    && ItemsTied(conf, View(conf.maxCached, w.q), w)
    && (forall id :: id in w.reqs ==> RequestTied(conf, w, w.reqs[id]))
    && NamesTied(conf, w)
  }

  lemma TakeTied(conf: Conf, w: World, id: nat, k: nat, r: Request)
    requires Partition(conf.maxCached, w.q) && Tied(conf, w) && id !in w.reqs && k < |w.q.cache|
    requires r.addr == w.q.items[w.q.cache[k]].addr
    requires r.enableCharset ==> !conf.single && r.names != 0 && Configured(conf, r.addr, r.names)
    ensures Partition(conf.maxCached, Take(w, id, k, r).q) && Tied(conf, Take(w, id, k, r))
  {
    var v, w' := View(conf.maxCached, w.q), Take(w, id, k, r);
    assert v[k] == w.q.items[w.q.cache[k]] && ItemTied(conf, w, v[k]);
    ViewUnlink(conf.maxCached, w.q, k);
    hide Partition, View, Configured;
    assert RequestTied(conf, w', w'.reqs[id]);
  }

  lemma ConnectTied(conf: Conf, w: World, id: nat, peer: Peer, outcome: Outcome)
    requires Inv(conf, w) && Partition(conf.maxCached, w.q) && Tied(conf, w) && id !in w.reqs && peer in conf.peers
    ensures var w' := ConnectPeer(conf, w, id, peer, outcome); Partition(conf.maxCached, w'.q) && Tied(conf, w')
  {
    assert ItemsTied(conf, View(conf.maxCached, w.q), w);
    hide Inv, Partition, View, Tied;
    var w' := ConnectPeer(conf, w, id, peer, outcome);
    SameCache(conf.maxCached, w.q, w'.q);
    if w' == Open(w, id, peer) {
      OpenTied(conf, w, id, peer);
    } else {
      hide ItemsTied;
      FewerTied(conf, w, w');
    }
  }

  lemma OpenTied(conf: Conf, w: World, id: nat, peer: Peer)
    requires Inv(conf, w) && Partition(conf.maxCached, w.q) && Tied(conf, w) && id !in w.reqs && peer in conf.peers
    requires Partition(conf.maxCached, Open(w, id, peer).q)
    ensures Tied(conf, Open(w, id, peer))
  {
    hide Inv, Partition, View;
    OpenIsBelowNext(conf, w);
    SameCache(conf.maxCached, w.q, Open(w, id, peer).q);
    assert peer == Peer(peer.addr, peer.names);
  }

  lemma OpenIsBelowNext(conf: Conf, w: World)
    requires Inv(conf, w) && Partition(conf.maxCached, w.q)
    ensures w.next !in w.open
    ensures var v := View(conf.maxCached, w.q); forall k :: 0 <= k < |v| ==> v[k].conn != w.next
    ensures forall id :: id in w.reqs ==> w.reqs[id].conn.Some? && w.reqs[id].conn.value != w.next
  {
    CachedAreOwned(View(conf.maxCached, w.q), w);
  }

  lemma TurnPeerIsPeer(conf: Conf, q: Queues)
    requires conf.peers != []
    ensures TurnPeer(conf, q) in conf.peers
    ensures var p := TurnPeer(conf, q); Configured(conf, p.addr, p.names)
  {
    var p := TurnPeer(conf, q);
    assert p == Peer(p.addr, p.names);
  }

  lemma ArriveTied(conf: Conf, w: World, id: nat, outcome: Outcome)
    requires Inv(conf, w) && Partition(conf.maxCached, w.q) && Tied(conf, w) && id !in w.reqs && conf.peers != []
    ensures var w' := GetPeer(conf, w, id, outcome); Partition(conf.maxCached, w'.q) && Tied(conf, w')
  {
    hide Inv, Tied, Configured;
    if conf.maxCached > 0 && conf.single && w.q.cache != [] {
      TakeTied(conf, w, id, 0, FreshRequest(w.q.items[w.q.cache[0]].addr, 0, None));
    } else {
      var w1, peer := w.(q := Turn(conf, w.q)), TurnPeer(conf, w.q);
      TurnTied(conf, w);
      TurnPeerIsPeer(conf, w.q);
      if conf.maxCached > 0 && !conf.single && Find(w1.q, peer.addr, 0).Some? {
        TakeTied(conf, w1, id, Find(w1.q, peer.addr, 0).value, FreshRequest(peer.addr, peer.names, None));
      } else {
        ConnectTied(conf, w1, id, peer, outcome);
      }
    }
  }

  lemma TurnTied(conf: Conf, w: World)
    requires Inv(conf, w) && Partition(conf.maxCached, w.q) && Tied(conf, w) && conf.peers != []
    ensures var w1 := w.(q := Turn(conf, w.q)); Partition(conf.maxCached, w1.q) && Inv(conf, w1) && Tied(conf, w1)
  {
    hide Inv, Sound, Partition, View, AsWord, Heard;
    var w1 := w.(q := Turn(conf, w.q));
    InvParts(conf, w);
    SameCache(conf.maxCached, w.q, w1.q);
    QueuesDoNotMatter(View(conf.maxCached, w.q), w, w1.q);
    InvParts(conf, w1);
  }

  lemma NothingAnswered(conf: Conf, w: World, id: nat)
    requires Inv(conf, w) && id in w.reqs && !w.reqs[id].hasSetNames && Holding(w)
    ensures w.names[w.reqs[id].conn.value] == []
  {
  }

  /** No other request and no idle item has the connection of this request. */
  lemma OthersHoldOthers(conf: Conf, w: World, id: nat)
    requires Inv(conf, w) && Partition(conf.maxCached, w.q) && id in w.reqs
    ensures forall i :: i in w.reqs && i != id ==> w.reqs[i].conn != w.reqs[id].conn
    ensures var v := View(conf.maxCached, w.q); forall k :: 0 <= k < |v| ==> w.reqs[id].conn != Some(v[k].conn)
  {
    CachedAreOwned(View(conf.maxCached, w.q), w);
  }

  lemma NamesAnsweredTied(conf: Conf, w: World, id: nat)
    requires Inv(conf, w) && Partition(conf.maxCached, w.q) && Tied(conf, w) && id in w.reqs && Owes(w.reqs[id]) && Holding(w)
    ensures Tied(conf, AnswerNames(w, id))
  {
    hide Inv, Partition, View;
    NothingAnswered(conf, w, id);
    OthersHoldOthers(conf, w, id);
    assert RequestTied(conf, w, w.reqs[id]);
    assert [] + [w.reqs[id].names] == [w.reqs[id].names];
  }

  /** Requests that leave and items that go do not matter. */
  lemma FewerTied(conf: Conf, w: World, w': World)
    requires Partition(conf.maxCached, w.q) && Tied(conf, w) && Partition(conf.maxCached, w'.q)
    requires w'.opener == w.opener && w'.names == w.names && w'.next == w.next
    requires forall id :: id in w'.reqs ==> id in w.reqs && w'.reqs[id] == w.reqs[id]
    requires ItemsTied(conf, View(conf.maxCached, w'.q), w)
    ensures Tied(conf, w')
  {
    hide Partition, View, Heard, Owes;
  }

  lemma SettleTied(conf: Conf, w: World, id: nat, rel: Released, w': World)
    requires Partition(conf.maxCached, w.q) && Tied(conf, w) && id in w.reqs && Partition(conf.maxCached, rel.q)
    requires w'.q == rel.q && w'.reqs == w.reqs - {id} && w'.opener == w.opener && w'.names == w.names && w'.next == w.next
    requires ItemsTied(conf, View(conf.maxCached, rel.q), w)
    ensures Tied(conf, w')
  {
    hide Partition, View, Tied;
    FewerTied(conf, w, w');
  }

  lemma SaveTied(conf: Conf, w: World, id: nat, r: Request)
    requires Partition(conf.maxCached, w.q) && Tied(conf, w) && id in w.reqs && !Owes(w.reqs[id]) && conf.maxCached > 0
    requires r.conn == w.reqs[id].conn && r.addr == w.reqs[id].addr && r.conn.Some?
    ensures ItemsTied(conf, View(conf.maxCached, Save(conf.maxCached, w.q, r).q), w)
  {
    var v := View(conf.maxCached, w.q);
    ViewSave(conf.maxCached, w.q, r);
    assert RequestTied(conf, w, w.reqs[id]);
    hide Partition, View, Heard, Save;
  }

  lemma CompleteTied(conf: Conf, w: World, id: nat, gone: bool)
    requires conf.peers != [] && Inv(conf, w) && Partition(conf.maxCached, w.q) && Holding(w) && Tied(conf, w)
    requires id in w.reqs && !Owes(w.reqs[id])
    ensures var w' := Step(conf, w, Complete(id, gone)); Partition(conf.maxCached, w'.q) && Tied(conf, w')
  {
    hide Inv, Partition, View, Save, Finalize, Tied;
    InFlight(conf, w, id);
    var r := Done(w.reqs[id], gone);
    CompleteRelease(conf, w.q, r);
    var rel := Finalize(conf, w.q, r);
    if conf.maxCached > 0 {
      SaveTied(conf, w, id, r);
    } else {
      ClosedTied(conf, w, rel);
    }
    SettleTied(conf, w, id, rel, Step(conf, w, Complete(id, gone)));
  }

  lemma ClosedTied(conf: Conf, w: World, rel: Released)
    requires Partition(conf.maxCached, w.q) && Tied(conf, w)
    requires rel.q.items == w.q.items && rel.q.free == w.q.free && rel.q.cache == w.q.cache
    ensures Partition(conf.maxCached, rel.q) && ItemsTied(conf, View(conf.maxCached, rel.q), w)
  {
    hide Partition, View;
    SameCache(conf.maxCached, w.q, rel.q);
  }

  lemma UnfinishedTied(conf: Conf, w: World, id: nat, e: Event)
    requires conf.peers != [] && Inv(conf, w) && Partition(conf.maxCached, w.q) && Holding(w) && Tied(conf, w)
    requires id in w.reqs && e in {Fail(id), Abort(id)}
    ensures var w' := Step(conf, w, e); Partition(conf.maxCached, w'.q) && Tied(conf, w')
  {
    hide Inv, Partition, View, Next, Finalize, Tied;
    InFlight(conf, w, id);
    NextReleasesOnce(conf, w.q, w.reqs[id]);
    UnfinishedIsClosed(conf, w.q, w.reqs[id]);
    var rel := if e == Fail(id) then Next(conf, w.q, w.reqs[id]) else Finalize(conf, w.q, w.reqs[id]);
    ClosedTied(conf, w, rel);
    SettleTied(conf, w, id, rel, Step(conf, w, e));
  }

  lemma IdleTied(conf: Conf, w: World, k: nat)
    requires conf.peers != [] && Inv(conf, w) && Partition(conf.maxCached, w.q) && Holding(w) && Tied(conf, w) && k < |w.q.cache|
    ensures var w' := Step(conf, w, IdleClosed(k)); Partition(conf.maxCached, w'.q) && Tied(conf, w')
  {
    hide Inv, Heard;
    var v, w' := View(conf.maxCached, w.q), Step(conf, w, IdleClosed(k));
    assert |v| == |w.q.cache|;
    ViewUnlink(conf.maxCached, w.q, k);
    hide Partition, View;
    SameCache(conf.maxCached, Unlink(w.q, k), w'.q);
    FewerTied(conf, w, w');
  }

  lemma StepTied(conf: Conf, w: World, e: Event)
    requires conf.peers != []
    requires Inv(conf, w) && Partition(conf.maxCached, w.q) && Holding(w) && Tied(conf, w)
    ensures var w' := Step(conf, w, e); Partition(conf.maxCached, w'.q) && Tied(conf, w')
  {
    hide Inv, Partition, Tied;
    match e
    case Arrive(id, outcome) => if id !in w.reqs { ArriveTied(conf, w, id, outcome); }
    case NamesAnswered(id) => if id in w.reqs && Owes(w.reqs[id]) { NamesAnsweredTied(conf, w, id); }
    case Complete(id, gone) => if id in w.reqs && !Owes(w.reqs[id]) { CompleteTied(conf, w, id, gone); }
    case Fail(id) => if id in w.reqs { UnfinishedTied(conf, w, id, e); }
    case Abort(id) => if id in w.reqs { UnfinishedTied(conf, w, id, e); }
    case IdleClosed(k) => if k < |w.q.cache| { IdleTied(conf, w, k); }
  }

  lemma {:induction false} RunTied(conf: Conf, w: World, es: seq<Event>)
    requires Inv(conf, w) && Partition(conf.maxCached, w.q) && Tied(conf, w)
    ensures var w' := Run(conf, w, es); Partition(conf.maxCached, w'.q) && Tied(conf, w')
    decreases |es|
  {
    hide Inv, Partition, Tied, Step;
    if es != [] {
      InvHolds(conf, w);
      InvParts(conf, w);
      StepTied(conf, w, es[0]);
      StepKeeps(conf, w, es[0]);
      RunTied(conf, Step(conf, w, es[0]), es[1..]);
    }
  }

  lemma ReachTied(conf: Conf, es: seq<Event>)
    requires conf.peers != []
    ensures var w := Reach(conf, es); Partition(conf.maxCached, w.q) && Inv(conf, w) && Holding(w) && Tied(conf, w)
  {
    StartInv(conf);
    assert Tied(conf, Start(conf));
    hide Inv, Tied;
    RunTied(conf, Start(conf), es);
    InvHolds(conf, Reach(conf, es));
  }

  // ---------------------------------------------------------------- the law

  /** Law: in single mode an idle connection is in the character set of the peer that opened it, whoever used it since. */
  lemma SingleKeepsOpeners(conf: Conf, es: seq<Event>, k: nat)
    requires conf.peers != [] && conf.single && k < |Reach(conf, es).q.cache|
    ensures var w := Reach(conf, es);
      && Partition(conf.maxCached, w.q)
      && var c := w.q.items[w.q.cache[k]].conn;
         c in w.opener && c in w.names && w.names[c] == Asked(w.opener[c].names)
  {
    ReachTied(conf, es);
    var w := Reach(conf, es);
    hide Inv, Reach;
    var v := View(conf.maxCached, w.q);
    assert ItemTied(conf, w, v[k]);
  }

  /** Law: the answer that a request still waits for puts its connection into the character set of its own peer. */
  lemma OwingSetsOwn(conf: Conf, es: seq<Event>, id: nat)
    requires conf.peers != [] && id in Reach(conf, es).reqs && Owes(Reach(conf, es).reqs[id])
    ensures var w, w' := Reach(conf, es), Reach(conf, es + [NamesAnswered(id)]);
      && w.reqs[id].conn.Some? && var c := w.reqs[id].conn.value;
      && c in w'.names && w'.names[c] == Asked(w.reqs[id].names) && id in w'.reqs && !Owes(w'.reqs[id])
      && Configured(conf, w.reqs[id].addr, w.reqs[id].names)
  {
    ReachTied(conf, es);
    var w := Reach(conf, es);
    var es' := Then(conf, es, NamesAnswered(id));
    NothingAnswered(conf, w, id);
    assert RequestTied(conf, w, w.reqs[id]) && NamesTied(conf, w);
    hide Inv, Reach, Partition;
    var opener := w.opener[w.reqs[id].conn.value];
    assert opener == Peer(opener.addr, opener.names);
  }

  /** A request that arrives goes on without a set-names query, in another character set than the peer in turn configures. */
  predicate Strays(conf: Conf, w: World, id: nat, outcome: Outcome)
    requires conf.peers != [] && Partition(conf.maxCached, w.q) && Holding(w)
  {
    id !in w.reqs &&
    var w' := Step(conf, w, Arrive(id, outcome));
    id in w'.reqs && !Owes(w'.reqs[id]) && w'.reqs[id].conn.Some? && w'.reqs[id].conn.value in w'.names &&
    w'.names[w'.reqs[id].conn.value] != Asked(TurnPeer(conf, w.q).names)
  }

  lemma ItemRemembers(conf: Conf, w: World, k: nat)
    requires Inv(conf, w) && Partition(conf.maxCached, w.q) && Tied(conf, w) && k < |w.q.cache|
    ensures var item := w.q.items[w.q.cache[k]];
      ItemTied(conf, w, item) && |w.names[item.conn]| <= 1 && (item.hasSetNames <==> |w.names[item.conn]| == 1)
  {
    var v := View(conf.maxCached, w.q);
    assert v[k] == w.q.items[w.q.cache[k]];
  }

  lemma AlikeAt(conf: Conf, p: Peer, q: Peer)
    requires Alike(conf) && p in conf.peers && q in conf.peers && (conf.single || p.addr == q.addr)
    ensures p.names == q.names
  {
    var i :| 0 <= i < |conf.peers| && conf.peers[i] == p;
    var j :| 0 <= j < |conf.peers| && conf.peers[j] == q;
    assert Share(conf, i, j);
  }

  /** The connection at position `k` of the cache is in the character set that `peer` asks for, or `peer` will set it. */
  lemma TakenIsAsked(conf: Conf, w: World, k: nat, peer: Peer)
    requires Alike(conf) && Inv(conf, w) && Partition(conf.maxCached, w.q) && Tied(conf, w) && k < |w.q.cache| && peer in conf.peers
    requires !conf.single ==> w.q.items[w.q.cache[k]].addr == peer.addr
    ensures var item := w.q.items[w.q.cache[k]];
      item.conn in w.names && (w.names[item.conn] == Asked(peer.names) || (!conf.single && peer.names != 0 && !item.hasSetNames))
  {
    ItemRemembers(conf, w, k);
    var item := w.q.items[w.q.cache[k]];
    var c := item.conn;
    hide Inv, Partition;
    assert NamesTied(conf, w);
    if conf.single {
      AlikeAt(conf, w.opener[c], peer);
    } else if w.names[c] != [] {
      var x := w.names[c][0];
      assert w.names[c] == [x] && x in w.names[c];
      AlikeAt(conf, Peer(item.addr, x), peer);
    }
  }

  /** A request that takes the connection at position `k` of the cache. */
  lemma TakerDoesNotStray(conf: Conf, w: World, w1: World, id: nat, outcome: Outcome, k: nat, r: Request)
    requires conf.peers != [] && Partition(conf.maxCached, w.q) && Holding(w) && id !in w.reqs
    requires w1.names == w.names && k < |w1.q.cache| && w1.q.cache[k] < |w1.q.items|
    requires Step(conf, w, Arrive(id, outcome)) == Take(w1, id, k, r)
    requires var item, asked := w1.q.items[w1.q.cache[k]], TurnPeer(conf, w.q).names;
      item.conn in w.names && (w.names[item.conn] == Asked(asked) || (r.enableCharset && !item.hasSetNames))
    ensures !Strays(conf, w, id, outcome)
  {
    hide Step, Partition, Holding, Unlink, TurnPeer;
  }

  lemma AlikeInSingleMode(conf: Conf, w: World, id: nat, outcome: Outcome)
    requires conf.single && Alike(conf) && conf.maxCached > 0 && w.q.cache != [] && id !in w.reqs
    requires conf.peers != [] && Inv(conf, w) && Partition(conf.maxCached, w.q) && Holding(w) && Tied(conf, w)
    ensures !Strays(conf, w, id, outcome)
  {
    var r := FreshRequest(w.q.items[w.q.cache[0]].addr, 0, None);
    assert Step(conf, w, Arrive(id, outcome)) == Take(w, id, 0, r);
    TurnPeerIsPeer(conf, w.q);
    hide Inv, Tied, Step, Take, TurnPeer, Strays, Configured;
    TakenIsAsked(conf, w, 0, TurnPeer(conf, w.q));
    TakerDoesNotStray(conf, w, w, id, outcome, 0, r);
  }

  lemma AlikeInMultiMode(conf: Conf, w: World, id: nat, outcome: Outcome, k: nat)
    requires !conf.single && Alike(conf) && conf.maxCached > 0 && id !in w.reqs
    requires conf.peers != [] && Inv(conf, w) && Partition(conf.maxCached, w.q) && Holding(w) && Tied(conf, w)
    requires Find(Turn(conf, w.q), TurnPeer(conf, w.q).addr, 0) == Some(k)
    ensures !Strays(conf, w, id, outcome)
  {
    var w1, peer := w.(q := Turn(conf, w.q)), TurnPeer(conf, w.q);
    var r := FreshRequest(peer.addr, peer.names, None);
    assert Step(conf, w, Arrive(id, outcome)) == Take(w1, id, k, r);
    TurnPeerIsPeer(conf, w.q);
    hide Inv, Tied, Step, Take, TurnPeer, Strays, Configured;
    TakenIsAsked(conf, w, k, peer);
    TakerDoesNotStray(conf, w, w1, id, outcome, k, r);
  }

  /** A new connection has heard nothing: whoever owes nothing configures nothing. */
  lemma NewcomerDoesNotStray(conf: Conf, w: World, id: nat, outcome: Outcome)
    requires conf.peers != [] && Partition(conf.maxCached, w.q) && Holding(w) && id !in w.reqs
    requires Step(conf, w, Arrive(id, outcome)) == ConnectPeer(conf, w.(q := Turn(conf, w.q)), id, TurnPeer(conf, w.q), outcome)
    ensures !Strays(conf, w, id, outcome)
  {
    hide Step, Partition, Holding, TurnPeer;
  }

  lemma AlikeIsEnough(conf: Conf, w: World, id: nat, outcome: Outcome)
    requires conf.maxCached == 0 || Alike(conf)
    requires conf.peers != [] && Inv(conf, w) && Partition(conf.maxCached, w.q) && Holding(w) && Tied(conf, w)
    ensures !Strays(conf, w, id, outcome)
  {
    hide Inv, Tied, Strays, Take, ConnectPeer, Alike, Holding;
    if id in w.reqs {
      PresentDoesNotStray(conf, w, id, outcome);
    } else if conf.maxCached > 0 && conf.single && w.q.cache != [] {
      AlikeInSingleMode(conf, w, id, outcome);
    } else {
      var f := if conf.maxCached > 0 && !conf.single then Find(Turn(conf, w.q), TurnPeer(conf, w.q).addr, 0) else None;
      if f.Some? {
        AlikeInMultiMode(conf, w, id, outcome, f.value);
      } else {
        NewcomerDoesNotStray(conf, w, id, outcome);
      }
    }
  }

  lemma PresentDoesNotStray(conf: Conf, w: World, id: nat, outcome: Outcome)
    requires conf.peers != [] && Partition(conf.maxCached, w.q) && Holding(w) && id in w.reqs
    ensures !Strays(conf, w, id, outcome)
  {
    hide Step, Partition, Holding;
  }

  // ---------------------------------------------------------------- unlike peers do stray

  /** Nothing is open, and it is the turn of peer `turn`. */
  predicate Empty(w: World, turn: nat) {
    w.reqs == map[] && w.q.cache == [] && w.q.active == 0 && w.q.current == turn
  }

  /** The only open connection is idle, at `addr`, in character set `x`. */
  predicate Parked(w: World, addr: Addr, x: nat, turn: nat) {
    && w.reqs == map[] && |w.q.cache| == 1 && w.q.cache[0] < |w.q.items| && w.q.active == 1 && w.q.current == turn
    && var item := w.q.items[w.q.cache[0]];
       item.addr == addr && item.hasSetNames && item.conn in w.names && w.names[item.conn] == [x]
  }

  lemma {:induction false} SkipTo(conf: Conf, turn: nat) returns (es: seq<Event>)
    requires conf.peers != [] && conf.maxCached > 0 && turn < |conf.peers|
    ensures Empty(Reach(conf, es), turn)
    decreases turn
  {
    if turn == 0 {
      es := [];
    } else {
      es := SkipTo(conf, turn - 1);
      SkipOne(conf, Reach(conf, es), turn - 1);
      es := Then(conf, es, Arrive(0, ConnectFails));
    }
  }

  lemma SkipOne(conf: Conf, w: World, turn: nat)
    requires conf.peers != [] && conf.maxCached > 0 && turn < |conf.peers|
    requires Partition(conf.maxCached, w.q) && Holding(w) && Empty(w, turn)
    ensures Empty(Step(conf, w, Arrive(0, ConnectFails)), turn + 1)
  {
  }

  /** The only open connection is with request 0, at `addr`, in character set `x`. */
  predicate Alone(w: World, addr: Addr, x: nat, turn: nat) {
    && w.reqs.Keys == {0} && w.q.cache == [] && w.q.active == 1 && w.q.current == turn
    && var r := w.reqs[0];
       r.addr == addr && r.hasSetNames && !r.failed && r.conn.Some? && r.conn.value in w.names && w.names[r.conn.value] == [x]
  }

  /** Request 0 completes and leaves its connection in the cache. */
  lemma LeaveBehind(conf: Conf, w: World, addr: Addr, x: nat, turn: nat)
    requires conf.peers != [] && conf.maxCached > 0 && Partition(conf.maxCached, w.q) && Holding(w) && Alone(w, addr, x, turn)
    ensures Parked(Step(conf, w, Complete(0, false)), addr, x, turn)
  {
    hide Finalize;
    var r := Done(w.reqs[0], false);
    CompleteRelease(conf, w.q, r);
    assert w.q.free != [];
    assert (w.reqs - {0}).Keys == {};
  }

  /** A peer with a character set opens a connection. */
  lemma OpenAlone(conf: Conf, w: World, turn: nat, w1: World)
    requires conf.peers != [] && conf.maxCached > 0 && turn < |conf.peers| && conf.peers[turn].names != 0
    requires Partition(conf.maxCached, w.q) && Holding(w) && Empty(w, turn)
    requires w1 == Step(conf, w, Arrive(0, Connects)) && Holding(w1) && Partition(conf.maxCached, w1.q)
    ensures Alone(Step(conf, w1, NamesAnswered(0)), conf.peers[turn].addr, conf.peers[turn].names, turn + 1)
  {
    hide Partition;
    var peer := conf.peers[turn];
    assert w1.reqs == map[0 := FreshRequest(peer.addr, peer.names, Some(w.next))];
    assert w1.names[w.next] == [] && w1.q.cache == [] && w1.q.active == 1 && w1.q.current == turn + 1;
  }

  /** The peer in turn. */
  function TurnAt(conf: Conf, turn: nat): nat
    requires conf.peers != []
  {
    if turn > |conf.peers| - 1 then 0 else turn
  }

  /** While request 0 is in flight the turn passes on: nothing is idle, and nothing is opened. */
  lemma PassOn(conf: Conf, w: World, addr: Addr, x: nat, turn: nat)
    requires conf.peers != [] && conf.maxCached > 0
    requires Partition(conf.maxCached, w.q) && Holding(w) && Alone(w, addr, x, turn)
    ensures Alone(Step(conf, w, Arrive(1, ConnectFails)), addr, x, TurnAt(conf, turn) + 1)
  {
    hide Partition;
  }

  /** A run in which peer `i` holds the only connection when turn `turn` has come, in the same or the next round. */
  lemma {:induction false} HoldTo(conf: Conf, i: nat, turn: nat, again: bool) returns (es: seq<Event>)
    requires conf.peers != [] && conf.maxCached > 0 && i < |conf.peers| && conf.peers[i].names != 0
    requires turn <= |conf.peers| && if again then turn >= 1 else turn > i
    ensures Alone(Reach(conf, es), conf.peers[i].addr, conf.peers[i].names, turn)
    decreases again, turn
  {
    hide Inv, Partition, Step, Empty, Alone, Reach;
    if !again && turn == i + 1 {
      var es0 := SkipTo(conf, i);
      var es1 := Then(conf, es0, Arrive(0, Connects));
      es := Then(conf, es1, NamesAnswered(0));
      OpenAlone(conf, Reach(conf, es0), i, Reach(conf, es1));
    } else {
      var was := if again && turn == 1 then |conf.peers| else turn - 1;
      var es0 := HoldTo(conf, i, was, again && turn > 1);
      es := Then(conf, es0, Arrive(1, ConnectFails));
      PassOn(conf, Reach(conf, es0), conf.peers[i].addr, conf.peers[i].names, was);
    }
  }

  /** For any two peers there is a run that leaves the connection of the first one idle when it is the turn of the second. */
  lemma ParkedFor(conf: Conf, i: nat, j: nat) returns (es: seq<Event>, turn: nat)
    requires conf.peers != [] && conf.maxCached > 0 && i < |conf.peers| && j < |conf.peers| && conf.peers[i].names != 0
    ensures Parked(Reach(conf, es), conf.peers[i].addr, conf.peers[i].names, turn) && TurnAt(conf, turn) == j
  {
    hide Inv, Partition, Step, Alone, Parked, Reach;
    turn := if j == 0 then |conf.peers| else j;
    var es0 := HoldTo(conf, i, turn, turn <= i);
    es := Then(conf, es0, Complete(0, false));
    LeaveBehind(conf, Reach(conf, es0), conf.peers[i].addr, conf.peers[i].names, turn);
  }

  /** The reuse that strays: the idle connection goes to a peer that configures another character set, or none. */
  lemma StrayOne(conf: Conf, w: World, i: nat, j: nat, turn: nat)
    requires conf.maxCached > 0 && i < |conf.peers| && j < |conf.peers| && Share(conf, i, j)
    requires conf.peers[i].names != 0 && conf.peers[j].names != conf.peers[i].names && TurnAt(conf, turn) == j
    requires Partition(conf.maxCached, w.q) && Holding(w) && Parked(w, conf.peers[i].addr, conf.peers[i].names, turn)
    ensures Strays(conf, w, 0, ConnectFails)
  {
    assert !conf.single ==> Find(Turn(conf, w.q), conf.peers[j].addr, 0) == Some(0);
  }

  /** Some run serves some request in another character set than the peer in turn configures. */
  ghost predicate CanStray(conf: Conf)
    requires conf.peers != []
  {
    exists es, id, outcome :: StraysAfter(conf, es, id, outcome)
  }

  predicate StraysAfter(conf: Conf, es: seq<Event>, id: nat, outcome: Outcome)
    requires conf.peers != []
  {
    var w := Reach(conf, es);
    Partition(conf.maxCached, w.q) && Holding(w) && Strays(conf, w, id, outcome)
  }

  /**
    Law: over all runs, every request is served in the character set that the peer
    in turn configures, or in none if it configures none, exactly when nothing is
    pooled or the peers that share connections agree: peers at one address in multi
    mode, all peers in single mode.
   */
  lemma OwnCharsetExactly(conf: Conf)
    requires conf.peers != []
    ensures !CanStray(conf) <==> conf.maxCached == 0 || Alike(conf)
  {
    hide Inv, Partition, Reach, Strays, Tied, Holding;
    if conf.maxCached == 0 || Alike(conf) {
      forall es, id, outcome ensures !StraysAfter(conf, es, id, outcome) {
        ReachTied(conf, es);
        AlikeIsEnough(conf, Reach(conf, es), id, outcome);
      }
    } else {
      var i, j :| 0 <= i < |conf.peers| && 0 <= j < |conf.peers| && Share(conf, i, j) && conf.peers[i].names != conf.peers[j].names;
      if conf.peers[i].names != 0 {
        UnlikeStray(conf, i, j);
      } else {
        UnlikeStray(conf, j, i);
      }
    }
  }

  lemma UnlikeStray(conf: Conf, i: nat, j: nat)
    requires conf.maxCached > 0 && i < |conf.peers| && j < |conf.peers| && Share(conf, i, j)
    requires conf.peers[i].names != 0 && conf.peers[j].names != conf.peers[i].names
    ensures CanStray(conf)
  {
    var es, turn := ParkedFor(conf, i, j);
    ReachTied(conf, es);
    StrayOne(conf, Reach(conf, es), i, j, turn);
    assert StraysAfter(conf, es, 0, ConnectFails);
  }
}
