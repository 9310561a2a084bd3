/**
  The keepalive connection pool of ngx_http_drizzle_keepalive.c and the peer
  handling of ngx_http_drizzle_upstream.c, as functions on values: what each
  handler does to the two queues, the items and the connection counter.  Queues
  hold indices into the fixed array of items; the head of a queue is index 0.
 */
module Pool {
  import opened Rds

  type Conn = nat
  type Addr = nat

  /** A server of the upstream; `names` 0 means no set-names query is configured. */
  datatype Peer = Peer(addr: Addr, names: nat)

  datatype Conf = Conf(peers: seq<Peer>, maxCached: uint64, single: bool, reject: bool)

  datatype Item = Item(conn: Conn, addr: Addr, hasSetNames: bool, used: nat)

  datatype Queues = Queues(items: seq<Item>, free: seq<nat>, cache: seq<nat>, active: uint64, current: nat)

  // The counter of active connections is an unsigned word: it wraps in both directions.

  const WORD: int := 0x1_0000_0000_0000_0000

  function AsWord(n: int): uint64 {
    n % WORD
  }

  function Up(n: uint64): uint64 {
    if n + 1 == WORD then 0 else n + 1
  }

  function Down(n: uint64): uint64 {
    if n == 0 then WORD - 1 else n - 1
  }

  lemma WordSteps(n: int)
    ensures Up(AsWord(n)) == AsWord(n + 1) && Down(AsWord(n)) == AsWord(n - 1)
    ensures 0 <= n < WORD ==> AsWord(n) == n
    ensures -WORD <= n < 0 ==> AsWord(n) == WORD + n
  {
  }

  lemma UpDown(n: uint64)
    ensures Down(Up(n)) == n && Up(Down(n)) == n
  {
  }

  datatype Status = Unset | Ok | NotFound | Gone

  /** The fields of one request that decide what happens to its connection. */
  datatype Request = Request(
    conn: Option<Conn>, addr: Addr, names: nat, enableCharset: bool, hasSetNames: bool, used: nat,
    failed: bool, status: Status, headerSent: bool, lengthZero: bool)

  function FreshRequest(addr: Addr, names: nat, conn: Option<Conn>): Request {
    Request(conn, addr, names, names != 0, false, 0, false, Unset, false, false)
  }

  // ---------------------------------------------------------------- taking a connection

  /** `ngx_http_drizzle_keepalive_init`: every item is put at the head of the free queue. */
  function Init(maxCached: nat): Queues {
    Queues(seq(maxCached, i => Item(0, 0, false, 0)), seq(maxCached, i => maxCached - 1 - i), [], 0, 0)
  }

  /** The position in the cache of the first item with this address. */
  function Find(q: Queues, addr: Addr, from: nat): (r: Option<nat>)
    requires forall k :: 0 <= k < |q.cache| ==> q.cache[k] < |q.items|
    ensures r.Some? ==> from <= r.value < |q.cache| && q.items[q.cache[r.value]].addr == addr
    ensures r.Some? ==> forall k :: from <= k < r.value ==> q.items[q.cache[k]].addr != addr
    ensures r.None? ==> forall k :: from <= k < |q.cache| ==> q.items[q.cache[k]].addr != addr
    decreases |q.cache| - from
  {
    if from >= |q.cache| then None
    else if q.items[q.cache[from]].addr == addr then Some(from)
    else Find(q, addr, from + 1)
  }

  /** Move the item at position `k` of the cache to the head of the free queue. */
  function Unlink(q: Queues, k: nat): Queues
    requires k < |q.cache|
  {
    q.(free := [q.cache[k]] + q.free, cache := q.cache[..k] + q.cache[k + 1..])
  }

  /** A request that reuses the connection of an item. */
  function Reusing(r: Request, item: Item): Request {
    r.(conn := Some(item.conn), hasSetNames := item.hasSetNames, used := item.used)
  }

  // ---------------------------------------------------------------- giving it back

  /** When the keepalive code saves a connection: the response was complete. */
  predicate CanCache(r: Request) {
    && !r.failed && r.conn.Some?
    && (r.status == NotFound || r.status == Gone || (r.status == Ok && r.headerSent && r.lengthZero))
  }

  datatype Released = Released(q: Queues, r: Request, closed: seq<Conn>, saved: Option<Conn>)

  /** The queues hold every item exactly once. */
  predicate Partition(maxCached: nat, q: Queues) {
    && |q.items| == maxCached == |q.free| + |q.cache|
    && (forall k :: 0 <= k < |q.free| ==> q.free[k] < maxCached)
    && (forall k :: 0 <= k < |q.cache| ==> q.cache[k] < maxCached)
    && (forall i, j :: 0 <= i < j < |q.free| ==> q.free[i] != q.free[j])
    && (forall i, j :: 0 <= i < j < |q.cache| ==> q.cache[i] != q.cache[j])
    && (forall i, j :: 0 <= i < |q.free| && 0 <= j < |q.cache| ==> q.free[i] != q.cache[j])
  }

  /** The oldest item comes to the head of the cache again. */
  lemma RotateKeepsPartition(maxCached: nat, q: Queues, item: Item, active: uint64)
    requires Partition(maxCached, q) && q.free == [] && maxCached > 0
    ensures |q.cache| == maxCached && q.cache[maxCached - 1] < maxCached
    ensures var k := q.cache[maxCached - 1];
      Partition(maxCached, q.(items := q.items[k := item], cache := [k] + q.cache[..maxCached - 1], active := active))
  {
    var k := q.cache[maxCached - 1];
    var cache := [k] + q.cache[..maxCached - 1];
    assert forall i :: 1 <= i < maxCached ==> cache[i] == q.cache[i - 1];
  }

  /** A free item goes to the head of the cache. */
  lemma TakeFreeKeepsPartition(maxCached: nat, q: Queues, item: Item)
    requires Partition(maxCached, q) && q.free != []
    ensures q.free[0] < maxCached
    ensures var k := q.free[0];
      Partition(maxCached, q.(items := q.items[k := item], free := q.free[1..], cache := [k] + q.cache))
  {
    var k := q.free[0];
    var free, cache := q.free[1..], [k] + q.cache;
    assert forall i :: 1 <= i < |cache| ==> cache[i] == q.cache[i - 1];
    assert forall i :: 0 <= i < |free| ==> free[i] == q.free[i + 1];
  }

  /** `ngx_http_drizzle_keepalive_free_peer` once it has decided to save. */
  function Save(maxCached: nat, q: Queues, r: Request): (rel: Released)
    requires Partition(maxCached, q) && maxCached > 0 && r.conn.Some?
    ensures Partition(maxCached, rel.q)
  {
    var item := Item(r.conn.value, r.addr, r.hasSetNames, r.used + 1);
    var r' := r.(conn := None, used := r.used + 1);
    if q.free == [] then
      RotateKeepsPartition(maxCached, q, item, Down(q.active));
      assert |q.items| == maxCached;
      hide Partition;
      var k := q.cache[|q.cache| - 1];
      Released(
        q.(items := q.items[k := item], cache := [k] + q.cache[..|q.cache| - 1], active := Down(q.active)),
        r', [q.items[k].conn], r.conn)
    else
      TakeFreeKeepsPartition(maxCached, q, item);
      assert |q.items| == maxCached;
      hide Partition;
      var k := q.free[0];
      Released(
        q.(items := q.items[k := item], free := q.free[1..], cache := [k] + q.cache),
        r', [], r.conn)
  }

  /** `ngx_http_upstream_drizzle_free_connection` on the connection of a request. */
  function Close(q: Queues, r: Request): (rel: Released)
    ensures forall maxCached :: Partition(maxCached, q) ==> Partition(maxCached, rel.q)
  {
    match r.conn
    case None => Released(q, r, [], None)
    case Some(c) => Released(q.(active := Down(q.active)), r.(conn := None), [c], None)
  }

  // ---------------------------------------------------------------- what the queue operations keep

  lemma InitIsPartition(maxCached: nat)
    ensures Partition(maxCached, Init(maxCached))
  {
  }

  lemma UnlinkKeepsPartition(maxCached: nat, q: Queues, k: nat)
    requires Partition(maxCached, q) && k < |q.cache|
    ensures Partition(maxCached, Unlink(q, k))
  {
  }

  /** `ngx_http_upstream_drizzle_free_peer` */
  function FreePeer(conf: Conf, q: Queues, r: Request, peerFailed: bool): (rel: Released)
    requires Partition(conf.maxCached, q)
    ensures Partition(conf.maxCached, rel.q)
    ensures rel.r.conn.None? && (rel.saved.Some? ==> rel.saved == r.conn)
  {
    hide Partition;
    var r1 := r.(failed := r.failed || (conf.maxCached > 0 && peerFailed));
    if conf.maxCached > 0 && CanCache(r1) then Save(conf.maxCached, q, r1) else Close(q, r1)
  }

  /** `ngx_http_upstream_drizzle_finalize_request` */
  function Finalize(conf: Conf, q: Queues, r: Request): (rel: Released)
    requires Partition(conf.maxCached, q)
    ensures Partition(conf.maxCached, rel.q)
    ensures rel.r.conn.None? && (rel.saved.Some? ==> rel.saved == r.conn)
  {
    FreePeer(conf, q, r, false)
  }

  /** `ngx_http_upstream_drizzle_next`: the release routine runs, and then again in the finalization. */
  function Next(conf: Conf, q: Queues, r: Request): (rel: Released)
    requires Partition(conf.maxCached, q)
    ensures Partition(conf.maxCached, rel.q)
    ensures rel.r.conn.None? && (rel.saved.Some? ==> rel.saved == r.conn)
  {
    var first := FreePeer(conf, q, r, true);
    var second := Finalize(conf, first.q, first.r);
    Released(second.q, second.r, first.closed + second.closed, if first.saved.Some? then first.saved else second.saved)
  }

  /** Law: a failing request releases its connection exactly once and never saves it. */
  lemma NextReleasesOnce(conf: Conf, q: Queues, r: Request)
    requires Partition(conf.maxCached, q)
    ensures var rel := Next(conf, q, r);
      && rel.saved == None
      && rel.closed == (if r.conn.Some? then [r.conn.value] else [])
      && rel.q == q.(active := if r.conn.Some? then Down(q.active) else q.active)
  {
    var first := FreePeer(conf, q, r, true);
    assert first == Close(q, r.(failed := r.failed || conf.maxCached > 0));
    NothingToRelease(conf, first.q, first.r);
    hide Partition, FreePeer, Finalize;
  }

  lemma NothingToRelease(conf: Conf, q: Queues, r: Request)
    requires Partition(conf.maxCached, q) && r.conn.None?
    ensures Finalize(conf, q, r) == Released(q, r, [], None)
  {
  }

  /** Law: a request that did not reach `done` never saves its connection. */
  lemma UnfinishedIsClosed(conf: Conf, q: Queues, r: Request)
    requires Partition(conf.maxCached, q) && r.status == Unset
    ensures Finalize(conf, q, r) == Close(q, r)
  {
  }

  /** Law: the queues hold each item, in exactly one place. */
  lemma EveryItemOnce(maxCached: nat, q: Queues, i: nat)
    requires Partition(maxCached, q) && i < maxCached
    ensures i in q.free <==> i !in q.cache
  {
    if i !in q.free && i !in q.cache {
      Pigeons(maxCached, q.free + q.cache, i);
    }
  }

  /** Distinct numbers below `n`, all different from `hole`, are fewer than `n`. */
  lemma {:induction false} Pigeons(n: nat, s: seq<nat>, hole: nat)
    requires hole < n && forall k :: 0 <= k < |s| ==> s[k] < n && s[k] != hole
    requires forall i, j :: 0 <= i < j < |s| ==> s[i] != s[j]
    ensures |s| < n
  {
    var seen := set k | 0 <= k < |s| :: s[k];
    CountSeen(s, seen);
    assert seen <= Below(n) - {hole};
    SubsetIsSmaller(seen, Below(n) - {hole});
  }

  function Below(n: nat): (b: set<nat>)
    ensures |b| == n && forall x: nat :: x in b <==> x < n
  {
    if n == 0 then {} else Below(n - 1) + {n - 1}
  }

  lemma {:induction false} CountSeen(s: seq<nat>, seen: set<nat>)
    requires forall i, j :: 0 <= i < j < |s| ==> s[i] != s[j]
    requires seen == set k | 0 <= k < |s| :: s[k]
    ensures |seen| == |s|
  {
    if s != [] {
      var init := s[..|s| - 1];
      var fewer := set k | 0 <= k < |init| :: init[k];
      CountSeen(init, fewer);
      assert seen == fewer + {s[|s| - 1]};
    }
  }

  lemma {:induction false} SubsetIsSmaller(a: set<nat>, b: set<nat>)
    requires a <= b
    ensures |a| <= |b|
  {
    if a != {} {
      var x :| x in a;
      SubsetIsSmaller(a - {x}, b - {x});
    }
  }
}
