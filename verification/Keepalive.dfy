/**
  The pool handlers of ngx_http_drizzle_keepalive.c and
  ngx_http_drizzle_upstream.c as they are written: statement by statement on the
  queues of the server configuration and the fields of one request.  Each handler
  is proved to do what the function of module `Pool` says.
 */
module Keepalive {
  import opened Rds
  import opened Pool

  datatype Rc = NgxDone | NgxDeclined

  /** The fields of `ngx_peer_connection_t`, the peer data and the upstream that the pool code uses. */
  class PeerData {
    var connection: Option<Conn>
    var sockaddr: Addr
    var names: nat
    var enableCharset: bool
    var hasSetNames: bool
    var used: nat
    var failed: bool
    var status: Status
    var headerSent: bool
    var lengthZero: bool

    constructor (addr: Addr, names: nat)
      ensures AsRequest() == FreshRequest(addr, names, None)
    {
      connection, sockaddr, this.names, enableCharset := None, addr, names, names != 0;
      hasSetNames, used, failed, status, headerSent, lengthZero := false, 0, false, Unset, false, false;
    }

    function AsRequest(): Request
      reads this
    {
      Request(connection, sockaddr, names, enableCharset, hasSetNames, used, failed, status, headerSent, lengthZero)
    }
  }

  class SrvConf {
    const maxCached: nat
    var items: seq<Item>
    var free: seq<nat>
    var cache: seq<nat>
    var activeConns: uint64
    var current: nat
    ghost var closed: seq<Conn>     // connections closed so far

    function AsQueues(): Queues
      reads this
    {
      Queues(items, free, cache, activeConns, current)
    }

    ghost predicate Valid()
      reads this
    {
      Partition(maxCached, AsQueues())
    }

    /** `ngx_http_drizzle_keepalive_init` */
    constructor (maxCached: nat)
      ensures AsQueues() == Init(maxCached) && this.maxCached == maxCached && Valid() && closed == []
    {
      this.maxCached := maxCached;
      items := seq(maxCached, i => Item(0, 0, false, 0));
      free, cache, activeConns, current, closed := [], [], 0, 0, [];
      new;
      var i := 0;
      while i < maxCached
        invariant 0 <= i <= maxCached && |free| == i && forall k :: 0 <= k < i ==> free[k] == i - 1 - k
        invariant items == Init(maxCached).items && cache == [] && activeConns == 0 && current == 0 && closed == []
      {
        free := [i] + free;
        i := i + 1;
      }
      assert free == Init(maxCached).free;
      InitIsPartition(maxCached);
    }

    /** Remove the item at position `k` of the cache and put it at the head of the free queue. */
    method MoveToFree(k: nat)
      requires Valid() && k < |cache|
      modifies this`free, this`cache
      ensures Valid() && AsQueues() == Unlink(old(AsQueues()), k)
    {
      UnlinkKeepsPartition(maxCached, AsQueues(), k);
      var q := cache[k];
      cache := cache[..k] + cache[k + 1..];
      free := [q] + free;
    }

    /** `ngx_http_drizzle_keepalive_get_peer_single` */
    method GetPeerSingle(dp: PeerData) returns (rc: Rc)
      requires Valid()
      modifies this`free, this`cache, dp
      ensures Valid()
      ensures old(cache) == [] ==> rc == NgxDeclined && AsQueues() == old(AsQueues()) && dp.AsRequest() == old(dp.AsRequest())
      ensures old(cache) != [] ==>
        var item := old(items[cache[0]]);
        && rc == NgxDone && AsQueues() == Unlink(old(AsQueues()), 0)
        && dp.AsRequest() == Reusing(old(dp.AsRequest()), item).(addr := item.addr)
    {
      if cache != [] {
        var item := items[cache[0]];
        MoveToFree(0);
        dp.sockaddr := item.addr;
        dp.hasSetNames := item.hasSetNames;
        dp.used := item.used;
        dp.connection := Some(item.conn);
        return NgxDone;
      }
      return NgxDeclined;
    }

    /** `ngx_http_drizzle_keepalive_get_peer_multi`: the first cached item with the wanted address. */
    method GetPeerMulti(dp: PeerData) returns (rc: Rc)
      requires Valid()
      modifies this`free, this`cache, dp
      ensures Valid()
      ensures match Find(old(AsQueues()), old(dp.sockaddr), 0)
              case None => rc == NgxDeclined && AsQueues() == old(AsQueues()) && dp.AsRequest() == old(dp.AsRequest())
              case Some(k) =>
                && rc == NgxDone && AsQueues() == Unlink(old(AsQueues()), k)
                && dp.AsRequest() == Reusing(old(dp.AsRequest()), old(items[cache[k]]))
    {
      var k := 0;
      while k < |cache|
        invariant 0 <= k <= |cache| && AsQueues() == old(AsQueues()) && dp.AsRequest() == old(dp.AsRequest())
        invariant Valid() && Find(AsQueues(), dp.sockaddr, 0) == Find(AsQueues(), dp.sockaddr, k)
      {
        var item := items[cache[k]];
        if item.addr == dp.sockaddr {
          MoveToFree(k);
          dp.connection := Some(item.conn);
          dp.hasSetNames := item.hasSetNames;
          dp.used := item.used;
          return NgxDone;
        }
        k := k + 1;
      }
      return NgxDeclined;
    }

    /** `ngx_http_upstream_drizzle_free_connection` */
    method FreeConnection(c: Conn)
      modifies this`activeConns, this`closed
      ensures activeConns == Down(old(activeConns)) && closed == old(closed) + [c]
    {
      activeConns := Down(activeConns);
      closed := closed + [c];
    }

    /** The part of `ngx_http_drizzle_keepalive_free_peer` that saves the connection. */
    method SaveConnection(dp: PeerData)
      requires Valid() && maxCached > 0 && dp.connection.Some?
      modifies this, dp
      ensures var rel := Save(maxCached, old(AsQueues()), old(dp.AsRequest()));
        AsQueues() == rel.q && dp.AsRequest() == rel.r && closed == old(closed) + rel.closed
    {
      var c := dp.connection.value;
      var q;
      if free == [] {
        q := cache[|cache| - 1];
        cache := cache[..|cache| - 1];
        FreeConnection(items[q].conn);
      } else {
        q := free[0];
        free := free[1..];
      }
      cache := [q] + cache;
      dp.connection := None;
      dp.used := dp.used + 1;
      items := items[q := Item(c, dp.sockaddr, dp.hasSetNames, dp.used)];
    }

    /** `ngx_http_upstream_drizzle_free_peer`, with `ngx_http_drizzle_keepalive_free_peer` */
    method FreePeer(dp: PeerData, peerFailed: bool, ghost conf: Conf)
      requires Valid() && conf.maxCached == maxCached
      modifies this, dp
      ensures Valid()
      ensures var rel := Pool.FreePeer(conf, old(AsQueues()), old(dp.AsRequest()), peerFailed);
        AsQueues() == rel.q && dp.AsRequest() == rel.r && closed == old(closed) + rel.closed
    {
      hide Partition, Save;
      ghost var rel := Pool.FreePeer(conf, AsQueues(), dp.AsRequest(), peerFailed);
      assert closed == closed + [];
      if maxCached > 0 {
        if peerFailed {
          dp.failed := true;
        }
        if !dp.failed && dp.connection.Some?
           && (dp.status == NotFound || dp.status == Gone || (dp.status == Ok && dp.headerSent && dp.lengthZero))
        {
          SaveConnection(dp);
        }
      }
      if dp.connection.Some? {
        FreeConnection(dp.connection.value);
        dp.connection := None;
      }
      assert AsQueues() == rel.q;
    }

    /** The release part of `ngx_http_upstream_drizzle_next`: the routine runs, and again in the finalization. */
    method Next(dp: PeerData, ghost conf: Conf)
      requires Valid() && conf.maxCached == maxCached
      modifies this, dp
      ensures Valid() && dp.connection.None?
      ensures AsQueues() == old(AsQueues()).(active := if old(dp.connection).Some? then Down(old(activeConns)) else old(activeConns))
      ensures closed == old(closed) + if old(dp.connection).Some? then [old(dp.connection).value] else []
    {
      hide Partition, Pool.FreePeer;
      NextReleasesOnce(conf, AsQueues(), dp.AsRequest());
      FreePeer(dp, true, conf);
      FreePeer(dp, false, conf);
    }

    /** `ngx_http_drizzle_keepalive_close_handler` on an idle connection that is not merely stale. */
    method CloseHandler(k: nat)
      requires Valid() && k < |cache|
      modifies this
      ensures Valid() && AsQueues() == Unlink(old(AsQueues()), k).(active := Down(old(activeConns)))
      ensures closed == old(closed) + [old(items[cache[k]]).conn]
    {
      FreeConnection(items[cache[k]].conn);
      MoveToFree(k);
    }
  }
}
