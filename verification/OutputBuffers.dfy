/**
  The output buffers of ngx_http_drizzle_output.c.

  An atom is written in two phases.  `Request` finds room for it: behind the
  bytes of the buffer being filled, or in a scratch area when the rest of that
  buffer is too small.  `Submit` publishes it: it advances the buffer, or moves
  the scratch bytes into a buffer of their own.  Full buffers are linked to an
  output chain; `OutputBufs` hands the chain to nginx, which sends the bytes in
  order and recycles emptied buffers.

  Buffers live in an arena and a pointer to one is its index, so a buffer may be
  referenced from several places.  The ghost field `place` and the invariant
  `Valid` say that it is not: no buffer is both being filled and on the chain,
  and none is on two lists.
 */
module OutputBuffers {
  import opened Rds
  import opened Packing

  type Ptr = nat

  /** An `ngx_buf_t`: storage, and the part of it between `pos` and `last` still to be sent. */
  datatype Buf = Buf(data: bytes, pos: nat, last: nat)
  {
    ghost predicate Carries(content: bytes) {
      pos <= last <= |data| && data[pos..last] == content
    }

    /** These bytes lie right behind the published ones. */
    ghost predicate Follows(atom: bytes) {
      last + |atom| <= |data| && data[last..last + |atom|] == atom
    }
  }

  lemma CarriesMore(b: Buf, content: bytes, atom: Atom)
    requires b.pos == 0 && b.Carries(content) && b.Follows(atom)
    ensures b.(last := b.last + |atom|).Carries(content + atom)
  {
    assert b.data[0..b.last + |atom|] == b.data[0..b.last] + atom;
  }

  lemma CopyBehind(b: Buf, content: bytes, atom: Atom)
    requires b.Carries(content) && b.last + |atom| <= |b.data|
    ensures b.(data := Copy(b.data, b.last, atom)).Carries(content)
    ensures b.(data := Copy(b.data, b.last, atom)).Follows(atom)
  {
    var d := Copy(b.data, b.last, atom);
    assert d[b.pos..b.last] == d[..b.last][b.pos..] == b.data[..b.last][b.pos..] == b.data[b.pos..b.last];
  }

  datatype Place = Filling | Queued | Free | Dropped

  function NewBuf(size: nat): Buf {
    Buf(seq(size, i => 0), 0, 0)
  }

  /** `ngx_copy` into storage at an offset. */
  function Copy(data: bytes, at: nat, content: bytes): (r: bytes)
    requires at + |content| <= |data|
    ensures |r| == |data| && r[..at] == data[..at] && r[at..at + |content|] == content
  {
    data[..at] + content + data[at + |content|..]
  }

  ghost predicate Distinct(s: seq<Ptr>) {
    forall i, j :: 0 <= i < j < |s| ==> s[i] != s[j]
  }

  ghost predicate Apart(s: seq<Ptr>, t: seq<Ptr>) {
    forall i, j :: 0 <= i < |s| && 0 <= j < |t| ==> s[i] != t[j]
  }

  lemma DistinctAppend(s: seq<Ptr>, t: seq<Ptr>)
    requires Distinct(s) && Distinct(t) && Apart(s, t)
    ensures Distinct(s + t)
  {
  }

  class OutputLayer {
    const bufSize: nat
    var arena: seq<Buf>
    var outBuf: Ptr
    var availOut: nat
    var scratch: bytes
    var postponed: Option<nat>
    var out: seq<Ptr>
    var busy: seq<Ptr>
    var free: seq<Ptr>
    var seenStreamEnd: bool

    ghost var place: seq<Place>
    ghost var openAtoms: seq<Atom>        // the atoms in the buffer being filled
    ghost var outGroups: seq<seq<Atom>>   // the atoms in each chained buffer
    ghost var handed: seq<seq<Atom>>      // the atoms in each buffer given to nginx
    ghost var busyParts: seq<bytes>       // what is left to send of each busy buffer
    ghost var sent: bytes                 // what nginx has sent

    ghost predicate At(p: Ptr, where: Place)
      reads this`arena, this`place
    {
      p < |arena| == |place| && place[p] == where
    }

    ghost predicate Chain()
      reads this`arena, this`place, this`out, this`outGroups
    {
      && |outGroups| == |out| && Distinct(out)
      && (forall i :: 0 <= i < |out| ==>
            At(out[i], Queued) && arena[out[i]].pos == 0 && arena[out[i]].Carries(Concat(outGroups[i])))
    }

    ghost predicate InFlight()
      reads this`arena, this`place, this`busy, this`busyParts, this`sent, this`handed
    {
      && |busyParts| == |busy| && Distinct(busy)
      && (forall i :: 0 <= i < |busy| ==> At(busy[i], Queued) && arena[busy[i]].Carries(busyParts[i]))
      && sent + Concat(busyParts) == Concat(Flatten(handed))
    }

    ghost predicate Recycled()
      reads this`arena, this`place, this`free
    {
      && Distinct(free)
      && (forall i :: 0 <= i < |free| ==>
            At(free[i], Free) && arena[free[i]].pos == 0 && arena[free[i]].last == 0)
    }

    /** The buffer being filled has the room claimed for it. */
    ghost predicate Ready()
      reads this`arena, this`place, this`outBuf, this`openAtoms, this`availOut
    {
      && At(outBuf, Filling) && arena[outBuf].pos == 0
      && arena[outBuf].Carries(Concat(openAtoms)) && arena[outBuf].last + availOut <= |arena[outBuf].data|
    }

    ghost predicate Valid()
      reads this`arena, this`place, this`out, this`outGroups, this`busy, this`busyParts, this`sent, this`handed, this`free, this`outBuf, this`openAtoms, this`availOut
    {
      && |arena| == |place|
      && (forall p :: 0 <= p < |arena| ==> |arena[p].data| >= bufSize)
      && Chain() && InFlight() && Recycled() && Apart(busy, out)
      && (availOut > 0 ==> Ready())
    }

    /** The buffers so far as lists of atoms: handed over, chained, being filled. */
    ghost function State(): Pack
      reads this`handed, this`outGroups, this`openAtoms, this`availOut
    {
      Pack(handed + outGroups, openAtoms, availOut)
    }

    constructor (bufSize: nat)
      ensures Valid() && this.bufSize == bufSize
      ensures State() == EMPTY_PACK && sent == [] && !seenStreamEnd && postponed == None
    {
      this.bufSize := bufSize;
      arena, outBuf, availOut, scratch, postponed := [], 0, 0, [], None;
      out, busy, free, seenStreamEnd := [], [], [], false;
      place, openAtoms, outGroups, handed, busyParts, sent := [], [], [], [], [], [];
    }

    /** Start filling the first recycled buffer; it may be larger than `bufSize`. */
    method TakeFree()
      requires Valid() && availOut == 0 && openAtoms == [] && free != []
      modifies this`outBuf, this`free, this`place, this`availOut
      ensures Valid() && Ready() && availOut == bufSize
    {
      hide Flatten;
      outBuf := free[0];
      free := free[1..];
      place := place[outBuf := Filling];
      availOut := bufSize;
    }

    /** Start filling a buffer that did not exist before. */
    method Create(size: nat)
      requires Valid() && availOut == 0 && openAtoms == [] && size >= bufSize
      modifies this`outBuf, this`arena, this`place, this`availOut
      ensures Valid() && Ready() && arena[outBuf].last == 0
      ensures State() == Pack(old(State().closed), [], size)
    {
      hide Flatten;
      outBuf := |arena|;
      arena := arena + [NewBuf(size)];
      place := place + [Filling];
      availOut := size;
    }

    /** `ngx_http_drizzle_get_buf` */
    method GetBuf()
      requires Valid() && (availOut == 0 ==> openAtoms == [])
      modifies this
      ensures Valid() && Ready()
      ensures State() == Opened(old(State()), bufSize)
      ensures sent == old(sent) && handed == old(handed)
      ensures seenStreamEnd == old(seenStreamEnd) && postponed == old(postponed)
    {
      if availOut > 0 {
        return;
      }
      hide Valid;
      if free != [] {
        TakeFree();
      } else {
        Create(bufSize);
      }
    }

    /** `ngx_http_drizzle_get_postponed`: the scratch area grows and is kept. */
    method GetPostponed(len: nat)
      modifies this`scratch
      ensures |scratch| >= len && |scratch| >= |old(scratch)|
    {
      if |scratch| < len {
        scratch := seq(len, i => 0);
      }
    }

    /** The room `Request` found for an atom of `len` bytes. */
    ghost predicate Requested(len: nat)
      reads this
    {
      && Ready()
      && (if availOut < len then postponed == Some(len) && len <= |scratch| else postponed == None)
    }

    /** `ngx_http_drizzle_request_mem` */
    method Request(len: nat)
      requires Valid() && postponed == None && (availOut == 0 ==> openAtoms == [])
      modifies this
      ensures Valid() && Requested(len)
      ensures State() == Opened(old(State()), bufSize)
      ensures sent == old(sent) && handed == old(handed) && seenStreamEnd == old(seenStreamEnd)
    {
      GetBuf();
      if availOut < len {
        GetPostponed(len);
        postponed := Some(len);
      }
    }

    /** The requested room holds these bytes. */
    ghost predicate Written(atom: Atom)
      reads this
    {
      && Requested(|atom|)
      && (if postponed.Some? then scratch[..|atom|] == atom
          else arena[outBuf].Follows(atom))
    }

    /** The scratch area is not part of what has been submitted. */
    method WriteScratch(atom: Atom)
      requires Valid() && Requested(|atom|) && postponed.Some?
      modifies this`scratch
      ensures Valid() && Written(atom)
      ensures State() == old(State())
    {
      scratch := Copy(scratch, 0, atom);
    }

    /** Neither is what lies behind the bytes of the open buffer. */
    method WriteBehind(atom: Atom)
      requires Valid() && Requested(|atom|) && postponed.None?
      modifies this`arena
      ensures Valid() && Written(atom)
      ensures State() == old(State())
    {
      var b := arena[outBuf];
      CopyBehind(b, Concat(openAtoms), atom);
      hide Buf.Carries, Buf.Follows, Concat;
      arena := arena[outBuf := b.(data := Copy(b.data, b.last, atom))];
    }

    /** The atom writers store their bytes through the pointer `Request` returned. */
    method Write(atom: Atom)
      requires Valid() && Requested(|atom|)
      modifies this`arena, this`scratch
      ensures Valid() && Written(atom)
      ensures State() == old(State())
    {
      hide Valid, Requested, Written;
      if postponed.Some? {
        WriteScratch(atom);
      } else {
        WriteBehind(atom);
      }
    }

    /** Link the buffer being filled to the end of the chain. */
    method Link()
      requires Valid() && Ready()
      modifies this`out, this`place, this`outGroups, this`openAtoms, this`availOut
      ensures Valid() && State() == Pack(old(State().closed) + [old(openAtoms)], [], 0)
    {
      hide Concat, Flatten;
      out := out + [outBuf];
      place := place[outBuf := Queued];
      outGroups := outGroups + [openAtoms];
      openAtoms, availOut := [], 0;
    }

    /** Move the scratch bytes into the buffer just created for them. */
    method FillFromScratch(len: nat, ghost atom: Atom)
      requires Valid() && Ready() && openAtoms == [] && arena[outBuf].last == 0
      requires len == |atom| <= |scratch| && len <= availOut && scratch[..len] == atom
      modifies this`arena, this`availOut, this`openAtoms, this`postponed
      ensures Valid() && Ready() && postponed == None
      ensures availOut == old(availOut) - len && State() == Pack(old(State().closed), [atom], availOut)
    {
      var b := arena[outBuf];
      arena := arena[outBuf := b.(data := Copy(b.data, b.last, scratch[..len]), last := b.last + len)];
      openAtoms := [atom];
      ConcatOne(atom);
      availOut := availOut - len;
      postponed := None;
    }

    /** The atom already lies behind the bytes of the buffer being filled. */
    method Advance(len: nat, ghost atom: Atom)
      requires Valid() && Ready() && len == |atom| <= availOut
      requires arena[outBuf].Follows(atom)
      modifies this`arena, this`availOut, this`openAtoms
      ensures Valid() && Ready()
      ensures State() == Pack(old(State().closed), Extend(old(openAtoms), atom), old(availOut) - len)
    {
      var b := arena[outBuf];
      CarriesMore(b, Concat(openAtoms), atom);
      ConcatExtend(openAtoms, atom);
      hide Concat, Flatten, Extend, Buf.Carries, Buf.Follows;
      arena := arena[outBuf := b.(last := b.last + len)];
      openAtoms := Extend(openAtoms, atom);
      availOut := availOut - len;
    }

    /** Stop filling the current buffer: link it, unless it is still empty. */
    method SetAside()
      requires Valid() && Ready() && forall a :: a in openAtoms ==> a != []
      modifies this`out, this`place, this`outGroups, this`openAtoms, this`availOut
      ensures Valid() && availOut == 0 && openAtoms == []
      ensures State().closed == if old(openAtoms) == [] then old(State().closed) else old(State().closed) + [old(openAtoms)]
    {
      OpenIsNotEmpty(openAtoms);
      if arena[outBuf].pos != arena[outBuf].last {
        Link();
      } else {
        place := place[outBuf := Dropped];
        availOut := 0;
      }
    }

    /** A postponed atom gets a new buffer, large enough to hold it whole. */
    method SubmitPostponed(postponedLen: nat, ghost atom: Atom)
      requires Valid() && Written(atom) && postponed == Some(postponedLen)
      requires forall a :: a in openAtoms ==> a != []
      modifies this
      ensures Valid() && postponed == None
      ensures State() == Put(old(State()), bufSize, atom)
      ensures sent == old(sent) && handed == old(handed) && seenStreamEnd == old(seenStreamEnd)
    {
      hide Valid, Concat;
      SetAside();
      var size := if postponedLen > bufSize then postponedLen else bufSize;
      Create(size);
      FillFromScratch(postponedLen, atom);
      if availOut == 0 {
        Link();
      }
    }

    /**
      `ngx_http_drizzle_submit_mem`.  A postponed atom never fits the room that was
      left when it was requested, so the loop of the source that would split it
      over several buffers is not reached.
     */
    method Submit(len: nat, ghost atom: Atom)
      requires Valid() && Written(atom) && len == |atom| && forall a :: a in openAtoms ==> a != []
      modifies this
      ensures Valid() && postponed == None
      ensures State() == Put(old(State()), bufSize, atom)
      ensures sent == old(sent) && handed == old(handed) && seenStreamEnd == old(seenStreamEnd)
    {
      hide Valid;
      if postponed.Some? {
        if postponed.value > availOut {
          SubmitPostponed(postponed.value, atom);
        } else {
          assert false;
        }
      } else {
        Advance(len, atom);
        if availOut == 0 {
          Link();
        }
      }
    }

    /** Nothing is pending, and the buffers obey the size limits. */
    ghost predicate Sound()
      reads this
    {
      && Valid() && postponed == None && PackFits(State(), bufSize)
      && (seenStreamEnd && availOut > 0 ==> openAtoms != [])
    }

    /** One atom through both phases; the last atom of a response marks the end of the stream. */
    method Emit(atom: Atom, streamEnd: bool)
      requires Sound() && !seenStreamEnd && (streamEnd ==> atom != [])
      modifies this
      ensures Sound() && State() == Add(old(State()), bufSize, atom)
      ensures seenStreamEnd == streamEnd && sent == old(sent) && handed == old(handed)
    {
      hide Valid;
      AddFits(State(), bufSize, atom);
      Request(|atom|);
      Write(atom);
      if streamEnd {
        MarkStreamEnd(atom);
      }
      Submit(|atom|, atom);
    }

    method MarkStreamEnd(ghost atom: Atom)
      requires Valid() && Written(atom)
      modifies this`seenStreamEnd
      ensures Valid() && Written(atom) && seenStreamEnd
      ensures State() == old(State())
    {
      seenStreamEnd := true;
    }

    /** The chain becomes part of what nginx is sending. */
    method HandOver()
      requires Valid()
      modifies this`out, this`outGroups, this`busy, this`busyParts, this`handed
      ensures Valid() && out == [] && outGroups == []
      ensures State() == old(State())
    {
      hide Concat, Flatten;
      PartsAt(outGroups);
      HandedBytes(sent, busyParts, handed, outGroups);
      DistinctAppend(busy, out);
      hide Distinct;
      busy := busy + out;
      busyParts := busyParts + Parts(outGroups);
      handed := handed + outGroups;
      out, outGroups := [], [];
    }

    /** An emptied buffer is reset and put in front of the free list. */
    method Recycle()
      requires Valid() && busy != [] && arena[busy[0]].pos == arena[busy[0]].last
      modifies this`busy, this`busyParts, this`free, this`arena, this`place
      ensures Valid() && busy == old(busy[1..]) && |busy| < old(|busy|)
    {
      hide Concat, Flatten;
      ConcatHead(busyParts);
      var p := busy[0];
      arena := arena[p := arena[p].(pos := 0, last := 0)];
      place := place[p := Free];
      busy, busyParts := busy[1..], busyParts[1..];
      free := [p] + free;
    }

    /** The first `n` bytes of the first busy buffer go out. */
    method Send(n: nat)
      requires Valid() && busy != [] && arena[busy[0]].pos + n <= arena[busy[0]].last
      modifies this`busyParts, this`arena, this`sent
      ensures Valid() && old(sent) <= sent && |sent| == old(|sent|) + n
      ensures arena[busy[0]].pos == old(arena[busy[0]].pos) + n && arena[busy[0]].last == old(arena[busy[0]].last)
    {
      hide Concat, Flatten;
      ConcatHead(busyParts);
      var b := arena[busy[0]];
      arena := arena[busy[0] := b.(pos := b.pos + n)];
      sent := sent + busyParts[0][..n];
      busyParts := [busyParts[0][n..]] + busyParts[1..];
      ConcatHead(busyParts);
    }

    /** nginx sends `accepted` bytes in order, and the buffers it has emptied are recycled. */
    method Drain(accepted: nat)
      requires Valid()
      modifies this`busy, this`busyParts, this`free, this`arena, this`place, this`sent
      ensures Valid() && old(sent) <= sent
      ensures |sent| == old(|sent|) + accepted || (busy == [] && |sent| <= old(|sent|) + accepted)
    {
      hide Valid;
      var n := accepted;
      while busy != []
        invariant Valid() && old(sent) <= sent && 0 <= n && |sent| == old(|sent|) + accepted - n
        decreases |busy|
      {
        BusyInArena();
        var b := arena[busy[0]];
        var k := if n < b.last - b.pos then n else b.last - b.pos;
        Send(k);
        n := n - k;
        if k < b.last - b.pos {
          return;
        }
        Recycle();
      }
    }

    lemma BusyInArena()
      requires Valid() && busy != []
      ensures busy[0] < |arena| && arena[busy[0]].pos <= arena[busy[0]].last
    {
    }

    /**
      `ngx_http_drizzle_output_bufs`; `accepted` is what the client side takes this
      time.  The chain is handed over whole, so the loop of the source turns once.
     */
    method OutputBufs(accepted: nat)
      requires Sound()
      modifies this
      ensures Sound() && !seenStreamEnd && out == [] && handed == State().closed
      ensures State() == if old(seenStreamEnd) then Finish(old(State())) else old(State())
      ensures old(sent) <= sent
    {
      if seenStreamEnd {
        FinishFits(State(), bufSize);
        EndStream();
      }
      hide Valid;
      if out != [] {
        HandOver();
        Drain(accepted);
      }
    }

    method EndStream()
      requires Valid()
      modifies this
      ensures Valid() && !seenStreamEnd && State() == Finish(old(State()))
      ensures sent == old(sent) && postponed == old(postponed)
    {
      seenStreamEnd := false;
      if availOut > 0 {
        Link();
      }
    }

    ghost predicate InBounds(list: seq<Ptr>)
      reads this`arena
    {
      forall i :: 0 <= i < |list| ==> list[i] < |arena| && arena[list[i]].pos <= arena[list[i]].last <= |arena[list[i]].data|
    }

    /** The bytes between `pos` and `last` of a list of buffers. */
    ghost function Remaining(list: seq<Ptr>): bytes
      reads this`arena
      requires InBounds(list)
    {
      if list == [] then []
      else
        var b := arena[list[|list| - 1]];
        Remaining(list[..|list| - 1]) + b.data[b.pos..b.last]
    }

    lemma {:induction false} RemainingIs(list: seq<Ptr>, parts: seq<bytes>)
      requires |list| == |parts| && InBounds(list)
      requires forall i :: 0 <= i < |list| ==> list[i] < |arena| && arena[list[i]].Carries(parts[i])
      ensures Remaining(list) == Concat(parts)
    {
      if list != [] {
        RemainingIs(list[..|list| - 1], parts[..|parts| - 1]);
      }
    }

    /** What has been sent, and what the memory holds for sending: busy, chained, being filled. */
    ghost function InMemory(): bytes
      reads this
      requires Valid()
    {
      sent + Remaining(busy) + Remaining(out)
      + if availOut > 0 then arena[outBuf].data[arena[outBuf].pos..arena[outBuf].last] else []
    }

    /**
      Law: the bytes sent, being sent, chained and in the buffer being filled are
      together the atoms submitted so far, in order, none missing and none twice.
     */
    lemma BytesAreConserved()
      requires Sound()
      ensures InMemory() == PackBytes(State())
    {
      RemainingIs(busy, busyParts);
      PartsAt(outGroups);
      RemainingIs(out, Parts(outGroups));
      PartsConcat(outGroups);
      FlattenAppend(handed, outGroups);
      ConcatAppend(Flatten(handed), Flatten(outGroups));
      ConcatAppend(Flatten(handed + outGroups), openAtoms);
      assert availOut == 0 ==> openAtoms == [] && Concat(openAtoms) == [];
    }

    /** Law: no buffer is in two places, and none being filled or queued is free. */
    lemma BuffersAreOwnedOnce(p: Ptr)
      requires Valid() && p < |arena|
      ensures p in free ==> p !in busy && p !in out && (availOut > 0 ==> p != outBuf)
      ensures p in busy ==> p !in out && (availOut > 0 ==> p != outBuf)
      ensures p in out ==> (availOut > 0 ==> p != outBuf)
      ensures p in busy || p in out ==> arena[p].pos <= arena[p].last <= |arena[p].data|
    {
    }

    /** Law: after the flush at the end of the stream every submitted byte was given to nginx. */
    lemma NothingIsLeftBehind()
      requires Sound() && out == [] && availOut == 0
      ensures PackBytes(State()) == sent + Remaining(busy)
    {
      BytesAreConserved();
    }
  }
}
