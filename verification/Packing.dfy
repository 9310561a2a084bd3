/**
  How a stream of atoms falls into output buffers.

  The buffer layer of ngx_http_drizzle_output.c decides where one buffer ends
  and the next begins while it copies atoms.  `Add` is that decision alone, on
  lists of atoms instead of memory: which atoms share a buffer depends only on
  the atoms and the configured buffer size.
 */
module Packing {
  import opened Rds

  type Atom = bytes

  function Concat(atoms: seq<Atom>): bytes {
    if atoms == [] then [] else Concat(atoms[..|atoms| - 1]) + atoms[|atoms| - 1]
  }

  function Flatten(groups: seq<seq<Atom>>): seq<Atom> {
    if groups == [] then [] else Flatten(groups[..|groups| - 1]) + groups[|groups| - 1]
  }

  lemma {:induction false} ConcatAppend(s: seq<Atom>, t: seq<Atom>)
    ensures Concat(s + t) == Concat(s) + Concat(t)
  {
    if t == [] {
      assert s + t == s;
    } else {
      var t' := t[..|t| - 1];
      assert (s + t)[..|s + t| - 1] == s + t';
      ConcatAppend(s, t');
    }
  }

  lemma ConcatOne(a: Atom)
    ensures Concat([a]) == a
  {
    assert [a][..0] == [];
  }

  lemma {:induction false} FlattenAppend(s: seq<seq<Atom>>, t: seq<seq<Atom>>)
    ensures Flatten(s + t) == Flatten(s) + Flatten(t)
  {
    if t == [] {
      assert s + t == s;
    } else {
      var t' := t[..|t| - 1];
      assert (s + t)[..|s + t| - 1] == s + t';
      FlattenAppend(s, t');
    }
  }

  lemma FlattenSnoc(s: seq<seq<Atom>>, g: seq<Atom>)
    ensures Flatten(s + [g]) == Flatten(s) + g
  {
    assert (s + [g])[..|s|] == s;
  }

  /**
    Closed buffers as lists of whole atoms, the atoms of the buffer being filled,
    and the room left in it; no buffer is being filled when no room is left.
   */
  datatype Pack = Pack(closed: seq<seq<Atom>>, open: seq<Atom>, avail: nat)

  const EMPTY_PACK: Pack := Pack([], [], 0)

  function Extend(atoms: seq<Atom>, atom: Atom): seq<Atom> {
    if atom == [] then atoms else atoms + [atom]
  }

  function Opened(p: Pack, size: nat): Pack {
    if p.avail == 0 then Pack(p.closed, [], size) else p
  }

  /** Submit an atom after room was requested for it. */
  function Put(q: Pack, size: nat, atom: Atom): Pack {
    if q.avail < |atom| then
      var closed := if q.open == [] then q.closed else q.closed + [q.open];
      if |atom| >= size then Pack(closed + [[atom]], [], 0) else Pack(closed, [atom], size - |atom|)
    else
      var open := Extend(q.open, atom);
      if q.avail == |atom| then Pack(q.closed + [open], [], 0) else Pack(q.closed, open, q.avail - |atom|)
  }

  /** Request and submit one atom. */
  function Add(p: Pack, size: nat, atom: Atom): Pack {
    Put(Opened(p, size), size, atom)
  }

  /** The end of the stream closes the buffer being filled. */
  function Finish(p: Pack): Pack {
    if p.avail == 0 then p else Pack(p.closed + [p.open], [], 0)
  }

  function AddAll(p: Pack, size: nat, atoms: seq<Atom>): Pack {
    if atoms == [] then p else Add(AddAll(p, size, atoms[..|atoms| - 1]), size, atoms[|atoms| - 1])
  }

  lemma {:induction false} AddAllAppend(p: Pack, size: nat, s: seq<Atom>, t: seq<Atom>)
    ensures AddAll(p, size, s + t) == AddAll(AddAll(p, size, s), size, t)
  {
    hide Add;
    if t == [] {
      assert s + t == s;
    } else {
      assert (s + t)[..|s + t| - 1] == s + t[..|t| - 1];
      AddAllAppend(p, size, s, t[..|t| - 1]);
    }
  }

  lemma AddAllOne(p: Pack, size: nat, atom: Atom)
    ensures AddAll(p, size, [atom]) == Add(p, size, atom) && AddAll(p, size, []) == p
  {
    hide Add;
    assert [atom][..0] == [];
  }

  /** All atoms of a packing in order. */
  function Atoms(p: Pack): seq<Atom> {
    Flatten(p.closed) + p.open
  }

  function NonEmpty(atoms: seq<Atom>): seq<Atom> {
    if atoms == [] then [] else Extend(NonEmpty(atoms[..|atoms| - 1]), atoms[|atoms| - 1])
  }

  /** One buffer within `size`, or one atom alone in a buffer of its own size. */
  predicate GroupFits(group: seq<Atom>, size: nat) {
    |Concat(group)| <= size || |group| == 1
  }

  predicate PackFits(p: Pack, size: nat) {
    && (forall i :: 0 <= i < |p.closed| ==> GroupFits(p.closed[i], size))
    && (forall i :: 0 <= i < |p.closed| && size > 0 ==> Concat(p.closed[i]) != [])
    && (p.avail > 0 ==> |Concat(p.open)| + p.avail == size)
    && (p.avail == 0 ==> p.open == [])
    && (forall a :: a in p.open ==> a != [])
  }

  lemma ConcatExtend(atoms: seq<Atom>, atom: Atom)
    ensures Concat(Extend(atoms, atom)) == Concat(atoms) + atom
  {
    if atom != [] {
      assert (atoms + [atom])[..|atoms|] == atoms;
    }
  }

  /** Nothing is lost, added or reordered: the atoms come out as they went in. */
  lemma AddKeepsAtoms(p: Pack, size: nat, atom: Atom)
    requires PackFits(p, size)
    ensures Atoms(Add(p, size, atom)) == Extend(Atoms(p), atom)
  {
    var q := Opened(p, size);
    assert Atoms(q) == Atoms(p);
    if q.avail < |atom| {
      var closed := if q.open == [] then q.closed else q.closed + [q.open];
      assert Flatten(closed) == Atoms(p) by {
        FlattenSnoc(q.closed, q.open);
      }
      FlattenSnoc(closed, [atom]);
    } else {
      var open := Extend(q.open, atom);
      FlattenSnoc(q.closed, open);
      assert Flatten(q.closed) + open == Extend(Atoms(q), atom);
    }
  }

  lemma OpenIsNotEmpty(atoms: seq<Atom>)
    requires forall a :: a in atoms ==> a != []
    ensures atoms != [] ==> Concat(atoms) != []
  {
    assert atoms != [] ==> atoms[|atoms| - 1] in atoms;
  }

  lemma AddFits(p: Pack, size: nat, atom: Atom)
    requires PackFits(p, size)
    ensures PackFits(Add(p, size, atom), size)
  {
    var q := Opened(p, size);
    ConcatExtend(q.open, atom);
    ConcatOne(atom);
    OpenIsNotEmpty(q.open);
    hide Concat;
  }

  lemma FinishKeepsAtoms(p: Pack, size: nat)
    requires PackFits(p, size)
    ensures Atoms(Finish(p)) == Atoms(p)
    ensures Finish(p).open == [] && Finish(p).avail == 0
  {
    FlattenSnoc(p.closed, p.open);
  }

  /**
    Law: wherever the buffers end, every non-empty atom lies whole in one buffer,
    in order; a buffer holds at most `size` bytes unless a single atom needs more.
   */
  lemma {:induction false} PackingKeepsAtomsWhole(size: nat, atoms: seq<Atom>)
    ensures var p := AddAll(EMPTY_PACK, size, atoms);
      PackFits(p, size) && Atoms(p) == NonEmpty(atoms)
  {
    if atoms != [] {
      var init := atoms[..|atoms| - 1];
      PackingKeepsAtomsWhole(size, init);
      var p := AddAll(EMPTY_PACK, size, init);
      AddKeepsAtoms(p, size, atoms[|atoms| - 1]);
      AddFits(p, size, atoms[|atoms| - 1]);
    }
  }

  lemma {:induction false} NonEmptyConcat(atoms: seq<Atom>)
    ensures Concat(NonEmpty(atoms)) == Concat(atoms)
  {
    if atoms != [] {
      NonEmptyConcat(atoms[..|atoms| - 1]);
      ConcatExtend(NonEmpty(atoms[..|atoms| - 1]), atoms[|atoms| - 1]);
    }
  }

  /** The bytes of a packing. */
  function PackBytes(p: Pack): bytes {
    Concat(Atoms(p))
  }

  lemma AddKeepsBytes(p: Pack, size: nat, atom: Atom)
    requires PackFits(p, size)
    ensures PackBytes(Add(p, size, atom)) == PackBytes(p) + atom
  {
    AddKeepsAtoms(p, size, atom);
    ConcatExtend(Atoms(p), atom);
  }

  /** The bytes of each group. */
  function Parts(groups: seq<seq<Atom>>): seq<bytes> {
    if groups == [] then [] else Parts(groups[..|groups| - 1]) + [Concat(groups[|groups| - 1])]
  }

  lemma {:induction false} PartsAt(groups: seq<seq<Atom>>)
    ensures |Parts(groups)| == |groups|
    ensures forall i :: 0 <= i < |groups| ==> Parts(groups)[i] == Concat(groups[i])
  {
    if groups != [] {
      PartsAt(groups[..|groups| - 1]);
    }
  }

  lemma {:induction false} PartsConcat(groups: seq<seq<Atom>>)
    ensures Concat(Parts(groups)) == Concat(Flatten(groups))
  {
    if groups != [] {
      var init, g := groups[..|groups| - 1], groups[|groups| - 1];
      PartsConcat(init);
      assert (Parts(init) + [Concat(g)])[..|Parts(init)|] == Parts(init);
      ConcatAppend(Flatten(init), g);
    }
  }

  lemma FinishFits(p: Pack, size: nat)
    requires PackFits(p, size) && (p.avail > 0 ==> p.open != [])
    ensures PackFits(Finish(p), size)
  {
    OpenIsNotEmpty(p.open);
  }

  lemma {:induction false} ConcatHead(s: seq<Atom>)
    requires s != []
    ensures Concat(s) == s[0] + Concat(s[1..])
  {
    assert s == [s[0]] + s[1..];
    ConcatOne(s[0]);
    ConcatAppend([s[0]], s[1..]);
  }

  lemma HandedBytes(sent: bytes, parts: seq<bytes>, handed: seq<seq<Atom>>, groups: seq<seq<Atom>>)
    requires sent + Concat(parts) == Concat(Flatten(handed))
    ensures sent + Concat(parts + Parts(groups)) == Concat(Flatten(handed + groups))
  {
    PartsConcat(groups);
    ConcatAppend(parts, Parts(groups));
    FlattenAppend(handed, groups);
    ConcatAppend(Flatten(handed), Flatten(groups));
  }
}
