/** A queue kept in a circular buffer: the elements from `read` on, around the end. */
module Circular {
  import opened Residues

  function Slot(read: nat, i: nat, cap: nat): (s: nat)
    requires cap > 0
    ensures s < cap
  {
    (read + i) % cap
  }

  function Around<T>(store: seq<T>, read: nat, used: nat): (q: seq<T>)
    requires used <= |store|
    ensures |q| == used
  {
    seq(used, i requires 0 <= i < used => store[Slot(read, i, |store|)])
  }

  lemma SlotMoved(read: nat, n: nat, i: nat, cap: nat)
    requires cap > 0
    ensures Slot(Slot(read, n, cap), i, cap) == Slot(read, n + i, cap)
  {
    Division(read + n, cap);
    ModShift((read + n) % cap + i, cap, (read + n) / cap);
  }

  lemma SlotLap(read: nat, i: nat, cap: nat)
    requires cap > 0
    ensures Slot(read, cap + i, cap) == Slot(read, i, cap)
  {
    ModShift(read + i, cap, 1);
  }

  lemma SlotsDiffer(read: nat, i: nat, j: nat, cap: nat)
    requires i < j < i + cap
    ensures Slot(read, i, cap) != Slot(read, j, cap)
  {
    if Slot(read, i, cap) == Slot(read, j, cap) {
      SameResidue(read + i, read + j, cap);
    }
  }

  /** Moving the read index past `n` elements removes exactly those. */
  lemma DropFront<T>(store: seq<T>, read: nat, used: nat, n: nat)
    requires n <= used <= |store| && 0 < |store|
    ensures Around(store, Slot(read, n, |store|), used - n) == Around(store, read, used)[n..]
  {
    var after, before := Around(store, Slot(read, n, |store|), used - n), Around(store, read, used);
    forall i | 0 <= i < used - n
      ensures after[i] == before[n..][i]
    {
      SlotMoved(read, n, i, |store|);
    }
  }

  /** Writing the slot after the last element appends. */
  lemma PutBack<T>(store: seq<T>, read: nat, used: nat, x: T)
    requires used < |store|
    ensures Around(store[Slot(read, used, |store|) := x], read, used + 1) == Around(store, read, used) + [x]
  {
    var after, before := Around(store[Slot(read, used, |store|) := x], read, used + 1), Around(store, read, used);
    forall i | 0 <= i < used + 1
      ensures after[i] == (before + [x])[i]
    {
      if i < used {
        SlotsDiffer(read, i, used, |store|);
      }
    }
  }

  /** A full buffer read from `n` later is the same ring, turned. */
  lemma TurnBack<T>(store: seq<T>, read: nat, used: nat, n: nat)
    requires n <= used <= |store| && 0 < |store|
    ensures var all := Around(store, Slot(read, n, |store|), |store|);
            Around(store, read, used) == all[|store| - n..] + all[..used - n]
  {
    var cap := |store|;
    var here, all := Around(store, read, used), Around(store, Slot(read, n, cap), cap);
    forall i | 0 <= i < used
      ensures here[i] == (all[cap - n..] + all[..used - n])[i]
    {
      if i < n {
        SlotMoved(read, n, cap - n + i, cap);
        SlotLap(read, i, cap);
      } else {
        SlotMoved(read, n, i - n, cap);
      }
    }
  }
}
