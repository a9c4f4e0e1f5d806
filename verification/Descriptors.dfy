/**
 Descriptor tables, shared by the dup2, popen and coprocess models: a partial map from
 descriptor numbers to open-file entries, with the lowest-free-descriptor rule of
 section 2.14 of the POSIX.1-2017 System Interfaces volume.
 */
module Descriptors {

  /** An open-file entry: one end of a numbered pipe, or some other open file. */
  datatype Entry = Other(id: nat) | ReadEnd(pipe: nat) | WriteEnd(pipe: nat)

  type Table = map<nat, Entry>

  /** The least free descriptor that is not below `n`. */
  function FirstFreeFrom(t: Table, n: nat): (fd: nat)
    ensures n <= fd && fd !in t
    ensures forall k :: n <= k < fd ==> k in t
    decreases set k | k in t && n <= k
  {
    if n !in t then n
    else
      assert (set k | k in t && n + 1 <= k) == (set k | k in t && n <= k) - {n};
      FirstFreeFrom(t, n + 1)
  }

  function FirstFree(t: Table): (fd: nat)
    ensures fd !in t
    ensures forall k :: 0 <= k < fd ==> k in t
  {
    FirstFreeFrom(t, 0)
  }

  predicate IsOpen(t: Table, fd: int) {
    0 <= fd && fd in t
  }

  /** close(2): closing a descriptor that is not open changes nothing. */
  function Close(t: Table, fd: int): Table {
    if IsOpen(t, fd) then t - {fd} else t
  }

  /** dup(2): the lowest free descriptor below the process limit, or -1. */
  function Dup(t: Table, limit: nat, oldfd: int): (Table, int) {
    if !IsOpen(t, oldfd) || FirstFree(t) >= limit then (t, -1)
    else (t[FirstFree(t) := t[oldfd]], FirstFree(t))
  }

  /**
   dup2(2), the reference: a valid pair makes `newfd` name `oldfd`'s entry and changes nothing
   else; every failure leaves the table alone.
   */
  function Dup2(t: Table, limit: nat, oldfd: int, newfd: int): (Table, int) {
    if !IsOpen(t, oldfd) then (t, -1)
    else if oldfd == newfd then (t, newfd)
    else if newfd < 0 || newfd >= limit then (t, -1)
    else (t[newfd := t[oldfd]], newfd)
  }

  /** The two descriptors that pipe(2) allocates, lowest first. */
  function PipeSlots(t: Table): (p: (nat, nat))
    ensures p.0 < p.1 && p.0 !in t && p.1 !in t
    ensures forall k :: 0 <= k < p.1 && k != p.0 ==> k in t
  {
    var lo := FirstFree(t);
    (lo, FirstFreeFrom(t, lo + 1))
  }

  /** All the free slots of `t` below `n`. */
  function FreeBelow(t: Table, n: nat): set<nat> {
    set k: nat | k < n && k !in t
  }

  /** `t` with every slot of `slots` naming the entry `e`. */
  function Opened(t: Table, slots: set<nat>, e: Entry): Table {
    t + map k | k in slots :: e
  }

  /** What a child does with a fresh pipe: close one end, and move the other to the descriptor `std`. */
  function Wired(t: Table, limit: nat, own: nat, other: nat, std: nat): Table {
    var t1 := Close(t, other);
    if own == std then t1 else Close(Dup2(t1, limit, own, std).0, own)
  }

  /** Wherever the two ends landed, the child ends up with its end at `std` and the rest unchanged. */
  lemma WiredExactly(base: Table, limit: nat, own: nat, other: nat, std: nat, mine: Entry, theirs: Entry)
    requires own != other && own !in base && other !in base && std < limit
    ensures Wired(base[other := theirs][own := mine], limit, own, other, std) == base[std := mine]
  {
    var t := base[other := theirs][own := mine];
    assert Close(t, other) == base[own := mine];
    if own != std {
      assert Dup2(base[own := mine], limit, own, std).0 == base[own := mine][std := mine];
      assert base[own := mine][std := mine] - {own} == base[std := mine];
    }
  }
}
