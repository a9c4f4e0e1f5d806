/** `dup2_l`: dup2 rebuilt from dup and close (3-fileio/18-dup2/dup2.c). */
module Dup2 {
  import opened Descriptors

  const MAX_FILES: nat := 256

  /** What a call of `dup2_l` leaves in the descriptor table, and what it returns. */
  function Result(t: Table, limit: nat, oldfd: int, newfd: int): (Table, int) {
    if newfd >= MAX_FILES || newfd < 0 || !IsOpen(t, oldfd) then (t, -1)
    else if oldfd == newfd then (t, newfd)
    else if newfd < limit then (t[newfd := t[oldfd]], newfd)
    else
      var closed := t - {newfd};
      // the clean-up loop stops before slot 0 of the array, so the first duplicate stays open
      if FirstFree(closed) < limit then (closed[FirstFree(closed) := t[oldfd]], -1)
      else (closed, -1)
  }

  function Elems(s: seq<int>): set<int> {
    set x | x in s
  }

  ghost predicate Increasing(s: seq<int>) {
    forall i, j :: 0 <= i < j < |s| ==> s[i] < s[j]
  }

  /** Where the next search for a free slot starts, after the duplicates `ds`. */
  function Mark(ds: seq<nat>): nat {
    if ds == [] then 0 else ds[|ds| - 1] + 1
  }

  /** `ds` are the duplicates made so far from table `t`: its free slots, in order, without gaps. */
  ghost predicate Filled(t: Table, ds: seq<nat>) {
    && Increasing(ds)
    && (forall i :: 0 <= i < |ds| ==> ds[i] !in t)
    && (forall k: nat :: k < Mark(ds) && k !in t ==> k in ds)
  }

  /** The table after the duplicates `ds` of entry `e` were made in `t`. */
  function With(t: Table, ds: seq<nat>, e: Entry): Table {
    Opened(t, (set d | d in ds), e)
  }

  /** `table` is what `t` has become with the duplicates `ds` of `e`. */
  ghost predicate Duplicated(t: Table, ds: seq<nat>, e: Entry, table: Table) {
    Filled(t, ds) && table == With(t, ds, e)
  }

  lemma WithMore(t: Table, ds: seq<nat>, fd: nat, e: Entry)
    ensures With(t, ds + [fd], e) == With(t, ds, e)[fd := e]
  {
    assert (set d | d in ds + [fd]) == (set d | d in ds) + {fd};
  }

  /** One more dup keeps the duplicates gap-free. */
  lemma FilledStep(t: Table, ds: seq<nat>, fd: nat, e: Entry)
    requires Filled(t, ds) && fd == FirstFree(With(t, ds, e))
    ensures Mark(ds) <= fd && forall i :: 0 <= i < |ds| ==> ds[i] < fd
    ensures forall k :: 0 <= k < fd ==> k in t || k in ds
    ensures Filled(t, ds + [fd])
  {
    assert fd !in ds && fd !in t;
    forall k: nat | k < fd
      ensures k in t || k in ds
    {
      assert k in With(t, ds, e);
    }
    forall i | 0 <= i < |ds|
      ensures ds[i] < Mark(ds)
    {
    }
    forall k: nat | k < fd + 1 && k !in t
      ensures k in ds + [fd]
    {
      assert k < fd ==> k in ds;
    }
  }

  /** One round of the dup loop that looks for `newfd`: how far it can get, and what it leaves. */
  lemma DupRound(t: Table, ds: seq<nat>, table: Table, e: Entry, newfd: nat)
    requires Duplicated(t, ds, e, table) && newfd !in t && Mark(ds) <= newfd
    ensures FirstFree(table) <= newfd
    ensures FirstFree(table) < newfd ==> |ds| < newfd
    ensures Duplicated(t, ds + [FirstFree(table)], e, table[FirstFree(table) := e])
    ensures Mark(ds + [FirstFree(table)]) == FirstFree(table) + 1
    ensures ds == [] ==> table == t
  {
    FilledStep(t, ds, FirstFree(table), e);
    WithMore(t, ds, FirstFree(table), e);
    FilledBound(t, ds, e, FirstFree(table));
    FilledBound(t, ds, e, newfd);
    WithNone(t, e);
    hide Filled, With, FirstFree;
  }

  lemma WithNone(t: Table, e: Entry)
    ensures With(t, [], e) == t
  {
  }

  /** All duplicates are below `n`: there are at most `n` of them, and `n` is as free as it was. */
  lemma FilledBound(t: Table, ds: seq<nat>, e: Entry, n: nat)
    requires Filled(t, ds) && Mark(ds) <= n
    ensures |ds| <= n
    ensures n !in t ==> n !in With(t, ds, e)
  {
    forall i | 0 <= i < |ds|
      ensures ds[i] < n
    {
    }
    IncreasingBound(ds, n);
  }

  /** An increasing sequence is as long as the set of its elements is large. */
  lemma {:induction false} IncreasingCard(s: seq<int>)
    requires Increasing(s)
    ensures |Elems(s)| == |s|
  {
    if s != [] {
      var init := s[..|s| - 1];
      IncreasingCard(init);
      assert Elems(s) == Elems(init) + {s[|s| - 1]};
    }
  }

  /** Increasing numbers below `n`: there are at most `n` of them. */
  lemma {:induction false} IncreasingBound(s: seq<nat>, n: nat)
    requires Increasing(s) && forall i :: 0 <= i < |s| ==> s[i] < n
    ensures |s| <= n
  {
    if s != [] {
      IncreasingBound(s[..|s| - 1], s[|s| - 1]);
    }
  }

  /** Closing every duplicate from number `stop` on leaves exactly the first `stop` of them. */
  lemma CleanUp(t: Table, ds: seq<nat>, e: Entry, stop: nat)
    requires Filled(t, ds) && stop <= |ds|
    ensures With(t, ds, e) - Elems(ds[stop..]) == With(t, ds[..stop], e)
  {
    assert ds == ds[..stop] + ds[stop..];
    forall k | k in ds[..stop]
      ensures k !in ds[stop..]
    {
      var i :| 0 <= i < stop && ds[i] == k;
    }
  }

  /** The clean-up `while (--i > 0)`: of the duplicates only the first one survives. */
  lemma LeakedDuplicate(t: Table, ds: seq<nat>, e: Entry)
    requires Filled(t, ds) && ds != []
    ensures ds[0] == FirstFree(t)
    ensures With(t, ds, e) - Elems(ds[1..]) == t[FirstFree(t) := e]
  {
    assert FirstFree(t) < ds[0] ==> FirstFree(t) in ds;
    CleanUp(t, ds, e, 1);
    WithMore(t, [], ds[0], e);
    WithNone(t, e);
    assert ds[..1] == [] + [ds[0]];
    hide With, Filled, Elems;
  }

  /** The clean-up `while (--i >= 0)`, when the last duplicate is `newfd`: only that one survives. */
  lemma KeptDuplicate(t: Table, ds: seq<nat>, newfd: nat, e: Entry)
    requires Filled(t, ds + [newfd])
    ensures With(t, ds + [newfd], e) - Elems(ds) == t[newfd := e]
  {
    var all := ds + [newfd];
    assert all[|ds|] == newfd;
    forall i | 0 <= i < |ds|
      ensures ds[i] < newfd
    {
      assert all[i] < all[|ds|];
    }
  }

  /** On success the duplicates are the free slots below `newfd`, and `newfd` itself. */
  lemma DuplicatesAreFreeSlots(t: Table, ds: seq<nat>, newfd: nat)
    requires Filled(t, ds + [newfd])
    ensures Elems(ds + [newfd]) == FreeBelow(t, newfd) + {newfd}
    ensures |ds| == |FreeBelow(t, newfd)|
  {
    var all := ds + [newfd];
    forall i | 0 <= i < |ds|
      ensures ds[i] < newfd && ds[i] !in t
    {
      assert all[i] == ds[i] && all[i] < all[|ds|];
    }
    forall k: nat | k < newfd && k !in t
      ensures k in ds
    {
      assert k in all;
    }
    assert Elems(ds) == FreeBelow(t, newfd);
    assert ds == all[..|ds|];
    IncreasingCard(ds);
    assert Elems(all) == Elems(ds) + {newfd};
  }

  /** The outcome when some dup failed and the clean-up loop closed all duplicates but the first. */
  lemma FailedCall(t0: Table, t: Table, ds: seq<nat>, table: Table, limit: nat, oldfd: nat, newfd: nat)
    requires IsOpen(t0, oldfd) && oldfd != newfd && limit <= newfd < MAX_FILES && t == Close(t0, newfd)
    requires Duplicated(t, ds, t0[oldfd], table) && Mark(ds) <= limit && (ds == [] ==> limit <= FirstFree(t))
    ensures (if ds == [] then table else table - Elems(ds[1..]), -1) == Result(t0, limit, oldfd, newfd)
    ensures Increasing(ds)
  {
    assert t == t0 - {newfd};
    if ds == [] {
      WithNone(t, t0[oldfd]);
    } else {
      LeakedDuplicate(t, ds, t0[oldfd]);
      assert ds[0] <= ds[|ds| - 1] < limit;
    }
    hide With, FirstFree, Elems;
  }

  /** The outcome, and the duplicates made, when dup reached `newfd`. */
  lemma SuccessfulCall(t0: Table, t: Table, ds: seq<nat>, table: Table, limit: nat, oldfd: nat, newfd: nat)
    requires IsOpen(t0, oldfd) && oldfd != newfd && newfd < limit && newfd < MAX_FILES && t == Close(t0, newfd)
    requires Duplicated(t, ds + [newfd], t0[oldfd], table)
    ensures (table - Elems(ds), newfd) == Result(t0, limit, oldfd, newfd)
    ensures Elems(ds + [newfd]) == FreeBelow(t0, newfd) + {newfd}
    ensures |ds| == |FreeBelow(t0, newfd)|
    ensures Increasing(ds + [newfd])
  {
    KeptDuplicate(t, ds, newfd, t0[oldfd]);
    DuplicatesAreFreeSlots(t, ds, newfd);
    hide With, Elems;
    CloseAndReopen(t0, newfd, t0[oldfd]);
    hide FreeBelow, Close;
  }

  lemma CloseAndReopen(t: Table, fd: nat, e: Entry)
    ensures FreeBelow(Close(t, fd), fd) == FreeBelow(t, fd)
    ensures Close(t, fd)[fd := e] == t[fd := e]
  {
  }

  class Process {
    var table: Table
    const limit: nat

    constructor (table: Table, limit: nat)
      ensures this.table == table && this.limit == limit
    {
      this.table := table;
      this.limit := limit;
    }

    method Dup(oldfd: int) returns (fd: int)
      modifies this
      ensures (table, fd) == Descriptors.Dup(old(table), limit, oldfd)
    {
      fd := FirstFree(table);
      if !IsOpen(table, oldfd) || fd >= limit {
        return -1;
      }
      table := table[fd := table[oldfd]];
    }

    method Close(fd: int)
      modifies this
      ensures table == Descriptors.Close(old(table), fd)
    {
      if IsOpen(table, fd) {
        table := table - {fd};
      }
    }

    /** Both clean-up loops: close `fd[i - 1]` down to `fd[stop]`. */
    method CloseDown(fd: array<int>, i: int, stop: nat)
      requires -1 <= i <= fd.Length
      modifies this
      ensures fd[..] == old(fd[..])
      ensures i <= stop ==> table == old(table)
      ensures stop <= i ==> table == old(table) - Elems(fd[stop..i])
    {
      var j := i - 1;
      while j >= stop
        invariant i <= stop ==> j < stop && table == old(table)
        invariant stop <= i ==> stop - 1 <= j < i && table == old(table) - Elems(fd[j + 1..i])
      {
        assert fd[j..i] == [fd[j]] + fd[j + 1..i];
        Close(fd[j]);
        j := j - 1;
      }
    }

    /**
     The dup loop. It stops with `fd[i] == newfd`, or with a failed dup in `fd[i]`; `dups` are the
     duplicates before that.
     */
    method DupUpTo(fd: array<int>, oldfd: int, newfd: int) returns (i: nat, ghost dups: seq<nat>)
      requires fd.Length == MAX_FILES && 0 <= newfd < MAX_FILES
      requires IsOpen(table, oldfd) && newfd !in table
      modifies this, fd
      ensures i < MAX_FILES && |dups| == i && fd[..i] == dups
      ensures fd[i] == newfd ==>
                newfd < limit && Duplicated(old(table), dups + [newfd], old(table)[oldfd], table)
      ensures fd[i] != newfd ==>
                fd[i] < 0 && limit <= newfd && Duplicated(old(table), dups, old(table)[oldfd], table) &&
                Mark(dups) <= limit &&
                (dups == [] ==> limit <= FirstFree(old(table)))
    {
      ghost var t, e := table, table[oldfd];
      dups, i := [], 0;
      WithNone(t, e);
      assert Duplicated(t, dups, e, table) && Mark(dups) == 0;
      hide Duplicated, Mark, FirstFree;
      while i < 256
        invariant i <= newfd && fd[..i] == dups
        invariant Mark(dups) <= newfd && Mark(dups) <= limit
        invariant Duplicated(t, dups, e, table) && IsOpen(table, oldfd) && table[oldfd] == e
      {
        DupRound(t, dups, table, e, newfd);
        ghost var made := fd[..i];
        var d := Dup(oldfd);
        fd[i] := d;
        assert fd[..i] == made;
        if d < 0 || d == newfd {
          return;
        }
        assert fd[..i + 1] == made + [d];
        dups, i := dups + [d], i + 1;
      }
      assert false;
    }

    /** The whole function; `dups` lists what the successful dup calls returned. */
    method Dup2L(oldfd: int, newfd: int) returns (r: int, ghost dups: seq<nat>)
      modifies this
      ensures (table, r) == Result(old(table), limit, oldfd, newfd)
      ensures r >= 0 <==> IsOpen(old(table), oldfd) && 0 <= newfd < 256 && (newfd == oldfd || newfd < limit)
      ensures r >= 0 ==> r == newfd && table == old(table)[newfd := old(table)[oldfd]]
      ensures Increasing(dups)
      ensures r >= 0 && oldfd != newfd ==>
                Elems(dups) == FreeBelow(old(table), newfd) + {newfd} &&
                |dups| == |FreeBelow(old(table), newfd)| + 1
    {
      dups := [];
      if newfd >= 256 || newfd < 0 {
        return -1, dups;
      }
      if !IsOpen(table, oldfd) {
        return -1, dups;
      }
      if oldfd == newfd {
        return newfd, dups;
      }
      hide Duplicated, Mark, Increasing, FreeBelow;
      Close(newfd);

      ghost var t, e := table, table[oldfd];
      var fd := new int[256](_ => 0);
      var i;
      i, dups := DupUpTo(fd, oldfd, newfd);  // stops before i reaches 256
      if fd[i] < 0 {
        FailedCall(old(table), t, dups, table, limit, oldfd, newfd);
        CloseDown(fd, i, 1);
        assert i > 0 ==> fd[1..i] == dups[1..];
        return -1, dups;
      }
      SuccessfulCall(old(table), t, dups, table, limit, oldfd, newfd);
      CloseDown(fd, i, 0);
      assert fd[0..i] == dups;
      dups := dups + [newfd];
      r := newfd;
    }
  }

  /**
   When `dup2_l` does exactly what dup2 does, in result and in table. It does not when `newfd` is
   past the fixed array of 256 but within the limit, and when `newfd` is at or above the limit
   and something is left to lose: `newfd` itself is open, or some dup succeeds and leaks.
   */
  lemma AgreesWithDup2(t: Table, limit: nat, oldfd: int, newfd: int)
    ensures Result(t, limit, oldfd, newfd) == Descriptors.Dup2(t, limit, oldfd, newfd)
       <==> || !IsOpen(t, oldfd)
            || newfd < 0
            || (newfd >= 256 && newfd != oldfd && newfd >= limit)
            || (newfd < 256 && (newfd == oldfd || newfd < limit))
            || (newfd < 256 && newfd !in t && FirstFree(t) >= limit)
  {
    if IsOpen(t, oldfd) && 0 <= newfd < 256 && newfd != oldfd && newfd >= limit {
      var closed := t - {newfd};
      if newfd !in t {
        assert closed == t;
      } else {
        assert newfd !in closed[FirstFree(closed) := t[oldfd]] || FirstFree(closed) == newfd;
      }
    }
  }

  /**
   The table at or above the limit: `close(newfd)` alone, exactly when no slot below the limit was
   free; otherwise one more descriptor, naming `oldfd`'s entry, stays open.
   */
  lemma FailedCallRestores(t: Table, limit: nat, oldfd: int, newfd: int)
    requires IsOpen(t, oldfd) && oldfd != newfd && limit <= newfd < 256
    ensures Result(t, limit, oldfd, newfd).0 == t - {newfd} <==> FreeBelow(t, limit) == {}
    ensures FreeBelow(t, limit) != {} ==>
              exists fd :: fd in FreeBelow(t, limit) &&
                           Result(t, limit, oldfd, newfd).0 == (t - {newfd})[fd := t[oldfd]]
  {
    var closed := t - {newfd};
    var fd := FirstFree(closed);
    assert fd < limit ==> fd in FreeBelow(t, limit);
    forall k | k in FreeBelow(t, limit)
      ensures fd < limit
    {
      assert k !in closed;
    }
    assert fd !in closed && fd in closed[fd := t[oldfd]];
  }

  /** With standard streams only, a limit of 8 and `newfd` 9: descriptor 3 is left open. */
  lemma LeakExample(input: Entry, output: Entry, errors: Entry)
    ensures Result(map[0 := input, 1 := output, 2 := errors], 8, 1, 9)
         == (map[0 := input, 1 := output, 2 := errors, 3 := output], -1)
  {
    var t: Table := map[0 := input, 1 := output, 2 := errors];
    assert t - {9} == t;
    assert 3 !in t;
    assert FirstFree(t) == 3;
    assert t[3 := output] == map[0 := input, 1 := output, 2 := errors, 3 := output];
  }
}
