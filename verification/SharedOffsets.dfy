/**
 Several descriptors writing one file: with private offsets (3-fileio/8-sharing/a.c and b.c) the
 writers overwrite each other, with O_APPEND (3-fileio/9-atomic/a.c and b.c) no byte is lost.
 First the two descriptors of one process, then any number of writers in any interleaving.
 */
module SharedOffsets {
  import opened Options

  type Bytes = seq<char>

  /** `file` after writing `rec` at `off`. */
  function Overlay(file: Bytes, off: nat, rec: Bytes): Bytes
    requires off <= |file|
  {
    file[..off] + rec + if off + |rec| < |file| then file[off + |rec|..] else []
  }

  /** A write replaces the bytes it covers, and lengthens the file if it reaches beyond its end. */
  lemma OverlayBytes(file: Bytes, off: nat, rec: Bytes)
    requires off <= |file|
    ensures |Overlay(file, off, rec)| == if off + |rec| < |file| then |file| else off + |rec|
    ensures forall b :: 0 <= b < |Overlay(file, off, rec)| ==>
              Overlay(file, off, rec)[b] == if off <= b < off + |rec| then rec[b - off] else file[b]
  {
  }

  function Repeat(rec: Bytes, n: nat): (s: Bytes)
    ensures |s| == n * |rec|
  {
    if n == 0 then [] else Repeat(rec, n - 1) + rec
  }

  class Inode {
    var data: Bytes

    constructor (data: Bytes)
      ensures this.data == data
    {
      this.data := data;
    }
  }

  /** An open-file entry: its own offset into a shared file. */
  class OpenFile {
    const inode: Inode
    const append: bool
    var offset: nat

    constructor (inode: Inode, append: bool)
      ensures this.inode == inode && this.append == append && offset == 0
    {
      this.inode := inode;
      this.append := append;
      offset := 0;
    }

    method Write(rec: Bytes) returns (n: nat)
      requires offset <= |inode.data|
      modifies this, inode
      ensures n == |rec|
      ensures var at := if append then |old(inode.data)| else old(offset);
              inode.data == Overlay(old(inode.data), at, rec) && offset == at + n
    {
      if append {
        offset := |inode.data|;
      }
      inode.data := Overlay(inode.data, offset, rec);
      offset := offset + |rec|;
      n := |rec|;
    }
  }

  /**
   One process, one file opened twice, `n` rounds of a write through each descriptor. The second
   record is no longer than the first, so the second stream comes out whole, then the rest of the
   first stream, then what the file had beyond that.
   */
  method WriteThroughBoth(inode: Inode, first: Bytes, second: Bytes, n: nat)
    requires |second| <= |first|
    modifies inode
    ensures inode.data == Overlay(old(inode.data), 0, Mixed(first, second, n))
  {
    var ui1 := new OpenFile(inode, false);
    var ui2 := new OpenFile(inode, false);
    ghost var before := inode.data;
    var i := 0;
    while i < n
      invariant i <= n
      invariant ui1.offset == i * |first| && ui2.offset == i * |second|
      invariant inode.data == Overlay(before, 0, Mixed(first, second, i))
      modifies inode, ui1, ui2
    {
      hide Overlay, Mixed;
      MixedRound(before, first, second, i);
      var n1 := ui1.Write(first);
      var n2 := ui2.Write(second);
      i := i + 1;
    }
  }

  /** `n` second records, followed by what they leave of `n` first records. */
  function Mixed(first: Bytes, second: Bytes, n: nat): (s: Bytes)
    requires |second| <= |first|
    ensures |s| == n * |first|
  {
    ProductGrows(n, |second|, |first|);
    Repeat(second, n) + Repeat(first, n)[n * |second|..]
  }

  lemma ProductGrows(n: nat, a: nat, b: nat)
    requires a <= b
    ensures n * a <= n * b
  {
  }

  lemma NextProduct(n: nat, a: nat)
    ensures (n + 1) * a == n * a + a
  {
  }

  function Drop(s: Bytes, n: nat): Bytes {
    if n <= |s| then s[n..] else []
  }

  lemma OverlayAt(x: Bytes, y: Bytes, rec: Bytes)
    ensures Overlay(x + y, |x|, rec) == x + rec + Drop(y, |rec|)
  {
  }

  /** A write inside `x + y + z`, at the end of `x`, that is no longer than `y`. */
  lemma OverlayInside(x: Bytes, y: Bytes, z: Bytes, rec: Bytes)
    requires |rec| <= |y|
    ensures Overlay(x + y + z, |x|, rec) == x + rec + y[|rec|..] + z
  {
    OverlayAt(x, y + z, rec);
    assert x + y + z == x + (y + z);
    assert Drop(y + z, |rec|) == y[|rec|..] + z;
  }

  /** One round of writes at the ends of `x` and `x + y`, with `rest` behind them. */
  lemma OverlayRound(x: Bytes, y: Bytes, rest: Bytes, first: Bytes, second: Bytes)
    requires |second| <= |first|
    ensures Overlay(x + y + rest, |x + y|, first) == x + (y + first) + Drop(rest, |first|)
    ensures Overlay(x + (y + first) + Drop(rest, |first|), |x|, second)
         == x + second + (y + first)[|second|..] + Drop(rest, |first|)
  {
    OverlayAt(x + y, rest, first);
    assert x + y + first == x + (y + first);
    OverlayInside(x, y + first, Drop(rest, |first|), second);
  }

  lemma MixedNext(first: Bytes, second: Bytes, i: nat)
    requires |second| <= |first|
    ensures (i + 1) * |first| == i * |first| + |first| && (i + 1) * |second| == i * |second| + |second|
    ensures i * |second| <= i * |first|
    ensures Mixed(first, second, i) == Repeat(second, i) + Repeat(first, i)[i * |second|..]
    ensures Mixed(first, second, i + 1)
         == Repeat(second, i) + second + (Repeat(first, i)[i * |second|..] + first)[|second|..]
  {
    ProductGrows(i, |second|, |first|);
    NextProduct(i, |first|);
    NextProduct(i, |second|);
    var f1, b := Repeat(first, i), i * |second|;
    assert (f1 + first)[b + |second|..] == (f1[b..] + first)[|second|..];
  }

  /** One round of the loop, on the file's contents. */
  lemma MixedRound(before: Bytes, first: Bytes, second: Bytes, i: nat)
    requires |second| <= |first|
    ensures var file := Overlay(before, 0, Mixed(first, second, i));
            && (i + 1) * |first| == i * |first| + |first| && (i + 1) * |second| == i * |second| + |second|
            && i * |second| <= i * |first| <= |file|
            && i * |second| <= |Overlay(file, i * |first|, first)|
            && Overlay(Overlay(file, i * |first|, first), i * |second|, second)
               == Overlay(before, 0, Mixed(first, second, i + 1))
  {
    MixedNext(first, second, i);
    var m, next := Mixed(first, second, i), Mixed(first, second, i + 1);
    hide Mixed, Overlay, Drop, Repeat;
    var x, y, rest := Repeat(second, i), Repeat(first, i)[i * |second|..], Drop(before, i * |first|);
    OverlayStart(before, m);
    OverlayStart(before, next);
    OverlayRound(x, y, rest, first, second);
    DropDrop(before, i * |first|, |first|);
  }

  lemma OverlayStart(before: Bytes, rec: Bytes)
    ensures Overlay(before, 0, rec) == rec + Drop(before, |rec|)
  {
  }

  lemma DropDrop(s: Bytes, m: nat, n: nat)
    ensures Drop(Drop(s, m), n) == Drop(s, m + n)
  {
  }

  /** The file "ui" of 3-fileio/8-sharing/a.c, when it did not exist before. */
  lemma SourceExample()
    ensures Overlay([], 0, Mixed("tian\n", "UI", 3)) == "UIUIUIian\ntian\n"
  {
    RepeatThree("tian\n");
    RepeatThree("UI");
    assert "tian\n" + "tian\n" + "tian\n" == "tian\ntian\ntian\n";
    assert "tian\ntian\ntian\n"[6..] == "ian\ntian\n";
    assert "UI" + "UI" + "UI" == "UIUIUI";
    assert "UIUIUI" + "ian\ntian\n" == "UIUIUIian\ntian\n";
    var s: Bytes := "UIUIUIian\ntian\n";
    var empty: Bytes := [];
    assert Overlay(empty, 0, s) == s;
  }

  lemma RepeatThree(rec: Bytes)
    ensures Repeat(rec, 3) == rec + rec + rec
  {
    assert Repeat(rec, 1) == rec;
    assert Repeat(rec, 2) == rec + rec;
  }

  // Any number of writers

  /** A writer: its offset, what it has written so far, and the records it still has to write. */
  datatype Writer = Writer(offset: nat, written: Bytes, todo: seq<Bytes>)

  /** One write in the history. */
  datatype Entry = Entry(writer: nat, off: nat, rec: Bytes)

  datatype State = State(file: Bytes, writers: seq<Writer>, log: seq<Entry>)

  function Init(programs: seq<seq<Bytes>>): State {
    State([], seq(|programs|, i requires 0 <= i < |programs| => Writer(0, [], programs[i])), [])
  }

  predicate Enabled(s: State, i: nat) {
    i < |s.writers| && s.writers[i].todo != []
  }

  /** `file` after writing at `off`, with a hole of NULs if it ends before that. */
  function WriteAt(file: Bytes, off: nat, rec: Bytes): Bytes {
    if off <= |file| then Overlay(file, off, rec) else file + seq(off - |file|, _ => '\0') + rec
  }

  /** Writer `i` makes its next write, at the end of the file or at its own offset. */
  function Step(append: bool, s: State, i: nat): State
    requires Enabled(s, i)
  {
    var w := s.writers[i];
    var rec := w.todo[0];
    var at := if append then |s.file| else w.offset;
    State(WriteAt(s.file, at, rec),
          s.writers[i := Writer(at + |rec|, w.written + rec, w.todo[1..])],
          s.log + [Entry(i, at, rec)])
  }

  ghost predicate Run(append: bool, s: State, schedule: seq<nat>, t: State)
    decreases |schedule|
  {
    if schedule == [] then s == t
    else Enabled(s, schedule[0]) && Run(append, Step(append, s, schedule[0]), schedule[1..], t)
  }

  function Flat(recs: seq<Bytes>): Bytes {
    if recs == [] then [] else recs[0] + Flat(recs[1..])
  }

  /** The records of the history, in order. */
  function Records(log: seq<Entry>): seq<Bytes> {
    if log == [] then [] else Records(log[..|log| - 1]) + [log[|log| - 1].rec]
  }

  /** Writer `i`'s records of the history, in order. */
  function Own(log: seq<Entry>, i: nat): seq<Bytes> {
    if log == [] then []
    else
      var last := log[|log| - 1];
      Own(log[..|log| - 1], i) + if last.writer == i then [last.rec] else []
  }

  function TotalWritten(ws: seq<Writer>): nat {
    if ws == [] then 0 else |ws[0].written| + TotalWritten(ws[1..])
  }

  function LongestWritten(ws: seq<Writer>): nat {
    if ws == [] then 0
    else if |ws[0].written| < LongestWritten(ws[1..]) then LongestWritten(ws[1..])
    else |ws[0].written|
  }

  lemma {:induction false} FlatSnoc(recs: seq<Bytes>, rec: Bytes)
    ensures Flat(recs + [rec]) == Flat(recs) + rec
  {
    if recs == [] {
      assert recs + [rec] == [rec];
      assert Flat([rec]) == rec;
    } else {
      assert (recs + [rec])[1..] == recs[1..] + [rec];
      FlatSnoc(recs[1..], rec);
    }
  }

  lemma {:induction false} WrittenUpdate(ws: seq<Writer>, i: nat, w: Writer)
    requires i < |ws| && |w.written| >= |ws[i].written|
    ensures TotalWritten(ws[i := w]) == TotalWritten(ws) - |ws[i].written| + |w.written|
    ensures LongestWritten(ws[i := w])
         == if LongestWritten(ws) < |w.written| then |w.written| else LongestWritten(ws)
  {
    if i == 0 {
      assert ws[0 := w][1..] == ws[1..];
    } else {
      WrittenUpdate(ws[1..], i - 1, w);
      assert ws[i := w][1..] == ws[1..][i - 1 := w];
    }
  }

  /** The history is the schedule: its entries are the writes in the order in which they were made. */
  lemma {:induction false} HistoryIsSchedule(append: bool, s: State, schedule: seq<nat>, t: State)
    requires Run(append, s, schedule, t)
    ensures |t.log| == |s.log| + |schedule| && t.log[..|s.log|] == s.log
    ensures forall k :: 0 <= k < |schedule| ==> t.log[|s.log| + k].writer == schedule[k]
    decreases |schedule|
  {
    if schedule != [] {
      var s' := Step(append, s, schedule[0]);
      HistoryIsSchedule(append, s', schedule[1..], t);
      assert t.log[|s.log|] == t.log[..|s'.log|][|s.log|];
      assert t.log[..|s.log|] == t.log[..|s'.log|][..|s.log|];
      forall k | 0 <= k < |schedule|
        ensures t.log[|s.log| + k].writer == schedule[k]
      {
        assert k > 0 ==> schedule[k] == schedule[1..][k - 1];
      }
    }
  }

  /** Every writer keeps to its program. */
  ghost predicate OnProgram(s: State, programs: seq<seq<Bytes>>) {
    && |s.writers| == |programs|
    && forall i :: 0 <= i < |programs| ==> WriterOk(s, programs[i], i)
  }

  ghost predicate WriterOk(s: State, program: seq<Bytes>, i: nat) {
    i < |s.writers| &&
    Own(s.log, i) + s.writers[i].todo == program && s.writers[i].written == Flat(Own(s.log, i))
  }

  lemma StepOnProgram(append: bool, s: State, programs: seq<seq<Bytes>>, i: nat)
    requires OnProgram(s, programs) && Enabled(s, i)
    ensures OnProgram(Step(append, s, i), programs)
  {
    var t := Step(append, s, i);
    assert t.log[..|t.log| - 1] == s.log;
    forall j | 0 <= j < |programs|
      ensures WriterOk(t, programs[j], j)
    {
      assert WriterOk(s, programs[j], j);
      if j == i {
        var rec := s.writers[i].todo[0];
        FlatSnoc(Own(s.log, i), rec);
        assert s.writers[i].todo == [rec] + s.writers[i].todo[1..];
        assert Own(t.log, i) == Own(s.log, i) + [rec];
        assert Own(t.log, i) + t.writers[i].todo == Own(s.log, i) + s.writers[i].todo;
      } else {
        assert Own(t.log, j) == Own(s.log, j);
      }
    }
  }

  // O_APPEND

  ghost predicate AppendInv(s: State, programs: seq<seq<Bytes>>) {
    && OnProgram(s, programs)
    && s.file == Flat(Records(s.log))
    && |s.file| == TotalWritten(s.writers)
  }

  lemma {:induction false} AppendRun(s: State, programs: seq<seq<Bytes>>, schedule: seq<nat>, t: State)
    requires AppendInv(s, programs) && Run(true, s, schedule, t)
    ensures AppendInv(t, programs)
    decreases |schedule|
  {
    if schedule != [] {
      var i := schedule[0];
      var u := Step(true, s, i);
      StepOnProgram(true, s, programs, i);
      assert u.log[..|u.log| - 1] == s.log;
      FlatSnoc(Records(s.log), s.writers[i].todo[0]);
      WrittenUpdate(s.writers, i, u.writers[i]);
      AppendRun(u, programs, schedule[1..], t);
    }
  }

  lemma InitOnProgram(programs: seq<seq<Bytes>>)
    ensures OnProgram(Init(programs), programs)
    ensures TotalWritten(Init(programs).writers) == 0 && LongestWritten(Init(programs).writers) == 0
  {
    var s := Init(programs);
    forall i | 0 <= i < |programs|
      ensures WriterOk(s, programs[i], i)
    {
      assert Own(s.log, i) + s.writers[i].todo == programs[i];
    }
    NothingWritten(s.writers);
  }

  lemma {:induction false} NothingWritten(ws: seq<Writer>)
    requires forall i :: 0 <= i < |ws| ==> ws[i].written == []
    ensures TotalWritten(ws) == 0 && LongestWritten(ws) == 0
  {
    if ws != [] {
      NothingWritten(ws[1..]);
    }
  }

  /**
   With O_APPEND, in every interleaving, the file is a shuffle of whole records: the records of the
   history one after the other, in which each writer's own records are those of its program so far,
   in program order; and no byte is lost.
   */
  lemma AppendIsShuffle(programs: seq<seq<Bytes>>, schedule: seq<nat>, t: State)
    requires Run(true, Init(programs), schedule, t)
    ensures t.file == Flat(Records(t.log))
    ensures |t.writers| == |programs|
    ensures forall i :: 0 <= i < |programs| ==> Own(t.log, i) + t.writers[i].todo == programs[i]
    ensures |t.file| == TotalWritten(t.writers)
    ensures forall i :: 0 <= i < |programs| && t.writers[i].todo == [] ==> t.writers[i].written == Flat(programs[i])
  {
    InitOnProgram(programs);
    AppendRun(Init(programs), programs, schedule, t);
    forall i | 0 <= i < |programs|
      ensures Own(t.log, i) + t.writers[i].todo == programs[i]
      ensures t.writers[i].todo == [] ==> t.writers[i].written == Flat(programs[i])
    {
      assert WriterOk(t, programs[i], i);
      assert Own(t.log, i) + [] == Own(t.log, i);
    }
  }

  // Private offsets

  predicate Covers(e: Entry, b: nat) {
    e.off <= b < e.off + |e.rec|
  }

  /** The writer of the last write that covered byte `b`. */
  function LastWriter(log: seq<Entry>, b: nat): Option<nat> {
    if log == [] then None
    else if Covers(log[|log| - 1], b) then Some(log[|log| - 1].writer)
    else LastWriter(log[..|log| - 1], b)
  }

  ghost predicate ByteOk(s: State, b: nat) {
    match LastWriter(s.log, b)
    case None => b >= |s.file|
    case Some(i) =>
      b < |s.file| && i < |s.writers| && b < |s.writers[i].written| && s.file[b] == s.writers[i].written[b]
  }

  ghost predicate PrivateInv(s: State, programs: seq<seq<Bytes>>) {
    && OnProgram(s, programs)
    && (forall i :: 0 <= i < |s.writers| ==> s.writers[i].offset == |s.writers[i].written| <= |s.file|)
    && |s.file| == LongestWritten(s.writers)
    && forall b: nat :: ByteOk(s, b)
  }

  lemma PrivateStep(s: State, programs: seq<seq<Bytes>>, i: nat)
    requires PrivateInv(s, programs) && Enabled(s, i)
    ensures PrivateInv(Step(false, s, i), programs)
  {
    var t := Step(false, s, i);
    StepOnProgram(false, s, programs, i);
    assert t.log[..|t.log| - 1] == s.log;
    WrittenUpdate(s.writers, i, t.writers[i]);
    forall b: nat
      ensures ByteOk(t, b)
    {
      assert ByteOk(s, b);
    }
  }

  lemma {:induction false} PrivateRun(s: State, programs: seq<seq<Bytes>>, schedule: seq<nat>, t: State)
    requires PrivateInv(s, programs) && Run(false, s, schedule, t)
    ensures PrivateInv(t, programs)
    decreases |schedule|
  {
    if schedule != [] {
      PrivateStep(s, programs, schedule[0]);
      PrivateRun(Step(false, s, schedule[0]), programs, schedule[1..], t);
    }
  }

  /**
   With private offsets, in every interleaving, the file is as long as the longest stream written
   so far, and each of its bytes is the byte that the last writer to cover it has at that place of
   its own stream.
   */
  lemma LastWriteWins(programs: seq<seq<Bytes>>, schedule: seq<nat>, t: State)
    requires Run(false, Init(programs), schedule, t)
    ensures |t.file| == LongestWritten(t.writers)
    ensures forall b: nat :: LastWriter(t.log, b).Some? <==> b < |t.file|
    ensures forall b: nat :: b < |t.file| ==>
              var i := LastWriter(t.log, b).value;
              i < |t.writers| && b < |t.writers[i].written| && t.file[b] == t.writers[i].written[b]
    ensures OnProgram(t, programs)
  {
    InitOnProgram(programs);
    var s := Init(programs);
    assert forall b: nat :: ByteOk(s, b);
    PrivateRun(s, programs, schedule, t);
    forall b: nat
      ensures LastWriter(t.log, b).Some? <==> b < |t.file|
      ensures b < |t.file| ==>
                var i := LastWriter(t.log, b).value;
                i < |t.writers| && b < |t.writers[i].written| && t.file[b] == t.writers[i].written[b]
    {
      assert ByteOk(t, b);
    }
  }
}
