/**
 Signal delivery to one process, after section 2.4 of the POSIX.1-2017 System Interfaces volume: a
 pending signal that is not blocked may be delivered at any time; its handler runs on top of
 whatever was running, with the signal itself added to the mask (every `sa_mask` here is empty),
 and its return puts the interrupted mask back.
 */
module Signals {

  datatype Sig = SigInt | SigQuit | SigAlrm | SigUsr1 | SigUsr2

  /** Where a handler is in its code; each program gives the steps their meaning. */
  datatype HandlerPc = Entered | Working | Clearing | Jumping | Leaving

  /** An active handler: its signal and the mask it interrupted. */
  datatype Frame = Frame(sig: Sig, saved: set<Sig>, pc: HandlerPc)

  /** The signal state of a process; the innermost active handler is the last frame. */
  datatype Process = Process(mask: set<Sig>, pending: set<Sig>, frames: seq<Frame>) {
    predicate CanDeliver(sig: Sig) {
      sig in pending && sig !in mask
    }

    function Arrive(sig: Sig): Process {
      this.(pending := pending + {sig})
    }

    function Deliver(sig: Sig): Process
      requires CanDeliver(sig)
    {
      Process(mask + {sig}, pending - {sig}, frames + [Frame(sig, mask, Entered)])
    }

    predicate InHandler() {
      frames != []
    }

    function Top(): Frame
      requires InHandler()
    {
      frames[|frames| - 1]
    }

    /** The innermost handler moves on in its code. */
    function Advance(pc: HandlerPc): Process
      requires InHandler()
    {
      this.(frames := frames[..|frames| - 1] + [Top().(pc := pc)])
    }

    /** The innermost handler returns. */
    function Return(): Process
      requires InHandler()
    {
      this.(mask := Top().saved, frames := frames[..|frames| - 1])
    }

    /** longjmp out of all handlers, with the mask given. */
    function Unwind(newMask: set<Sig>): Process {
      this.(mask := newMask, frames := [])
    }
  }

  /** The signals whose handlers are active. */
  function Active(frames: seq<Frame>): set<Sig> {
    set f | f in frames :: f.sig
  }

  /** `mask` is what the frames make of the foreground's mask `base`, and no handler interrupts itself. */
  ghost predicate Nested(frames: seq<Frame>, base: set<Sig>, mask: set<Sig>) {
    if frames == [] then mask == base
    else
      var top := frames[|frames| - 1];
      && top.sig !in top.saved
      && mask == top.saved + {top.sig}
      && Nested(frames[..|frames| - 1], base, top.saved)
  }

  ghost predicate WellNested(p: Process, base: set<Sig>) {
    Nested(p.frames, base, p.mask)
  }

  lemma DeliverNested(p: Process, base: set<Sig>, sig: Sig)
    requires WellNested(p, base) && p.CanDeliver(sig)
    ensures WellNested(p.Deliver(sig), base)
    ensures Active(p.Deliver(sig).frames) == Active(p.frames) + {sig}
  {
    var fs := p.Deliver(sig).frames;
    assert fs[..|fs| - 1] == p.frames;
    assert forall f :: f in fs <==> f in p.frames || f == fs[|fs| - 1];
  }

  lemma AdvanceNested(p: Process, base: set<Sig>, pc: HandlerPc)
    requires WellNested(p, base) && p.InHandler()
    ensures WellNested(p.Advance(pc), base)
    ensures Active(p.Advance(pc).frames) == Active(p.frames)
  {
    var init := p.frames[..|p.frames| - 1];
    var fs := p.Advance(pc).frames;
    assert fs[..|fs| - 1] == init && p.frames == init + [p.Top()];
    assert forall f :: f in fs <==> f in init || f == p.Top().(pc := pc);
    assert forall f :: f in p.frames <==> f in init || f == p.Top();
    ActiveSnoc(init, p.Top());
    ActiveSnoc(init, p.Top().(pc := pc));
  }

  lemma ReturnNested(p: Process, base: set<Sig>)
    requires WellNested(p, base) && p.InHandler()
    ensures WellNested(p.Return(), base)
    ensures Active(p.frames) == Active(p.Return().frames) + {p.Top().sig}
  {
    assert p.frames == p.Return().frames + [p.Top()];
    ActiveSnoc(p.Return().frames, p.Top());
  }

  lemma TopActive(p: Process)
    requires p.InHandler()
    ensures p.Top().sig in Active(p.frames)
  {
    assert p.Top() in p.frames;
  }

  lemma NoHandlers(mask: set<Sig>)
    ensures Nested([], mask, mask) && Active([]) == {}
  {
  }

  lemma ActiveSnoc(init: seq<Frame>, top: Frame)
    ensures Active(init + [top]) == Active(init) + {top.sig}
  {
    forall s
      ensures s in Active(init + [top]) <==> s in Active(init) || s == top.sig
    {
      assert top in init + [top];
      assert forall f :: f in init + [top] <==> f in init || f == top;
    }
  }

  /** The mask is the foreground's mask plus one distinct signal for every active handler. */
  lemma {:induction false} NestedMask(frames: seq<Frame>, base: set<Sig>, mask: set<Sig>)
    requires Nested(frames, base, mask)
    ensures mask == base + Active(frames)
    ensures base !! Active(frames)
    ensures |frames| == |Active(frames)|
    decreases |frames|
  {
    if frames != [] {
      var init, top := frames[..|frames| - 1], frames[|frames| - 1];
      NestedMask(init, base, top.saved);
      assert frames == init + [top];
      ActiveSnoc(init, top);
    }
  }

  lemma SubsetCard(a: set<Sig>, b: set<Sig>)
    requires a <= b
    ensures |a| <= |b|
  {
    assert b == a + (b - a);
  }

  /** No handler is re-entered, so handlers nest no deeper than there are handled signals. */
  lemma DepthBound(p: Process, base: set<Sig>, handled: set<Sig>)
    requires WellNested(p, base) && Active(p.frames) <= handled
    ensures |p.frames| <= |handled|
    ensures forall i, j :: 0 <= i < j < |p.frames| ==> p.frames[i].sig != p.frames[j].sig
  {
    NestedMask(p.frames, base, p.mask);
    SubsetCard(Active(p.frames), handled);
    DistinctFrames(p.frames, base, p.mask);
  }

  lemma {:induction false} DistinctFrames(frames: seq<Frame>, base: set<Sig>, mask: set<Sig>)
    requires Nested(frames, base, mask)
    ensures forall i, j :: 0 <= i < j < |frames| ==> frames[i].sig != frames[j].sig
    decreases |frames|
  {
    if frames != [] {
      var init, top := frames[..|frames| - 1], frames[|frames| - 1];
      DistinctFrames(init, base, top.saved);
      NestedMask(init, base, top.saved);
      forall i, j | 0 <= i < j < |frames|
        ensures frames[i].sig != frames[j].sig
      {
        assert init[i] == frames[i] && frames[i] in init;
        assert frames[i].sig in Active(init);
        assert j < |init| ==> init[j] == frames[j];
      }
    }
  }
}
