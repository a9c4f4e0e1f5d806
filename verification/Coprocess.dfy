/**
 A coprocess behind two pipes (15-ipc/6-copro/copro.c with add2.c): the parent writes one line and
 reads one reply, over and over; the child reads, answers and reads again. Both read into buffers
 of SIZE characters and then store a NUL behind what they read.
 */
module Coprocess {
  import opened Descriptors
  import opened Add2

  const SIZE: nat := 1024

  /** The C string at the start of a buffer. */
  function UpToNul(buf: string): (s: string)
    ensures s <= buf && '\0' !in s
    ensures |s| < |buf| ==> buf[|s|] == '\0'
  {
    if buf == "" || buf[0] == '\0' then "" else [buf[0]] + UpToNul(buf[1..])
  }

  /** What fgets(line, n + 1, stdin) takes from `input`. */
  function Fgets(input: string, n: nat): (line: string)
    ensures line <= input && |line| <= n
    ensures input != "" && n > 0 ==> line != ""
  {
    if input == "" || n == 0 then ""
    else if input[0] == '\n' then "\n"
    else [input[0]] + Fgets(input[1..], n - 1)
  }

  /** The lines that the parent's calls of fgets will return. */
  function Lines(input: string): (lines: seq<string>)
    ensures forall i :: 0 <= i < |lines| ==> 0 < |lines[i]| < 1024
    decreases |input|
  {
    if input == "" then []
    else
      var line := Fgets(input, SIZE - 1);
      [line] + Lines(input[|line|..])
  }

  function Concat(lines: seq<string>): string {
    if lines == [] then "" else lines[0] + Concat(lines[1..])
  }

  /** Where fgets stops: behind a newline, when the buffer is full, or at the end of the input. */
  predicate EndsWell(line: string, last: bool) {
    && line != "" && '\n' !in line[..|line| - 1]
    && (line[|line| - 1] == '\n' || |line| == 1023 || last)
  }

  lemma {:induction false} FgetsStops(input: string, n: nat)
    requires input != "" && n > 0
    ensures var line := Fgets(input, n);
            '\n' !in line[..|line| - 1] && (line[|line| - 1] == '\n' || |line| == n || line == input)
  {
    if input[0] != '\n' && n > 1 && input[1..] != "" {
      FgetsStops(input[1..], n - 1);
      var rest := Fgets(input[1..], n - 1);
      var line := Fgets(input, n);
      assert line == [input[0]] + rest;
      assert line[..|line| - 1] == [input[0]] + rest[..|rest| - 1];
    }
  }

  /** The lines are the input, cut exactly behind newlines and where a line fills the buffer. */
  lemma {:induction false} LinesCutInput(input: string)
    ensures Concat(Lines(input)) == input
    ensures forall i :: 0 <= i < |Lines(input)| ==> EndsWell(Lines(input)[i], i == |Lines(input)| - 1)
    decreases |input|
  {
    if input != "" {
      var line := Fgets(input, SIZE - 1);
      var rest := input[|line|..];
      FgetsStops(input, SIZE - 1);
      LinesCutInput(rest);
      assert input == line + rest;
      assert Lines(input)[0] == line && Lines(input)[1..] == Lines(rest);
      assert line == input ==> Lines(rest) == [];
      forall i | 0 <= i < |Lines(input)|
        ensures EndsWell(Lines(input)[i], i == |Lines(input)| - 1)
      {
        assert i > 0 ==> Lines(input)[i] == Lines(rest)[i - 1];
      }
    }
  }

  datatype ParentPc = Gets | Writing | Reading | Puts | ParentExited | ParentOverrun

  datatype ChildPc = Waiting | Answering | ChildExited | ChildOverrun

  /** `req` and `rep` are the bytes in the two pipes; `sent` and `printed` record what went through. */
  datatype State = State(stdin: string, parent: ParentPc, child: ChildPc, pline: string, cline: string,
                         req: string, rep: string, sent: seq<string>, printed: seq<string>)

  datatype Action = PGets | PWrite | PRead | PPuts | CRead | CAnswer

  predicate Init(s: State, input: string) {
    && s.stdin == input && s.parent == Gets && s.child == Waiting && s.req == "" && s.rep == ""
    && s.sent == [] && s.printed == [] && Buffers(s)
  }

  /** Both programs declare `char line[1024]`. */
  predicate Buffers(s: State) {
    |s.pline| == SIZE && |s.cline| == SIZE
  }

  /** `text` stored at the start of `buf`. */
  function Stored(buf: string, text: string): (r: string)
    requires |text| <= |buf|
    ensures |r| == |buf|
  {
    text + buf[|text|..]
  }

  /** How much a read of SIZE characters takes out of a pipe that is not empty. */
  function Taken(pipe: string): nat {
    if |pipe| < SIZE then |pipe| else SIZE
  }

  predicate Enabled(s: State, a: Action) {
    match a
    case PGets => s.parent == Gets
    case PWrite => s.parent == Writing
    case PRead => s.parent == Reading && (s.rep != "" || s.child == ChildExited)
    case PPuts => s.parent == Puts
    case CRead => s.child == Waiting && (s.req != "" || s.parent == ParentExited)
    case CAnswer => s.child == Answering
  }

  function Apply(s: State, a: Action): State
    requires Buffers(s) && Enabled(s, a)
  {
    match a
    case PGets =>
      var line := Fgets(s.stdin, SIZE - 1);
      if s.stdin == "" then s.(parent := ParentExited)
      else s.(parent := Writing, stdin := s.stdin[|line|..], pline := Stored(s.pline, line + "\0"))
    case PWrite =>
      s.(parent := Reading, req := s.req + UpToNul(s.pline), sent := s.sent + [UpToNul(s.pline)])
    case PRead =>
      var n := Taken(s.rep);
      if n == 0 then s.(parent := ParentExited)
      else if n == SIZE then s.(parent := ParentOverrun)  // line[SIZE] = '\0'
      else s.(parent := Puts, rep := s.rep[n..], pline := Stored(s.pline, s.rep[..n] + "\0"))
    case PPuts => s.(parent := Gets, printed := s.printed + [UpToNul(s.pline)])
    case CRead =>
      var n := Taken(s.req);
      if n == 0 then s.(child := ChildExited)
      else if n == SIZE then s.(child := ChildOverrun)
      else s.(child := Answering, req := s.req[n..], cline := Stored(s.cline, s.req[..n] + "\0"))
    case CAnswer =>
      var reply := Reply(UpToNul(s.cline));
      ReplyIsShort(UpToNul(s.cline));
      s.(child := Waiting, rep := s.rep + reply,
         cline := if reply == "invalid args\n" then s.cline else Stored(s.cline, reply + "\0"))
  }

  ghost predicate Run(s: State, acts: seq<Action>, t: State)
    decreases |acts|
  {
    if acts == [] then s == t
    else
      && Buffers(s) && Enabled(s, acts[0])
      && Run(Apply(s, acts[0]), acts[1..], t)
  }

  /** The message in transit, from the parent's write to the parent's fputs. */
  predicate OneMessage(s: State, msg: string) {
    || (s.req == msg && s.rep == "" && s.child == Waiting)
    || (s.req == "" && s.rep == "" && s.child == Answering && UpToNul(s.cline) == msg && msg != "")
    || (s.req == "" && s.rep == Reply(msg) && s.child == Waiting && msg != "")
  }

  predicate Idle(s: State) {
    s.req == "" && s.rep == ""
  }

  /** How many lines fgets has returned. */
  function Consumed(s: State): nat {
    |s.sent| + if s.parent == Writing then 1 else 0
  }

  /** Requests and replies so far pair up. */
  ghost predicate Answered(sent: seq<string>, printed: seq<string>, lines: seq<string>) {
    && |printed| <= |sent| <= |lines|
    && (forall i :: 0 <= i < |sent| ==> sent[i] == UpToNul(lines[i]))
    && (forall i :: 0 <= i < |printed| ==> printed[i] == Reply(sent[i]) && sent[i] != "")
  }

  /** What has been read, sent and printed so far belongs to the lines of the input. */
  ghost predicate OnInput(s: State, lines: seq<string>) {
    && Answered(s.sent, s.printed, lines)
    && Consumed(s) <= |lines| && Lines(s.stdin) == lines[Consumed(s)..]
  }

  predicate BetweenRounds(s: State) {
    |s.sent| == |s.printed| && Idle(s) && s.child == Waiting
  }

  ghost predicate LineRead(s: State, lines: seq<string>) {
    BetweenRounds(s) && |s.sent| < |lines| && UpToNul(s.pline) == UpToNul(lines[|s.sent|])
  }

  predicate RequestSent(s: State) {
    |s.sent| == |s.printed| + 1 && OneMessage(s, s.sent[|s.printed|])
  }

  predicate ReplyRead(s: State) {
    && |s.sent| == |s.printed| + 1 && Idle(s) && s.child == Waiting
    && s.sent[|s.printed|] != "" && UpToNul(s.pline) == Reply(s.sent[|s.printed|])
  }

  predicate AllPrinted(s: State, lines: seq<string>) {
    |s.sent| == |s.printed| == |lines| && Idle(s) && (s.child == Waiting || s.child == ChildExited)
  }

  ghost predicate Phase(s: State, lines: seq<string>) {
    match s.parent
    case Gets => BetweenRounds(s)
    case Writing => LineRead(s, lines)
    case Reading => RequestSent(s)
    case Puts => ReplyRead(s)
    case ParentExited => AllPrinted(s, lines)
    case ParentOverrun => false
  }

  ghost predicate Inv(s: State, input: string) {
    Buffers(s) && OnInput(s, Lines(input)) && Phase(s, Lines(input))
  }

  /** A NUL-terminated text in a buffer reads back as the text up to its first NUL. */
  lemma {:induction false} StoredString(text: string, tail: string)
    ensures UpToNul(text + "\0" + tail) == UpToNul(text)
  {
    var buf := text + "\0" + tail;
    if text != "" {
      assert buf[0] == text[0];
      assert buf[1..] == text[1..] + "\0" + tail;
      StoredString(text[1..], tail);
    }
  }

  lemma {:induction false} NoNul(text: string)
    requires '\0' !in text
    ensures UpToNul(text) == text
  {
    if text != "" {
      NoNul(text[1..]);
    }
  }

  lemma GetsInv(s: State, input: string)
    requires Buffers(s) && Enabled(s, PGets) && Inv(s, input)
    ensures Inv(Apply(s, PGets), input)
  {
    hide UpToNul, Fgets, Reply, Answered;
    if s.stdin != "" {
      var line := Fgets(s.stdin, SIZE - 1);
      StoredString(line, s.pline[|line| + 1..]);
      assert Stored(s.pline, line + "\0") == line + "\0" + s.pline[|line| + 1..];
      assert Lines(s.stdin)[0] == line && Lines(s.stdin)[1..] == Lines(s.stdin[|line|..]);
      var lines := Lines(input);
      assert lines[Consumed(s)..][0] == lines[Consumed(s)];
      assert lines[Consumed(s)..][1..] == lines[Consumed(s) + 1..];
    }
  }

  lemma WriteInv(s: State, input: string)
    requires Buffers(s) && Enabled(s, PWrite) && Inv(s, input)
    ensures Inv(Apply(s, PWrite), input)
  {
    hide UpToNul, Lines, Reply;
  }

  lemma ReadInv(s: State, input: string)
    requires Buffers(s) && Enabled(s, PRead) && Inv(s, input)
    ensures Inv(Apply(s, PRead), input)
  {
    hide UpToNul, Lines, Reply, Answered;
    ReplyIsShort(s.sent[|s.printed|]);
    assert s.rep == Reply(s.sent[|s.printed|]);
    assert s.rep[..|s.rep|] == s.rep;
    StoredString(s.rep, s.pline[|s.rep| + 1..]);
    NoNul(s.rep);
    assert Stored(s.pline, s.rep + "\0") == s.rep + "\0" + s.pline[|s.rep| + 1..];
  }

  /** fputs of the reply completes the round. */
  lemma PutsInv(s: State, t: State, lines: seq<string>)
    requires OnInput(s, lines) && s.parent == Puts && ReplyRead(s)
    requires t == s.(parent := Gets, printed := s.printed + [UpToNul(s.pline)])
    ensures OnInput(t, lines) && BetweenRounds(t)
  {
    hide UpToNul, Lines, Reply, Answered, Fgets;
    AnsweredMore(s.sent, s.printed, lines, UpToNul(s.pline));
  }

  lemma AnsweredMore(sent: seq<string>, printed: seq<string>, lines: seq<string>, reply: string)
    requires Answered(sent, printed, lines) && |printed| < |sent|
    requires sent[|printed|] != "" && reply == Reply(sent[|printed|])
    ensures Answered(sent, printed + [reply], lines)
  {
    hide UpToNul, Reply;
  }

  lemma ChildReadInv(s: State, input: string)
    requires Buffers(s) && Enabled(s, CRead) && Inv(s, input)
    ensures Inv(Apply(s, CRead), input)
  {
    hide UpToNul, Lines, Reply;
    if s.req != "" {
      assert s.req == UpToNul(Lines(input)[|s.printed|]);
      assert s.req[..|s.req|] == s.req;
      NoNul(s.req);
      StoredString(s.req, s.cline[|s.req| + 1..]);
      assert Stored(s.cline, s.req + "\0") == s.req + "\0" + s.cline[|s.req| + 1..];
    }
  }

  lemma AnswerInv(s: State, input: string)
    requires Buffers(s) && Enabled(s, CAnswer) && Inv(s, input)
    ensures Inv(Apply(s, CAnswer), input)
  {
    hide UpToNul, Lines, Reply, Answered;
    ReplyIsShort(UpToNul(s.cline));
  }

  lemma StepInv(s: State, input: string, a: Action)
    requires Buffers(s) && Enabled(s, a) && Inv(s, input)
    ensures Inv(Apply(s, a), input)
  {
    if a == PPuts {
      hide UpToNul, OnInput, BetweenRounds, ReplyRead;
      PutsInv(s, Apply(s, a), Lines(input));
    }
    hide Apply, Inv;
    match a
    case PGets => GetsInv(s, input);
    case PWrite => WriteInv(s, input);
    case PRead => ReadInv(s, input);
    case PPuts =>
    case CRead => ChildReadInv(s, input);
    case CAnswer => AnswerInv(s, input);
  }

  lemma {:induction false} RunInv(s: State, input: string, acts: seq<Action>, t: State)
    requires Inv(s, input) && Run(s, acts, t)
    ensures Inv(t, input)
    decreases |acts|
  {
    hide Apply, Inv, Enabled;
    if acts != [] {
      StepInv(s, input, acts[0]);
      RunInv(Apply(s, acts[0]), input, acts[1..], t);
    }
  }

  lemma InitInv(s: State, input: string)
    requires Init(s, input)
    ensures Inv(s, input)
  {
    hide Lines;
    assert Lines(input)[0..] == Lines(input);
  }

  /**
   Over every run on any input: neither buffer is overrun; at most one message is in transit, and
   a pipe that is not empty holds exactly that message; the child answers the request last sent;
   and the i-th reply printed is the answer to the i-th line.
   */
  lemma EveryRun(s: State, input: string, acts: seq<Action>, t: State)
    requires Init(s, input) && Run(s, acts, t)
    ensures t.parent != ParentOverrun && t.child != ChildOverrun
    ensures |t.printed| <= |t.sent| <= |t.printed| + 1 && |t.sent| <= |Lines(input)|
    ensures t.req + t.rep != "" || t.child == Answering ==> |t.sent| == |t.printed| + 1 && t.parent == Reading
    ensures t.req != "" ==> t.rep == "" && t.child == Waiting && t.req == t.sent[|t.printed|]
    ensures t.rep != "" ==> t.req == "" && t.child == Waiting && t.rep == Reply(t.sent[|t.printed|])
    ensures t.child == Answering ==> t.req == t.rep == "" && UpToNul(t.cline) == t.sent[|t.printed|]
    ensures forall i :: 0 <= i < |t.printed| ==> t.printed[i] == Reply(UpToNul(Lines(input)[i]))
    ensures t.parent == ParentExited ==> |t.printed| == |Lines(input)|
  {
    hide Lines, UpToNul, Reply, Run, Init;
    InitInv(s, input);
    RunInv(s, input, acts, t);
  }

  /** No program step is possible. */
  ghost predicate AtRest(s: State) {
    forall a :: !Enabled(s, a)
  }

  /** Both sides blocked in read on empty pipes. */
  predicate Deadlocked(s: State) {
    s.parent == Reading && s.child == Waiting && Idle(s)
  }

  /** A line whose message is empty, so that nothing is written and nothing comes back. */
  predicate StartsWithNul(line: string) {
    line != "" && line[0] == '\0'
  }

  function Rank(s: State): nat {
    10 * |s.stdin| + (if s.req != "" then 2 else 0)
    + (match s.parent
       case Gets => 1
       case Writing => 10
       case Reading => 5
       case Puts => 2
       case ParentExited => 0
       case ParentOverrun => 0)
    + match s.child
      case Waiting => 1
      case Answering => 2
      case ChildExited => 0
      case ChildOverrun => 0
  }

  lemma StepProgress(s: State, input: string, a: Action)
    requires Buffers(s) && Enabled(s, a) && Inv(s, input)
    ensures Rank(Apply(s, a)) < Rank(s)
  {
    hide Lines, UpToNul, Reply, Answered, Fgets;
    if a == PRead {
      ReplyIsShort(s.sent[|s.printed|]);
    }
    if s.req != "" && a == CRead {
      SentIsShort(s, input);
    }
  }

  lemma SentIsShort(s: State, input: string)
    requires Inv(s, input) && s.parent == Reading
    ensures |s.sent[|s.printed|]| < SIZE
  {
    hide Lines, UpToNul, Reply;
    assert |UpToNul(Lines(input)[|s.printed|])| < SIZE;
  }

  /** Every run is finite, whatever the interleaving. */
  lemma {:induction false} RunsEnd(s: State, input: string, acts: seq<Action>, t: State)
    requires Inv(s, input) && Run(s, acts, t)
    ensures |acts| + Rank(t) <= Rank(s)
    decreases |acts|
  {
    hide Inv, Apply, Rank, Enabled;
    if acts != [] {
      StepInv(s, input, acts[0]);
      StepProgress(s, input, acts[0]);
      RunsEnd(Apply(s, acts[0]), input, acts[1..], t);
    }
  }

  lemma {:induction false} RestIsReached(s: State, input: string) returns (acts: seq<Action>, t: State)
    requires Inv(s, input)
    ensures Run(s, acts, t) && AtRest(t)
    decreases Rank(s)
  {
    hide Apply, Rank, Enabled;
    if a :| Enabled(s, a) {
      StepInv(s, input, a);
      StepProgress(s, input, a);
      acts, t := RestIsReached(Apply(s, a), input);
      acts := [a] + acts;
      assert acts[1..] == acts[1..];
    } else {
      acts, t := [], s;
    }
  }

  /** The program rests only when both sides are done, or both are blocked. */
  lemma AtRestIff(s: State, input: string)
    requires Inv(s, input)
    ensures AtRest(s) <==> Deadlocked(s) || (s.parent == ParentExited && s.child == ChildExited)
  {
    hide Lines, Reply, UpToNul, Answered;
    if Deadlocked(s) {
      ReplyIsShort(s.sent[|s.printed|]);
    }
    if AtRest(s) {
      assert !Enabled(s, PGets) && !Enabled(s, PWrite) && !Enabled(s, PRead) && !Enabled(s, PPuts);
      assert !Enabled(s, CRead) && !Enabled(s, CAnswer);
    }
  }

  /** The last line sent to a deadlock starts with a NUL; a parent that is done has seen no such line. */
  lemma EmptyMessageBlocks(s: State, input: string)
    requires Inv(s, input)
    ensures Deadlocked(s) ==> 0 < |s.sent| <= |Lines(input)| && StartsWithNul(Lines(input)[|s.sent| - 1])
    ensures s.parent == ParentExited ==> forall i :: 0 <= i < |Lines(input)| ==> !StartsWithNul(Lines(input)[i])
  {
    hide Lines, Reply;
    if Deadlocked(s) {
      ReplyIsShort(s.sent[|s.printed|]);
    }
    assert s.parent == ParentExited ==> forall i :: 0 <= i < |Lines(input)| ==> s.sent[i] != "";
  }

  ghost predicate SomeLineStartsWithNul(input: string) {
    exists i :: 0 <= i < |Lines(input)| && StartsWithNul(Lines(input)[i])
  }

  /** A run ends deadlocked if some line starts with a NUL, and otherwise with every line answered. */
  lemma RestIsDeadlockIff(s: State, input: string, acts: seq<Action>, t: State)
    requires Init(s, input) && Run(s, acts, t)
    ensures Deadlocked(t) ==> SomeLineStartsWithNul(input)
    ensures AtRest(t) ==> (Deadlocked(t) <==> SomeLineStartsWithNul(input))
    ensures AtRest(t) && !Deadlocked(t) ==> t.parent == ParentExited && t.child == ChildExited
  {
    InitInv(s, input);
    RunInv(s, input, acts, t);
    AtRestIff(t, input);
    EmptyMessageBlocks(t, input);
    hide Inv, AtRest, Lines, StartsWithNul, Run;
  }

  /** A deadlock can be reached exactly when some line starts with a NUL. */
  lemma DeadlockIff(s: State, input: string)
    requires Init(s, input)
    ensures (exists acts, t :: Run(s, acts, t) && Deadlocked(t)) <==> SomeLineStartsWithNul(input)
  {
    hide Inv, AtRest, SomeLineStartsWithNul, Run;
    if acts, t :| Run(s, acts, t) && Deadlocked(t) {
      RestIsDeadlockIff(s, input, acts, t);
    }
    InitInv(s, input);
    var acts, t := RestIsReached(s, input);
    RestIsDeadlockIff(s, input, acts, t);
  }

  /** The shortest such input: the empty message is never answered. */
  lemma NulDeadlocks(s: State)
    requires Init(s, "\0")
    ensures SomeLineStartsWithNul("\0")
    ensures exists acts, t :: Run(s, acts, t) && Deadlocked(t)
  {
    var input := "\0";
    assert input[1..] == "";
    assert Fgets(input, SIZE - 1) == input;
    assert Lines(input)[0] == input;
    assert StartsWithNul(Lines(input)[0]);
    hide Run, Deadlocked, Init;
    DeadlockIff(s, input);
  }

  datatype Ends = Ends(in0: nat, out0: nat, in1: nat, out1: nat)

  /** The descriptors of the two pipes: fd1[0], fd1[1], fd2[0], fd2[1]. */
  function TwoPipes(base: Table, p: nat, q: nat): (ends: Ends)
    ensures ends.in0 < ends.out0 && ends.in1 < ends.out1 && ends.out1 > 1
    ensures ends.in0 !in base && ends.out0 !in base && ends.in1 !in base && ends.out1 !in base
    ensures ends.in1 !in {ends.in0, ends.out0} && ends.out1 !in {ends.in0, ends.out0}
  {
    var (a0, a1) := PipeSlots(base);
    var (b0, b1) := PipeSlots(base[a0 := ReadEnd(p)][a1 := WriteEnd(p)]);
    Ends(a0, a1, b0, b1)
  }

  /** The table that fork copies; `p` and `q` number the pipes. */
  function Forked(base: Table, p: nat, q: nat): Table {
    var e := TwoPipes(base, p, q);
    base[e.in0 := ReadEnd(p)][e.out0 := WriteEnd(p)][e.in1 := ReadEnd(q)][e.out1 := WriteEnd(q)]
  }

  function ParentWiring(base: Table, p: nat, q: nat): Table {
    var e := TwoPipes(base, p, q);
    Close(Close(Forked(base, p, q), e.in0), e.out1)
  }

  /** dup2 and close, unless the end is in place already. */
  function Moved(t: Table, limit: nat, fd: nat, std: nat): Table {
    if fd == std then t else Close(Dup2(t, limit, fd, std).0, fd)
  }

  function ChildWiring(base: Table, limit: nat, p: nat, q: nat): Table {
    var e := TwoPipes(base, p, q);
    Moved(Moved(Close(Close(Forked(base, p, q), e.out0), e.in1), limit, e.in0, 0), limit, e.out1, 1)
  }

  lemma MovedExactly(t: Table, limit: nat, fd: nat, std: nat, e: Entry)
    requires fd !in t && std < limit
    ensures Moved(t[fd := e], limit, fd, std) == t[std := e]
  {
    if fd != std {
      assert t[fd := e][std := e] - {fd} == t[std := e];
    }
  }

  /**
   Whatever was open before, even if standard input or output was not: add2 starts with its two
   ends as descriptors 0 and 1, and the parent keeps the two others.
   */
  lemma Wiring(base: Table, limit: nat, p: nat, q: nat)
    requires limit > 1
    ensures ChildWiring(base, limit, p, q) == base[0 := ReadEnd(p)][1 := WriteEnd(q)]
    ensures var e := TwoPipes(base, p, q);
            ParentWiring(base, p, q) == base[e.out0 := WriteEnd(p)][e.in1 := ReadEnd(q)]
  {
    hide Moved, TwoPipes;
    var e := TwoPipes(base, p, q);
    assert Close(Close(Forked(base, p, q), e.in0), e.out1) == base[e.out0 := WriteEnd(p)][e.in1 := ReadEnd(q)];
    assert Close(Close(Forked(base, p, q), e.out0), e.in1) == base[e.out1 := WriteEnd(q)][e.in0 := ReadEnd(p)];
    hide Forked, Close;
    MovedExactly(base[e.out1 := WriteEnd(q)], limit, e.in0, 0, ReadEnd(p));
    assert base[e.out1 := WriteEnd(q)][0 := ReadEnd(p)] == base[0 := ReadEnd(p)][e.out1 := WriteEnd(q)];
    MovedExactly(base[0 := ReadEnd(p)], limit, e.out1, 1, WriteEnd(q));
  }

  /** No end of a fresh pipe is held on both sides, so each side sees end-of-file once the other is gone. */
  lemma EndsApart(base: Table, limit: nat, p: nat, q: nat)
    requires limit > 1 && p != q
    requires ReadEnd(p) !in base.Values && WriteEnd(p) !in base.Values
    requires ReadEnd(q) !in base.Values && WriteEnd(q) !in base.Values
    ensures WriteEnd(p) !in ChildWiring(base, limit, p, q).Values
    ensures ReadEnd(q) !in ChildWiring(base, limit, p, q).Values
    ensures ReadEnd(p) !in ParentWiring(base, p, q).Values
    ensures WriteEnd(q) !in ParentWiring(base, p, q).Values
  {
    Wiring(base, limit, p, q);
    hide ChildWiring, ParentWiring;
    NoOther(base, 0, 1, ReadEnd(p), WriteEnd(q));
    NoOther(base, TwoPipes(base, p, q).out0, TwoPipes(base, p, q).in1, WriteEnd(p), ReadEnd(q));
  }

  lemma NoOther(base: Table, i: nat, j: nat, d: Entry, e: Entry)
    requires i != j
    ensures base[i := d][j := e].Values <= base.Values + {d, e}
  {
  }
}
