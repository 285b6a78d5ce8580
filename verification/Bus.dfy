/** The event bus daemon: subscriber registry, fan-out under one mutex, and the rotating log.

    `Daemon` has the daemon's own fields and critical sections; each critical section is
    atomic under the mutex and is proved equal to a function on `BusState`. `Step` adds the
    goroutines around it (accept loops, one handler per publisher, shutdown), and the
    theorems range over every interleaving of those steps. */
module Bus {
  import opened Framing

  /** Identity of one accepted connection. */
  type Conn = nat

  /** `Open`: a handle on the live path. `Shut`: closed by shutdown, so that writing and
      `Stat` fail. `Gone`: nil after a failed reopen. */
  datatype LogHandle = Open | Shut | Gone

  /** Outcome of the file operations of one broadcast. */
  datatype LogEnv = LogEnv(appendOk: bool, statOk: bool, renameOk: bool, reopenOk: bool)

  datatype BusState = BusState(
    maxBytes: nat,
    subs: set<Conn>,
    pubs: set<Conn>,
    log: LogHandle,
    live: Bytes,             // contents of the live log path
    rotated: Bytes,          // contents of the ".1" path
    wire: map<Conn, Bytes>)  // bytes handed to each subscriber ever accepted
  {
    ghost predicate Valid() { subs <= wire.Keys }
  }

  /** How many bytes of `line` got through to each subscriber whose write failed. */
  ghost predicate TornOk(torn: map<Conn, nat>, line: Bytes) {
    forall c :: c in torn ==> torn[c] < |line|
  }

  predicate Rotates(b: BusState, line: Bytes, env: LogEnv) {
    b.log.Open? && env.statOk && |b.live| + (if env.appendOk then |line| else 0) > b.maxBytes
  }

  ghost function WriteLog(b: BusState, line: Bytes, env: LogEnv): BusState {
    if !b.log.Open? then b
    else
      var live := if env.appendOk then b.live + line else b.live;
      if !Rotates(b, line, env) then b.(live := live)
      else
        var b1 := if env.renameOk then b.(live := [], rotated := live) else b.(live := live);
        b1.(log := if env.reopenOk then Open else Gone)
  }

  ghost function Delivered(b: BusState, line: Bytes, torn: map<Conn, nat>, c: Conn): Bytes
    requires c in b.wire && TornOk(torn, line)
  {
    if c !in b.subs then b.wire[c]
    else if c in torn then b.wire[c] + line[..torn[c]]
    else b.wire[c] + line
  }

  ghost function Fanout(b: BusState, line: Bytes, torn: map<Conn, nat>): BusState
    requires TornOk(torn, line)
  {
    b.(subs := b.subs - torn.Keys,
       wire := map c | c in b.wire :: Delivered(b, line, torn, c))
  }

  /** The fan-out loop when the subscribers in `todo` are still to be written to. */
  ghost predicate Partway(b: BusState, line: Bytes, torn: map<Conn, nat>,
                          todo: set<Conn>, subs: set<Conn>, wire: map<Conn, Bytes>) {
    && b.Valid() && TornOk(torn, line) && todo <= b.subs
    && subs == b.subs - (torn.Keys - todo)
    && wire.Keys == b.wire.Keys
    && forall c :: c in wire ==> wire[c] == if c in todo then b.wire[c] else Delivered(b, line, torn, c)
  }

  lemma OneMoreWritten(b: BusState, line: Bytes, torn: map<Conn, nat>,
                       todo: set<Conn>, c: Conn, subs: set<Conn>, wire: map<Conn, Bytes>)
    requires c !in todo && Partway(b, line, torn, todo + {c}, subs, wire)
    ensures c in wire && (c in torn ==> torn[c] <= |line|)
    ensures c in torn ==>
      Partway(b, line, torn, todo, subs - {c}, wire[c := wire[c] + line[..torn[c]]])
    ensures c !in torn ==> Partway(b, line, torn, todo, subs, wire[c := wire[c] + line])
  {
  }

  class Daemon {
    const maxBytes: nat
    var subs: set<Conn>
    var pubs: set<Conn>
    var log: LogHandle
    var live: Bytes
    var rotated: Bytes
    var wire: map<Conn, Bytes>

    ghost function View(): BusState
      reads this
    {
      BusState(maxBytes, subs, pubs, log, live, rotated, wire)
    }

    /** The daemon once its log is open on whatever an earlier run left on disk. */
    constructor (maxBytes: nat, live: Bytes, rotated: Bytes)
      ensures View() == BusState(maxBytes, {}, {}, Open, live, rotated, map[])
      ensures View().Valid()
    {
      this.maxBytes := maxBytes;
      subs, pubs, log := {}, {}, Open;
      this.live, this.rotated := live, rotated;
      wire := map[];
    }

    method AcceptSub(c: Conn)
      requires View().Valid() && c !in wire
      modifies this
      ensures View().Valid()
      ensures View() == old(View()).(subs := old(subs) + {c}, wire := old(wire)[c := []])
    {
      subs := subs + {c};
      wire := wire[c := []];
    }

    method AcceptPub(p: Conn)
      modifies this
      ensures View() == old(View()).(pubs := old(pubs) + {p})
    {
      pubs := pubs + {p};
    }

    method ClosePub(p: Conn)
      modifies this
      ensures View() == old(View()).(pubs := old(pubs) - {p})
    {
      pubs := pubs - {p};
    }

    /** One broadcast: the log first, then every subscriber. */
    method Broadcast(line: Bytes, env: LogEnv, torn: map<Conn, nat>)
      requires View().Valid() && TornOk(torn, line)
      modifies this
      ensures View().Valid()
      ensures View() == Fanout(WriteLog(old(View()), line, env), line, torn)
    {
      AppendAndRotate(line, env);
      WriteToSubs(line, torn);
    }

    /** The line is appended and, past the limit, the log is closed, renamed and reopened. */
    method AppendAndRotate(line: Bytes, env: LogEnv)
      requires View().Valid()
      modifies `log, `live, `rotated
      ensures View() == WriteLog(old(View()), line, env)
    {
      if log != Gone {
        if log == Open && env.appendOk {
          live := live + line;
        }
        if log == Open && env.statOk && |live| > maxBytes {
          log := Shut;
          if env.renameOk {
            rotated := live;
            live := [];
          }
          log := if env.reopenOk then Open else Gone;
        }
      }
    }

    /** Every subscriber is written to, in map order, and dropped when its write fails; the
        order does not show in the result. */
    method WriteToSubs(line: Bytes, torn: map<Conn, nat>)
      requires View().Valid() && TornOk(torn, line)
      modifies `subs, `wire
      ensures View() == Fanout(old(View()), line, torn)
    {
      ghost var before := View();
      var todo := subs;
      while todo != {}
        invariant Partway(before, line, torn, todo, subs, wire)
        decreases todo
      {
        var c :| c in todo;
        assert (todo - {c}) + {c} == todo;
        WriteToSub(c, line, torn, before, todo - {c});
        todo := todo - {c};
      }
      assert subs == before.subs - torn.Keys;
      assert wire == Fanout(before, line, torn).wire;
    }

    method WriteToSub(c: Conn, line: Bytes, torn: map<Conn, nat>, ghost before: BusState, ghost rest: set<Conn>)
      requires c !in rest && Partway(before, line, torn, rest + {c}, subs, wire)
      modifies `subs, `wire
      ensures Partway(before, line, torn, rest, subs, wire)
    {
      OneMoreWritten(before, line, torn, rest, c, subs, wire);
      if c in torn {
        wire := wire[c := wire[c] + line[..torn[c]]];
        subs := subs - {c};
      } else {
        wire := wire[c := wire[c] + line];
      }
    }

    /** Shutdown's critical section, then the close of the log outside it, which is `overtaken`
        when a rotation in progress replaces the handle it closes. */
    method Stop(overtaken: bool)
      requires View().Valid()
      modifies this
      ensures View().Valid()
      ensures View() == old(View()).(subs := {}, pubs := {},
                                     log := if old(log).Open? && !overtaken then Shut else old(log))
    {
      subs, pubs := {}, {};
      if log != Gone && !overtaken {
        log := Shut;
      }
    }
  }

  // ----- the protocol around the critical sections ----------------------------

  /** A publisher's handler: what it has read, whether input ended, how many lines it broadcast. */
  datatype Handler = Handler(recv: Bytes, eof: bool, emitted: nat)

  datatype System = System(bus: BusState, handlers: map<Conn, Handler>)

  /** `StopLog` is shutdown's close of the log outside the mutex. When it falls into a broadcast
      it either shuts the handle between the write and the `Stat`, which is a broadcast whose
      `Stat` fails and then the close, or it is overtaken: it closes the handle that a rotation
      is replacing, and the log stays as the rotation leaves it. */
  datatype Step =
    | AcceptSub(c: Conn)
    | AcceptPub(p: Conn)
    | Recv(p: Conn, chunk: Bytes)
    | Hangup(p: Conn)
    | Forward(p: Conn, env: LogEnv, torn: map<Conn, nat>)
    | FinishPub(p: Conn)
    | StopConns
    | StopLog(overtaken: bool)

  ghost predicate HasNext(s: System, p: Conn) {
    p in s.handlers && s.handlers[p].emitted < |Scan(s.handlers[p].recv, s.handlers[p].eof)|
  }

  ghost function NextLine(s: System, p: Conn): (line: Bytes)
    requires HasNext(s, p)
    ensures WholeLine(line)
  {
    ScanGivesWholeLines(s.handlers[p].recv, s.handlers[p].eof);
    Scan(s.handlers[p].recv, s.handlers[p].eof)[s.handlers[p].emitted]
  }

  ghost predicate Enabled(s: System, t: Step) {
    match t
    case AcceptSub(c) => c !in s.bus.wire
    case AcceptPub(p) => p !in s.handlers
    case Recv(p, _) => p in s.handlers && !s.handlers[p].eof
    case Hangup(p) => p in s.handlers && !s.handlers[p].eof
    case Forward(p, _, torn) => HasNext(s, p) && TornOk(torn, NextLine(s, p))
    case FinishPub(p) => p in s.handlers && !HasNext(s, p)
    case StopConns => true
    case StopLog(_) => true
  }

  ghost function Apply(s: System, t: Step): System
    requires Enabled(s, t)
  {
    match t
    case AcceptSub(c) => s.(bus := s.bus.(subs := s.bus.subs + {c}, wire := s.bus.wire[c := []]))
    case AcceptPub(p) => System(s.bus.(pubs := s.bus.pubs + {p}), s.handlers[p := Handler([], false, 0)])
    case Recv(p, chunk) =>
      var h := s.handlers[p];
      s.(handlers := s.handlers[p := h.(recv := h.recv + chunk)])
    case Hangup(p) => s.(handlers := s.handlers[p := s.handlers[p].(eof := true)])
    case Forward(p, env, torn) =>
      var h := s.handlers[p];
      var line := NextLine(s, p);
      System(Fanout(WriteLog(s.bus, line, env), line, torn), s.handlers[p := h.(emitted := h.emitted + 1)])
    case FinishPub(p) => s.(bus := s.bus.(pubs := s.bus.pubs - {p}))
    case StopConns => s.(bus := s.bus.(subs := {}, pubs := {}))
    case StopLog(overtaken) =>
      if overtaken then s else s.(bus := s.bus.(log := if s.bus.log.Open? then Shut else s.bus.log))
  }

  ghost predicate Initial(s: System) {
    && s.bus.subs == {} && s.bus.pubs == {} && s.bus.wire == map[]
    && s.bus.log == Open && s.handlers == map[]
  }

  /** Step `i` is enabled where it is taken and leads to the next state. */
  ghost predicate Linked(steps: seq<Step>, states: seq<System>, i: int) {
    0 <= i < |steps| && i + 1 < |states| && Enabled(states[i], steps[i]) && states[i + 1] == Apply(states[i], steps[i])
  }

  /** `states` are the states a run goes through while it takes `steps`. */
  ghost predicate IsRun(steps: seq<Step>, states: seq<System>) {
    && |states| == |steps| + 1
    && Initial(states[0])
    && forall i :: 0 <= i < |steps| ==> Linked(steps, states, i)
  }

  /** The line broadcast at step `i`. */
  ghost function LineAt(steps: seq<Step>, states: seq<System>, i: nat): (line: Bytes)
    requires IsRun(steps, states) && i < |steps| && steps[i].Forward?
    ensures WholeLine(line)
  {
    assert Linked(steps, states, i);
    NextLine(states[i], steps[i].p)
  }

  /** The lines broadcast during the first `n` steps, in order. */
  ghost function Sent(steps: seq<Step>, states: seq<System>, n: nat): (all: seq<Bytes>)
    requires IsRun(steps, states) && n <= |steps|
    ensures AllWhole(all)
  {
    if n == 0 then []
    else if steps[n - 1].Forward? then
      Sent(steps, states, n - 1) + [LineAt(steps, states, n - 1)]
    else Sent(steps, states, n - 1)
  }

  lemma {:induction false} SentGrows(steps: seq<Step>, states: seq<System>, m: nat, n: nat)
    requires IsRun(steps, states) && m <= n <= |steps|
    ensures Sent(steps, states, m) <= Sent(steps, states, n)
  {
    if m < n {
      SentGrows(steps, states, m, n - 1);
    }
  }

  // ----- total order ------------------------------------------------------------

  ghost predicate Subscribed(states: seq<System>, n: nat, c: Conn) {
    n < |states| && c in states[n].bus.subs
  }

  /** Step `j` is the one at which `c` stops being a subscriber. */
  ghost predicate LeavesAt(states: seq<System>, c: Conn, j: nat) {
    Subscribed(states, j, c) && j + 1 < |states| && !Subscribed(states, j + 1, c)
  }

  /** The torn bytes `c` got of the line whose write failed; none when shutdown closed it. */
  ghost function TornPart(steps: seq<Step>, states: seq<System>, c: Conn, j: nat): (t: Bytes)
    requires IsRun(steps, states) && j < |steps|
  {
    assert Linked(steps, states, j);
    if steps[j].Forward? && c in steps[j].torn then LineAt(steps, states, j)[..steps[j].torn[c]] else []
  }

  /** What step `t` hands to connection `c`. */
  ghost function Gets(s: System, t: Step, c: Conn): Bytes
    requires Enabled(s, t)
  {
    if t.Forward? && c in s.bus.subs then
      if c in t.torn then NextLine(s, t.p)[..t.torn[c]] else NextLine(s, t.p)
    else []
  }

  lemma StepWire(s: System, t: Step, c: Conn)
    requires Enabled(s, t) && c in s.bus.wire
    ensures c in Apply(s, t).bus.wire
    ensures Apply(s, t).bus.wire[c] == s.bus.wire[c] + Gets(s, t, c)
    ensures c in Apply(s, t).bus.subs <==> c in s.bus.subs && !t.StopConns? && !(t.Forward? && c in t.torn)
  {
    if t.Forward? {
      var b := WriteLog(s.bus, NextLine(s, t.p), t.env);
      assert b.subs == s.bus.subs && b.wire == s.bus.wire;
      assert Apply(s, t).bus == Fanout(b, NextLine(s, t.p), t.torn);
    }
  }

  lemma ConcatTailSnoc(all: seq<Bytes>, line: Bytes, a: nat)
    requires a <= |all|
    ensures Concat((all + [line])[a..]) == Concat(all[a..]) + line
  {
    assert (all + [line])[a..] == all[a..] + [line];
    ConcatSnoc(all[a..], line);
  }

  lemma {:induction false} WireWhileSubscribed(steps: seq<Step>, states: seq<System>, i: nat, c: Conn, n: nat)
    requires IsRun(steps, states) && i < n <= |steps| && steps[i] == AcceptSub(c)
    requires Subscribed(states, n, c)
    ensures c in states[n].bus.wire
    ensures |Sent(steps, states, i)| <= |Sent(steps, states, n)|
    ensures states[n].bus.wire[c] == Concat(Sent(steps, states, n)[|Sent(steps, states, i)|..])
  {
    SentGrows(steps, states, i, n);
    var a := |Sent(steps, states, i)|;
    assert Linked(steps, states, n - 1);
    if n == i + 1 {
      assert Sent(steps, states, n)[a..] == [];
    } else {
      WireOnceAccepted(steps, states, i, c, n - 1);
      StepWire(states[n - 1], steps[n - 1], c);
      WireWhileSubscribed(steps, states, i, c, n - 1);
      var prev := Sent(steps, states, n - 1);
      if steps[n - 1].Forward? {
        ConcatTailSnoc(prev, LineAt(steps, states, n - 1), a);
      }
    }
  }

  /** A connection stays known for good, so it is accepted at most once. */
  lemma {:induction false} WireOnceAccepted(steps: seq<Step>, states: seq<System>, i: nat, c: Conn, n: nat)
    requires IsRun(steps, states) && i < n <= |steps| && steps[i] == AcceptSub(c)
    ensures c in states[n].bus.wire
  {
    assert Linked(steps, states, n - 1);
    if n > i + 1 {
      WireOnceAccepted(steps, states, i, c, n - 1);
    }
  }

  lemma {:induction false} WireAfterLeaving(steps: seq<Step>, states: seq<System>, i: nat, c: Conn, j: nat, n: nat)
    requires IsRun(steps, states) && i < j < n <= |steps| && steps[i] == AcceptSub(c) && LeavesAt(states, c, j)
    ensures c in states[n].bus.wire && !Subscribed(states, n, c)
    ensures |Sent(steps, states, i)| <= |Sent(steps, states, j)|
    ensures states[n].bus.wire[c] ==
            Concat(Sent(steps, states, j)[|Sent(steps, states, i)|..]) + TornPart(steps, states, c, j)
  {
    assert Linked(steps, states, n - 1);
    WireOnceAccepted(steps, states, i, c, n - 1);
    var s, t := states[n - 1], steps[n - 1];
    StepWire(s, t, c);
    if n == j + 1 {
      WireWhileSubscribed(steps, states, i, c, j);
      assert Gets(s, t, c) == TornPart(steps, states, c, j);
    } else {
      WireAfterLeaving(steps, states, i, c, j, n - 1);
      assert Gets(s, t, c) == [];
      assert states[n].bus.wire[c] == s.bus.wire[c];
    }
  }

  lemma {:induction false} StillSubscribedOrLeft(steps: seq<Step>, states: seq<System>, i: nat, c: Conn, n: nat)
    requires IsRun(steps, states) && i < n <= |steps| && steps[i] == AcceptSub(c)
    ensures Subscribed(states, n, c) || exists j :: i < j < n && LeavesAt(states, c, j)
  {
    if n == i + 1 {
      assert Linked(steps, states, i);
    } else {
      StillSubscribedOrLeft(steps, states, i, c, n - 1);
      if Subscribed(states, n - 1, c) && !Subscribed(states, n, c) {
        assert LeavesAt(states, c, n - 1);
      } else if !Subscribed(states, n - 1, c) {
        var j :| i < j < n - 1 && LeavesAt(states, c, j);
      }
    }
  }

  /** Total order. What a subscriber got is one contiguous run of the one global sequence: it
      starts at the first broadcast after registration and, if the subscriber left at step `j`,
      ends with the broadcasts before `j`, followed by the torn part of the failing line. */
  lemma TotalOrder(steps: seq<Step>, states: seq<System>, i: nat, c: Conn)
    requires IsRun(steps, states) && i < |steps| && steps[i] == AcceptSub(c)
    ensures var n := |steps|;
      var a := |Sent(steps, states, i)|;
      && c in states[n].bus.wire
      && (if Subscribed(states, n, c) then
            a <= |Sent(steps, states, n)| && states[n].bus.wire[c] == Concat(Sent(steps, states, n)[a..])
          else
            exists j :: i < j < n && LeavesAt(states, c, j) && a <= |Sent(steps, states, j)| &&
              Sent(steps, states, j) <= Sent(steps, states, n) &&
              states[n].bus.wire[c] == Concat(Sent(steps, states, j)[a..]) + TornPart(steps, states, c, j))
  {
    var n := |steps|;
    WireOnceAccepted(steps, states, i, c, n);
    StillSubscribedOrLeft(steps, states, i, c, n);
    if Subscribed(states, n, c) {
      WireWhileSubscribed(steps, states, i, c, n);
    } else {
      var j :| i < j < n && LeavesAt(states, c, j);
      WireAfterLeaving(steps, states, i, c, j, n);
      SentGrows(steps, states, j, n);
    }
  }

  /** Once gone, a connection gets nothing more. */
  lemma {:induction false} GoneForGood(steps: seq<Step>, states: seq<System>, i: nat, c: Conn, m: nat, n: nat)
    requires IsRun(steps, states) && i < m <= n <= |steps| && steps[i] == AcceptSub(c) && !Subscribed(states, m, c)
    ensures c in states[m].bus.wire && c in states[n].bus.wire && !Subscribed(states, n, c)
    ensures states[n].bus.wire[c] == states[m].bus.wire[c]
  {
    WireOnceAccepted(steps, states, i, c, m);
    if m < n {
      GoneForGood(steps, states, i, c, m, n - 1);
      assert Linked(steps, states, n - 1);
      StepWire(states[n - 1], steps[n - 1], c);
    }
  }

  /** Shutdown ends every subscription made before it, although publishers' buffered lines may
      still be broadcast afterwards. */
  lemma ShutdownSilences(steps: seq<Step>, states: seq<System>, i: nat, c: Conn, j: nat, n: nat)
    requires IsRun(steps, states) && i < j < n <= |steps| && steps[i] == AcceptSub(c) && steps[j] == StopConns
    ensures c in states[j].bus.wire && c in states[n].bus.wire && !Subscribed(states, n, c)
    ensures states[n].bus.wire[c] == states[j].bus.wire[c]
  {
    WireOnceAccepted(steps, states, i, c, j);
    assert Linked(steps, states, j);
    StepWire(states[j], steps[j], c);
    GoneForGood(steps, states, i, c, j + 1, n);
  }

  /** End to end. However much of its socket a subscriber has read and however the reads were
      chunked, the lines it cuts out are a contiguous run of the broadcast lines, starting at
      the first one after it registered: none merged, none split, none torn. A subscriber that is
      still registered and has read everything has cut out all of them. */
  lemma EndToEnd(steps: seq<Step>, states: seq<System>, i: nat, c: Conn, chunks: seq<Bytes>)
    requires IsRun(steps, states) && i < |steps| && steps[i] == AcceptSub(c)
    requires c in states[|steps|].bus.wire && Concat(chunks) <= states[|steps|].bus.wire[c]
    ensures |Sent(steps, states, i)| <= |Sent(steps, states, |steps|)|
    ensures Lines(Concat(chunks)) <= Bodies(Sent(steps, states, |steps|))[|Sent(steps, states, i)|..]
    ensures Subscribed(states, |steps|, c) && Concat(chunks) == states[|steps|].bus.wire[c] ==>
      Lines(Concat(chunks)) == Bodies(Sent(steps, states, |steps|))[|Sent(steps, states, i)|..]
  {
    var n := |steps|;
    var a := |Sent(steps, states, i)|;
    var all := Sent(steps, states, n);
    var got := states[n].bus.wire[c];
    TotalOrder(steps, states, i, c);
    if Subscribed(states, n, c) {
      assert got == Concat(all[a..]) + [];
      LinesOfPartialRead(all, all, a, [], Concat(chunks));
      LinesOfFullRead(all, a);
    } else {
      var j :| i < j < n && LeavesAt(states, c, j) && a <= |Sent(steps, states, j)| &&
        Sent(steps, states, j) <= all &&
        got == Concat(Sent(steps, states, j)[a..]) + TornPart(steps, states, c, j);
      TornHasNoNewline(steps, states, c, j);
      LinesOfPartialRead(Sent(steps, states, j), all, a, TornPart(steps, states, c, j), Concat(chunks));
    }
  }

  /** Reading any prefix of the lines `part[a..]` and a torn tail yields a run of `all` from `a`. */
  lemma LinesOfPartialRead(part: seq<Bytes>, all: seq<Bytes>, a: nat, torn: Bytes, read: Bytes)
    requires AllWhole(all) && part <= all && a <= |part| && NL !in torn
    requires read <= Concat(part[a..]) + torn
    ensures Lines(read) <= Bodies(all)[a..]
  {
    var got := Concat(part[a..]) + torn;
    assert read == got[..|read|];
    PrefixOfStream(got, |read|);
    LinesOfWholeLines(part[a..], torn);
    BodiesOfSlice(part, all, a);
  }

  lemma LinesOfFullRead(all: seq<Bytes>, a: nat)
    requires AllWhole(all) && a <= |all|
    ensures Lines(Concat(all[a..])) == Bodies(all)[a..]
  {
    LinesOfWholeLines(all[a..], []);
    AppendNil(Concat(all[a..]));
    BodiesOfSlice(all, all, a);
  }

  lemma BodiesOfSlice(part: seq<Bytes>, all: seq<Bytes>, a: nat)
    requires AllWhole(all) && part <= all && a <= |part|
    ensures Bodies(part[a..]) <= Bodies(all)[a..]
  {
    forall i | 0 <= i < |part| - a ensures Bodies(part[a..])[i] == Bodies(all)[a..][i] {
      assert part[a..][i] == part[a + i] == all[a + i];
    }
  }

  lemma TornHasNoNewline(steps: seq<Step>, states: seq<System>, c: Conn, j: nat)
    requires IsRun(steps, states) && j < |steps|
    ensures NL !in TornPart(steps, states, c, j)
  {
    if steps[j].Forward? && c in steps[j].torn {
      assert Linked(steps, states, j);
      var line := LineAt(steps, states, j);
      assert steps[j].torn[c] < |line|;
      assert line[..steps[j].torn[c]] == line[..|line| - 1][..steps[j].torn[c]];
    }
  }

  /** Connection `c`, accepted at step `i`, completely received the `k`-th broadcast of the run. */
  ghost predicate GotKth(steps: seq<Step>, states: seq<System>, i: nat, c: Conn, k: nat) {
    && IsRun(steps, states) && i < |steps| && steps[i] == AcceptSub(c)
    && c in states[|steps|].bus.wire
    && |Sent(steps, states, i)| <= k < |Sent(steps, states, i)| + |Lines(states[|steps|].bus.wire[c])|
  }

  ghost function KthLine(steps: seq<Step>, states: seq<System>, i: nat, c: Conn, k: nat): Bytes
    requires GotKth(steps, states, i, c, k)
  {
    Lines(states[|steps|].bus.wire[c])[k - |Sent(steps, states, i)|]
  }

  lemma KthLineIsSent(steps: seq<Step>, states: seq<System>, i: nat, c: Conn, k: nat)
    requires GotKth(steps, states, i, c, k)
    ensures k < |Sent(steps, states, |steps|)|
    ensures KthLine(steps, states, i, c, k) == Body(Sent(steps, states, |steps|)[k])
  {
    var w := states[|steps|].bus.wire[c];
    assert Concat([w]) == w + Concat([w][1..]) == w;
    EndToEnd(steps, states, i, c, [w]);
  }

  /** Any two subscribers that both got the `k`-th broadcast got the same line for it. */
  lemma SubscribersAgree(steps: seq<Step>, states: seq<System>, i: nat, c: Conn, i': nat, c': Conn, k: nat)
    requires IsRun(steps, states) && i < |steps| && i' < |steps|
    requires steps[i] == AcceptSub(c) && steps[i'] == AcceptSub(c')
    requires GotKth(steps, states, i, c, k) && GotKth(steps, states, i', c', k)
    ensures KthLine(steps, states, i, c, k) == KthLine(steps, states, i', c', k)
  {
    KthLineIsSent(steps, states, i, c, k);
    KthLineIsSent(steps, states, i', c', k);
  }

  // ----- who is registered ---------------------------------------------------------

  /** Of the first `n` steps the `i`-th accepts publisher `p`, and since then its handler has not
      finished and nothing was shut down. */
  ghost predicate PublishesSince(steps: seq<Step>, p: Conn, n: nat, i: nat) {
    && i < n <= |steps| && steps[i] == AcceptPub(p)
    && forall k :: i < k < n ==> steps[k] != FinishPub(p) && !steps[k].StopConns?
  }

  lemma {:induction false} PubsExactly(steps: seq<Step>, states: seq<System>, p: Conn, n: nat)
    requires IsRun(steps, states) && n <= |steps|
    ensures p in states[n].bus.pubs <==> exists i: nat :: PublishesSince(steps, p, n, i)
  {
    if n > 0 {
      PubsExactly(steps, states, p, n - 1);
      assert Linked(steps, states, n - 1);
      var t := steps[n - 1];
      if p in states[n].bus.pubs {
        if t == AcceptPub(p) {
          assert PublishesSince(steps, p, n, n - 1);
        } else {
          var i: nat :| PublishesSince(steps, p, n - 1, i);
          assert PublishesSince(steps, p, n, i);
        }
      }
      forall i: nat | PublishesSince(steps, p, n, i) ensures p in states[n].bus.pubs {
        if i < n - 1 {
          assert PublishesSince(steps, p, n - 1, i);
        }
      }
    }
  }

  /** Likewise for subscriber `c`: no write to it has failed and nothing was shut down. */
  ghost predicate SubscribedSince(steps: seq<Step>, c: Conn, n: nat, i: nat) {
    && i < n <= |steps| && steps[i] == AcceptSub(c)
    && forall k :: i < k < n ==> !(steps[k].Forward? && c in steps[k].torn) && !steps[k].StopConns?
  }

  lemma {:induction false} SubsExactly(steps: seq<Step>, states: seq<System>, c: Conn, n: nat)
    requires IsRun(steps, states) && n <= |steps|
    ensures c in states[n].bus.subs <==> exists i: nat :: SubscribedSince(steps, c, n, i)
    ensures c in states[n].bus.subs ==> c in states[n].bus.wire
  {
    if n > 0 {
      SubsExactly(steps, states, c, n - 1);
      assert Linked(steps, states, n - 1);
      var s, t := states[n - 1], steps[n - 1];
      if c in s.bus.wire {
        StepWire(s, t, c);
      }
      if c in states[n].bus.subs {
        if t == AcceptSub(c) {
          assert SubscribedSince(steps, c, n, n - 1);
        } else {
          var i: nat :| SubscribedSince(steps, c, n - 1, i);
          assert SubscribedSince(steps, c, n, i);
        }
      }
      forall i: nat | SubscribedSince(steps, c, n, i) ensures c in states[n].bus.subs {
        if i < n - 1 {
          assert SubscribedSince(steps, c, n - 1, i);
        }
      }
    }
  }

  // ----- what publishers wrote is what is broadcast -------------------------------

  ghost function SentBy(steps: seq<Step>, states: seq<System>, p: Conn, n: nat): seq<Bytes>
    requires IsRun(steps, states) && n <= |steps|
  {
    if n == 0 then []
    else if steps[n - 1].Forward? && steps[n - 1].p == p then
      SentBy(steps, states, p, n - 1) + [LineAt(steps, states, n - 1)]
    else SentBy(steps, states, p, n - 1)
  }

  /** Everything publisher `p` wrote during the first `n` steps. */
  ghost function Written(steps: seq<Step>, p: Conn, n: nat): Bytes
    requires n <= |steps|
  {
    if n == 0 then []
    else if steps[n - 1].Recv? && steps[n - 1].p == p then Written(steps, p, n - 1) + steps[n - 1].chunk
    else Written(steps, p, n - 1)
  }

  ghost predicate HungUp(steps: seq<Step>, p: Conn, n: nat)
    requires n <= |steps|
  {
    n > 0 && (HungUp(steps, p, n - 1) || steps[n - 1] == Hangup(p))
  }

  /** One step's effect on the handler of `p`: what was handed out stays handed out. */
  lemma StepHandler(s: System, t: Step, p: Conn)
    requires Enabled(s, t) && p in s.handlers
    requires s.handlers[p].emitted <= |Scan(s.handlers[p].recv, s.handlers[p].eof)|
    ensures p in Apply(s, t).handlers
    ensures var h, h' := s.handlers[p], Apply(s, t).handlers[p];
      && h'.recv == (if t.Recv? && t.p == p then h.recv + t.chunk else h.recv)
      && h'.eof == (h.eof || t == Hangup(p))
      && h'.emitted == (if t.Forward? && t.p == p then h.emitted + 1 else h.emitted)
  {
  }

  lemma StepHandedOut(h: Handler, h': Handler)
    requires h.emitted <= |Scan(h.recv, h.eof)|
    requires h'.emitted == h.emitted
    requires h == h' || (!h.eof && h.recv <= h'.recv)
    ensures h'.emitted <= |Scan(h'.recv, h'.eof)|
    ensures Scan(h'.recv, h'.eof)[..h'.emitted] == Scan(h.recv, h.eof)[..h.emitted]
  {
    if h != h' {
      var more := h'.recv[|h.recv|..];
      assert h'.recv == h.recv + more;
      ScanGrows(h.recv, more, h'.eof);
    }
  }

  lemma {:induction false} HandlerReads(steps: seq<Step>, states: seq<System>, p: Conn, n: nat)
    requires IsRun(steps, states) && n <= |steps|
    ensures p in states[n].handlers ==>
      states[n].handlers[p].recv == Written(steps, p, n) && states[n].handlers[p].eof == HungUp(steps, p, n)
    ensures p !in states[n].handlers ==> Written(steps, p, n) == [] && !HungUp(steps, p, n)
  {
    if n > 0 {
      HandlerReads(steps, states, p, n - 1);
      assert Linked(steps, states, n - 1);
    }
  }

  lemma {:induction false} HandlerForwards(steps: seq<Step>, states: seq<System>, p: Conn, n: nat)
    requires IsRun(steps, states) && n <= |steps|
    ensures p !in states[n].handlers ==> SentBy(steps, states, p, n) == []
    ensures p in states[n].handlers ==>
      var h := states[n].handlers[p];
      h.emitted <= |Scan(h.recv, h.eof)| && SentBy(steps, states, p, n) == Scan(h.recv, h.eof)[..h.emitted]
  {
    if n > 0 {
      HandlerForwards(steps, states, p, n - 1);
      assert Linked(steps, states, n - 1);
      if p in states[n - 1].handlers {
        HandlerSteps(states[n - 1], steps[n - 1], p);
      }
    }
  }

  /** What a step hands out of the input of `p` is the next line exactly when it forwards it. */
  lemma HandlerSteps(s: System, t: Step, p: Conn)
    requires Enabled(s, t) && p in s.handlers
    requires s.handlers[p].emitted <= |Scan(s.handlers[p].recv, s.handlers[p].eof)|
    ensures p in Apply(s, t).handlers
    ensures var h, h' := s.handlers[p], Apply(s, t).handlers[p];
      && h'.emitted <= |Scan(h'.recv, h'.eof)|
      && Scan(h'.recv, h'.eof)[..h'.emitted] ==
         Scan(h.recv, h.eof)[..h.emitted] + if t.Forward? && t.p == p then [NextLine(s, p)] else []
  {
    var h := s.handlers[p];
    StepHandler(s, t, p);
    if t.Forward? && t.p == p {
      TakeOneMore(Scan(h.recv, h.eof), h.emitted);
    } else {
      StepHandedOut(h, Apply(s, t).handlers[p]);
    }
  }

  /** Per publisher, what is broadcast is the scanner's reading of all it wrote, in order,
      whatever the chunking; nothing is broadcast in its name that it did not write. */
  lemma PublisherOrder(steps: seq<Step>, states: seq<System>, p: Conn, n: nat)
    requires IsRun(steps, states) && n <= |steps|
    ensures SentBy(steps, states, p, n) <= Scan(Written(steps, p, n), HungUp(steps, p, n))
    ensures p in states[n].handlers && !HasNext(states[n], p) ==>
      SentBy(steps, states, p, n) == Scan(Written(steps, p, n), HungUp(steps, p, n))
  {
    HandlerReads(steps, states, p, n);
    HandlerForwards(steps, states, p, n);
  }

  /** A publisher whose lines are of legal size and end in no carriage return has them broadcast
      byte for byte, each once, in order. */
  lemma PublisherVerbatim(steps: seq<Step>, states: seq<System>, p: Conn, n: nat, ls: seq<Bytes>)
    requires IsRun(steps, states) && n <= |steps|
    requires Written(steps, p, n) == Unlines(ls) && PlainLines(ls)
    ensures |SentBy(steps, states, p, n)| <= |ls|
    ensures forall i :: 0 <= i < |SentBy(steps, states, p, n)| ==> SentBy(steps, states, p, n)[i] == ls[i] + [10]
    ensures p in states[n].handlers && !HasNext(states[n], p) ==>
              |SentBy(steps, states, p, n)| == |ls| && Concat(SentBy(steps, states, p, n)) == Unlines(ls)
  {
    PublisherOrder(steps, states, p, n);
    ScanKeepsBytes(ls, HungUp(steps, p, n));
  }

  const AllOk := LogEnv(true, true, true, true)

  /** A broadcast in which nothing fails. */
  lemma BroadcastLands(s: System, p: Conn, c: Conn, line: Bytes)
    requires HasNext(s, p) && NextLine(s, p) == line && s.bus.log.Open? && c in s.bus.subs && c in s.bus.wire
    ensures Enabled(s, Forward(p, AllOk, map[]))
    ensures var b := Apply(s, Forward(p, AllOk, map[])).bus;
      && c in b.wire && b.wire[c] == s.bus.wire[c] + line
      && if |s.bus.live| + |line| <= s.bus.maxBytes then
           b.live == s.bus.live + line && b.rotated == s.bus.rotated
         else
           b.live == [] && b.rotated == s.bus.live + line
  {
    StepWire(s, Forward(p, AllOk, map[]), c);
  }

  /** A subscriber, a publisher, and the line it wrote. */
  lemma LineWritten(s0: System, p: Conn, c: Conn, l: Bytes) returns (s1: System, s2: System, s3: System)
    requires Initial(s0)
    ensures Enabled(s0, AcceptSub(c)) && s1 == Apply(s0, AcceptSub(c))
    ensures Enabled(s1, AcceptPub(p)) && s2 == Apply(s1, AcceptPub(p))
    ensures Enabled(s2, Recv(p, l)) && s3 == Apply(s2, Recv(p, l))
    ensures s3.handlers == map[p := Handler(l, false, 0)] && c in s3.bus.subs && s3.bus.wire == map[c := []]
    ensures s3.bus == s0.bus.(subs := {c}, pubs := {p}, wire := map[c := []])
  {
    s1 := Apply(s0, AcceptSub(c));
    s2 := Apply(s1, AcceptPub(p));
    s3 := Apply(s2, Recv(p, l));
    assert [] + l == l;
  }

  /** It is not only allowed but possible: from any start a published line reaches a subscriber,
      and the log if it fits, else the rotated file. */
  lemma LineGetsThrough(start: System, p: Conn, c: Conn, l: Bytes) returns (steps: seq<Step>, states: seq<System>)
    requires Initial(start) && 10 !in l && |l| < 1048576 && (l == [] || l[|l| - 1] != 13)
    ensures IsRun(steps, states) && states[0] == start && |states| == 5
    ensures c in states[4].bus.wire && states[4].bus.wire[c] == l + [10]
    ensures if |start.bus.live| + |l + [10]| <= start.bus.maxBytes then
              states[4].bus.live == start.bus.live + (l + [10]) && states[4].bus.rotated == start.bus.rotated
            else
              states[4].bus.live == [] && states[4].bus.rotated == start.bus.live + (l + [10])
  {
    LineForwarded(l, false);
    var s1, s2, s3 := LineWritten(start, p, c, l + [10]);
    BroadcastLands(s3, p, c, l + [10]);
    AppendNil(l + [10]);
    var t := Forward(p, AllOk, map[]);
    steps := [AcceptSub(c), AcceptPub(p), Recv(p, l + [10]), t];
    states := [start, s1, s2, s3, Apply(s3, t)];
    forall i | 0 <= i < 4 ensures Linked(steps, states, i) {
    }
  }

  // ----- what the two log files retain ----------------------------------------------

  ghost predicate Appends(s: System, t: Step) {
    t.Forward? && s.bus.log.Open? && t.env.appendOk
  }

  /** The lines appended to the log during the first `n` steps. */
  ghost function Logged(steps: seq<Step>, states: seq<System>, n: nat): seq<Bytes>
    requires IsRun(steps, states) && n <= |steps|
  {
    if n == 0 then []
    else if Appends(states[n - 1], steps[n - 1]) then
      Logged(steps, states, n - 1) + [LineAt(steps, states, n - 1)]
    else Logged(steps, states, n - 1)
  }

  /** The rotated file followed by the live one is `all` from some line on, cut between lines. */
  ghost predicate Retains(all: seq<Bytes>, rotated: Bytes, live: Bytes, k: nat, m: nat) {
    k <= m <= |all| && rotated == Concat(all[k..m]) && live == Concat(all[m..])
  }

  /** Writing one line keeps the files a suffix of what was logged, whatever fails. */
  lemma StepRetains(all: seq<Bytes>, b: BusState, line: Bytes, env: LogEnv, k: nat, m: nat) returns (k': nat, m': nat)
    requires Retains(all, b.rotated, b.live, k, m)
    ensures var b' := WriteLog(b, line, env);
      Retains(if b.log.Open? && env.appendOk then all + [line] else all, b'.rotated, b'.live, k', m')
  {
    k', m' := k, m;
    var more := if b.log.Open? && env.appendOk then all + [line] else all;
    if b.log.Open? && env.appendOk {
      assert more[k..m] == all[k..m] && more[m..] == all[m..] + [line];
      ConcatSnoc(all[m..], line);
    }
    if Rotates(b, line, env) && env.renameOk {
      k', m' := m, |more|;
      assert more[k'..m'] == more[m..] && more[m'..] == [];
    }
  }

  /** Whatever appends, renames and reopens fail: no line is ever cut, reordered or lost from
      the middle. `before` are the whole lines an earlier run left in the two files. */
  lemma {:induction false} LogIsSuffix(steps: seq<Step>, states: seq<System>, beforeRot: seq<Bytes>,
                                       beforeLive: seq<Bytes>, n: nat)
    returns (k: nat, m: nat)
    requires IsRun(steps, states) && n <= |steps|
    requires states[0].bus.rotated == Concat(beforeRot) && states[0].bus.live == Concat(beforeLive)
    ensures Retains(beforeRot + beforeLive + Logged(steps, states, n), states[n].bus.rotated, states[n].bus.live, k, m)
  {
    var base := beforeRot + beforeLive;
    if n == 0 {
      k, m := 0, |beforeRot|;
      assert base + Logged(steps, states, n) == base;
      assert base[0..m] == beforeRot && base[m..] == beforeLive;
    } else {
      var k', m' := LogIsSuffix(steps, states, beforeRot, beforeLive, n - 1);
      var all' := base + Logged(steps, states, n - 1);
      var t := steps[n - 1];
      assert Linked(steps, states, n - 1);
      if t.Forward? {
        var line := LineAt(steps, states, n - 1);
        assert all' + [line] == base + (Logged(steps, states, n - 1) + [line]);
        k, m := StepRetains(all', states[n - 1].bus, line, t.env, k', m');
      } else {
        k, m := k', m';
      }
    }
  }

  /** Until logging ends, and with appends succeeding, what is logged is what is broadcast. */
  lemma {:induction false} LoggedIsSent(steps: seq<Step>, states: seq<System>, n: nat)
    requires IsRun(steps, states) && n <= |steps|
    requires forall i :: 0 <= i < n ==> !EndsLogging(steps, states, i)
    requires forall i :: 0 <= i < n && steps[i].Forward? ==> steps[i].env.appendOk
    ensures Logged(steps, states, n) == Sent(steps, states, n)
  {
    if n > 0 {
      LogOpenExactly(steps, states, n - 1);
      LoggedIsSent(steps, states, n - 1);
    }
  }

  /** The log is open exactly while no close has reached it and no rotation has failed to reopen
      it; failing appends and renames do not close it, nor does a close that a rotation overtakes. */
  lemma {:induction false} LogOpenExactly(steps: seq<Step>, states: seq<System>, n: nat)
    requires IsRun(steps, states) && n <= |steps|
    ensures states[n].bus.log.Open? <==> forall i :: 0 <= i < n ==> !EndsLogging(steps, states, i)
  {
    if n > 0 {
      LogOpenExactly(steps, states, n - 1);
      assert Linked(steps, states, n - 1);
      assert states[n].bus.log.Open? <==> states[n - 1].bus.log.Open? && !EndsLogging(steps, states, n - 1);
    }
  }

  ghost predicate EndsLogging(steps: seq<Step>, states: seq<System>, i: nat)
    requires IsRun(steps, states) && i < |steps|
  {
    (steps[i].StopLog? && !steps[i].overtaken) || (RotatesAt(steps, states, i) && !steps[i].env.reopenOk)
  }

  /** Once the handle is closed or nil, logging has ended for good. */
  lemma {:induction false} ClosedLogIsFrozen(steps: seq<Step>, states: seq<System>, m: nat, n: nat)
    requires IsRun(steps, states) && m <= n <= |steps| && !states[m].bus.log.Open?
    ensures !states[n].bus.log.Open?
    ensures states[n].bus.live == states[m].bus.live && states[n].bus.rotated == states[m].bus.rotated
    ensures Logged(steps, states, n) == Logged(steps, states, m)
  {
    if m < n {
      ClosedLogIsFrozen(steps, states, m, n - 1);
      assert Linked(steps, states, n - 1);
    }
  }

  /** One failed reopen during a rotation ends logging: no later line reaches the files. */
  lemma ReopenFailureEndsLogging(steps: seq<Step>, states: seq<System>, i: nat, n: nat)
    requires IsRun(steps, states) && i < n <= |steps| && RotatesAt(steps, states, i) && !steps[i].env.reopenOk
    ensures Logged(steps, states, n) == Logged(steps, states, i + 1)
    ensures states[n].bus.live == states[i + 1].bus.live && states[n].bus.rotated == states[i + 1].bus.rotated
  {
    assert Linked(steps, states, i);
    ClosedLogIsFrozen(steps, states, i + 1, n);
  }

  ghost predicate RotatesAt(steps: seq<Step>, states: seq<System>, i: nat)
    requires IsRun(steps, states) && i < |steps|
  {
    steps[i].Forward? && Rotates(states[i].bus, LineAt(steps, states, i), steps[i].env)
  }

  /** Step `i` is a rotation that moves the live log away. */
  ghost predicate MovesAt(steps: seq<Step>, states: seq<System>, i: nat)
    requires IsRun(steps, states) && i < |steps|
  {
    RotatesAt(steps, states, i) && steps[i].env.renameOk
  }

  ghost predicate HasMoved(steps: seq<Step>, states: seq<System>, n: nat)
    requires IsRun(steps, states) && n <= |steps|
  {
    n > 0 && (HasMoved(steps, states, n - 1) || MovesAt(steps, states, n - 1))
  }

  /** Until a rotation moves it away, whatever renames fail, the live log just grows: nothing
      logged is lost, and the rotated file stays what it was. */
  lemma {:induction false} FailingRenamesLoseNothing(steps: seq<Step>, states: seq<System>, n: nat)
    requires IsRun(steps, states) && n <= |steps| && !HasMoved(steps, states, n)
    ensures states[n].bus.rotated == states[0].bus.rotated
    ensures states[n].bus.live == states[0].bus.live + Concat(Logged(steps, states, n))
  {
    if n == 0 {
      AppendNil(states[0].bus.live);
    } else {
      FailingRenamesLoseNothing(steps, states, n - 1);
      assert Linked(steps, states, n - 1);
      StepUnmoved(states[n - 1], steps[n - 1]);
      GrowsByLogged(states[0].bus.live, steps, states, n);
    }
  }

  lemma StepUnmoved(s: System, t: Step)
    requires Enabled(s, t) && !(t.Forward? && Rotates(s.bus, NextLine(s, t.p), t.env) && t.env.renameOk)
    ensures Apply(s, t).bus.rotated == s.bus.rotated
    ensures Apply(s, t).bus.live == if Appends(s, t) then s.bus.live + NextLine(s, t.p) else s.bus.live
  {
  }

  lemma GrowsByLogged(live: Bytes, steps: seq<Step>, states: seq<System>, n: nat)
    requires IsRun(steps, states) && 0 < n <= |steps|
    ensures var before := live + Concat(Logged(steps, states, n - 1));
      live + Concat(Logged(steps, states, n)) ==
      if Appends(states[n - 1], steps[n - 1]) then before + LineAt(steps, states, n - 1) else before
  {
    if Appends(states[n - 1], steps[n - 1]) {
      var line, logged := LineAt(steps, states, n - 1), Logged(steps, states, n - 1);
      ConcatSnoc(logged, line);
      Regroup(live, Concat(logged), line);
    }
  }

  /** A log whose size cannot be read is never rotated: while every `Stat` fails, all that is
      appended stays in the live log, and only shutdown ends logging. */
  lemma {:induction false} FailingStatsKeepLog(steps: seq<Step>, states: seq<System>, n: nat)
    requires IsRun(steps, states) && n <= |steps|
    requires forall i :: 0 <= i < n && steps[i].Forward? ==> !steps[i].env.statOk
    ensures !HasMoved(steps, states, n)
    ensures states[n].bus.log.Open? <==> forall i :: 0 <= i < n ==> !(steps[i].StopLog? && !steps[i].overtaken)
  {
    if n > 0 {
      FailingStatsKeepLog(steps, states, n - 1);
      assert Linked(steps, states, n - 1);
    }
  }

  /** A rotation moves more than the limit away, and the rotated file is replaced only by such. */
  lemma StepMoves(s: System, t: Step)
    requires Enabled(s, t)
    ensures Apply(s, t).bus.maxBytes == s.bus.maxBytes
    ensures if t.Forward? && Rotates(s.bus, NextLine(s, t.p), t.env) && t.env.renameOk then
              |Apply(s, t).bus.rotated| > s.bus.maxBytes
            else Apply(s, t).bus.rotated == s.bus.rotated
  {
  }

  lemma {:induction false} MovedExceedsLimit(steps: seq<Step>, states: seq<System>, n: nat)
    requires IsRun(steps, states) && n <= |steps|
    ensures states[n].bus.maxBytes == states[0].bus.maxBytes
    ensures HasMoved(steps, states, n) ==> |states[n].bus.rotated| > states[0].bus.maxBytes
  {
    if n > 0 {
      MovedExceedsLimit(steps, states, n - 1);
      assert Linked(steps, states, n - 1);
      StepMoves(states[n - 1], steps[n - 1]);
    }
  }

  /** `Stat` and rename succeed in every broadcast of the first `n` steps; a reopen may fail. */
  ghost predicate FileOpsSucceed(steps: seq<Step>, n: nat)
    requires n <= |steps|
  {
    forall i :: 0 <= i < n && steps[i].Forward? ==> steps[i].env.statOk && steps[i].env.renameOk
  }

  lemma StepBounds(s: System, t: Step)
    requires Enabled(s, t) && |s.bus.live| <= s.bus.maxBytes
    requires t.Forward? ==> t.env.statOk && t.env.renameOk
    ensures |Apply(s, t).bus.live| <= s.bus.maxBytes
    ensures Apply(s, t).bus.rotated != s.bus.rotated ==>
              |Apply(s, t).bus.rotated| <= s.bus.maxBytes + MAX_LINE_BYTES
    ensures t.Forward? && Rotates(s.bus, NextLine(s, t.p), t.env) ==>
              |Apply(s, t).bus.rotated| <= s.bus.maxBytes + MAX_LINE_BYTES
  {
  }

  /** With rotation succeeding, the live log ends every step within the limit. The rotated file is
      what an earlier run left until the first rotation; from then on it alone exceeds the limit,
      by at most one line. */
  lemma {:induction false} RotationBounds(steps: seq<Step>, states: seq<System>, n: nat)
    requires IsRun(steps, states) && n <= |steps| && FileOpsSucceed(steps, n)
    requires |states[0].bus.live| <= states[0].bus.maxBytes
    ensures var max := states[0].bus.maxBytes;
      && |states[n].bus.live| <= max
      && if HasMoved(steps, states, n) then max < |states[n].bus.rotated| <= max + MAX_LINE_BYTES
         else states[n].bus.rotated == states[0].bus.rotated
  {
    MovedExceedsLimit(steps, states, n);
    if n > 0 {
      RotationBounds(steps, states, n - 1);
      MovedExceedsLimit(steps, states, n - 1);
      assert Linked(steps, states, n - 1);
      StepMoves(states[n - 1], steps[n - 1]);
      StepBounds(states[n - 1], steps[n - 1]);
    }
  }

  lemma SuffixOfConcat(all: seq<Bytes>, k: nat, m: nat)
    requires k <= m <= |all|
    ensures Concat(all) == Concat(all[..k]) + (Concat(all[k..m]) + Concat(all[m..]))
  {
    var a, b, c := all[..k], all[k..m], all[m..];
    ConcatAppend(b, c);
    ConcatAppend(a, b + c);
    CutInThree(all, k, m);
  }

  lemma TailOfTail(s: Bytes, head: Bytes, tail: Bytes, k: nat)
    requires s == head + tail && k <= |tail|
    ensures tail == s[|s| - |tail|..] && tail[|tail| - k..] == s[|s| - k..]
  {
  }

  /** Retention, whatever fails and whatever an earlier run left: the two files are always the end
      of all ever logged. Until a rotation moves the log they hold everything, after that more
      than the limit; so the latest `maxBytes` bytes are always there. */
  lemma RecentBytesRetained(steps: seq<Step>, states: seq<System>, beforeRot: seq<Bytes>, beforeLive: seq<Bytes>,
                            n: nat)
    requires IsRun(steps, states) && n <= |steps|
    requires states[0].bus.rotated == Concat(beforeRot) && states[0].bus.live == Concat(beforeLive)
    ensures var max := states[0].bus.maxBytes;
      var kept := states[n].bus.rotated + states[n].bus.live;
      var ever := Concat(beforeRot + beforeLive + Logged(steps, states, n));
      var recent := if max < |ever| then max else |ever|;
      && |kept| <= |ever| && kept == ever[|ever| - |kept|..]
      && (if HasMoved(steps, states, n) then max < |kept| else kept == ever)
      && recent <= |kept| && kept[|kept| - recent..] == ever[|ever| - recent..]
  {
    var all := beforeRot + beforeLive + Logged(steps, states, n);
    var kept := states[n].bus.rotated + states[n].bus.live;
    var k, m := LogIsSuffix(steps, states, beforeRot, beforeLive, n);
    SuffixOfConcat(all, k, m);
    MovedExceedsLimit(steps, states, n);
    if !HasMoved(steps, states, n) {
      AllStillThere(steps, states, beforeRot, beforeLive, n);
    }
    var max, ever := states[0].bus.maxBytes, Concat(all);
    TailOfTail(ever, Concat(all[..k]), kept, if max < |ever| then max else |ever|);
  }

  lemma AllStillThere(steps: seq<Step>, states: seq<System>, beforeRot: seq<Bytes>, beforeLive: seq<Bytes>, n: nat)
    requires IsRun(steps, states) && n <= |steps| && !HasMoved(steps, states, n)
    requires states[0].bus.rotated == Concat(beforeRot) && states[0].bus.live == Concat(beforeLive)
    ensures states[n].bus.rotated + states[n].bus.live == Concat(beforeRot + beforeLive + Logged(steps, states, n))
  {
    var logged := Logged(steps, states, n);
    FailingRenamesLoseNothing(steps, states, n);
    ConcatAppend(beforeRot + beforeLive, logged);
    ConcatAppend(beforeRot, beforeLive);
    Regroup(Concat(beforeRot), Concat(beforeLive), Concat(logged));
  }
}
