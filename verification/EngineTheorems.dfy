/** Whole-run properties of the AI engine: sessions do not interfere, the last-score table
    is invisible, and nothing is isolated before its student is trained. */
module EngineTheorems {
  import opened Framing
  import opened Telemetry
  import opened Features
  import opened Scorer
  import opened Anomaly
  import opened Service
  import Bus

  // ----- from the bus to the engine -----------------------------------------------------

  /** End to end. An engine subscribed to the bus, however its reads are chunked and wherever the
      stream ends, ends up as if it had been handed a contiguous run of the broadcast lines,
      starting at the first one after its registration; handed all of them, if it is still
      subscribed and has read everything. */
  lemma EngineFollowsBus(steps: seq<Bus.Step>, states: seq<Bus.System>, i: nat, c: Bus.Conn, chunks: seq<Bytes>,
                         cfg: Config, parse: Bytes -> Option<Event>, clock: nat -> int) returns (m: nat)
    requires Bus.IsRun(steps, states) && i < |steps| && steps[i] == Bus.AcceptSub(c)
    requires c in states[|steps|].bus.wire && Concat(UntilEof(chunks)) <= states[|steps|].bus.wire[c]
    ensures var a, all := |Bus.Sent(steps, states, i)|, Bodies(Bus.Sent(steps, states, |steps|));
      && a + m <= |all|
      && Run(cfg, Parsed(Lines(Concat(UntilEof(chunks))), parse, clock)) ==
         Run(cfg, Parsed(all[a..a + m], parse, clock))
      && (Bus.Subscribed(states, |steps|, c) && Concat(UntilEof(chunks)) == states[|steps|].bus.wire[c] ==>
            a + m == |all|)
  {
    m := LinesFollowBus(steps, states, i, c, UntilEof(chunks));
  }

  lemma LinesFollowBus(steps: seq<Bus.Step>, states: seq<Bus.System>, i: nat, c: Bus.Conn, chunks: seq<Bytes>)
    returns (m: nat)
    requires Bus.IsRun(steps, states) && i < |steps| && steps[i] == Bus.AcceptSub(c)
    requires c in states[|steps|].bus.wire && Concat(chunks) <= states[|steps|].bus.wire[c]
    ensures var a, all := |Bus.Sent(steps, states, i)|, Bodies(Bus.Sent(steps, states, |steps|));
      && a + m <= |all| && Lines(Concat(chunks)) == all[a..a + m]
      && (Bus.Subscribed(states, |steps|, c) && Concat(chunks) == states[|steps|].bus.wire[c] ==> a + m == |all|)
  {
    Bus.EndToEnd(steps, states, i, c, chunks);
    m := |Lines(Concat(chunks))|;
    PrefixOfTail(Lines(Concat(chunks)), Bodies(Bus.Sent(steps, states, |steps|)), |Bus.Sent(steps, states, i)|);
  }

  lemma PrefixOfTail(part: seq<Bytes>, all: seq<Bytes>, a: nat)
    requires a <= |all| && part <= all[a..]
    ensures a + |part| <= |all| && part == all[a..a + |part|]
  {
  }

  // ----- non-interference ------------------------------------------------------------

  /** The item belongs to session `k`: one of its events, or training of its student. */
  predicate Concerns(item: Item, k: Key) {
    match item
    case Arrive(ev, _) => Tracked(ev) && KeyOf(ev) == k
    case Train(op) => op.student == k.0
  }

  function Only(items: seq<Item>, k: Key): seq<Item> {
    if items == [] then []
    else
      var before := Only(items[..|items| - 1], k);
      if Concerns(items[|items| - 1], k) then before + [items[|items| - 1]] else before
  }

  /** What is kept is what is there and is about this student, and for events this session. */
  lemma {:induction false} OnlyExactly(items: seq<Item>, k: Key, item: Item)
    ensures item in Only(items, k) <==>
            item in items && match item
                             case Arrive(ev, _) =>
                               ev.student == k.0 && ev.session == k.1 && k.0 != "" && k.1 != ""
                             case Train(op) => op.student == k.0
  {
    if items != [] {
      OnlyExactly(items[..|items| - 1], k, item);
      assert items == items[..|items| - 1] + [items[|items| - 1]];
    }
  }

  function OutputKey(o: Output): Key {
    o.key
  }

  function OutputsOf(outs: seq<Output>, k: Key): seq<Output> {
    if outs == [] then []
    else
      var before := OutputsOf(outs[..|outs| - 1], k);
      if OutputKey(outs[|outs| - 1]) == k then before + [outs[|outs| - 1]] else before
  }

  lemma {:induction false} OutputsOfAppend(a: seq<Output>, b: seq<Output>, k: Key)
    ensures OutputsOf(a + b, k) == OutputsOf(a, k) + OutputsOf(b, k)
  {
    if b == [] {
      assert a + b == a;
    } else {
      assert (a + b)[..|a + b| - 1] == a + b[..|b| - 1];
      OutputsOfAppend(a, b[..|b| - 1], k);
    }
  }

  lemma {:induction false} OutputsOfUniform(outs: seq<Output>, own: Key, k: Key)
    requires forall i :: 0 <= i < |outs| ==> OutputKey(outs[i]) == own
    ensures OutputsOf(outs, k) == if own == k then outs else []
  {
    if outs != [] {
      OutputsOfUniform(outs[..|outs| - 1], own, k);
      assert outs == outs[..|outs| - 1] + [outs[|outs| - 1]];
    }
  }

  ghost predicate SameStudent(l: Learner, l': Learner, student: string) {
    && BufferOf(l, student) == BufferOf(l', student)
    && CommittedOf(l, student) == CommittedOf(l', student)
    && (Trained(l, student) <==> Trained(l', student))
    && (Trained(l, student) ==> l.models[student] == l'.models[student])
  }

  /** The two engines agree on everything session `k` can observe. */
  ghost predicate SameSlice(s: Engine, t: Engine, k: Key) {
    && QueueOf(s.windows, k) == QueueOf(t.windows, k)
    && (k in s.last <==> k in t.last) && (k in s.last ==> s.last[k] == t.last[k])
    && SameStudent(s.learner, t.learner, k.0)
  }

  lemma OwnTraining(l: Learner, l': Learner, min: int, fit: Fit, op: TrainOp)
    requires SameStudent(l, l', op.student)
    ensures SameStudent(Taught(l, min, fit, op), Taught(l', min, fit, op), op.student)
  {
  }

  lemma ForeignTraining(l: Learner, min: int, fit: Fit, op: TrainOp, student: string)
    requires op.student != student
    ensures SameStudent(Taught(l, min, fit, op), l, student)
  {
  }

  lemma SameAssessment(cfg: Config, window: seq<Stamped>, l: Learner, l': Learner, ev: Event)
    requires SameStudent(l, l', ev.student)
    ensures Assess(cfg, window, l, ev) == Assess(cfg, window, l', ev)
  {
    assert forall v :: AnomalyScore(l, ev.student, v) == AnomalyScore(l', ev.student, v);
  }

  lemma OwnStep(cfg: Config, s: Engine, t: Engine, item: Item, k: Key)
    requires SameSlice(s, t, k) && Concerns(item, k)
    ensures SameSlice(Step(cfg, s, item).0, Step(cfg, t, item).0, k)
    ensures Step(cfg, s, item).1 == Step(cfg, t, item).1
  {
    match item
    case Train(op) => OwnTraining(s.learner, t.learner, cfg.min, cfg.fit, op);
    case Arrive(ev, _) =>
      var w, w' := Ingested(s.windows, cfg.window, ev), Ingested(t.windows, cfg.window, ev);
      assert QueueOf(w, k) == QueueOf(w', k);
      SameAssessment(cfg, QueueOf(w, k), s.learner, t.learner, ev);
  }

  lemma OutputsAreTheEvents(cfg: Config, s: Engine, item: Item, k: Key)
    ensures OutputsOf(Step(cfg, s, item).1, k) == if Concerns(item, k) then Step(cfg, s, item).1 else []
  {
    if item.Arrive? {
      OutputsOfUniform(Step(cfg, s, item).1, KeyOf(item.ev), k);
    }
  }

  lemma ForeignStep(cfg: Config, s: Engine, item: Item, k: Key)
    requires !Concerns(item, k)
    ensures SameSlice(Step(cfg, s, item).0, s, k)
  {
    if item.Train? {
      ForeignTraining(s.learner, cfg.min, cfg.fit, item.op, k.0);
    }
  }

  /** Non-interference. Whatever other sessions' events and other students' training are mixed
      in, the alerts and isolation calls of session `k`, and their order, are those of running
      the engine on `k`'s own items alone. */
  lemma {:induction false} NonInterference(cfg: Config, items: seq<Item>, k: Key)
    ensures SameSlice(Run(cfg, items).0, Run(cfg, Only(items, k)).0, k)
    ensures OutputsOf(Run(cfg, items).1, k) == Run(cfg, Only(items, k)).1
  {
    if items != [] {
      var before, item := items[..|items| - 1], items[|items| - 1];
      NonInterference(cfg, before, k);
      var s, t := Run(cfg, before).0, Run(cfg, Only(before, k)).0;
      OutputsOfAppend(Run(cfg, before).1, Step(cfg, s, item).1, k);
      OutputsAreTheEvents(cfg, s, item, k);
      if Concerns(item, k) {
        OwnStep(cfg, s, t, item, k);
        RunSnoc(cfg, Only(before, k), item);
      } else {
        ForeignStep(cfg, s, item, k);
      }
    }
  }

  // ----- the last-score table is invisible ----------------------------------------------

  /** One scored event of a run: when it came, what it was, what it was judged to be. */
  datatype Scored = Scored(now: int, ev: Event, a: Assessment)

  /** Reference: the state that judging needs, without any last-score table. */
  function JudgeState(cfg: Config, items: seq<Item>): (Windows, Learner) {
    if items == [] then (map[], Untaught)
    else
      var (w, l) := JudgeState(cfg, items[..|items| - 1]);
      match items[|items| - 1]
      case Arrive(ev, _) => (Ingested(w, cfg.window, ev), l)
      case Train(op) => (w, Taught(l, cfg.min, cfg.fit, op))
  }

  /** Reference: every tracked event of a run with its assessment, in order. */
  function ScoredEvents(cfg: Config, items: seq<Item>): seq<Scored> {
    if items == [] then []
    else
      var before := ScoredEvents(cfg, items[..|items| - 1]);
      match items[|items| - 1]
      case Train(_) => before
      case Arrive(ev, now) =>
        if !Tracked(ev) then before
        else
          var (w, l) := JudgeState(cfg, items);
          before + [Scored(now, ev, Assess(cfg, QueueOf(w, KeyOf(ev)), l, ev))]
  }

  function EmitAll(scored: seq<Scored>): seq<Output> {
    if scored == [] then []
    else
      var s := scored[|scored| - 1];
      EmitAll(scored[..|scored| - 1]) + Emit(s.now, s.ev, s.a)
  }

  /** Category of the most recent scored event of session `k`. */
  function LatestCategory(scored: seq<Scored>, k: Key): Option<Category> {
    if scored == [] then None
    else if KeyOf(scored[|scored| - 1].ev) == k then Some(scored[|scored| - 1].a.cat)
    else LatestCategory(scored[..|scored| - 1], k)
  }

  ghost predicate TableTells(last: map<Key, int>, scored: seq<Scored>, k: Key) {
    && (k in last <==> LatestCategory(scored, k).Some?)
    && (k in last ==> (last[k] < 20 <==> LatestCategory(scored, k).value.Normal?))
  }

  /** Transparency. The table's entry for a session is below 20 exactly when its most recent
      scored event was Normal; suppression skips only Normal events; so the output is, in
      order, one alert per non-Normal event, each Critical one followed by one isolation. */
  lemma {:induction false} DedupeIsTransparent(cfg: Config, items: seq<Item>)
    ensures var (st, outs) := Run(cfg, items);
      && (st.windows, st.learner) == JudgeState(cfg, items)
      && outs == EmitAll(ScoredEvents(cfg, items))
      && forall k :: TableTells(st.last, ScoredEvents(cfg, items), k)
  {
    if items != [] {
      var before, item := items[..|items| - 1], items[|items| - 1];
      DedupeIsTransparent(cfg, before);
      var (st, outs) := Run(cfg, before);
      var scored, scored' := ScoredEvents(cfg, before), ScoredEvents(cfg, items);
      var (st', more) := Step(cfg, st, item);
      if item.Arrive? && Tracked(item.ev) {
        var s := scored'[|scored|];
        assert scored' == scored + [s] && scored'[..|scored|] == scored;
        assert s.a == Assess(cfg, QueueOf(st'.windows, KeyOf(item.ev)), st'.learner, item.ev);
        forall k ensures TableTells(st'.last, scored', k) {
          assert TableTells(st.last, scored, k);
        }
      } else {
        assert outs + more == outs;
      }
    }
  }

  function AlertsIn(outs: seq<Output>): seq<Output> {
    if outs == [] then []
    else
      var before := AlertsIn(outs[..|outs| - 1]);
      if outs[|outs| - 1].Alert? then before + [outs[|outs| - 1]] else before
  }

  function IsolationsIn(outs: seq<Output>): seq<Key> {
    if outs == [] then []
    else
      var before := IsolationsIn(outs[..|outs| - 1]);
      if outs[|outs| - 1].Isolate? then before + [outs[|outs| - 1].key] else before
  }

  function AlertsDue(scored: seq<Scored>): seq<Output> {
    if scored == [] then []
    else
      var s, before := scored[|scored| - 1], AlertsDue(scored[..|scored| - 1]);
      if s.a.cat.Normal? then before else before + [AlertFor(s.now, s.ev, s.a)]
  }

  function IsolationsDue(scored: seq<Scored>): seq<Key> {
    if scored == [] then []
    else
      var s, before := scored[|scored| - 1], IsolationsDue(scored[..|scored| - 1]);
      if s.a.cat.Critical? then before + [KeyOf(s.ev)] else before
  }

  lemma {:induction false} SplitEmitted(scored: seq<Scored>)
    ensures AlertsIn(EmitAll(scored)) == AlertsDue(scored)
    ensures IsolationsIn(EmitAll(scored)) == IsolationsDue(scored)
  {
    if scored != [] {
      var s, before := scored[|scored| - 1], scored[..|scored| - 1];
      SplitEmitted(before);
      EmittedSplits(EmitAll(before), s);
    }
  }

  lemma SplitSnoc(outs: seq<Output>, o: Output)
    ensures AlertsIn(outs + [o]) == AlertsIn(outs) + if o.Alert? then [o] else []
    ensures IsolationsIn(outs + [o]) == IsolationsIn(outs) + if o.Isolate? then [o.key] else []
  {
    assert (outs + [o])[..|outs|] == outs;
  }

  lemma EmittedSplits(outs: seq<Output>, s: Scored)
    ensures var all := outs + Emit(s.now, s.ev, s.a);
      && AlertsIn(all) == AlertsIn(outs) + (if s.a.cat.Normal? then [] else [AlertFor(s.now, s.ev, s.a)])
      && IsolationsIn(all) == IsolationsIn(outs) + (if s.a.cat.Critical? then [KeyOf(s.ev)] else [])
  {
    if s.a.cat.Normal? {
      assert outs + Emit(s.now, s.ev, s.a) == outs;
    } else {
      var alert, call := AlertFor(s.now, s.ev, s.a), Isolate(KeyOf(s.ev));
      SplitSnoc(outs, alert);
      SplitSnoc(outs + [alert], call);
      assert outs + [alert, call] == outs + [alert] + [call];
      assert Emit(s.now, s.ev, s.a) == if s.a.cat.Critical? then [alert, call] else [alert];
    }
  }

  /** The alert log is exactly the non-Normal events in order; the isolation calls are exactly
      the Critical ones in order. */
  lemma AlertLogExact(cfg: Config, items: seq<Item>)
    ensures AlertsIn(Run(cfg, items).1) == AlertsDue(ScoredEvents(cfg, items))
    ensures IsolationsIn(Run(cfg, items).1) == IsolationsDue(ScoredEvents(cfg, items))
  {
    DedupeIsTransparent(cfg, items);
    SplitEmitted(ScoredEvents(cfg, items));
  }

  /** Every isolation call comes right after the Critical alert of the same session, and every
      Critical alert is followed by one. */
  lemma {:induction false} IsolationFollowsAlert(cfg: Config, items: seq<Item>)
    ensures IsolationsPaired(Run(cfg, items).1)
  {
    if items != [] {
      var before, item := items[..|items| - 1], items[|items| - 1];
      IsolationFollowsAlert(cfg, before);
      var (st, outs) := Run(cfg, before);
      var more := Step(cfg, st, item).1;
      StepPairs(cfg, st, item);
      assert more == [] ==> outs + more == outs;
    }
  }

  ghost predicate IsolationsPaired(outs: seq<Output>) {
    && (forall i :: 0 <= i < |outs| && outs[i].Isolate? ==> i > 0 && IsCriticalFor(outs[i - 1], outs[i].key))
    && forall i :: 0 <= i < |outs| && IsCriticalFor(outs[i], outs[i].key) ==>
         i + 1 < |outs| && outs[i + 1] == Isolate(outs[i].key)
  }

  predicate IsCriticalFor(o: Output, k: Key) {
    o.Alert? && o.cat.Critical? && o.key == k
  }

  lemma StepPairs(cfg: Config, st: Engine, item: Item)
    ensures IsolationsPaired(Step(cfg, st, item).1)
  {
  }

  // ----- learning mode ---------------------------------------------------------------

  function TrainOps(items: seq<Item>): seq<TrainOp> {
    if items == [] then []
    else
      var before := TrainOps(items[..|items| - 1]);
      match items[|items| - 1]
      case Arrive(_, _) => before
      case Train(op) => before + [op]
  }

  lemma {:induction false} LearnerOfRun(cfg: Config, items: seq<Item>)
    ensures Run(cfg, items).0.learner == LearnerAfter(cfg.min, cfg.fit, TrainOps(items))
  {
    if items != [] {
      var before, item := items[..|items| - 1], items[|items| - 1];
      LearnerOfRun(cfg, before);
      if item.Train? {
        assert TrainOps(items)[..|TrainOps(before)|] == TrainOps(before);
      }
    }
  }

  /** Calibrated classifiers answer with a confidence in [0, 1]. */
  ghost predicate Calibrated(classify: string -> Verdict) {
    forall cmd :: 0.0 <= classify(cmd).conf <= 1.0
  }

  lemma UntrainedAssessment(cfg: Config, window: seq<Stamped>, learner: Learner, ev: Event)
    requires !Trained(learner, ev.student)
    ensures !Assess(cfg, window, learner, ev).cat.Critical?
    ensures Calibrated(cfg.classify) ==> Assess(cfg, window, learner, ev).cat.Rank() <= Suspicious.Rank()
  {
    var verdict := VerdictOn(cfg, ev);
    if Calibrated(cfg.classify) {
      assert 0.0 <= verdict.conf <= 1.0;
      IntentAloneBounded(verdict.intent, verdict.conf);
      ScoreMonotone(0.0, verdict.intent, verdict.conf, IsScopeBreach(ev, cfg.scope),
                    0.0, verdict.intent, verdict.conf, true);
    }
  }

  ghost predicate Harmless(cfg: Config, o: Output) {
    && o.Alert? && !o.cat.Critical? && !cfg.lite && IsCommand(o.ev)
    && (Calibrated(cfg.classify) ==> o.cat.Rank() <= Suspicious.Rank())
  }

  /** The event has a command to classify. */
  predicate IsCommand(ev: Event) {
    (ev.kind.ShellCmd? || ev.kind.ToolExec?) && CommandOf(ev) != ""
  }

  lemma ScoredWithoutModel(cfg: Config, window: seq<Stamped>, learner: Learner, ev: Event)
    requires cfg.lite || !Trained(learner, ev.student)
    ensures var v := VerdictOn(cfg, ev);
      var a := Assess(cfg, window, learner, ev);
      (a.cat, a.score) == Score(0.0, v.intent, v.conf, IsScopeBreach(ev, cfg.scope))
  {
  }

  /** Without a trained model, or in lite mode, what makes an event an alert is exactly the weight
      of its command's intent, helped by a breach. */
  lemma AlertsWithoutModelExactly(cfg: Config, window: seq<Stamped>, learner: Learner, ev: Event)
    requires cfg.lite || !Trained(learner, ev.student)
    ensures !Assess(cfg, window, learner, ev).cat.Normal? <==>
            Weighty(VerdictOn(cfg, ev).intent, VerdictOn(cfg, ev).conf, IsScopeBreach(ev, cfg.scope))
  {
    ScoredWithoutModel(cfg, window, learner, ev);
    AlertWithoutAnomaly(VerdictOn(cfg, ev).intent, VerdictOn(cfg, ev).conf, IsScopeBreach(ev, cfg.scope));
  }

  /** So an alert needs a command: a breach alone scores 10. */
  lemma OnlyCommandsAlert(cfg: Config, window: seq<Stamped>, learner: Learner, ev: Event)
    requires cfg.lite || (!Trained(learner, ev.student) && !IsCommand(ev))
    ensures Assess(cfg, window, learner, ev).cat.Normal?
    ensures Assess(cfg, window, learner, ev).score == if IsScopeBreach(ev, cfg.scope) then 10 else 0
  {
    ScoredWithoutModel(cfg, window, learner, ev);
    BreachAlone(IsScopeBreach(ev, cfg.scope));
  }

  /** Learning mode. In any wiring, while no commit has trained a student, none of its sessions
      is isolated, only commands raise alerts and, with a calibrated classifier, none of these
      exceeds Suspicious. */
  lemma {:induction false} NoIsolationBeforeTraining(cfg: Config, items: seq<Item>, student: string)
    requires forall i: nat :: !TrainingCommit(cfg.min, TrainOps(items), student, i)
    ensures forall i :: 0 <= i < |Run(cfg, items).1| && OutputKey(Run(cfg, items).1[i]).0 == student ==>
      Harmless(cfg, Run(cfg, items).1[i])
  {
    if items != [] {
      var before, item := items[..|items| - 1], items[|items| - 1];
      var ops, ops' := TrainOps(before), TrainOps(items);
      TrainedExactly(cfg.min, cfg.fit, ops', student);
      assert ops <= ops' && ops'[..|ops|] == ops;
      if Trained(LearnerAfter(cfg.min, cfg.fit, ops), student) {
        TrainedForGood(cfg.min, cfg.fit, ops', |ops|, student);
        assert false;
      }
      TrainedExactly(cfg.min, cfg.fit, ops, student);
      NoIsolationBeforeTraining(cfg, before, student);
      LearnerOfRun(cfg, before);
      UntrainedStepIsHarmless(cfg, Run(cfg, before).0, item, student);
    }
  }

  lemma UntrainedStepIsHarmless(cfg: Config, st: Engine, item: Item, student: string)
    requires !Trained(st.learner, student)
    ensures forall i :: 0 <= i < |Step(cfg, st, item).1| && OutputKey(Step(cfg, st, item).1[i]).0 == student ==>
      Harmless(cfg, Step(cfg, st, item).1[i])
  {
    if item.Arrive? && Tracked(item.ev) && item.ev.student == student {
      var w := Ingested(st.windows, cfg.window, item.ev);
      UntrainedAssessment(cfg, QueueOf(w, KeyOf(item.ev)), st.learner, item.ev);
      if cfg.lite || !IsCommand(item.ev) {
        OnlyCommandsAlert(cfg, QueueOf(w, KeyOf(item.ev)), st.learner, item.ev);
      }
    }
  }

  lemma HandledNext(cfg: Config, items: seq<Item>, ev: Event, now: int)
    requires Tracked(ev)
    ensures var (st, outs) := Run(cfg, items);
      var a := Assess(cfg, QueueOf(Ingested(st.windows, cfg.window, ev), KeyOf(ev)), st.learner, ev);
      !a.cat.Normal? ==> Run(cfg, items + [Arrive(ev, now)]).1 == outs + Emit(now, ev, a)
  {
    RunSnoc(cfg, items, Arrive(ev, now));
  }

  /** In any run, before its student is trained, a command of a session whose classified weight is
      at least 0.65 raises an alert at once, with these fields. */
  lemma UntrainedCommandAlerts(cfg: Config, items: seq<Item>, ev: Event, now: int)
    requires !cfg.lite && ev.student != "" && ev.session != ""
    requires (ev.kind == ShellCmd || ev.kind == ToolExec) && ev.cmd != ""
    requires forall i: nat :: !TrainingCommit(cfg.min, TrainOps(items), ev.student, i)
    requires LabelRisk(cfg.classify(ev.cmd).intent) * cfg.classify(ev.cmd).conf >= 0.65
    ensures var outs, outs' := Run(cfg, items).1, Run(cfg, items + [Arrive(ev, now)]).1;
      |outs'| == |outs| + 1 && outs <= outs' && Reports(outs'[|outs|], cfg, ev, now, 0.0)
  {
    var st := Run(cfg, items).0;
    LearnerOfRun(cfg, items);
    TrainedExactly(cfg.min, cfg.fit, TrainOps(items), ev.student);
    HeavyCommand(cfg, QueueOf(Ingested(st.windows, cfg.window, ev), KeyOf(ev)), st.learner, ev, now);
    HandledNext(cfg, items, ev, now);
  }

  lemma HeavyCommand(cfg: Config, window: seq<Stamped>, learner: Learner, ev: Event, now: int)
    requires !cfg.lite && (ev.kind == ShellCmd || ev.kind == ToolExec) && ev.cmd != ""
    requires !Trained(learner, ev.student)
    requires LabelRisk(cfg.classify(ev.cmd).intent) * cfg.classify(ev.cmd).conf >= 0.65
    ensures var a := Assess(cfg, window, learner, ev);
      && !a.cat.Normal? && Emit(now, ev, a) == [AlertFor(now, ev, a)]
      && Reports(AlertFor(now, ev, a), cfg, ev, now, 0.0)
  {
    CommandsAreClassified(cfg, window, learner, ev);
    assert Assess(cfg, window, learner, ev).verdict == VerdictOn(cfg, ev) == cfg.classify(ev.cmd);
    AlertsWithoutModelExactly(cfg, window, learner, ev);
    AnomalyOfWindow(cfg, window, learner, ev);
    UntrainedAssessment(cfg, window, learner, ev);
    AlertReports(cfg, window, learner, ev, now);
  }

  /** `o` is the alert about the command event `ev`, raised at `now` on this anomaly. */
  ghost predicate Reports(o: Output, cfg: Config, ev: Event, now: int, anomaly: real) {
    var v, breach := cfg.classify(ev.cmd), IsScopeBreach(ev, cfg.scope);
    && o.Alert? && o.now == now && o.key == (ev.student, ev.session) && o.ev == ev
    && o.intent == v.intent && o.reason == v.reason && o.breach == breach
    && (o.cat, o.score) == Score(anomaly, v.intent, v.conf, breach)
    && -0.0005 <= o.anomaly - anomaly <= 0.0005
    && -0.0005 <= o.conf - v.conf <= 0.0005
  }

  lemma AlertReports(cfg: Config, window: seq<Stamped>, learner: Learner, ev: Event, now: int)
    requires !cfg.lite && (ev.kind == ShellCmd || ev.kind == ToolExec) && ev.cmd != ""
    ensures var a := Assess(cfg, window, learner, ev);
      Reports(AlertFor(now, ev, a), cfg, ev, now, a.anomaly)
  {
    var a := Assess(cfg, window, learner, ev);
    Round3Near(a.anomaly);
    Round3Near(a.verdict.conf);
  }

  /** In any run, once its student is trained, a malicious command out of scope in a window whose raw
      score is above 0.55 raises a Critical alert and isolates its session at once. */
  lemma CriticalIsolates(cfg: Config, items: seq<Item>, ev: Event, now: int, raw: real)
    requires !cfg.lite && ev.student != "" && ev.session != ""
    requires (ev.kind == ShellCmd || ev.kind == ToolExec) && ev.cmd != ""
    requires cfg.classify(ev.cmd).intent in {EXPLOIT, EXFIL, LATERAL} && cfg.classify(ev.cmd).conf >= 0.6
    requires IsScopeBreach(ev, cfg.scope)
    requires var st := Run(cfg, items).0;
      && ev.student in st.learner.models && raw > 0.55
      && raw == st.learner.models[ev.student](VecOf(Summary(
                  QueueOf(Ingested(st.windows, cfg.window, ev), (ev.student, ev.session)))))
    ensures var outs, outs' := Run(cfg, items).1, Run(cfg, items + [Arrive(ev, now)]).1;
      && |outs'| == |outs| + 2 && outs <= outs'
      && outs'[|outs|].Alert? && outs'[|outs|].cat.Critical? && outs'[|outs|].score >= 80
      && outs'[|outs|].key == (ev.student, ev.session)
      && outs'[|outs| + 1] == Isolate((ev.student, ev.session))
  {
    var (st, outs) := Run(cfg, items);
    var w := QueueOf(Ingested(st.windows, cfg.window, ev), KeyOf(ev));
    CommandsAreClassified(cfg, w, st.learner, ev);
    AnomalyOfWindow(cfg, w, st.learner, ev);
    HandledNext(cfg, items, ev, now);
    AlertReports(cfg, w, st.learner, ev, now);
  }

  /** Lite mode switches off both signals, not the classifier alone: no alert is ever raised. */
  lemma {:induction false} LiteNeverAlerts(cfg: Config, items: seq<Item>)
    requires cfg.lite
    ensures Run(cfg, items).1 == []
  {
    if items != [] {
      var before, item := items[..|items| - 1], items[|items| - 1];
      LiteNeverAlerts(cfg, before);
      var st := Run(cfg, before).0;
      if item.Arrive? && Tracked(item.ev) {
        var w := Ingested(st.windows, cfg.window, item.ev);
        OnlyCommandsAlert(cfg, QueueOf(w, KeyOf(item.ev)), st.learner, item.ev);
      }
    }
  }

  /** As the service is wired it never trains, so it never isolates anyone. */
  lemma {:induction false} ShippedWiringNeverIsolates(cfg: Config, items: seq<Item>)
    requires forall i :: 0 <= i < |items| ==> items[i].Arrive?
    ensures IsolationsIn(Run(cfg, items).1) == []
  {
    if items != [] {
      var before, item := items[..|items| - 1], items[|items| - 1];
      ShippedWiringNeverIsolates(cfg, before);
      NothingTaught(items);
      NothingTaught(before);
      LearnerOfRun(cfg, before);
      var (st, outs) := Run(cfg, before);
      if Tracked(item.ev) {
        var w := Ingested(st.windows, cfg.window, item.ev);
        UntrainedAssessment(cfg, QueueOf(w, KeyOf(item.ev)), st.learner, item.ev);
      }
      var more := Step(cfg, st, item).1;
      if more == [] {
        assert outs + more == outs;
      } else {
        assert |more| == 1 && (outs + more)[..|outs|] == outs;
      }
    }
  }

  lemma {:induction false} NothingTaught(items: seq<Item>)
    requires forall i :: 0 <= i < |items| ==> items[i].Arrive?
    ensures TrainOps(items) == []
  {
    if items != [] {
      NothingTaught(items[..|items| - 1]);
    }
  }
}
