/** The per-student anomaly model: a learning phase, then a score in [0, 1]. Fitting is an
    arbitrary function from baseline vectors to a model; a model is any function to a real. */
module Anomaly {
  import Features
  import opened Scorer

  type Vec = seq<real>
  type Model = Vec -> real
  type Fit = seq<Vec> -> Model

  /** A committed session retrains only with this many baseline vectors. */
  const MIN_VECTORS := 10

  function VecOf(f: Features.Feats): Vec {
    [f.execCount as real, f.sudoTries as real, f.bytesOut as real, f.bytesIn as real,
     f.uniqueDstIps as real, f.uniqueDstPorts as real, f.sensitiveReads as real, f.usbInserts as real]
  }

  datatype Learner = Learner(buffers: map<string, seq<Vec>>, models: map<string, Model>, committed: map<string, nat>)

  const Untaught := Learner(map[], map[], map[])

  function BufferOf(l: Learner, student: string): seq<Vec> {
    if student in l.buffers then l.buffers[student] else []
  }

  function CommittedOf(l: Learner, student: string): nat {
    if student in l.committed then l.committed[student] else 0
  }

  predicate Trained(l: Learner, student: string) {
    student in l.models
  }

  function Observed(l: Learner, student: string, v: Vec): Learner {
    l.(buffers := l.buffers[student := BufferOf(l, student) + [v]])
  }

  function Committed(l: Learner, min: int, fit: Fit, student: string): Learner {
    var l1 := l.(committed := l.committed[student := CommittedOf(l, student) + 1]);
    if CommittedOf(l1, student) >= min && |BufferOf(l, student)| >= MIN_VECTORS then
      l1.(models := l1.models[student := fit(BufferOf(l, student))])
    else l1
  }

  /** The raw score, negated by the source so that higher is more anomalous, rescaled and clamped. */
  function AnomalyScore(l: Learner, student: string, v: Vec): (a: real)
    ensures 0.0 <= a <= 1.0
    ensures !Trained(l, student) ==> a == 0.0
  {
    if student !in l.models then 0.0
    else RMin(1.0, RMax(0.0, (l.models[student](v) + 0.5) / 1.5))
  }

  /** The raw scores that matter: above 0.55 the anomaly is one of the signals for Critical, from
      -0.5 down it is nothing, from 1 up it is full. */
  lemma RawExactly(l: Learner, student: string, v: Vec)
    requires Trained(l, student)
    ensures AnomalyScore(l, student, v) > 0.7 <==> l.models[student](v) > 0.55
    ensures AnomalyScore(l, student, v) == 0.0 <==> l.models[student](v) <= -0.5
    ensures AnomalyScore(l, student, v) == 1.0 <==> l.models[student](v) >= 1.0
  {
  }

  /** Between these ends a higher raw score is a higher anomaly, in proportion. */
  lemma RawInProportion(l: Learner, student: string, v: Vec, v': Vec)
    requires Trained(l, student)
    requires -0.5 <= l.models[student](v) <= 1.0 && -0.5 <= l.models[student](v') <= 1.0
    ensures 1.5 * (AnomalyScore(l, student, v') - AnomalyScore(l, student, v)) ==
            l.models[student](v') - l.models[student](v)
    ensures AnomalyScore(l, student, v) < AnomalyScore(l, student, v') <==>
            l.models[student](v) < l.models[student](v')
  {
  }

  /** The model sees all eight features, in the order of their names. */
  lemma VectorTellsAll(f: Features.Feats, g: Features.Feats)
    ensures |VecOf(f)| == 8
    ensures VecOf(f) == VecOf(g) <==> f == g
    ensures VecOf(f)[0].Floor == f.execCount && VecOf(f)[1].Floor == f.sudoTries
    ensures VecOf(f)[2].Floor == f.bytesOut && VecOf(f)[3].Floor == f.bytesIn
    ensures VecOf(f)[4].Floor == f.uniqueDstIps && VecOf(f)[5].Floor == f.uniqueDstPorts
    ensures VecOf(f)[6].Floor == f.sensitiveReads && VecOf(f)[7].Floor == f.usbInserts
  {
    if VecOf(f) == VecOf(g) {
      assert forall k :: 0 <= k < 8 ==> VecOf(f)[k].Floor == VecOf(g)[k].Floor;
      assert f.execCount == VecOf(f)[0].Floor == g.execCount;
      assert f.sudoTries == VecOf(f)[1].Floor == g.sudoTries;
      assert f.bytesOut == VecOf(f)[2].Floor == g.bytesOut;
      assert f.bytesIn == VecOf(f)[3].Floor == g.bytesIn;
      assert f.uniqueDstIps == VecOf(f)[4].Floor == g.uniqueDstIps;
      assert f.uniqueDstPorts == VecOf(f)[5].Floor == g.uniqueDstPorts;
      assert f.sensitiveReads == VecOf(f)[6].Floor == g.sensitiveReads;
      assert f.usbInserts == VecOf(f)[7].Floor == g.usbInserts;
    }
  }

  class AnomalyModel {
    const min: int
    const fit: Fit
    var buffers: map<string, seq<Vec>>
    var models: map<string, Model>
    var sessionsCommitted: map<string, nat>

    ghost function View(): Learner
      reads this
    {
      Learner(buffers, models, sessionsCommitted)
    }

    constructor (min: int, fit: Fit)
      ensures this.min == min && this.fit == fit && View() == Untaught
    {
      this.min, this.fit := min, fit;
      buffers, models, sessionsCommitted := map[], map[], map[];
    }

    method Score(student: string, feats: Features.Feats, isBaseline: bool) returns (a: real)
      modifies this
      ensures isBaseline ==> a == 0.0 && View() == Observed(old(View()), student, VecOf(feats))
      ensures !isBaseline ==> a == AnomalyScore(View(), student, VecOf(feats)) && View() == old(View())
    {
      var v := VecOf(feats);
      if isBaseline {
        buffers := buffers[student := (if student in buffers then buffers[student] else []) + [v]];
        return 0.0;
      }
      if student !in models {
        return 0.0;
      }
      var raw := models[student](v);
      a := RMin(1.0, RMax(0.0, (raw + 0.5) / 1.5));
    }

    method CommitBaselineSession(student: string)
      modifies this
      ensures View() == Committed(old(View()), min, fit, student)
    {
      var n := if student in sessionsCommitted then sessionsCommitted[student] else 0;
      sessionsCommitted := sessionsCommitted[student := n + 1];
      if sessionsCommitted[student] >= min {
        var x := if student in buffers then buffers[student] else [];
        if |x| >= MIN_VECTORS {
          models := models[student := fit(x)];
        }
      }
    }

    method IsTrained(student: string) returns (b: bool)
      ensures b <==> Trained(View(), student)
    {
      b := student in models;
    }
  }

  // ----- learning over whole histories ------------------------------------------------

  datatype TrainOp =
    | Observe(student: string, v: Vec)
    | Commit(student: string)

  function Taught(l: Learner, min: int, fit: Fit, op: TrainOp): Learner {
    match op
    case Observe(student, v) => Observed(l, student, v)
    case Commit(student) => Committed(l, min, fit, student)
  }

  function LearnerAfter(min: int, fit: Fit, ops: seq<TrainOp>): Learner {
    if ops == [] then Untaught
    else Taught(LearnerAfter(min, fit, ops[..|ops| - 1]), min, fit, ops[|ops| - 1])
  }

  function Vectors(ops: seq<TrainOp>, student: string): seq<Vec> {
    if ops == [] then []
    else
      var before := Vectors(ops[..|ops| - 1], student);
      match ops[|ops| - 1]
      case Observe(s, v) => if s == student then before + [v] else before
      case Commit(_) => before
  }

  function Commits(ops: seq<TrainOp>, student: string): nat {
    if ops == [] then 0
    else Commits(ops[..|ops| - 1], student) + if ops[|ops| - 1] == Commit(student) then 1 else 0
  }

  /** The `i`-th operation is a commit for `student`, at least the `min`-th one, that finds
      enough baseline vectors. */
  ghost predicate TrainingCommit(min: int, ops: seq<TrainOp>, student: string, i: nat) {
    && i < |ops| && ops[i] == Commit(student)
    && Commits(ops[..i + 1], student) >= min
    && |Vectors(ops[..i], student)| >= 10
  }

  lemma {:induction false} LearnerCounts(min: int, fit: Fit, ops: seq<TrainOp>, student: string)
    ensures BufferOf(LearnerAfter(min, fit, ops), student) == Vectors(ops, student)
    ensures CommittedOf(LearnerAfter(min, fit, ops), student) == Commits(ops, student)
  {
    if ops != [] {
      LearnerCounts(min, fit, ops[..|ops| - 1], student);
    }
  }

  lemma TrainingCommitOfPrefix(min: int, ops: seq<TrainOp>, student: string, i: nat)
    requires ops != [] && i < |ops| - 1
    ensures TrainingCommit(min, ops, student, i) <==> TrainingCommit(min, ops[..|ops| - 1], student, i)
  {
    var before := ops[..|ops| - 1];
    assert ops[..i] == before[..i] && ops[..i + 1] == before[..i + 1];
  }

  /** Whether the operation just made trains its student. */
  lemma LastCommitTrains(min: int, fit: Fit, ops: seq<TrainOp>, student: string)
    requires ops != []
    ensures var n := |ops| - 1;
      var l, l' := LearnerAfter(min, fit, ops[..n]), LearnerAfter(min, fit, ops);
      if TrainingCommit(min, ops, student, n) then
        Trained(l', student) && l'.models[student] == fit(Vectors(ops[..n], student))
      else
        Trained(l', student) == Trained(l, student) && (Trained(l, student) ==> l'.models[student] == l.models[student])
  {
    LearnerCounts(min, fit, ops[..|ops| - 1], student);
    assert ops[..|ops| - 1 + 1] == ops;
  }

  /** A student is trained exactly when some commit qualified ... */
  lemma {:induction false} TrainedExactly(min: int, fit: Fit, ops: seq<TrainOp>, student: string)
    ensures Trained(LearnerAfter(min, fit, ops), student) <==> exists i: nat :: TrainingCommit(min, ops, student, i)
  {
    if ops != [] {
      var n := |ops| - 1;
      TrainedExactly(min, fit, ops[..n], student);
      LastCommitTrains(min, fit, ops, student);
      forall i: nat | i < n
        ensures TrainingCommit(min, ops, student, i) <==> TrainingCommit(min, ops[..n], student, i)
      {
        TrainingCommitOfPrefix(min, ops, student, i);
      }
    }
  }

  /** ... and the model is the one fitted, at the last such commit, on the vectors observed
      for that student before it. No other student's operations matter. */
  lemma {:induction false} ModelIsLastFit(min: int, fit: Fit, ops: seq<TrainOp>, student: string, i: nat)
    requires LastTrainingCommit(min, ops, student, i)
    ensures Trained(LearnerAfter(min, fit, ops), student)
    ensures LearnerAfter(min, fit, ops).models[student] == fit(Vectors(ops[..i], student))
  {
    var n := |ops| - 1;
    LastCommitTrains(min, fit, ops, student);
    if i < n {
      LastTrainingOfPrefix(min, ops, student, i);
      ModelIsLastFit(min, fit, ops[..n], student, i);
      assert ops[..n][..i] == ops[..i];
    }
  }

  ghost predicate LastTrainingCommit(min: int, ops: seq<TrainOp>, student: string, i: nat) {
    && TrainingCommit(min, ops, student, i)
    && forall j: nat :: TrainingCommit(min, ops, student, j) ==> j <= i
  }

  lemma LastTrainingOfPrefix(min: int, ops: seq<TrainOp>, student: string, i: nat)
    requires i < |ops| - 1 && LastTrainingCommit(min, ops, student, i)
    ensures LastTrainingCommit(min, ops[..|ops| - 1], student, i)
    ensures !TrainingCommit(min, ops, student, |ops| - 1)
  {
    TrainingCommitOfPrefix(min, ops, student, i);
    var before := ops[..|ops| - 1];
    forall j: nat | TrainingCommit(min, before, student, j) ensures j <= i {
      TrainingCommitOfPrefix(min, ops, student, j);
    }
  }

  /** Training never reverts. */
  lemma {:induction false} TrainedForGood(min: int, fit: Fit, ops: seq<TrainOp>, n: nat, student: string)
    requires n <= |ops| && Trained(LearnerAfter(min, fit, ops[..n]), student)
    ensures Trained(LearnerAfter(min, fit, ops), student)
  {
    if n < |ops| {
      var before := ops[..|ops| - 1];
      assert before[..n] == ops[..n];
      TrainedForGood(min, fit, before, n, student);
    } else {
      assert ops[..n] == ops;
    }
  }
}
