/** The AI engine loop: a byte stream is cut into lines, parsed, windowed, scored,
    deduplicated by the last score, and turned into alerts and isolation calls. */
module Service {
  import opened Framing
  import opened Telemetry
  import opened Features
  import opened Scorer
  import opened Anomaly

  /** The classifier's answer: any function of the command. */
  datatype Verdict = Verdict(intent: Label, conf: real, reason: string)

  datatype Scope = Scope(tools: seq<string>, ports: seq<int>)

  /** An empty list restricts nothing. A flow without a port is never a breach; a tool
      execution without a tool name is one as soon as tools are restricted. */
  function IsScopeBreach(ev: Event, scope: Scope): (breach: bool)
    ensures breach ==> ev.kind.ToolExec? || ev.kind.NetFlow?
    ensures ev.kind.ToolExec? && scope.tools == [] ==> !breach
    ensures ev.kind.NetFlow? && (scope.ports == [] || ev.dport.None?) ==> !breach
    ensures forall t :: t in scope.tools && ev.kind.ToolExec? && ev.tool == Some(t) ==> !breach
    ensures forall p :: p in scope.ports && ev.kind.NetFlow? && ev.dport == Some(p) ==> !breach
    ensures !breach && ev.kind.ToolExec? && scope.tools != [] ==> exists t :: t in scope.tools && ev.tool == Some(t)
    ensures !breach && ev.kind.NetFlow? && scope.ports != [] && ev.dport.Some? ==> ev.dport.value in scope.ports
  {
    if ev.kind.ToolExec? && scope.tools != [] && (ev.tool.None? || ev.tool.value !in scope.tools) then true
    else if ev.kind.NetFlow? && ev.dport.Some? && scope.ports != [] && ev.dport.value !in scope.ports then true
    else false
  }

  /** The arguments joined by single spaces; empty only for no argument or one empty one. */
  function JoinArgs(argv: seq<string>): (cmd: string)
    ensures cmd == "" <==> argv == [] || argv == [""]
  {
    if argv == [] then ""
    else if |argv| == 1 then argv[0]
    else argv[0] + " " + JoinArgs(argv[1..])
  }

  /** One space between any two parts, nothing added to a single one. */
  lemma {:induction false} JoinOfParts(a: seq<string>, b: seq<string>)
    requires a != [] && b != []
    ensures JoinArgs(a + b) == JoinArgs(a) + " " + JoinArgs(b)
    ensures |a| == 1 ==> JoinArgs(a) == a[0]
  {
    assert (a + b)[1..] == a[1..] + b;
    if |a| > 1 {
      JoinOfParts(a[1..], b);
      JoinTexts(a[0], JoinArgs(a[1..]), JoinArgs(b));
    }
  }

  lemma JoinTexts(x: string, y: string, z: string)
    ensures x + " " + (y + " " + z) == (x + " " + y) + " " + z
  {
  }

  function CommandOf(ev: Event): string {
    if ev.cmd != "" then ev.cmd else JoinArgs(ev.argv)
  }

  datatype Config = Config(
    window: nat, scope: Scope, lite: bool,
    min: int, fit: Fit,
    classify: string -> Verdict)

  datatype Engine = Engine(windows: Windows, last: map<Key, int>, learner: Learner)

  const Fresh := Engine(map[], map[], Untaught)

  /** What one event is judged to be. */
  datatype Assessment = Assessment(
    cat: Category, score: int, anomaly: real, verdict: Verdict, breach: bool)

  datatype Output =
    | Alert(now: int, key: Key, cat: Category, score: int, anomaly: real, intent: Label, conf: real,
            breach: bool, reason: string, ev: Event)
    | Isolate(key: Key)

  /** Three decimals, as in the alert record. */
  function Round3(x: real): real {
    Round(x * 1000.0) as real / 1000.0
  }

  /** The nearest multiple of a thousandth. */
  lemma Round3Near(x: real)
    ensures -0.0005 <= x - Round3(x) <= 0.0005
    ensures (Round3(x) * 1000.0).Floor as real == Round3(x) * 1000.0
  {
    assert Round3(x) * 1000.0 == Round(x * 1000.0) as real;
  }

  function VerdictOn(cfg: Config, ev: Event): Verdict {
    if !cfg.lite && (ev.kind.ShellCmd? || ev.kind.ToolExec?) && CommandOf(ev) != "" then cfg.classify(CommandOf(ev))
    else Verdict(UNKNOWN, 0.0, "")
  }

  /** Judges `ev` given its session's window, `ev` included, and the models so far. */
  function Assess(cfg: Config, window: seq<Stamped>, learner: Learner, ev: Event): Assessment {
    var anomaly := if cfg.lite then 0.0 else AnomalyScore(learner, ev.student, VecOf(Summary(window)));
    var verdict := VerdictOn(cfg, ev);
    var breach := IsScopeBreach(ev, cfg.scope);
    var (cat, score) := Score(anomaly, verdict.intent, verdict.conf, breach);
    Assessment(cat, score, anomaly, verdict, breach)
  }

  /** A shell command or tool execution is classified by its command text, or if it has none by its
      arguments; lite mode, other events, and events without words are not classified. */
  lemma CommandsAreClassified(cfg: Config, window: seq<Stamped>, learner: Learner, ev: Event)
    ensures var v, command := Assess(cfg, window, learner, ev).verdict, ev.kind == ShellCmd || ev.kind == ToolExec;
      && (!cfg.lite && command && ev.cmd != "" ==> v == cfg.classify(ev.cmd))
      && (!cfg.lite && command && ev.cmd == "" && JoinArgs(ev.argv) != "" ==> v == cfg.classify(JoinArgs(ev.argv)))
      && (cfg.lite || !command || (ev.cmd == "" && JoinArgs(ev.argv) == "") ==> v == Verdict(UNKNOWN, 0.0, ""))
  {
  }

  /** Only the models of the event's own student count, and only what they say of the window. */
  lemma AnomalyOfWindow(cfg: Config, window: seq<Stamped>, learner: Learner, ev: Event)
    ensures var a := Assess(cfg, window, learner, ev).anomaly;
      && (cfg.lite || ev.student !in learner.models ==> a == 0.0)
      && (!cfg.lite && ev.student in learner.models ==>
            (a > 0.7 <==> learner.models[ev.student](VecOf(Summary(window))) > 0.55))
  {
    if ev.student in learner.models {
      RawExactly(learner, ev.student, VecOf(Summary(window)));
    }
  }

  function AlertFor(now: int, ev: Event, a: Assessment): Output {
    Alert(now, KeyOf(ev), a.cat, a.score, Round3(a.anomaly), a.verdict.intent, Round3(a.verdict.conf),
          a.breach, a.verdict.reason, ev)
  }

  /** Nothing for Normal, an alert otherwise, and an isolation call after a Critical one. */
  function Emit(now: int, ev: Event, a: Assessment): seq<Output> {
    if a.cat.Normal? then []
    else [AlertFor(now, ev, a)] + if a.cat.Critical? then [Isolate(KeyOf(ev))] else []
  }

  predicate Suppressed(last: map<Key, int>, key: Key, score: int) {
    score < 20 && (if key in last then last[key] else 100) < 20
  }

  function Handled(cfg: Config, st: Engine, ev: Event, now: int): (Engine, seq<Output>) {
    if !Tracked(ev) then (st, [])
    else
      var key := KeyOf(ev);
      var windows := Ingested(st.windows, cfg.window, ev);
      var a := Assess(cfg, QueueOf(windows, key), st.learner, ev);
      if Suppressed(st.last, key, a.score) then (st.(windows := windows), [])
      else (st.(windows := windows, last := st.last[key := a.score]), Emit(now, ev, a))
  }

  /** What reaches the engine: a parsed event with its time of arrival, or a training call. */
  datatype Item =
    | Arrive(ev: Event, now: int)
    | Train(op: TrainOp)

  function Step(cfg: Config, st: Engine, item: Item): (Engine, seq<Output>) {
    match item
    case Arrive(ev, now) => Handled(cfg, st, ev, now)
    case Train(op) => (st.(learner := Taught(st.learner, cfg.min, cfg.fit, op)), [])
  }

  function Run(cfg: Config, items: seq<Item>): (Engine, seq<Output>) {
    if items == [] then (Fresh, [])
    else
      var (st, outs) := Run(cfg, items[..|items| - 1]);
      var (st', more) := Step(cfg, st, items[|items| - 1]);
      (st', outs + more)
  }

  lemma RunSnoc(cfg: Config, items: seq<Item>, item: Item)
    ensures var (st, outs) := Run(cfg, items);
      var (st', more) := Step(cfg, st, item);
      Run(cfg, items + [item]) == (st', outs + more)
  {
    assert (items + [item])[..|items|] == items;
  }

  // ----- the loop itself -------------------------------------------------------------

  /** The events in a list of lines; a line that does not parse is skipped. The `i`-th line
      read is stamped with time `clock(i)`. */
  function Parsed(lines: seq<Bytes>, parse: Bytes -> Option<Event>, clock: nat -> int): seq<Item> {
    if lines == [] then []
    else
      var n := |lines| - 1;
      var before := Parsed(lines[..n], parse, clock);
      match parse(lines[n])
      case Some(ev) => before + [Arrive(ev, clock(n))]
      case None => before
  }

  /** The chunks received before the first empty one, which means end of stream. */
  function UntilEof(chunks: seq<Bytes>): seq<Bytes> {
    if chunks == [] || chunks[0] == [] then [] else [chunks[0]] + UntilEof(chunks[1..])
  }

  /** Parsing keeps the lines that parse, in order, each stamped with the time of its own line. */
  lemma {:induction false} ParsedExactly(lines: seq<Bytes>, parse: Bytes -> Option<Event>, clock: nat -> int,
                                         item: Item)
    ensures item in Parsed(lines, parse, clock) <==> exists i: nat :: ParsesTo(lines, parse, clock, i, item)
    ensures (forall i :: 0 <= i < |lines| ==> parse(lines[i]).Some?) ==>
              |Parsed(lines, parse, clock)| == |lines| &&
              forall i: nat :: i < |lines| ==> ParsesTo(lines, parse, clock, i, Parsed(lines, parse, clock)[i])
  {
    if lines != [] {
      var n := |lines| - 1;
      ParsedExactly(lines[..n], parse, clock, item);
      assert forall i :: 0 <= i < n ==> lines[..n][i] == lines[i];
      assert forall i: nat, it: Item :: i < n ==>
        (ParsesTo(lines[..n], parse, clock, i, it) <==> ParsesTo(lines, parse, clock, i, it));
      if item in Parsed(lines, parse, clock) && item !in Parsed(lines[..n], parse, clock) {
        assert ParsesTo(lines, parse, clock, n, item);
      }
      if item in Parsed(lines[..n], parse, clock) {
        var i: nat :| ParsesTo(lines[..n], parse, clock, i, item);
        assert ParsesTo(lines, parse, clock, i, item);
      }
    }
  }

  predicate ParsesTo(lines: seq<Bytes>, parse: Bytes -> Option<Event>, clock: nat -> int, i: nat, item: Item) {
    i < |lines| && item.Arrive? && parse(lines[i]) == Some(item.ev) && item.now == clock(i)
  }

  /** Nothing after the end of stream is read, and everything before it is. */
  lemma {:induction false} UntilEofStops(before: seq<Bytes>, after: seq<Bytes>)
    requires forall i :: 0 <= i < |before| ==> before[i] != []
    ensures UntilEof(before + [[]] + after) == before && UntilEof(before) == before
  {
    if before != [] {
      var t := before[1..];
      UntilEofStops(t, after);
      assert (before + [[]] + after)[1..] == t + [[]] + after;
      assert before == [before[0]] + t;
    }
  }

  /** Student or session missing: nothing happens. Both there: the event, if it has a timestamp, is
      the newest of its session's window. */
  lemma OnlyTrackedCounts(cfg: Config, st: Engine, ev: Event, now: int)
    ensures ev.student == "" || ev.session == "" ==> Handled(cfg, st, ev, now) == (st, [])
    ensures ev.student != "" && ev.session != "" && ev.ts.Some? ==>
      var q := QueueOf(Handled(cfg, st, ev, now).0.windows, (ev.student, ev.session));
      q != [] && q[|q| - 1] == Stamped(ev.ts.value, ev)
  {
    if Tracked(ev) && ev.ts.Some? {
      var s := Stamped(ev.ts.value, ev);
      var q := QueueOf(st.windows, KeyOf(ev)) + [s];
      var d := TrimIsDrop(q, s.ts - cfg.window);
      assert q[|q| - 1] == s;
    }
  }

  class EngineLoop {
    const cfg: Config
    const fx: FeatureExtractor
    const am: AnomalyModel
    var last: map<Key, int>
    var out: seq<Output>

    ghost predicate Valid()
      reads this
    {
      fx.window == cfg.window && am.min == cfg.min && am.fit == cfg.fit
    }

    ghost function View(): (Engine, seq<Output>)
      reads this, fx, am
    {
      (Engine(fx.events, last, am.View()), out)
    }

    constructor (cfg: Config)
      ensures Valid() && fresh(fx) && fresh(am) && this.cfg == cfg
      ensures View() == (Fresh, [])
    {
      this.cfg := cfg;
      fx := new FeatureExtractor(cfg.window);
      am := new AnomalyModel(cfg.min, cfg.fit);
      last, out := map[], [];
    }

    /** Ingests the event and judges it by its session's window. */
    method Judge(ev: Event) returns (cat: Category, score: int, anomaly: real, verdict: Verdict, breach: bool)
      requires Valid() && Tracked(ev)
      modifies fx, am
      ensures fx.events == Ingested(old(fx.events), cfg.window, ev) && am.View() == old(am.View())
      ensures Assessment(cat, score, anomaly, verdict, breach) ==
              Assess(cfg, QueueOf(fx.events, KeyOf(ev)), am.View(), ev)
    {
      fx.Ingest(ev);
      var feats := fx.Snapshot(ev.student, ev.session);
      anomaly := 0.0;
      if !cfg.lite {
        anomaly := am.Score(ev.student, feats, false);
      }
      verdict := Verdict(UNKNOWN, 0.0, "");
      if !cfg.lite && (ev.kind.ShellCmd? || ev.kind.ToolExec?) {
        var cmd := if ev.cmd != "" then ev.cmd else JoinArgs(ev.argv);
        if cmd != "" {
          verdict := cfg.classify(cmd);
        }
      }
      breach := IsScopeBreach(ev, cfg.scope);
      var r := Score(anomaly, verdict.intent, verdict.conf, breach);
      cat, score := r.0, r.1;
    }

    /** The body of the loop for one parsed event. */
    method Handle(ev: Event, now: int)
      requires Valid()
      modifies this, fx, am
      ensures Valid()
      ensures var (st', more) := Handled(cfg, old(View()).0, ev, now);
        View() == (st', old(out) + more)
    {
      if ev.student == "" || ev.session == "" {
        assert old(out) + [] == old(out);
        return;
      }
      var cat, score, anomaly, verdict, breach := Judge(ev);
      var key := (ev.student, ev.session);
      if score < 20 && (if key in last then last[key] else 100) < 20 {
        assert old(out) + [] == old(out);
        return;
      }
      last := last[key := score];
      if !cat.Normal? {
        out := out + [Alert(now, key, cat, score, Round3(anomaly), verdict.intent, Round3(verdict.conf),
                            breach, verdict.reason, ev)];
        if cat.Critical? {
          out := out + [Isolate(key)];
        }
      }
      assert out == old(out) + Emit(now, ev, Assessment(cat, score, anomaly, verdict, breach));
    }

    method HandleLine(line: Bytes, parse: Bytes -> Option<Event>, now: int, ghost clock: nat -> int,
                      ghost done: seq<Bytes>)
      requires Valid() && now == clock(|done|)
      requires View() == Run(cfg, Parsed(done, parse, clock))
      modifies this, fx, am
      ensures Valid()
      ensures View() == Run(cfg, Parsed(done + [line], parse, clock))
    {
      assert (done + [line])[..|done|] == done;
      var parsed := parse(line);
      if parsed.Some? {
        RunSnoc(cfg, Parsed(done, parse, clock), Arrive(parsed.value, now));
        Handle(parsed.value, now);
      }
    }

    /** The inner loop: every complete line in the buffer is split off and handled. */
    method Drain(buf0: Bytes, parse: Bytes -> Option<Event>, clock: nat -> int, count: nat, ghost done: seq<Bytes>)
      returns (buf: Bytes, count': nat)
      requires Valid() && count == |done| && View() == Run(cfg, Parsed(done, parse, clock))
      modifies this, fx, am
      ensures Valid() && count' == |done + Lines(buf0)| && buf == Rest(buf0)
      ensures View() == Run(cfg, Parsed(done + Lines(buf0), parse, clock))
    {
      buf, count' := buf0, count;
      ghost var sofar := done;
      while NL in buf
        invariant Valid() && count' == |sofar|
        invariant Draining(done, buf0, sofar, buf)
        invariant View() == Run(cfg, Parsed(sofar, parse, clock))
        decreases |buf|
      {
        var i := NextNL(buf);
        var line := buf[..i];
        TakeLine(done, buf0, sofar, buf);
        buf := buf[i + 1..];
        HandleLine(line, parse, clock(count'), clock, sofar);
        sofar := sofar + [line];
        count' := count' + 1;
      }
      Drained(done, buf0, sofar, buf);
    }

    /** One chunk: appended to the unfinished line left by the bytes seen so far. */
    method Receive(chunk: Bytes, buf0: Bytes, parse: Bytes -> Option<Event>, clock: nat -> int, count: nat,
                   ghost seen: Bytes)
      returns (buf: Bytes, count': nat)
      requires Valid() && buf0 == Rest(seen) && count == |Lines(seen)|
      requires View() == Run(cfg, Parsed(Lines(seen), parse, clock))
      modifies this, fx, am
      ensures Valid() && buf == Rest(seen + chunk) && count' == |Lines(seen + chunk)|
      ensures View() == Run(cfg, Parsed(Lines(seen + chunk), parse, clock))
    {
      CarryOver(seen, chunk);
      buf, count' := Drain(buf0 + chunk, parse, clock, count, Lines(seen));
    }

    /** The receive loop: chunks are appended to a buffer and every complete line in it is
        handled. The outcome depends only on the bytes received, not on their chunking. */
    method Loop(chunks: seq<Bytes>, parse: Bytes -> Option<Event>, clock: nat -> int) returns (buf: Bytes)
      requires Valid() && View() == (Fresh, [])
      modifies this, fx, am
      ensures Valid()
      ensures View() == Run(cfg, Parsed(Lines(Concat(UntilEof(chunks))), parse, clock))
      ensures buf == Rest(Concat(UntilEof(chunks)))
    {
      buf := [];
      var k, count := 0, 0;
      ghost var seen: Bytes := [];
      AppendNil(Concat(UntilEof(chunks)));
      NoNewline([]);
      while k < |chunks| && chunks[k] != []
        invariant k <= |chunks| && Valid()
        invariant Rest(seen) == buf && count == |Lines(seen)|
        invariant Remaining(chunks, k, seen)
        invariant View() == Run(cfg, Parsed(Lines(seen), parse, clock))
      {
        TakeChunk(chunks, k, seen);
        buf, count := Receive(chunks[k], buf, parse, clock, count, seen);
        seen := seen + chunks[k];
        k := k + 1;
      }
      AllReceived(chunks, k, seen);
    }
  }

  /** The bytes seen are those of the first `k` chunks. */
  ghost predicate Remaining(chunks: seq<Bytes>, k: nat, seen: Bytes) {
    k <= |chunks| && seen + Concat(UntilEof(chunks[k..])) == Concat(UntilEof(chunks))
  }

  lemma AllReceived(chunks: seq<Bytes>, k: nat, seen: Bytes)
    requires Remaining(chunks, k, seen) && (k < |chunks| ==> chunks[k] == [])
    ensures seen == Concat(UntilEof(chunks))
  {
    assert UntilEof(chunks[k..]) == [];
    AppendNil(seen);
  }

  lemma TakeChunk(chunks: seq<Bytes>, k: nat, seen: Bytes)
    requires k < |chunks| && chunks[k] != [] && Remaining(chunks, k, seen)
    ensures Remaining(chunks, k + 1, seen + chunks[k])
  {
    assert chunks[k..][1..] == chunks[k + 1..];
    var rest := UntilEof(chunks[k + 1..]);
    assert ([chunks[k]] + rest)[1..] == rest;
    Regroup(seen, chunks[k], Concat(rest));
  }

  /** Part of the way through `buf0`: `sofar` is done, `buf` is left. */
  ghost predicate Draining(done: seq<Bytes>, buf0: Bytes, sofar: seq<Bytes>, buf: Bytes) {
    sofar + Lines(buf) == done + Lines(buf0) && Rest(buf) == Rest(buf0)
  }

  /** Splitting off one line moves it from the buffer to what is done. */
  lemma TakeLine(done: seq<Bytes>, buf0: Bytes, sofar: seq<Bytes>, buf: Bytes)
    requires NL in buf && Draining(done, buf0, sofar, buf)
    ensures var i := NextNL(buf);
      i < |buf| && Draining(done, buf0, sofar + [buf[..i]], buf[i + 1..])
  {
    var i := NextNL(buf);
    HasNewline(buf);
    CutAt(buf, [], i);
    SplitFirst(buf[..i], buf[i + 1..]);
    Regroup(sofar, [buf[..i]], Lines(buf[i + 1..]));
  }

  lemma Drained(done: seq<Bytes>, buf0: Bytes, sofar: seq<Bytes>, buf: Bytes)
    requires NL !in buf && Draining(done, buf0, sofar, buf)
    ensures sofar == done + Lines(buf0) && buf == Rest(buf0)
  {
    NoNewline(buf);
    AppendNil(sofar);
  }
}
