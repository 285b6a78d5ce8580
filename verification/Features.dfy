/** The rolling per-session feature window and its one-pass summary. */
module Features {
  import opened Telemetry

  datatype Stamped = Stamped(ts: int, ev: Event)

  type Windows = map<Key, seq<Stamped>>

  function QueueOf(w: Windows, key: Key): seq<Stamped> {
    if key in w then w[key] else []
  }

  /** Drops from the front while the head is older than the cutoff. */
  function Trim(q: seq<Stamped>, cutoff: int): seq<Stamped> {
    if q == [] || q[0].ts >= cutoff then q else Trim(q[1..], cutoff)
  }

  function Ingested(w: Windows, window: nat, ev: Event): Windows {
    if !Tracked(ev) || ev.ts.None? then w
    else w[KeyOf(ev) := Trim(QueueOf(w, KeyOf(ev)) + [Stamped(ev.ts.value, ev)], ev.ts.value - window)]
  }

  // ----- the summary ---------------------------------------------------------------

  datatype Feats = Feats(
    execCount: int, sudoTries: int, bytesOut: int, bytesIn: int,
    uniqueDstIps: int, uniqueDstPorts: int, sensitiveReads: int, usbInserts: int)

  function Count(q: seq<Stamped>, p: Event -> bool): nat {
    if q == [] then 0 else Count(q[..|q| - 1], p) + if p(q[|q| - 1].ev) then 1 else 0
  }

  function Sum(q: seq<Stamped>, f: Event -> int): int {
    if q == [] then 0 else Sum(q[..|q| - 1], f) + f(q[|q| - 1].ev)
  }

  /** Counting along the window is counting the positions that qualify. */
  lemma {:induction false} CountIsCardinality(q: seq<Stamped>, p: Event -> bool)
    ensures Count(q, p) == |set i | 0 <= i < |q| && p(q[i].ev)|
  {
    if q != [] {
      var n := |q| - 1;
      CountIsCardinality(q[..n], p);
      var before := set i | 0 <= i < n && p(q[..n][i].ev);
      var all := set i | 0 <= i < |q| && p(q[i].ev);
      if p(q[n].ev) {
        assert all == before + {n};
      } else {
        assert all == before;
      }
    }
  }

  lemma {:induction false} CountOfParts(a: seq<Stamped>, b: seq<Stamped>, p: Event -> bool)
    ensures Count(a + b, p) == Count(a, p) + Count(b, p)
  {
    if b == [] {
      assert a + b == a;
    } else {
      assert (a + b)[..|a + b| - 1] == a + b[..|b| - 1];
      CountOfParts(a, b[..|b| - 1], p);
    }
  }

  lemma {:induction false} SumOfParts(a: seq<Stamped>, b: seq<Stamped>, f: Event -> int)
    ensures Sum(a + b, f) == Sum(a, f) + Sum(b, f)
  {
    if b == [] {
      assert a + b == a;
    } else {
      assert (a + b)[..|a + b| - 1] == a + b[..|b| - 1];
      SumOfParts(a, b[..|b| - 1], f);
    }
  }

  predicate Sensitive(path: string) {
    path == "/etc/passwd" || path == "/etc/shadow" || "/root" <= path
  }

  const IsExec := (ev: Event) => ev.kind.Exec?
  const IsSudo := (ev: Event) => ev.kind.Exec? && ev.comm == "sudo"
  const IsSensitiveRead := (ev: Event) => ev.kind.FileAccess? && Sensitive(ev.path)
  const IsUsbInsert := (ev: Event) => ev.kind.UsbEvent? && ev.action == "add"
  const OutBytes := (ev: Event) => if ev.kind.NetFlow? then ev.bytesOut.GetOr(ev.bytes.GetOr(0)) else 0
  const InBytes := (ev: Event) => if ev.kind.NetFlow? then ev.bytesIn.GetOr(0) else 0

  function DstIps(q: seq<Stamped>): set<string> {
    set i | 0 <= i < |q| && q[i].ev.kind.NetFlow? && q[i].ev.daddr != "" :: q[i].ev.daddr
  }

  function DstPorts(q: seq<Stamped>): set<int> {
    set i | 0 <= i < |q| && q[i].ev.kind.NetFlow? && q[i].ev.dport.Some? :: q[i].ev.dport.value
  }

  /** Each feature by its own definition over the window. */
  function Summary(q: seq<Stamped>): Feats {
    Feats(Count(q, IsExec), Count(q, IsSudo), Sum(q, OutBytes), Sum(q, InBytes),
          |DstIps(q)|, |DstPorts(q)|, Count(q, IsSensitiveRead), Count(q, IsUsbInsert))
  }

  /** Counters add up over the parts of a window; the destinations are those of both parts. */
  lemma SummaryOfParts(a: seq<Stamped>, b: seq<Stamped>)
    ensures var s, t, u := Summary(a), Summary(b), Summary(a + b);
      && u.execCount == s.execCount + t.execCount && u.sudoTries == s.sudoTries + t.sudoTries
      && u.bytesOut == s.bytesOut + t.bytesOut && u.bytesIn == s.bytesIn + t.bytesIn
      && u.sensitiveReads == s.sensitiveReads + t.sensitiveReads && u.usbInserts == s.usbInserts + t.usbInserts
    ensures Summary(a + b).uniqueDstIps == |DstIps(a) + DstIps(b)|
    ensures Summary(a + b).uniqueDstPorts == |DstPorts(a) + DstPorts(b)|
  {
    CountOfParts(a, b, IsExec);
    CountOfParts(a, b, IsSudo);
    CountOfParts(a, b, IsSensitiveRead);
    CountOfParts(a, b, IsUsbInsert);
    SumOfParts(a, b, OutBytes);
    SumOfParts(a, b, InBytes);
    DestinationsOfParts(a, b);
  }

  lemma DestinationsOfParts(a: seq<Stamped>, b: seq<Stamped>)
    ensures DstIps(a + b) == DstIps(a) + DstIps(b)
    ensures DstPorts(a + b) == DstPorts(a) + DstPorts(b)
  {
    var ab := a + b;
    assert forall i :: 0 <= i < |a| ==> ab[i] == a[i];
    assert forall i :: 0 <= i < |b| ==> ab[|a| + i] == b[i];
    assert forall i :: |a| <= i < |ab| ==> ab[i] == b[i - |a|];
  }

  const Nothing := Feats(0, 0, 0, 0, 0, 0, 0, 0)

  /** What one event alone amounts to, kind by kind; the unique destinations of a flow are the ones
      it names. */
  lemma SummaryOfOne(ts: int, ev: Event)
    ensures var f := Summary([Stamped(ts, ev)]);
      match ev.kind
      case Exec => f == Nothing.(execCount := 1, sudoTries := if ev.comm == "sudo" then 1 else 0)
      case FileAccess =>
        var secret := ev.path == "/etc/passwd" || ev.path == "/etc/shadow" || "/root" <= ev.path;
        f == Nothing.(sensitiveReads := if secret then 1 else 0)
      case UsbEvent => f == Nothing.(usbInserts := if ev.action == "add" then 1 else 0)
      case NetFlow =>
        && f == Nothing.(bytesOut := f.bytesOut, bytesIn := f.bytesIn,
                         uniqueDstIps := if ev.daddr == "" then 0 else 1,
                         uniqueDstPorts := if ev.dport.None? then 0 else 1)
        && (ev.bytesOut.Some? ==> f.bytesOut == ev.bytesOut.value)
        && (ev.bytesOut.None? && ev.bytes.Some? ==> f.bytesOut == ev.bytes.value)
        && (ev.bytesOut.None? && ev.bytes.None? ==> f.bytesOut == 0)
        && (ev.bytesIn.Some? ==> f.bytesIn == ev.bytesIn.value)
        && (ev.bytesIn.None? ==> f.bytesIn == 0)
      case _ => f == Nothing
  {
    var s := Stamped(ts, ev);
    CountOfOne(s, IsExec);
    CountOfOne(s, IsSudo);
    CountOfOne(s, IsSensitiveRead);
    CountOfOne(s, IsUsbInsert);
    SumOfOne(s, OutBytes);
    SumOfOne(s, InBytes);
    DestinationsOfOne(ts, ev);
  }

  lemma CountOfOne(s: Stamped, p: Event -> bool)
    ensures Count([s], p) == if p(s.ev) then 1 else 0
  {
    assert [s][..0] == [];
  }

  lemma SumOfOne(s: Stamped, f: Event -> int)
    ensures Sum([s], f) == f(s.ev)
  {
    assert [s][..0] == [];
  }

  lemma DestinationsOfOne(ts: int, ev: Event)
    ensures DstIps([Stamped(ts, ev)]) == if ev.kind.NetFlow? && ev.daddr != "" then {ev.daddr} else {}
    ensures DstPorts([Stamped(ts, ev)]) == if ev.kind.NetFlow? && ev.dport.Some? then {ev.dport.value} else {}
  {
    var q := [Stamped(ts, ev)];
    assert q[0] == Stamped(ts, ev);
  }

  /** Every path below the home of root is sensitive. */
  lemma RootIsSensitive(ts: int, ev: Event, rest: string)
    requires ev.kind.FileAccess? && ev.path == "/root" + rest
    ensures Summary([Stamped(ts, ev)]).sensitiveReads == 1
  {
    SummaryOfOne(ts, ev);
  }

  class FeatureExtractor {
    const window: nat
    var events: Windows

    constructor (window: nat)
      ensures this.window == window && events == map[]
    {
      this.window := window;
      events := map[];
    }

    method Ingest(ev: Event)
      modifies this
      ensures events == Ingested(old(events), window, ev)
    {
      if !Tracked(ev) || ev.ts.None? {
        return;
      }
      var key, ts := KeyOf(ev), ev.ts.value;
      events := events[key := QueueOf(events, key) + [Stamped(ts, ev)]];
      ghost var full := events[key];
      var cutoff := ts - window;
      while |events[key]| > 0 && events[key][0].ts < cutoff
        invariant key in events && events == old(events)[key := events[key]]
        invariant Trim(events[key], cutoff) == Trim(full, cutoff)
        decreases |events[key]|
      {
        events := events[key := events[key][1..]];
      }
    }

    /** One pass over the window computes every feature at once. */
    method Snapshot(student: string, session: string) returns (f: Feats)
      ensures f == Summary(QueueOf(events, (student, session)))
    {
      var q := QueueOf(events, (student, session));
      f := Feats(0, 0, 0, 0, 0, 0, 0, 0);
      var ips: set<string>, ports: set<int> := {}, {};
      for i := 0 to |q|
        invariant f == Summary(q[..i]).(uniqueDstIps := 0, uniqueDstPorts := 0)
        invariant ips == DstIps(q[..i]) && ports == DstPorts(q[..i])
      {
        SummaryGrows(q, i);
        f, ips, ports := Tally(q[i].ev, f, ips, ports);
      }
      assert q[..|q|] == q;
      f := f.(uniqueDstIps := |ips|, uniqueDstPorts := |ports|);
    }

    /** The loop body: one event's contribution to the counters and the destination sets. */
    static method Tally(ev: Event, f0: Feats, ips0: set<string>, ports0: set<int>)
      returns (f: Feats, ips: set<string>, ports: set<int>)
      ensures f == f0.(execCount := f0.execCount + One(IsExec(ev)), sudoTries := f0.sudoTries + One(IsSudo(ev)),
                       bytesOut := f0.bytesOut + OutBytes(ev), bytesIn := f0.bytesIn + InBytes(ev),
                       sensitiveReads := f0.sensitiveReads + One(IsSensitiveRead(ev)),
                       usbInserts := f0.usbInserts + One(IsUsbInsert(ev)))
      ensures ips == ips0 + (if ev.kind.NetFlow? && ev.daddr != "" then {ev.daddr} else {})
      ensures ports == ports0 + (if ev.kind.NetFlow? && ev.dport.Some? then {ev.dport.value} else {})
    {
      f, ips, ports := f0, ips0, ports0;
      match ev.kind
      case Exec =>
        f := f.(execCount := f.execCount + 1);
        if ev.comm == "sudo" {
          f := f.(sudoTries := f.sudoTries + 1);
        }
      case NetFlow =>
        f := f.(bytesOut := f.bytesOut + ev.bytesOut.GetOr(ev.bytes.GetOr(0)),
                bytesIn := f.bytesIn + ev.bytesIn.GetOr(0));
        if ev.daddr != "" {
          ips := ips + {ev.daddr};
        }
        if ev.dport.Some? {
          ports := ports + {ev.dport.value};
        }
      case FileAccess =>
        if Sensitive(ev.path) {
          f := f.(sensitiveReads := f.sensitiveReads + 1);
        }
      case UsbEvent =>
        if ev.action == "add" {
          f := f.(usbInserts := f.usbInserts + 1);
        }
      case _ =>
    }
  }

  function One(b: bool): nat { if b then 1 else 0 }

  lemma SummaryGrows(q: seq<Stamped>, i: nat)
    requires i < |q|
    ensures var ev, s, s' := q[i].ev, Summary(q[..i]), Summary(q[..i + 1]);
      && s'.execCount == s.execCount + One(IsExec(ev)) && s'.sudoTries == s.sudoTries + One(IsSudo(ev))
      && s'.bytesOut == s.bytesOut + OutBytes(ev) && s'.bytesIn == s.bytesIn + InBytes(ev)
      && s'.sensitiveReads == s.sensitiveReads + One(IsSensitiveRead(ev))
      && s'.usbInserts == s.usbInserts + One(IsUsbInsert(ev))
      && DstIps(q[..i + 1]) == DstIps(q[..i]) + (if ev.kind.NetFlow? && ev.daddr != "" then {ev.daddr} else {})
      && DstPorts(q[..i + 1]) ==
         DstPorts(q[..i]) + (if ev.kind.NetFlow? && ev.dport.Some? then {ev.dport.value} else {})
  {
    assert q[..i + 1][..i] == q[..i];
    DestinationsGrow(q, i);
  }

  lemma DestinationsGrow(q: seq<Stamped>, i: nat)
    requires i < |q|
    ensures var ev := q[i].ev;
      && DstIps(q[..i + 1]) == DstIps(q[..i]) + (if ev.kind.NetFlow? && ev.daddr != "" then {ev.daddr} else {})
      && DstPorts(q[..i + 1]) ==
         DstPorts(q[..i]) + (if ev.kind.NetFlow? && ev.dport.Some? then {ev.dport.value} else {})
  {
    var p, p' := q[..i], q[..i + 1];
    assert forall j :: 0 <= j < i ==> p'[j] == p[j];
    assert p'[i] == q[i];
  }

  // ----- the window over whole histories ------------------------------------------------

  /** The events of `key` that entered its window at some time, in arrival order. */
  function Accepted(evs: seq<Event>, key: Key): seq<Stamped> {
    if evs == [] then []
    else
      var ev := evs[|evs| - 1];
      var before := Accepted(evs[..|evs| - 1], key);
      if Enters(ev, key) then before + [Stamped(ev.ts.value, ev)] else before
  }

  /** `s` is `ev`, of this student and session, neither of them empty, with its timestamp. */
  predicate StampedFrom(s: Stamped, ev: Event, key: Key) {
    && s.ev == ev && ev.ts == Some(s.ts)
    && ev.student == key.0 && ev.student != "" && ev.session == key.1 && ev.session != ""
  }

  lemma {:induction false} AcceptedExactly(evs: seq<Event>, key: Key, s: Stamped)
    ensures s in Accepted(evs, key) <==> exists i :: 0 <= i < |evs| && StampedFrom(s, evs[i], key)
  {
    if evs != [] {
      var n := |evs| - 1;
      AcceptedExactly(evs[..n], key, s);
      assert forall i :: 0 <= i < n ==> evs[i] == evs[..n][i];
      assert s in Accepted(evs, key) <==> s in Accepted(evs[..n], key) || StampedFrom(s, evs[n], key);
    }
  }

  function WindowsAfter(window: nat, evs: seq<Event>): Windows {
    if evs == [] then map[] else Ingested(WindowsAfter(window, evs[..|evs| - 1]), window, evs[|evs| - 1])
  }

  lemma {:induction false} TrimIsDrop(q: seq<Stamped>, cutoff: int) returns (d: nat)
    ensures d <= |q| && Trim(q, cutoff) == q[d..]
    ensures forall i :: 0 <= i < d ==> q[i].ts < cutoff
    ensures d < |q| ==> q[d].ts >= cutoff
  {
    if q == [] || q[0].ts >= cutoff {
      d := 0;
    } else {
      var d' := TrimIsDrop(q[1..], cutoff);
      d := d' + 1;
      assert q[1..][d'..] == q[d..];
      forall i | 0 <= i < d ensures q[i].ts < cutoff {
        if i > 0 { assert q[i] == q[1..][i - 1]; }
      }
    }
  }

  /** The window is `all` without its first `d` events, and each of those is more than the
      window length older than some event that arrived after it. */
  ghost predicate DroppedAreStale(all: seq<Stamped>, q: seq<Stamped>, window: nat, d: nat) {
    && d <= |all| && q == all[d..]
    && forall i :: 0 <= i < d ==> SomeLaterNewer(all, i, window)
  }

  ghost predicate SomeLaterNewer(all: seq<Stamped>, i: nat, window: nat)
    requires i < |all|
  {
    exists j :: i < j < |all| && all[i].ts < all[j].ts - window
  }

  /** The window after the arrivals `all` of one session. */
  function Sliding(all: seq<Stamped>, window: nat): seq<Stamped> {
    if all == [] then []
    else
      var n := |all| - 1;
      Trim(Sliding(all[..n], window) + [all[n]], all[n].ts - window)
  }

  /** A session's window depends on that session's events only. */
  lemma {:induction false} WindowSlides(window: nat, evs: seq<Event>, key: Key)
    ensures QueueOf(WindowsAfter(window, evs), key) == Sliding(Accepted(evs, key), window)
  {
    if evs != [] {
      var ev, before := evs[|evs| - 1], evs[..|evs| - 1];
      WindowSlides(window, before, key);
      QueueAfterEvent(WindowsAfter(window, before), window, ev, key);
      if Enters(ev, key) {
        SlidingSnoc(Accepted(before, key), Stamped(ev.ts.value, ev), window);
      }
    }
  }

  predicate Enters(ev: Event, key: Key) {
    Tracked(ev) && ev.ts.Some? && KeyOf(ev) == key
  }

  lemma QueueAfterEvent(w: Windows, window: nat, ev: Event, key: Key)
    ensures QueueOf(Ingested(w, window, ev), key) ==
            if Enters(ev, key) then Trim(QueueOf(w, key) + [Stamped(ev.ts.value, ev)], ev.ts.value - window)
            else QueueOf(w, key)
  {
  }

  lemma SlidingSnoc(all: seq<Stamped>, s: Stamped, window: nat)
    ensures Sliding(all + [s], window) == Trim(Sliding(all, window) + [s], s.ts - window)
  {
    assert (all + [s])[..|all|] == all;
  }

  lemma {:induction false} SlidingIsSuffix(all: seq<Stamped>, window: nat) returns (d: nat)
    ensures DroppedAreStale(all, Sliding(all, window), window, d)
    ensures all != [] ==> d < |all| && all[d].ts >= all[|all| - 1].ts - window
  {
    if all == [] {
      d := 0;
    } else {
      var n := |all| - 1;
      d := SlidingIsSuffix(all[..n], window);
      assert all == all[..n] + [all[n]];
      d := ArrivalKeepsSuffix(window, all[..n], all[n], d);
    }
  }

  /** Whatever the arrival order, a window is a suffix of its session's history, and only
      events outdated by a later arrival are gone. */
  lemma WindowIsSuffix(window: nat, evs: seq<Event>, key: Key) returns (d: nat)
    ensures DroppedAreStale(Accepted(evs, key), QueueOf(WindowsAfter(window, evs), key), window, d)
    ensures Accepted(evs, key) != [] ==> d < |Accepted(evs, key)|
    ensures Accepted(evs, key) != [] ==>
      var all := Accepted(evs, key); all[d].ts >= all[|all| - 1].ts - window
  {
    WindowSlides(window, evs, key);
    d := SlidingIsSuffix(Accepted(evs, key), window);
  }

  lemma ArrivalKeepsSuffix(window: nat, all: seq<Stamped>, s: Stamped, d: nat) returns (d': nat)
    requires d <= |all| && DroppedAreStale(all, all[d..], window, d)
    ensures var all' := all + [s];
      && d' < |all'|
      && DroppedAreStale(all', Trim(all[d..] + [s], s.ts - window), window, d')
      && all'[d'].ts >= s.ts - window
  {
    var all', q := all + [s], all[d..] + [s];
    var t := TrimIsDrop(q, s.ts - window);
    assert q == all'[d..] && q[|q| - 1] == s;
    d' := d + t;
    assert q[t..] == all'[d'..];
    forall i | 0 <= i < d' ensures SomeLaterNewer(all', i, window) {
      if i < d {
        assert SomeLaterNewer(all, i, window);
        var j :| i < j < |all| && all[i].ts < all[j].ts - window;
        assert all'[i].ts < all'[j].ts - window;
      } else {
        assert all'[i] == q[i - d];
        assert all'[i].ts < all'[|all|].ts - window;
      }
    }
  }

  /** No event with a timestamp at or after the newest seen minus the window is ever lost. */
  lemma FreshIsRetained(window: nat, evs: seq<Event>, key: Key, newest: int, i: nat)
    requires i < |Accepted(evs, key)|
    requires forall j :: 0 <= j < |Accepted(evs, key)| ==> Accepted(evs, key)[j].ts <= newest
    requires Accepted(evs, key)[i].ts >= newest - window
    ensures Accepted(evs, key)[i] in QueueOf(WindowsAfter(window, evs), key)
  {
    var all := Accepted(evs, key);
    var d := WindowIsSuffix(window, evs, key);
    assert i < d ==> SomeLaterNewer(all, i, window);
    assert all[i] == all[d..][i - d];
  }

  ghost predicate InOrder(q: seq<Stamped>) {
    forall i, j :: 0 <= i < j < |q| ==> q[i].ts <= q[j].ts
  }

  function Since(q: seq<Stamped>, cutoff: int): seq<Stamped> {
    if q == [] then []
    else if q[0].ts >= cutoff then [q[0]] + Since(q[1..], cutoff)
    else Since(q[1..], cutoff)
  }

  /** A filter that drops the first `d` and keeps all others. */
  lemma {:induction false} SinceIsSuffix(q: seq<Stamped>, cutoff: int, d: nat)
    requires d <= |q|
    requires forall i :: 0 <= i < d ==> q[i].ts < cutoff
    requires forall i :: d <= i < |q| ==> q[i].ts >= cutoff
    ensures Since(q, cutoff) == q[d..]
  {
    if q != [] {
      var d' := if d == 0 then 0 else d - 1;
      SinceIsSuffix(q[1..], cutoff, d');
      assert q[1..][d'..] == q[d' + 1..];
    }
  }

  /** Any filter that equals a suffix drops exactly what comes before it. */
  lemma {:induction false} SuffixIsSince(q: seq<Stamped>, cutoff: int, d: nat, i: nat)
    requires d <= |q| && i < |q| && Since(q, cutoff) == q[d..]
    ensures q[i].ts >= cutoff <==> i >= d
  {
    SinceMembers(q, cutoff);
    if i >= d {
      assert q[i] == q[d..][i - d] && q[i] in Since(q, cutoff);
    } else if q[i].ts >= cutoff {
      SinceSplits(q, cutoff, d);
      SinceKeepsAll(q[d..], cutoff);
      assert q[..d][i] == q[i];
      SinceNonEmpty(q[..d], cutoff, i);
    }
  }

  lemma {:induction false} SinceMembers(q: seq<Stamped>, cutoff: int)
    ensures forall s :: s in Since(q, cutoff) ==> s.ts >= cutoff
  {
    if q != [] {
      SinceMembers(q[1..], cutoff);
    }
  }

  lemma {:induction false} SinceSplits(q: seq<Stamped>, cutoff: int, d: nat)
    requires d <= |q|
    ensures Since(q, cutoff) == Since(q[..d], cutoff) + Since(q[d..], cutoff)
  {
    if d == 0 {
      assert q[0..] == q;
    } else {
      SinceSplits(q[1..], cutoff, d - 1);
      assert q[1..][..d - 1] == q[..d][1..] && q[1..][d - 1..] == q[d..];
    }
  }

  /** Filtering what a filter kept keeps it. */
  lemma {:induction false} SinceKeepsAll(q: seq<Stamped>, cutoff: int)
    ensures (forall s :: s in q ==> s.ts >= cutoff) ==> Since(q, cutoff) == q
  {
    if q != [] {
      SinceKeepsAll(q[1..], cutoff);
      assert q == [q[0]] + q[1..];
    }
  }

  lemma {:induction false} SinceNonEmpty(q: seq<Stamped>, cutoff: int, i: nat)
    requires i < |q| && q[i].ts >= cutoff
    ensures Since(q, cutoff) != []
  {
    if i > 0 {
      SinceNonEmpty(q[1..], cutoff, i - 1);
    }
  }

  /** At arrival `n` event `i` is within the window length again, having been outdated by `j`. */
  predicate Revives(all: seq<Stamped>, i: nat, j: nat, n: nat, window: nat) {
    i < j < n < |all| && all[i].ts < all[j].ts - window && all[i].ts >= all[n].ts - window
  }

  /** At arrival `n` the outdated event `j` stands behind event `i`, which is not. */
  predicate Hides(all: seq<Stamped>, i: nat, j: nat, n: nat, window: nat) {
    i < j < n < |all| && all[i].ts >= all[n].ts - window && all[j].ts < all[n].ts - window
  }

  ghost predicate Undisturbed(all: seq<Stamped>, window: nat) {
    forall i: nat, j: nat, n: nat :: !Revives(all, i, j, n, window) && !Hides(all, i, j, n, window)
  }

  /** The filter of a history by the cutoff of its newest arrival. */
  function Recent(all: seq<Stamped>, window: nat): seq<Stamped>
    requires all != []
  {
    Since(all, all[|all| - 1].ts - window)
  }

  /** After arrival `n` the window is the filter of the history so far. */
  ghost predicate FilterAt(all: seq<Stamped>, window: nat, n: nat)
    requires n < |all|
  {
    Sliding(all[..n + 1], window) == Recent(all[..n + 1], window)
  }

  lemma UndisturbedIsFilter(all: seq<Stamped>, window: nat, n: nat)
    requires Undisturbed(all, window) && n < |all|
    ensures FilterAt(all, window, n)
  {
    var h, cutoff := all[..n + 1], all[n].ts - window;
    var d := SlidingIsSuffix(h, window);
    forall i | 0 <= i < d ensures h[i].ts < cutoff {
      assert SomeLaterNewer(h, i, window);
      var j :| i < j < |h| && h[i].ts < h[j].ts - window;
      assert !Revives(all, i, j, n, window);
    }
    forall j | d <= j < |h| ensures h[j].ts >= cutoff {
      assert !Hides(all, d, j, n, window);
    }
    SinceIsSuffix(h, cutoff, d);
  }

  lemma FilterIsUndisturbed(all: seq<Stamped>, window: nat, i: nat, j: nat, n: nat)
    requires forall m :: 0 <= m < |all| ==> FilterAt(all, window, m)
    ensures !Revives(all, i, j, n, window) && !Hides(all, i, j, n, window)
  {
    if i < j < n < |all| {
      assert FilterAt(all, window, n) && FilterAt(all, window, j);
      var d := FilterCut(all, window, n);
      var e := FilterCut(all, window, j);
      CutsGrow(all, window, j, n, e, d);
    }
  }

  /** Where the filter after arrival `n` cuts the history. */
  lemma FilterCut(all: seq<Stamped>, window: nat, n: nat) returns (d: nat)
    requires n < |all| && FilterAt(all, window, n)
    ensures d <= n && Sliding(all[..n + 1], window) == all[..n + 1][d..]
    ensures forall i :: 0 <= i <= n ==> (all[i].ts >= all[n].ts - window <==> i >= d)
  {
    var h := all[..n + 1];
    d := SlidingIsSuffix(h, window);
    forall i | 0 <= i <= n ensures all[i].ts >= all[n].ts - window <==> i >= d {
      SuffixIsSince(h, all[n].ts - window, d, i);
    }
  }

  /** What is gone stays gone. */
  lemma {:induction false} CutsGrow(all: seq<Stamped>, window: nat, j: nat, n: nat, e: nat, d: nat)
    requires j <= n < |all| && e <= j && d <= n
    requires Sliding(all[..j + 1], window) == all[..j + 1][e..]
    requires Sliding(all[..n + 1], window) == all[..n + 1][d..]
    ensures e <= d
  {
    if j < n {
      var h := all[..n + 1];
      var c := SlidingIsSuffix(all[..n], window);
      assert h[..n] == all[..n];
      var t := TrimIsDrop(all[..n][c..] + [h[n]], h[n].ts - window);
      assert |Sliding(h, window)| == n - c + 1 - t;
      CutsGrow(all, window, j, n - 1, e, c);
    }
  }

  /** Exactly when a session's window is, after each of its arrivals, the filter of all its
      history so far: no arrival revives an outdated event or hides one behind a fresh one. */
  lemma SlidingIsFilterExactly(all: seq<Stamped>, window: nat)
    ensures (forall n :: 0 <= n < |all| ==> FilterAt(all, window, n)) <==> Undisturbed(all, window)
  {
    if Undisturbed(all, window) {
      forall n | 0 <= n < |all| ensures FilterAt(all, window, n) {
        UndisturbedIsFilter(all, window, n);
      }
    }
    if forall n :: 0 <= n < |all| ==> FilterAt(all, window, n) {
      forall i: nat, j: nat, n: nat ensures !Revives(all, i, j, n, window) && !Hides(all, i, j, n, window) {
        FilterIsUndisturbed(all, window, i, j, n);
      }
    }
  }

  /** The window of `key` is the filter of its history by the newest arrival's cutoff. */
  ghost predicate IsFilter(window: nat, evs: seq<Event>, key: Key) {
    var all := Accepted(evs, key);
    all != [] ==> QueueOf(WindowsAfter(window, evs), key) == Recent(all, window)
  }

  lemma {:induction false} AcceptedGrows(evs: seq<Event>, key: Key, m: nat)
    requires m <= |evs|
    ensures Accepted(evs[..m], key) <= Accepted(evs, key)
  {
    if m == |evs| {
      assert evs[..m] == evs;
    } else {
      AcceptedGrows(evs[..|evs| - 1], key, m);
      assert evs[..|evs| - 1][..m] == evs[..m];
    }
  }

  /** Each accepted event arrives at some time. */
  lemma {:induction false} ArrivesAt(evs: seq<Event>, key: Key, n: nat) returns (m: nat)
    requires n < |Accepted(evs, key)|
    ensures m <= |evs| && Accepted(evs[..m], key) == Accepted(evs, key)[..n + 1]
  {
    var before := evs[..|evs| - 1];
    if n < |Accepted(before, key)| {
      m := ArrivesAt(before, key, n);
      assert before[..m] == evs[..m];
    } else {
      m := |evs|;
      assert evs[..m] == evs;
    }
  }

  lemma FilterAtIsFilter(window: nat, evs: seq<Event>, key: Key, m: nat, n: nat)
    requires m <= |evs| && n < |Accepted(evs, key)| && Accepted(evs[..m], key) == Accepted(evs, key)[..n + 1]
    ensures FilterAt(Accepted(evs, key), window, n) <==> IsFilter(window, evs[..m], key)
  {
    WindowSlides(window, evs[..m], key);
  }

  /** The window over whole histories: at every time the filter of the last `window` seconds,
      exactly when no arrival revives or hides. */
  lemma WindowIsFilterExactly(window: nat, evs: seq<Event>, key: Key)
    ensures (forall m :: 0 <= m <= |evs| ==> IsFilter(window, evs[..m], key)) <==>
        Undisturbed(Accepted(evs, key), window)
  {
    var all := Accepted(evs, key);
    SlidingIsFilterExactly(all, window);
    if Undisturbed(all, window) {
      forall m | 0 <= m <= |evs| ensures IsFilter(window, evs[..m], key) {
        AcceptedGrows(evs, key, m);
        var n := |Accepted(evs[..m], key)|;
        if n > 0 {
          FilterAtIsFilter(window, evs, key, m, n - 1);
        }
      }
    }
    if forall m :: 0 <= m <= |evs| ==> IsFilter(window, evs[..m], key) {
      forall n | 0 <= n < |all| ensures FilterAt(all, window, n) {
        var m := ArrivesAt(evs, key, n);
        FilterAtIsFilter(window, evs, key, m, n);
      }
    }
  }

  /** With timestamps in order the window is exactly the events of the last `window` seconds. */
  lemma OrderedWindowIsFilter(window: nat, evs: seq<Event>, key: Key)
    requires InOrder(Accepted(evs, key)) && Accepted(evs, key) != []
    ensures QueueOf(WindowsAfter(window, evs), key) == Recent(Accepted(evs, key), window)
  {
    OrderedIsUndisturbed(Accepted(evs, key), window);
    WindowIsFilterExactly(window, evs, key);
    assert IsFilter(window, evs[..|evs|], key);
    assert evs[..|evs|] == evs;
  }

  lemma OrderedIsUndisturbed(all: seq<Stamped>, window: nat)
    requires InOrder(all)
    ensures Undisturbed(all, window)
  {
  }

  /** Out of order it is not: an event dropped for a newer one stays dropped when a late
      event moves the cutoff back. */
  lemma LateEventBreaksFilter(a: Event, b: Event, c: Event)
    requires a.student == b.student == c.student != "" && a.session == b.session == c.session != ""
    requires a.ts == Some(0) && b.ts == Some(100) && c.ts == Some(30)
    ensures QueueOf(WindowsAfter(60, [a, b, c]), KeyOf(a)) == [Stamped(100, b), Stamped(30, c)]
    ensures Since(Accepted([a, b, c], KeyOf(a)), 30 - 60) == [Stamped(0, a), Stamped(100, b), Stamped(30, c)]
  {
    var k := KeyOf(a);
    var sa, sb, sc := Stamped(0, a), Stamped(100, b), Stamped(30, c);
    assert [a, b, c][..2] == [a, b] && [a, b][..1] == [a] && [a][..0] == [];
    assert Accepted([a], k) == [sa];
    assert Accepted([a, b], k) == [sa, sb];
    assert Accepted([a, b, c], k) == [sa, sb, sc];
    assert [sa, sb, sc][1..] == [sb, sc] && [sb, sc][1..] == [sc] && [sa, sb][1..] == [sb];
    assert Since([sc], -30) == [sc] + Since([], -30);
    assert Since([sb, sc], -30) == [sb, sc];
    assert WindowsAfter(60, [a])[k] == [sa];
    assert Trim([sa, sb], 40) == Trim([sb], 40) == [sb];
    assert WindowsAfter(60, [a, b])[k] == [sb];
  }
}
