/** The dashboard's event hub: a bounded ring per student, a bounded queue per client, and
    streams that replay the ring and then follow the queue. */
module EventHub {
  import opened Telemetry

  const RING_SIZE: nat := 1000
  const QUEUE_SIZE: nat := 256
  const REPLAY: nat := 50

  /** Identity of one client's queue. */
  type Client = nat

  /** The last `n` elements, or all of them when there are fewer. */
  function Last<T>(s: seq<T>, n: nat): seq<T> {
    if |s| <= n then s else s[|s| - n..]
  }

  /** What `Last` leaves out comes before it, and it is as long as it can be. */
  lemma LastIsTail<T>(s: seq<T>, n: nat) returns (front: seq<T>)
    ensures s == front + Last(s, n) && |Last(s, n)| <= n && (front == [] || |Last(s, n)| == n)
  {
    front := s[..|s| - |Last(s, n)|];
  }

  /** The slice `s[-limit:]`: for 0 that is the whole list, for a negative limit a drop. */
  function TailSlice<T>(s: seq<T>, limit: int): seq<T> {
    if limit > 0 then Last(s, limit)
    else if -limit <= |s| then s[-limit..]
    else []
  }

  /** No limit takes all; a negative one leaves out so many from the front. */
  lemma TailSliceLeavesOut<T>(s: seq<T>, limit: int) returns (front: seq<T>)
    ensures limit == 0 ==> TailSlice(s, limit) == s
    ensures limit < 0 && |s| < -limit ==> TailSlice(s, limit) == []
    ensures limit < 0 && |s| >= -limit ==> |front| == -limit && s == front + TailSlice(s, limit)
    ensures limit > 0 ==> s == front + TailSlice(s, limit) && |TailSlice(s, limit)| <= limit
    ensures limit > 0 && front != [] ==> |TailSlice(s, limit)| == limit
  {
    if limit > 0 {
      front := LastIsTail(s, limit);
    } else {
      front := if -limit <= |s| then s[..-limit] else [];
    }
  }

  datatype Hub = Hub(
    rings: map<string, seq<Event>>,
    subscribers: map<string, seq<Client>>,
    queues: map<Client, seq<Event>>)

  function RingOf(h: Hub, student: string): seq<Event> {
    if student in h.rings then h.rings[student] else []
  }

  function SubscribersOf(h: Hub, student: string): seq<Client> {
    if student in h.subscribers then h.subscribers[student] else []
  }

  ghost predicate Distinct(s: seq<Client>) {
    forall i, j :: 0 <= i < j < |s| ==> s[i] != s[j]
  }

  /** Rings are within bounds, and every listed client has a queue and is listed once. */
  ghost predicate ValidHub(h: Hub) {
    && (forall student :: student in h.rings ==> |h.rings[student]| <= RING_SIZE)
    && forall student :: student in h.subscribers ==>
      Distinct(h.subscribers[student]) && forall q :: q in h.subscribers[student] ==> q in h.queues
  }

  /** Client `q` takes the student's next event. */
  predicate Room(h: Hub, student: string, q: Client) {
    q in SubscribersOf(h, student) && q in h.queues && |h.queues[q]| < QUEUE_SIZE
  }

  ghost function Accepted(h: Hub, ev: Event): Hub {
    if ev.student == "" then h
    else
      h.(rings := h.rings[ev.student := Last(RingOf(h, ev.student) + [ev], RING_SIZE)],
         queues := map q | q in h.queues :: if Room(h, ev.student, q) then h.queues[q] + [ev] else h.queues[q])
  }

  ghost function Registered(h: Hub, student: string, q: Client): Hub {
    h.(subscribers := h.subscribers[student := SubscribersOf(h, student) + [q]], queues := h.queues[q := []])
  }

  function Without(s: seq<Client>, q: Client): seq<Client> {
    if s == [] then [] else if s[0] == q then s[1..] else [s[0]] + Without(s[1..], q)
  }

  ghost function Unregistered(h: Hub, student: string, q: Client): Hub {
    if q !in SubscribersOf(h, student) then h
    else h.(subscribers := h.subscribers[student := Without(SubscribersOf(h, student), q)])
  }

  /** `after` is `before` with `ev` put into every queue in `qs` that had room. */
  ghost predicate EnqueuedInto(before: map<Client, seq<Event>>, qs: set<Client>, ev: Event,
                               after: map<Client, seq<Event>>) {
    && after.Keys == before.Keys
    && forall q :: q in before ==>
         after[q] == if q in qs && |before[q]| < QUEUE_SIZE then before[q] + [ev] else before[q]
  }

  function ClientSet(qs: seq<Client>): set<Client> {
    set q | q in qs
  }

  lemma OneMoreQueue(before: map<Client, seq<Event>>, qs: set<Client>, q: Client, ev: Event,
                     now: map<Client, seq<Event>>)
    requires q !in qs && q in before && EnqueuedInto(before, qs, ev, now)
    ensures now[q] == before[q]
    ensures EnqueuedInto(before, qs + {q}, ev, if |now[q]| < QUEUE_SIZE then now[q := now[q] + [ev]] else now)
  {
  }

  lemma NextClient(qs: seq<Client>, i: nat)
    requires i < |qs| && Distinct(qs)
    ensures qs[i] !in ClientSet(qs[..i])
    ensures ClientSet(qs[..i + 1]) == ClientSet(qs[..i]) + {qs[i]}
  {
    assert qs[..i + 1] == qs[..i] + [qs[i]];
  }

  class LiveHub {
    var rings: map<string, seq<Event>>
    var subscribers: map<string, seq<Client>>
    var queues: map<Client, seq<Event>>

    ghost function View(): Hub
      reads this
    {
      Hub(rings, subscribers, queues)
    }

    constructor ()
      ensures View() == Hub(map[], map[], map[]) && ValidHub(View())
    {
      rings, subscribers, queues := map[], map[], map[];
    }

    /** One event off the bus: into the student's ring and into every queue with room. */
    method Accept(ev: Event)
      requires ValidHub(View())
      modifies this
      ensures View() == Accepted(old(View()), ev) && ValidHub(View())
    {
      if ev.student == "" {
        return;
      }
      var ring := (if ev.student in rings then rings[ev.student] else []) + [ev];
      if |ring| > RING_SIZE {
        ring := ring[1..];
      }
      assert ring == Last(RingOf(View(), ev.student) + [ev], RING_SIZE);
      rings := rings[ev.student := ring];
      Enqueue(if ev.student in subscribers then subscribers[ev.student] else [], ev);
      assert queues == Accepted(old(View()), ev).queues;
    }

    /** The fan-out loop: a full queue drops the event for its client only. */
    method Enqueue(qs: seq<Client>, ev: Event)
      requires Distinct(qs) && forall q :: q in qs ==> q in queues
      modifies `queues
      ensures EnqueuedInto(old(queues), ClientSet(qs), ev, queues)
    {
      for i := 0 to |qs|
        invariant EnqueuedInto(old(queues), ClientSet(qs[..i]), ev, queues)
      {
        NextClient(qs, i);
        OneMoreQueue(old(queues), ClientSet(qs[..i]), qs[i], ev, queues);
        if |queues[qs[i]]| < QUEUE_SIZE {
          queues := queues[qs[i] := queues[qs[i]] + [ev]];
        }
      }
      assert qs[..|qs|] == qs;
    }

    method Register(student: string, q: Client)
      requires ValidHub(View()) && q !in queues
      modifies this
      ensures View() == Registered(old(View()), student, q) && ValidHub(View())
    {
      subscribers := subscribers[student := (if student in subscribers then subscribers[student] else []) + [q]];
      queues := queues[q := []];
    }

    method GetRecent(student: string, limit: int) returns (recent: seq<Event>)
      ensures recent == TailSlice(RingOf(View(), student), limit)
    {
      recent := TailSlice(if student in rings then rings[student] else [], limit);
    }

    method Get(q: Client) returns (ev: Event)
      requires ValidHub(View()) && q in queues && queues[q] != []
      modifies this
      ensures ev == old(queues)[q][0] && ValidHub(View())
      ensures View() == old(View()).(queues := old(queues)[q := old(queues)[q][1..]])
    {
      ev := queues[q][0];
      queues := queues[q := queues[q][1..]];
    }

    method Unregister(student: string, q: Client)
      requires ValidHub(View())
      modifies this
      ensures View() == Unregistered(old(View()), student, q) && ValidHub(View())
    {
      UnregisteredIsValid(View(), student, q);
      if student in subscribers && q in subscribers[student] {
        subscribers := subscribers[student := Without(subscribers[student], q)];
      }
    }
  }

  lemma {:induction false} WithoutRemoves(s: seq<Client>, q: Client)
    requires Distinct(s)
    ensures Distinct(Without(s, q))
    ensures forall c :: c in Without(s, q) <==> c in s && c != q
  {
    if s != [] {
      var t := s[1..];
      assert Distinct(t);
      WithoutRemoves(t, q);
      assert forall c :: c in s <==> c == s[0] || c in t;
      assert s[0] !in t;
    }
  }

  lemma UnregisteredIsValid(h: Hub, student: string, q: Client)
    requires ValidHub(h)
    ensures ValidHub(Unregistered(h, student, q))
  {
    if q in SubscribersOf(h, student) {
      WithoutRemoves(h.subscribers[student], q);
    }
  }

  // ----- streams over whole runs ---------------------------------------------------------

  /** A client's stream: the events yielded so far, the part of its snapshot still to be yielded,
      whether the snapshot has been taken. */
  datatype Stream = Stream(student: string, yielded: seq<Event>, todo: seq<Event>, started: bool, open: bool)

  /** What the stream has taken out of the hub: yielded, or about to be. */
  function Sending(st: Stream): seq<Event> {
    st.yielded + st.todo
  }

  datatype System = System(hub: Hub, streams: map<Client, Stream>)

  datatype Step =
    | Arrive(ev: Event)
    | Subscribe(student: string, q: Client)
    | Snapshot(q: Client)
    | Replay(q: Client)
    | Follow(q: Client)
    | Close(q: Client)

  ghost predicate Enabled(s: System, t: Step) {
    match t
    case Arrive(_) => true
    case Subscribe(_, q) => q !in s.hub.queues
    case Snapshot(q) => q in s.streams && s.streams[q].open && !s.streams[q].started
    case Replay(q) => q in s.streams && s.streams[q].open && s.streams[q].todo != []
    case Follow(q) =>
      && q in s.streams && s.streams[q].open && s.streams[q].started && s.streams[q].todo == []
      && q in s.hub.queues && s.hub.queues[q] != []
    case Close(q) => q in s.streams && s.streams[q].open
  }

  ghost function Apply(s: System, t: Step): System
    requires Enabled(s, t)
  {
    match t
    case Arrive(ev) => s.(hub := Accepted(s.hub, ev))
    case Subscribe(student, q) =>
      System(Registered(s.hub, student, q), s.streams[q := Stream(student, [], [], false, true)])
    case Snapshot(q) =>
      var st := s.streams[q];
      s.(streams := s.streams[q := st.(todo := TailSlice(RingOf(s.hub, st.student), REPLAY), started := true)])
    case Replay(q) =>
      var st := s.streams[q];
      s.(streams := s.streams[q := st.(yielded := st.yielded + [st.todo[0]], todo := st.todo[1..])])
    case Follow(q) =>
      var st := s.streams[q];
      System(s.hub.(queues := s.hub.queues[q := s.hub.queues[q][1..]]),
             s.streams[q := st.(yielded := st.yielded + [s.hub.queues[q][0]])])
    case Close(q) =>
      var st := s.streams[q];
      System(Unregistered(s.hub, st.student, q), s.streams[q := st.(open := false)])
  }

  /** Step `i` is enabled where it is taken and leads to the next state. */
  ghost predicate Linked(steps: seq<Step>, states: seq<System>, i: int) {
    0 <= i < |steps| && i + 1 < |states| && Enabled(states[i], steps[i]) && states[i + 1] == Apply(states[i], steps[i])
  }

  ghost predicate IsRun(steps: seq<Step>, states: seq<System>) {
    && |states| == |steps| + 1
    && states[0] == System(Hub(map[], map[], map[]), map[])
    && forall i :: 0 <= i < |steps| ==> Linked(steps, states, i)
  }

  predicate Counts(t: Step, student: string) {
    t.Arrive? && t.ev.student == student && student != ""
  }

  /** The student's events accepted during the first `n` steps, in order. */
  function History(steps: seq<Step>, student: string, n: nat): seq<Event>
    requires n <= |steps|
  {
    if n == 0 then []
    else if Counts(steps[n - 1], student) then History(steps, student, n - 1) + [steps[n - 1].ev]
    else History(steps, student, n - 1)
  }

  lemma {:induction false} HistoryGrows(steps: seq<Step>, student: string, m: nat, n: nat)
    requires m <= n <= |steps|
    ensures History(steps, student, m) <= History(steps, student, n)
  {
    if m < n {
      HistoryGrows(steps, student, m, n - 1);
    }
  }

  lemma {:induction false} HubStaysValid(steps: seq<Step>, states: seq<System>, n: nat)
    requires IsRun(steps, states) && n <= |steps|
    ensures ValidHub(states[n].hub)
  {
    if n > 0 {
      HubStaysValid(steps, states, n - 1);
      var s, t := states[n - 1], steps[n - 1];
      assert Linked(steps, states, n - 1);
      if t.Close? {
        UnregisteredIsValid(s.hub, s.streams[t.q].student, t.q);
      }
    }
  }

  lemma LastOfLast<T>(s: seq<T>, x: T, n: nat)
    requires n > 0
    ensures Last(Last(s, n) + [x], n) == Last(s + [x], n)
  {
  }

  /** Rings. A student's ring holds exactly the last 1000 of that student's accepted events,
      whatever happens to other students and to clients. */
  lemma {:induction false} RingIsLast(steps: seq<Step>, states: seq<System>, student: string, n: nat)
    requires IsRun(steps, states) && n <= |steps|
    ensures RingOf(states[n].hub, student) == Last(History(steps, student, n), 1000)
  {
    if n > 0 {
      RingIsLast(steps, states, student, n - 1);
      var s, t := states[n - 1], steps[n - 1];
      assert Linked(steps, states, n - 1);
      if Counts(t, student) {
        LastOfLast(History(steps, student, n - 1), t.ev, RING_SIZE);
      }
    }
  }

  /** A recent-events query with a limit the route admits returns the last `limit` events of
      the student's whole history. */
  lemma RecentIsLastOfHistory(steps: seq<Step>, states: seq<System>, student: string, n: nat, limit: int)
    requires IsRun(steps, states) && n <= |steps| && 1 <= limit <= 1000
    ensures TailSlice(RingOf(states[n].hub, student), limit) == Last(History(steps, student, n), limit)
  {
    RingIsLast(steps, states, student, n);
    LastOfLonger(History(steps, student, n), 1000, limit);
  }

  lemma LastOfLonger<T>(s: seq<T>, m: nat, n: nat)
    requires 0 < n <= m
    ensures TailSlice(Last(s, m), n) == Last(s, n)
  {
  }

  // ----- one client's stream ----------------------------------------------------------------

  /** Step `t` puts an event into the queue of `q`, which follows `student`. */
  ghost predicate Enqueues(s: System, t: Step, student: string, q: Client) {
    Counts(t, student) && Room(s.hub, student, q)
  }

  /** Positions, in the student's history, of the events put into the queue of `q`. */
  ghost function Enqueued(steps: seq<Step>, states: seq<System>, student: string, q: Client, n: nat): seq<nat>
    requires IsRun(steps, states) && n <= |steps|
  {
    if n == 0 then []
    else if Enqueues(states[n - 1], steps[n - 1], student, q) then
      Enqueued(steps, states, student, q, n - 1) + [|History(steps, student, n - 1)|]
    else Enqueued(steps, states, student, q, n - 1)
  }

  ghost function Pick(h: seq<Event>, at: seq<nat>): seq<Event> {
    if at == [] then []
    else Pick(h, at[..|at| - 1]) + if at[|at| - 1] < |h| then [h[at[|at| - 1]]] else []
  }

  ghost predicate Increasing(at: seq<nat>, lo: nat, hi: nat) {
    && (forall k :: 0 <= k < |at| ==> lo <= at[k] < hi)
    && forall k, l :: 0 <= k < l < |at| ==> at[k] < at[l]
  }

  lemma {:induction false} PickOfLonger(h: seq<Event>, h': seq<Event>, at: seq<nat>)
    requires h <= h' && forall k :: 0 <= k < |at| ==> at[k] < |h|
    ensures Pick(h, at) == Pick(h', at)
  {
    if at != [] {
      PickOfLonger(h, h', at[..|at| - 1]);
    }
  }

  /** Before it subscribes a client is nowhere. */
  lemma UnknownBefore(steps: seq<Step>, states: seq<System>, i: nat, q: Client, n: nat)
    requires IsRun(steps, states) && n <= i < |steps| && steps[i].Subscribe? && steps[i].q == q
    ensures q !in states[n].hub.queues && q !in states[n].streams
    ensures forall student :: q !in SubscribersOf(states[n].hub, student)
    ensures forall student :: Enqueued(steps, states, student, q, n) == []
  {
    HubStaysValid(steps, states, n);
    KnownForGood(steps, states, n, i, q);
    assert Linked(steps, states, i);
    NotYetEnqueued(steps, states, n, q);
    StreamsHaveQueues(steps, states, n);
  }

  lemma {:induction false} KnownForGood(steps: seq<Step>, states: seq<System>, m: nat, n: nat, q: Client)
    requires IsRun(steps, states) && m <= n <= |steps|
    ensures q in states[m].hub.queues ==> q in states[n].hub.queues
  {
    if m < n {
      KnownForGood(steps, states, m, n - 1, q);
      assert Linked(steps, states, n - 1);
    }
  }

  lemma {:induction false} StreamsHaveQueues(steps: seq<Step>, states: seq<System>, n: nat)
    requires IsRun(steps, states) && n <= |steps|
    ensures states[n].streams.Keys == states[n].hub.queues.Keys
  {
    if n > 0 {
      StreamsHaveQueues(steps, states, n - 1);
      assert Linked(steps, states, n - 1);
    }
  }

  lemma {:induction false} NotYetEnqueued(steps: seq<Step>, states: seq<System>, n: nat, q: Client)
    requires IsRun(steps, states) && n <= |steps| && q !in states[n].hub.queues
    ensures forall student :: Enqueued(steps, states, student, q, n) == []
  {
    if n > 0 {
      KnownForGood(steps, states, n - 1, n, q);
      NotYetEnqueued(steps, states, n - 1, q);
    }
  }

  /** Client `q` is known, follows `student`, and is listed there exactly while open. */
  ghost predicate Follows(s: System, student: string, q: Client) {
    && ValidHub(s.hub)
    && q in s.streams && q in s.hub.queues && s.streams[q].student == student
    && forall other :: q in SubscribersOf(s.hub, other) <==> other == student && s.streams[q].open
  }

  lemma StepKeepsFollowing(s: System, t: Step, student: string, q: Client)
    requires Enabled(s, t) && Follows(s, student, q) && ValidHub(Apply(s, t).hub)
    ensures Follows(Apply(s, t), student, q)
  {
    var s' := Apply(s, t);
    forall other ensures q in SubscribersOf(s'.hub, other) <==> other == student && s'.streams[q].open {
      assert q in SubscribersOf(s.hub, other) <==> other == student && s.streams[q].open;
      match t
      case Arrive(_) =>
      case Snapshot(_) =>
      case Replay(_) =>
      case Follow(_) =>
      case Subscribe(st, q') => assert q' != q;
      case Close(q') =>
        if s.streams[q'].student in s.hub.subscribers {
          WithoutRemoves(s.hub.subscribers[s.streams[q'].student], q');
        }
    }
  }

  /** What one step does to the stream and queue of `q`. */
  lemma StepOfStream(s: System, t: Step, student: string, q: Client)
    requires Enabled(s, t) && Follows(s, student, q)
    ensures var s' := Apply(s, t);
      && q in s'.streams && q in s'.hub.queues
      && var st, st' := s.streams[q], s'.streams[q];
      && (t == Snapshot(q) ==>
            !st.started && st'.started && Sending(st') == st.yielded + TailSlice(RingOf(s.hub, student), REPLAY) &&
            st'.yielded == st.yielded && s'.hub.queues[q] == s.hub.queues[q])
      && (t != Snapshot(q) ==>
            && st'.started == st.started && |Sending(st')| >= |Sending(st)|
            && (!st.started && st.todo == [] ==> Sending(st') == Sending(st) && st'.todo == [])
            && (st'.todo != [] ==> st.todo != [] && Sending(st') == Sending(st))
            && Sending(st') + s'.hub.queues[q] ==
               Sending(st) + s.hub.queues[q] + (if Enqueues(s, t, student, q) then [t.ev] else []))
  {
    var st := s.streams[q];
    if t == Follow(q) {
      HeadMoves(st.yielded, s.hub.queues[q]);
    } else if t == Replay(q) {
      HeadMoves(st.yielded, st.todo);
    } else if t != Snapshot(q) {
      OthersOnlyEnqueue(s, t, student, q);
      AppendTwice(Sending(st), s.hub.queues[q], if Enqueues(s, t, student, q) then [t.ev] else []);
    }
  }

  lemma HeadMoves(done: seq<Event>, todo: seq<Event>)
    requires todo != []
    ensures (done + [todo[0]]) + todo[1..] == done + todo
    ensures done + [] == done && (done + [todo[0]]) + [] == done + [todo[0]]
  {
  }

  /** Whatever is not a step of the client's own stream can only put an event into its queue. */
  lemma OthersOnlyEnqueue(s: System, t: Step, student: string, q: Client)
    requires Enabled(s, t) && Follows(s, student, q) && t != Snapshot(q) && t != Replay(q) && t != Follow(q)
    ensures var s' := Apply(s, t);
      && q in s'.streams && q in s'.hub.queues
      && s'.streams[q] == s.streams[q].(open := s'.streams[q].open)
      && s'.hub.queues[q] == s.hub.queues[q] + if Enqueues(s, t, student, q) then [t.ev] else []
  {
  }

  lemma {:induction false} StillFollows(steps: seq<Step>, states: seq<System>, i: nat, student: string, q: Client,
                                        n: nat)
    requires IsRun(steps, states) && i < n <= |steps| && steps[i] == Subscribe(student, q)
    ensures Follows(states[n], student, q)
  {
    HubStaysValid(steps, states, n);
    var s, t := states[n - 1], steps[n - 1];
    assert Linked(steps, states, n - 1);
    if n == i + 1 {
      UnknownBefore(steps, states, i, q, i);
      forall other ensures q in SubscribersOf(states[n].hub, other) <==> other == student {
        assert q !in SubscribersOf(s.hub, other);
      }
    } else {
      StillFollows(steps, states, i, student, q, n - 1);
      StepKeepsFollowing(s, t, student, q);
    }
  }

  lemma IncreasingSnoc(at: seq<nat>, lo: nat, hi: nat, k: nat)
    requires Increasing(at, lo, hi) && lo <= k && hi <= k
    ensures Increasing(at + [k], lo, k + 1)
    ensures k !in at
  {
  }

  /** What was put into a client's queue came after its registration, each event once, in order. */
  lemma {:induction false} EnqueuedAfterRegistration(
      steps: seq<Step>, states: seq<System>, i: nat, student: string, q: Client, n: nat)
    requires IsRun(steps, states) && i < n <= |steps| && steps[i] == Subscribe(student, q)
    ensures Increasing(Enqueued(steps, states, student, q, n),
                       |History(steps, student, i)|, |History(steps, student, n)|)
  {
    if n == i + 1 {
      UnknownBefore(steps, states, i, q, i);
      assert Enqueued(steps, states, student, q, n) == [];
    } else {
      EnqueuedAfterRegistration(steps, states, i, student, q, n - 1);
      HistoryGrows(steps, student, i, n - 1);
      if Enqueues(states[n - 1], steps[n - 1], student, q) {
        var k := |History(steps, student, n - 1)|;
        IncreasingSnoc(Enqueued(steps, states, student, q, n - 1), |History(steps, student, i)|, k, k);
      }
    }
  }

  /** The events put into the queue of `q` so far, in order. */
  ghost function Queued(steps: seq<Step>, states: seq<System>, student: string, q: Client, n: nat): seq<Event>
    requires IsRun(steps, states) && n <= |steps|
  {
    Pick(History(steps, student, n), Enqueued(steps, states, student, q, n))
  }

  /** Yielded, still to be replayed and queued events together, once step `j` took the snapshot. */
  ghost predicate ReplayThenQueue(steps: seq<Step>, states: seq<System>, student: string, q: Client, j: nat, n: nat)
    requires IsRun(steps, states) && n <= |steps|
  {
    && j < n && steps[j] == Snapshot(q)
    && q in states[n].streams && q in states[n].hub.queues && states[n].streams[q].started
    && var replay := Last(History(steps, student, j), 50);
    && |Sending(states[n].streams[q])| >= |replay|
    && (states[n].streams[q].todo != [] ==> Sending(states[n].streams[q]) == replay)
    && Sending(states[n].streams[q]) + states[n].hub.queues[q] == replay + Queued(steps, states, student, q, n)
  }

  ghost predicate NotReplayed(steps: seq<Step>, states: seq<System>, student: string, q: Client, n: nat)
    requires IsRun(steps, states) && n <= |steps|
  {
    && q in states[n].streams && q in states[n].hub.queues && !states[n].streams[q].started
    && states[n].streams[q].yielded == [] && states[n].streams[q].todo == []
    && states[n].hub.queues[q] == Queued(steps, states, student, q, n)
  }

  /** Replay then follow. A client's stream is the last 50 events at the time of its snapshot,
      followed by exactly the events its queue took since registration, in order; these wait
      until the snapshot is yielded to its end. */
  lemma {:induction false} StreamShape(steps: seq<Step>, states: seq<System>, i: nat, student: string, q: Client,
                                       n: nat)
    returns (j: nat)
    requires IsRun(steps, states) && i < n <= |steps| && steps[i] == Subscribe(student, q)
    ensures NotReplayed(steps, states, student, q, n) || (i < j && ReplayThenQueue(steps, states, student, q, j, n))
  {
    j := 0;
    if n == i + 1 {
      UnknownBefore(steps, states, i, q, i);
      assert Linked(steps, states, i);
      assert Enqueued(steps, states, student, q, n) == [];
      assert Queued(steps, states, student, q, n) == [];
      assert NotReplayed(steps, states, student, q, n);
    } else {
      j := StreamShape(steps, states, i, student, q, n - 1);
      if NotReplayed(steps, states, student, q, n - 1) {
        if steps[n - 1] == Snapshot(q) {
          j := n - 1;
        }
        ShapeBeforeReplay(steps, states, i, student, q, n);
      } else {
        ShapeAfterReplay(steps, states, i, student, q, j, n);
      }
    }
  }

  lemma ShapeBeforeReplay(steps: seq<Step>, states: seq<System>, i: nat, student: string, q: Client, n: nat)
    requires IsRun(steps, states) && i + 1 < n <= |steps| && steps[i] == Subscribe(student, q)
    requires NotReplayed(steps, states, student, q, n - 1)
    ensures if steps[n - 1] == Snapshot(q) then ReplayThenQueue(steps, states, student, q, n - 1, n)
            else NotReplayed(steps, states, student, q, n)
  {
    var s, t := states[n - 1], steps[n - 1];
    assert Linked(steps, states, n - 1);
    StillFollows(steps, states, i, student, q, n - 1);
    StepOfStream(s, t, student, q);
    QueuedGrows(steps, states, i, student, q, n);
    RingIsLast(steps, states, student, n - 1);
  }

  lemma ShapeAfterReplay(steps: seq<Step>, states: seq<System>, i: nat, student: string, q: Client, j: nat, n: nat)
    requires IsRun(steps, states) && i + 1 < n <= |steps| && steps[i] == Subscribe(student, q)
    requires ReplayThenQueue(steps, states, student, q, j, n - 1)
    ensures ReplayThenQueue(steps, states, student, q, j, n)
  {
    var s, t := states[n - 1], steps[n - 1];
    assert Linked(steps, states, n - 1);
    StillFollows(steps, states, i, student, q, n - 1);
    StepOfStream(s, t, student, q);
    QueuedGrows(steps, states, i, student, q, n);
    AppendTwice(Last(History(steps, student, j), REPLAY), Queued(steps, states, student, q, n - 1),
                if Enqueues(s, t, student, q) then [t.ev] else []);
  }

  lemma AppendTwice(a: seq<Event>, b: seq<Event>, c: seq<Event>)
    ensures (a + b) + c == a + (b + c)
  {
  }

  lemma QueuedGrows(steps: seq<Step>, states: seq<System>, i: nat, student: string, q: Client, n: nat)
    requires IsRun(steps, states) && i + 1 < n <= |steps| && steps[i] == Subscribe(student, q)
    ensures Queued(steps, states, student, q, n) ==
            Queued(steps, states, student, q, n - 1) +
            if Enqueues(states[n - 1], steps[n - 1], student, q) then [steps[n - 1].ev] else []
  {
    var h, h' := History(steps, student, n - 1), History(steps, student, n);
    var at := Enqueued(steps, states, student, q, n - 1);
    HistoryGrows(steps, student, n - 1, n);
    EnqueuedAfterRegistration(steps, states, i, student, q, n - 1);
    PickOfLonger(h, h', at);
    if Enqueues(states[n - 1], steps[n - 1], student, q) {
      PickOneMore(h', at, |h|);
    }
  }

  lemma PickOneMore(h: seq<Event>, at: seq<nat>, k: nat)
    requires k < |h|
    ensures Pick(h, at + [k]) == Pick(h, at) + [h[k]]
  {
    assert (at + [k])[..|at|] == at;
  }

  /** The stream of `q` is open and its queue has room. */
  ghost predicate Takes(s: System, q: Client) {
    q in s.streams && s.streams[q].open && q in s.hub.queues && |s.hub.queues[q]| < 256
  }

  /** Nothing is skipped silently: an event of the student accepted at step `t`, after
      registration and while the stream is open, is queued unless the queue holds 256. */
  lemma {:induction false} QueuedUnlessFull(
      steps: seq<Step>, states: seq<System>, i: nat, student: string, q: Client, t: nat, n: nat)
    requires IsRun(steps, states) && i < t < n <= |steps| && steps[i] == Subscribe(student, q)
    requires Counts(steps[t], student)
    ensures |History(steps, student, t)| in Enqueued(steps, states, student, q, n) <==> Takes(states[t], q)
  {
    var k := |History(steps, student, t)|;
    if n == t + 1 {
      QueuedAtOnce(steps, states, i, student, q, t);
    } else {
      QueuedUnlessFull(steps, states, i, student, q, t, n - 1);
      HistoryStep(steps, student, t + 1);
      HistoryGrows(steps, student, t + 1, n - 1);
      LaterPositions(steps, states, student, q, n, k);
    }
  }

  lemma LaterPositions(steps: seq<Step>, states: seq<System>, student: string, q: Client, n: nat, k: nat)
    requires IsRun(steps, states) && 0 < n <= |steps| && k < |History(steps, student, n - 1)|
    ensures k in Enqueued(steps, states, student, q, n) <==> k in Enqueued(steps, states, student, q, n - 1)
  {
    InSnoc(Enqueued(steps, states, student, q, n - 1), |History(steps, student, n - 1)|, k);
  }

  lemma QueuedAtOnce(steps: seq<Step>, states: seq<System>, i: nat, student: string, q: Client, t: nat)
    requires IsRun(steps, states) && i < t < |steps| && steps[i] == Subscribe(student, q)
    requires Counts(steps[t], student)
    ensures |History(steps, student, t)| in Enqueued(steps, states, student, q, t + 1) <==> Takes(states[t], q)
  {
    NotQueuedYet(steps, states, i, student, q, t);
    TakesIsEnqueues(steps, states, i, student, q, t);
  }

  lemma InSnoc(at: seq<nat>, x: nat, k: nat)
    ensures k in at + [x] <==> k in at || k == x
  {
  }

  lemma NotQueuedYet(steps: seq<Step>, states: seq<System>, i: nat, student: string, q: Client, t: nat)
    requires IsRun(steps, states) && i < t <= |steps| && steps[i] == Subscribe(student, q)
    ensures |History(steps, student, t)| !in Enqueued(steps, states, student, q, t)
  {
    EnqueuedAfterRegistration(steps, states, i, student, q, t);
  }

  /** With a queue that never fills, an open stream misses nothing after registration. */
  lemma {:induction false} NothingMissed(steps: seq<Step>, states: seq<System>, i: nat, student: string, q: Client,
                                         n: nat)
    requires IsRun(steps, states) && i < n <= |steps| && steps[i] == Subscribe(student, q)
    requires NeverFull(steps, states, i, student, q, n)
    ensures History(steps, student, i) + Queued(steps, states, student, q, n) == History(steps, student, n)
  {
    var hi := History(steps, student, i);
    if n == i + 1 {
      UnknownBefore(steps, states, i, q, i);
      assert Queued(steps, states, student, q, n) == [];
      assert hi + [] == hi;
    } else {
      NothingMissed(steps, states, i, student, q, n - 1);
      QueuedGrows(steps, states, i, student, q, n);
      TakesIsEnqueues(steps, states, i, student, q, n - 1);
      HistoryStep(steps, student, n);
      AppendTwice(hi, Queued(steps, states, student, q, n - 1), Added(steps[n - 1], student));
    }
  }

  function Added(t: Step, student: string): seq<Event> {
    if Counts(t, student) then [t.ev] else []
  }

  lemma HistoryStep(steps: seq<Step>, student: string, n: nat)
    requires 0 < n <= |steps|
    ensures History(steps, student, n) == History(steps, student, n - 1) + Added(steps[n - 1], student)
  {
  }

  ghost predicate NeverFull(steps: seq<Step>, states: seq<System>, i: nat, student: string, q: Client, n: nat) {
    |states| == |steps| + 1 && n <= |steps| &&
    forall t {:trigger steps[t]} :: i < t < n && Counts(steps[t], student) ==> Takes(states[t], q)
  }

  lemma TakesIsEnqueues(steps: seq<Step>, states: seq<System>, i: nat, student: string, q: Client, t: nat)
    requires IsRun(steps, states) && i < t < |steps| && steps[i] == Subscribe(student, q)
    ensures Enqueues(states[t], steps[t], student, q) <==> Counts(steps[t], student) && Takes(states[t], q)
  {
    StillFollows(steps, states, i, student, q, t);
  }

  /** Gap-free subscription. With a queue that never fills, what the client has got and still
      has queued is the replay followed by every event since registration. Registration comes
      before the snapshot, so the two overlap and between them no event is missing; those
      accepted between registration and snapshot are the only ones that can come twice. */
  lemma GapFree(steps: seq<Step>, states: seq<System>, i: nat, student: string, q: Client, n: nat) returns (j: nat)
    requires IsRun(steps, states) && i < n <= |steps| && steps[i] == Subscribe(student, q)
    requires NeverFull(steps, states, i, student, q, n)
    requires q in states[n].streams && q in states[n].hub.queues && states[n].streams[q].started
    ensures i < j < n && steps[j] == Snapshot(q)
    ensures var all := History(steps, student, n);
      var a, b := |History(steps, student, i)|, |History(steps, student, j)|;
      && a <= b <= |all|
      && Sending(states[n].streams[q]) + states[n].hub.queues[q] == Last(all[..b], 50) + all[a..]
  {
    j := StreamShape(steps, states, i, student, q, n);
    NothingMissed(steps, states, i, student, q, n);
    HistoryGrows(steps, student, i, j);
    HistoryGrows(steps, student, j, n);
    var all := History(steps, student, n);
    assert all[..|History(steps, student, j)|] == History(steps, student, j);
    assert all[|History(steps, student, i)|..] == Queued(steps, states, student, q, n);
  }

  /** In any run, an event that a client was queued and that also lies in its replay was
      accepted between the client's registration and its snapshot. */
  lemma DuplicatesAreInBetween(steps: seq<Step>, states: seq<System>, i: nat, student: string, q: Client, j: nat,
                               n: nat, k: nat)
    requires IsRun(steps, states) && i < j < n <= |steps|
    requires steps[i] == Subscribe(student, q) && steps[j] == Snapshot(q)
    requires k in Enqueued(steps, states, student, q, n) && k < |History(steps, student, j)|
    ensures exists t :: i < t < j && Counts(steps[t], student) && |History(steps, student, t)| == k
  {
    EnqueuedAfterRegistration(steps, states, i, student, q, n);
    PositionHasStep(steps, student, i, j, k);
  }

  lemma {:induction false} PositionHasStep(steps: seq<Step>, student: string, m: nat, n: nat, k: nat)
    requires m <= n <= |steps| && |History(steps, student, m)| <= k < |History(steps, student, n)|
    ensures exists t :: m <= t < n && Counts(steps[t], student) && |History(steps, student, t)| == k
  {
    if k < |History(steps, student, n - 1)| {
      PositionHasStep(steps, student, m, n - 1, k);
    }
  }

  /** An event, a client that subscribes after it, and its replay. */
  lemma OldEventReplayed(a: Event, q: Client) returns (s1: System, s2: System, s3: System, s4: System)
    requires a.student != ""
    ensures s1 == Apply(System(Hub(map[], map[], map[]), map[]), Arrive(a))
    ensures Enabled(s1, Subscribe(a.student, q)) && s2 == Apply(s1, Subscribe(a.student, q))
    ensures Enabled(s2, Snapshot(q)) && s3 == Apply(s2, Snapshot(q))
    ensures Enabled(s3, Replay(q)) && s4 == Apply(s3, Replay(q))
    ensures q in s4.streams && s4.streams[q] == Stream(a.student, [a], [], true, true)
    ensures SubscribersOf(s4.hub, a.student) == [q] && q in s4.hub.queues && s4.hub.queues[q] == []
  {
    s1 := Apply(System(Hub(map[], map[], map[]), map[]), Arrive(a));
    assert [] + [a] == [a];
    assert RingOf(s1.hub, a.student) == [a];
    s2 := Apply(s1, Subscribe(a.student, q));
    s3 := Apply(s2, Snapshot(q));
    assert s3.streams[q] == Stream(a.student, [], [a], true, true);
    s4 := Apply(s3, Replay(q));
    assert [] + [q] == [q] && [a][1..] == [];
  }

  lemma NewEventFollowed(s4: System, a: Event, b: Event, q: Client) returns (s5: System, s6: System)
    requires b.student != ""
    requires q in s4.streams && s4.streams[q] == Stream(b.student, [a], [], true, true)
    requires SubscribersOf(s4.hub, b.student) == [q] && q in s4.hub.queues && s4.hub.queues[q] == []
    ensures s5 == Apply(s4, Arrive(b))
    ensures Enabled(s5, Follow(q)) && s6 == Apply(s5, Follow(q))
    ensures q in s6.streams && s6.streams[q].yielded == [a, b]
  {
    s5 := Apply(s4, Arrive(b));
    assert s5.hub.queues[q] == [] + [b] == [b];
    s6 := Apply(s5, Follow(q));
    assert s6.streams[q].yielded == [a] + [b] == [a, b];
  }

  /** A stream can do all this: from the empty hub a client sees an event that came before it
      subscribed and one that came after, each once. */
  lemma EventsReachClient(a: Event, b: Event, q: Client) returns (steps: seq<Step>, states: seq<System>)
    requires a.student == b.student != ""
    ensures IsRun(steps, states) && |states| == 7
    ensures q in states[6].streams && states[6].streams[q].yielded == [a, b]
  {
    var s1, s2, s3, s4 := OldEventReplayed(a, q);
    var s5, s6 := NewEventFollowed(s4, a, b, q);
    steps := [Arrive(a), Subscribe(a.student, q), Snapshot(q), Replay(q), Arrive(b), Follow(q)];
    states := [System(Hub(map[], map[], map[]), map[]), s1, s2, s3, s4, s5, s6];
    forall i | 0 <= i < 6 ensures Linked(steps, states, i) {
    }
  }
}
