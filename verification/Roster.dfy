/** The dashboard's student roster: live sessions in sorted order, then students known only
    from alerts, each with the fields of the latest alert. */
module Roster {
  import opened Telemetry
  import opened Sorting

  /** The alert fields the roster reads; `None` when a field is missing, "" for no student. */
  datatype AlertRecord = AlertRecord(
    student: string, score: Option<int>, category: Option<string>, reason: Option<string>)

  datatype Row = Row(id: string, risk: int, category: string, reason: string)

  /** An insertion-ordered dictionary: overwriting a key keeps its place. */
  datatype Latest = Latest(order: seq<string>, alerts: map<string, AlertRecord>)

  /** One line of the alert log; `None` when it does not decode. */
  type LogLine = Option<AlertRecord>

  predicate Names(line: LogLine, student: string) {
    line.Some? && line.value.student == student && student != ""
  }

  function Noted(l: Latest, line: LogLine): Latest {
    if line.None? || line.value.student == "" then l
    else
      var id := line.value.student;
      Latest(if id in l.alerts then l.order else l.order + [id], l.alerts[id := line.value])
  }

  function LatestOf(log: seq<LogLine>): Latest {
    if log == [] then Latest([], map[]) else Noted(LatestOf(log[..|log| - 1]), log[|log| - 1])
  }

  function RowFor(id: string, l: Latest): Row {
    if id in l.alerts then
      var a := l.alerts[id];
      Row(id, a.score.GetOr(0), a.category.GetOr("Normal"), a.reason.GetOr(""))
    else Row(id, 0, "Normal", "")
  }

  function RowsFor(ids: seq<string>, l: Latest): (rows: seq<Row>)
    ensures |rows| == |ids| && forall i :: 0 <= i < |ids| ==> rows[i] == RowFor(ids[i], l)
  {
    if ids == [] then [] else RowsFor(ids[..|ids| - 1], l) + [RowFor(ids[|ids| - 1], l)]
  }

  /** The names not in `seen`, in order. */
  function Unseen(ids: seq<string>, seen: set<string>): seq<string> {
    if ids == [] then []
    else
      var before := Unseen(ids[..|ids| - 1], seen);
      if ids[|ids| - 1] in seen then before else before + [ids[|ids| - 1]]
  }

  // ----- order of names -------------------------------------------------------------------

  /** Lexicographic by code point. */
  predicate StrLe(a: string, b: string) {
    a == "" || (b != "" && (a[0] < b[0] || (a[0] == b[0] && StrLe(a[1..], b[1..]))))
  }

  /** Up to `k` the same, and there the smaller letter. */
  predicate DiffersAt(a: string, b: string, k: nat) {
    k < |a| && k < |b| && a[..k] == b[..k] && a[k] < b[k]
  }

  /** A name comes before another exactly when it is a beginning of it, or has the smaller letter
      where they first differ. */
  lemma {:induction false} StrLeExactly(a: string, b: string)
    ensures StrLe(a, b) <==> a <= b || exists k: nat :: DiffersAt(a, b, k)
  {
    if a != "" && b != "" {
      var s, t := a[1..], b[1..];
      forall k: nat | DiffersAt(a, b, k) ensures k == 0 || a[0] == b[0] {
        DiffersLater(a, b, k);
      }
      if a[0] == b[0] {
        StrLeExactly(s, t);
        assert a == [a[0]] + s && b == [b[0]] + t;
        forall k: nat | DiffersAt(s, t, k) ensures DiffersAt(a, b, k + 1) {
          assert a[..k + 1] == [a[0]] + s[..k] && b[..k + 1] == [b[0]] + t[..k];
        }
        forall k: nat | DiffersAt(a, b, k) ensures k > 0 && DiffersAt(s, t, k - 1) {
          assert s[..k - 1] == a[..k][1..] && t[..k - 1] == b[..k][1..];
        }
        assert s <= t <==> a <= b;
      } else {
        if a[0] < b[0] {
          assert DiffersAt(a, b, 0);
        }
      }
    }
  }

  lemma DiffersLater(a: string, b: string, k: nat)
    requires DiffersAt(a, b, k)
    ensures k == 0 || a[0] == b[0]
  {
    if k > 0 {
      assert a[..k][0] == b[..k][0];
    }
  }

  lemma {:induction false} StrLeTotal(a: string, b: string)
    ensures StrLe(a, b) || StrLe(b, a)
    ensures StrLe(a, b) && StrLe(b, a) ==> a == b
  {
    if a != "" && b != "" && a[0] == b[0] {
      StrLeTotal(a[1..], b[1..]);
      assert a == [a[0]] + a[1..] && b == [b[0]] + b[1..];
    }
  }

  lemma {:induction false} StrLeTransitive(a: string, b: string, c: string)
    requires StrLe(a, b) && StrLe(b, c)
    ensures StrLe(a, c)
  {
    if a != "" && a[0] == b[0] == c[0] {
      StrLeTransitive(a[1..], b[1..], c[1..]);
    }
  }

  function ByName(): (string, string) -> bool {
    (a: string, b: string) => StrLe(a, b)
  }

  lemma ByNameIsTotalPreorder()
    ensures TotalPreorder(ByName())
  {
    forall x, y ensures ByName()(x, y) || ByName()(y, x) {
      StrLeTotal(x, y);
    }
    forall x, y, z | ByName()(x, y) && ByName()(y, z) ensures ByName()(x, z) {
      StrLeTransitive(x, y, z);
    }
  }

  // ----- the two loops ----------------------------------------------------------------------

  method LatestAlertPerStudent(log: seq<LogLine>) returns (l: Latest)
    ensures l == LatestOf(log)
  {
    var order: seq<string>, alerts: map<string, AlertRecord> := [], map[];
    for i := 0 to |log|
      invariant Latest(order, alerts) == LatestOf(log[..i])
    {
      assert log[..i + 1][..i] == log[..i];
      if log[i].None? {
        continue;
      }
      var a := log[i].value;
      if a.student != "" {
        if a.student !in alerts {
          order := order + [a.student];
        }
        alerts := alerts[a.student := a];
      }
    }
    assert log[..|log|] == log;
    l := Latest(order, alerts);
  }

  /** `sessions` are the names in the session directory, in no particular order. */
  method ListStudents(log: seq<LogLine>, sessions: seq<string>) returns (out: seq<Row>)
    ensures out == RowsFor(RosterIds(log, sessions), LatestOf(log))
  {
    var latest := LatestAlertPerStudent(log);
    var names := Sorted(sessions, ByName());
    out := [];
    var seen: set<string> := {};
    for i := 0 to |names|
      invariant out == RowsFor(names[..i], latest) && seen == NameSet(names[..i])
    {
      var id := names[i];
      assert names[..i + 1] == names[..i] + [id];
      RowsSnoc(names[..i], id, latest);
      NameSetSnoc(names[..i], id);
      seen := seen + {id};
      out := out + [RowFor(id, latest)];
    }
    assert names[..|names|] == names;
    out := AddAlertOnly(out, names, latest, seen);
  }

  /** The second loop: students with alerts but no live session. */
  method AddAlertOnly(rows: seq<Row>, ghost names: seq<string>, latest: Latest, seen: set<string>)
    returns (out: seq<Row>)
    requires rows == RowsFor(names, latest)
    ensures out == RowsFor(names + Unseen(latest.order, seen), latest)
  {
    out := rows;
    var ids := latest.order;
    assert names + [] == names;
    for i := 0 to |ids|
      invariant out == RowsFor(names + Unseen(ids[..i], seen), latest)
    {
      RowAdded(names, ids, i, seen, latest);
      if ids[i] !in seen {
        out := out + [RowFor(ids[i], latest)];
      }
    }
    assert ids[..|ids|] == ids;
  }

  lemma RowAdded(names: seq<string>, ids: seq<string>, i: nat, seen: set<string>, l: Latest)
    requires i < |ids|
    ensures var rows := RowsFor(names + Unseen(ids[..i], seen), l);
      var rows' := RowsFor(names + Unseen(ids[..i + 1], seen), l);
      rows' == if ids[i] in seen then rows else rows + [RowFor(ids[i], l)]
  {
    var before := Unseen(ids[..i], seen);
    assert ids[..i + 1][..i] == ids[..i];
    if ids[i] !in seen {
      RowsSnoc(names + before, ids[i], l);
      assert names + before + [ids[i]] == names + (before + [ids[i]]);
    }
  }

  lemma NameSetSnoc(names: seq<string>, id: string)
    ensures NameSet(names + [id]) == NameSet(names) + {id}
  {
    var all := names + [id];
    assert all[|names|] == id;
    assert forall k :: 0 <= k < |names| ==> all[k] == names[k];
  }

  function NameSet(names: seq<string>): set<string> {
    set k | 0 <= k < |names| :: names[k]
  }

  lemma RowsSnoc(ids: seq<string>, id: string, l: Latest)
    ensures RowsFor(ids + [id], l) == RowsFor(ids, l) + [RowFor(id, l)]
  {
    assert (ids + [id])[..|ids|] == ids;
  }

  /** The ids of the roster, in order. */
  function RosterIds(log: seq<LogLine>, sessions: seq<string>): seq<string> {
    var names := Sorted(sessions, ByName());
    names + Unseen(LatestOf(log).order, NameSet(names))
  }

  // ----- what the roster means ----------------------------------------------------------------

  /** The `i`-th line is the last alert of `student`. */
  ghost predicate LastAlertAt(log: seq<LogLine>, student: string, i: nat) {
    i < |log| && Names(log[i], student) && forall k :: i < k < |log| ==> !Names(log[k], student)
  }

  lemma {:induction false} LastWins(log: seq<LogLine>, student: string)
    ensures student in LatestOf(log).alerts <==> exists i: nat :: LastAlertAt(log, student, i)
    ensures forall i: nat :: LastAlertAt(log, student, i) ==> LatestOf(log).alerts[student] == log[i].value
  {
    if log != [] {
      var before, n: nat := log[..|log| - 1], |log| - 1;
      LastWins(before, student);
      if Names(log[n], student) {
        assert LastAlertAt(log, student, n);
      } else {
        forall i: nat | i < n ensures LastAlertAt(log, student, i) <==> LastAlertAt(before, student, i) {
        }
        if student in LatestOf(before).alerts {
          var i: nat :| LastAlertAt(before, student, i);
          assert LastAlertAt(log, student, i);
        }
      }
    }
  }

  /** An alert that names no student puts no one on the roster. */
  lemma NamelessIsSkipped(log: seq<LogLine>)
    ensures "" !in LatestOf(log).alerts && "" !in LatestOf(log).order
  {
    LastWins(log, "");
    OrderIsByFirstAlert(log);
  }

  /** Index of the first alert of `student`, or the length of the log. */
  function FirstAlert(log: seq<LogLine>, student: string): (i: nat)
    ensures i <= |log|
    ensures i < |log| ==> Names(log[i], student)
    ensures forall k :: 0 <= k < i ==> !Names(log[k], student)
  {
    if log == [] then 0
    else
      var n := |log| - 1;
      var f := FirstAlert(log[..n], student);
      if f < n then f else if Names(log[n], student) then n else n + 1
  }

  ghost predicate ByFirstAlert(log: seq<LogLine>, order: seq<string>) {
    forall i, j :: 0 <= i < j < |order| ==> FirstAlert(log, order[i]) < FirstAlert(log, order[j])
  }

  /** Alerted students come in the order of their first alerts, hence each once. */
  lemma {:induction false} OrderIsByFirstAlert(log: seq<LogLine>)
    ensures ByFirstAlert(log, LatestOf(log).order)
    ensures forall id :: id in LatestOf(log).order <==> id in LatestOf(log).alerts
    ensures forall id :: id in LatestOf(log).order <==> FirstAlert(log, id) < |log|
  {
    if log != [] {
      var before := log[..|log| - 1];
      OrderIsByFirstAlert(before);
      var order, order' := LatestOf(before).order, LatestOf(log).order;
      forall i, j | 0 <= i < j < |order'| ensures FirstAlert(log, order'[i]) < FirstAlert(log, order'[j]) {
        assert order[i] in order;
        if j < |order| {
          assert order[j] in order;
        }
      }
    }
  }

  ghost predicate Distinct(ids: seq<string>) {
    forall i, j :: 0 <= i < j < |ids| ==> ids[i] != ids[j]
  }

  lemma {:induction false} UnseenMembers(ids: seq<string>, seen: set<string>)
    ensures forall id :: id in Unseen(ids, seen) <==> id in ids && id !in seen
    ensures Distinct(ids) ==> Distinct(Unseen(ids, seen))
  {
    if ids != [] {
      var before, last := ids[..|ids| - 1], ids[|ids| - 1];
      UnseenMembers(before, seen);
      assert ids == before + [last];
      if Distinct(ids) {
        assert Distinct(before) && last !in before;
      }
    }
  }

  /** Skipping names keeps the rest in the order of their first alerts. */
  lemma {:induction false} UnseenKeepsOrder(log: seq<LogLine>, ids: seq<string>, seen: set<string>)
    requires ByFirstAlert(log, ids)
    ensures ByFirstAlert(log, Unseen(ids, seen))
  {
    if ids != [] {
      var before, last := ids[..|ids| - 1], ids[|ids| - 1];
      UnseenKeepsOrder(log, before, seen);
      UnseenMembers(before, seen);
      var kept := Unseen(before, seen);
      forall id | id in kept ensures FirstAlert(log, id) < FirstAlert(log, last) {
        var k :| 0 <= k < |before| && before[k] == id;
        assert ids[k] == id;
      }
      ByFirstAlertSnoc(log, kept, last);
    }
  }

  lemma ByFirstAlertSnoc(log: seq<LogLine>, ids: seq<string>, last: string)
    requires ByFirstAlert(log, ids) && forall id :: id in ids ==> FirstAlert(log, id) < FirstAlert(log, last)
    ensures ByFirstAlert(log, ids + [last])
  {
  }

  lemma {:induction false} InsertKeepsDistinct(x: string, s: seq<string>)
    requires Distinct(s) && x !in s
    ensures Distinct(Insert(x, s, ByName()))
  {
    if !(s == [] || ByName()(x, s[0])) {
      var t := s[1..];
      assert s == [s[0]] + t;
      InsertKeepsDistinct(x, t);
      var u := Insert(x, t, ByName());
      InsertMembers(x, t, ByName(), s[0]);
      assert s[0] !in t;
      assert s[0] !in u;
    }
  }

  lemma {:induction false} SortedKeepsDistinct(s: seq<string>)
    requires Distinct(s)
    ensures Distinct(Sorted(s, ByName()))
  {
    if s != [] {
      var t := s[1..];
      SortedKeepsDistinct(t);
      SortedMembers(t, ByName(), s[0]);
      assert s[0] !in t;
      InsertKeepsDistinct(s[0], Sorted(t, ByName()));
    }
  }

  /** Roster. With the distinct names of a directory, every student with a live session or an
      alert is listed exactly once and no one else is: sessions first, in name order, then the
      others in the order of their first alerts. */
  lemma RosterIsJoin(log: seq<LogLine>, sessions: seq<string>)
    requires Distinct(sessions)
    ensures var ids, names := RosterIds(log, sessions), Sorted(sessions, ByName());
      && Distinct(ids)
      && (forall id :: id in ids <==> id in sessions || FirstAlert(log, id) < |log|)
      && names <= ids && |names| == |sessions|
      && Ascending(names, ByName()) && multiset(names) == multiset(sessions)
      && ByFirstAlert(log, ids[|names|..])
  {
    var names, order := Sorted(sessions, ByName()), LatestOf(log).order;
    var rest := Unseen(order, NameSet(names));
    ByNameIsTotalPreorder();
    SortedIsSorted(sessions, ByName());
    SortedKeepsDistinct(sessions);
    OrderIsByFirstAlert(log);
    DistinctByFirstAlert(log, order);
    UnseenMembers(order, NameSet(names));
    UnseenKeepsOrder(log, order, NameSet(names));
    assert |names| == |multiset(names)| == |multiset(sessions)| == |sessions|;
    var ids := RosterIds(log, sessions);
    assert ids == names + rest && ids[|names|..] == rest;
    forall id ensures id in ids <==> id in sessions || FirstAlert(log, id) < |log| {
      SortedMembers(sessions, ByName(), id);
      assert id in NameSet(names) <==> id in names;
    }
    JoinIsDistinct(names, rest);
  }

  lemma DistinctByFirstAlert(log: seq<LogLine>, order: seq<string>)
    requires ByFirstAlert(log, order)
    ensures Distinct(order)
  {
  }

  lemma JoinIsDistinct(a: seq<string>, b: seq<string>)
    requires Distinct(a) && Distinct(b) && forall x :: x in b ==> x !in NameSet(a)
    ensures Distinct(a + b)
  {
    var ab := a + b;
    forall i, j | 0 <= i < j < |ab| ensures ab[i] != ab[j] {
      if i < |a| <= j {
        assert ab[j] == b[j - |a|] && b[j - |a|] in b;
        assert ab[i] == a[i] && a[i] in NameSet(a);
      }
    }
  }

  /** A student's row carries the fields of the last alert in the log, or the defaults without one. */
  lemma RowCarriesLastAlert(log: seq<LogLine>, id: string)
    ensures forall k: nat :: LastAlertAt(log, id, k) ==>
      var a := log[k].value;
      RowFor(id, LatestOf(log)) == Row(id, a.score.GetOr(0), a.category.GetOr("Normal"), a.reason.GetOr(""))
    ensures FirstAlert(log, id) == |log| ==> RowFor(id, LatestOf(log)) == Row(id, 0, "Normal", "")
    ensures FirstAlert(log, id) < |log| ==> exists k: nat :: LastAlertAt(log, id, k)
  {
    LastWins(log, id);
    OrderIsByFirstAlert(log);
  }
}
