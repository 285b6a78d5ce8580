/** The dashboard's network map: flow events grouped by destination and port, summed, and
    sorted by bytes. */
module Flows {
  import opened Telemetry
  import opened Sorting

  datatype Row = Row(dst: string, port: int, bytes: int, count: int)

  // ----- the text key of a group -------------------------------------------------------

  function Digits(n: nat): (s: string) {
    if n < 10 then [Digit(n)] else Digits(n / 10) + [Digit(n % 10)]
  }

  function Digit(d: nat): char
    requires d < 10
  {
    ['0', '1', '2', '3', '4', '5', '6', '7', '8', '9'][d]
  }

  function Decimal(n: int): string {
    if n < 0 then "-" + Digits(-n) else Digits(n)
  }

  function ValueOf(c: char): nat {
    if '0' <= c <= '9' then (c - '0') as nat else 0
  }

  function ParseDigits(s: string): nat {
    if s == "" then 0 else 10 * ParseDigits(s[..|s| - 1]) + ValueOf(s[|s| - 1])
  }

  lemma DigitRoundTrip(d: nat)
    requires d < 10
    ensures ValueOf(Digit(d)) == d && '0' <= Digit(d) <= '9'
  {
  }

  lemma {:induction false} DigitsRoundTrip(n: nat)
    ensures ParseDigits(Digits(n)) == n && Digits(n) != ""
    ensures forall i :: 0 <= i < |Digits(n)| ==> '0' <= Digits(n)[i] <= '9'
  {
    if n < 10 {
      DigitRoundTrip(n);
      assert Digits(n)[..0] == "";
    } else {
      DigitsRoundTrip(n / 10);
      DigitRoundTrip(n % 10);
      assert Digits(n)[..|Digits(n)| - 1] == Digits(n / 10);
    }
  }

  lemma DecimalInjective(m: int, n: int)
    requires Decimal(m) == Decimal(n)
    ensures m == n
  {
    var am, an := if m < 0 then -m else m, if n < 0 then -n else n;
    DigitsRoundTrip(am);
    DigitsRoundTrip(an);
    if m < 0 { assert Decimal(m)[0] == '-' && Decimal(m)[1..] == Digits(am); }
    if n < 0 { assert Decimal(n)[0] == '-' && Decimal(n)[1..] == Digits(an); }
  }

  lemma DecimalHasNoColon(n: int)
    ensures ':' !in Decimal(n)
  {
    DigitsRoundTrip(if n < 0 then -n else n);
  }

  function PortOf(e: Event): int {
    e.dport.GetOr(0)
  }

  function KeyText(dst: string, port: int): string {
    dst + ":" + Decimal(port)
  }

  /** The text key stands for the pair, even when the address itself contains colons. */
  lemma KeyTextInjective(dst: string, port: int, dst': string, port': int)
    requires KeyText(dst, port) == KeyText(dst', port')
    ensures dst == dst' && port == port'
  {
    var d, d' := Decimal(port), Decimal(port');
    DecimalHasNoColon(port);
    DecimalHasNoColon(port');
    if |d| < |d'| {
      LongerHasColon(dst, d, dst', d');
      assert false;
    } else if |d'| < |d| {
      LongerHasColon(dst', d', dst, d);
      assert false;
    }
    var k := KeyText(dst, port);
    assert d == k[|dst| + 1..] == d' && dst == k[..|dst|] == dst';
    DecimalInjective(port, port');
  }

  lemma LongerHasColon(dst: string, d: string, dst': string, d': string)
    requires dst + ":" + d == dst' + ":" + d' && |d| < |d'|
    ensures ':' in d'
  {
    var k := dst + ":" + d;
    assert k[|dst|] == ':' && k == dst' + ":" + d';
    assert d'[|dst| - |dst'| - 1] == ':';
  }

  // ----- grouping -----------------------------------------------------------------------

  predicate Qualifies(e: Event) {
    e.kind.NetFlow? && e.daddr != ""
  }

  /** An insertion-ordered map from text keys to rows. */
  datatype Groups = Groups(order: seq<string>, rows: map<string, Row>)

  function Grouped(g: Groups, e: Event): Groups {
    if !Qualifies(e) then g
    else
      var key := KeyText(e.daddr, PortOf(e));
      if key in g.rows then
        var cur := g.rows[key];
        g.(rows := g.rows[key := cur.(bytes := cur.bytes + e.bytes.GetOr(0), count := cur.count + 1)])
      else
        Groups(g.order + [key], g.rows[key := Row(e.daddr, PortOf(e), e.bytes.GetOr(0), 1)])
  }

  function AllGrouped(events: seq<Event>): Groups {
    if events == [] then Groups([], map[])
    else Grouped(AllGrouped(events[..|events| - 1]), events[|events| - 1])
  }

  ghost predicate ValidGroups(g: Groups) {
    && (forall i :: 0 <= i < |g.order| ==> g.order[i] in g.rows)
    && (forall k :: k in g.rows ==> k in g.order)
    && (forall i, j :: 0 <= i < j < |g.order| ==> g.order[i] != g.order[j])
    && forall k :: k in g.rows ==> k == KeyText(g.rows[k].dst, g.rows[k].port)
  }

  lemma GroupedIsValid(g: Groups, e: Event)
    requires ValidGroups(g)
    ensures ValidGroups(Grouped(g, e))
  {
    var g' := Grouped(g, e);
    forall i, j | 0 <= i < j < |g'.order| ensures g'.order[i] != g'.order[j] {
      if j == |g.order| { assert g'.order[i] in g.rows; }
    }
  }

  lemma {:induction false} AllGroupedIsValid(events: seq<Event>)
    ensures ValidGroups(AllGrouped(events))
  {
    if events != [] {
      AllGroupedIsValid(events[..|events| - 1]);
      GroupedIsValid(AllGrouped(events[..|events| - 1]), events[|events| - 1]);
    }
  }

  ghost function RowsOf(g: Groups): (rows: seq<Row>)
    requires ValidGroups(g)
    ensures |rows| == |g.order|
    ensures forall i :: 0 <= i < |rows| ==> rows[i] == g.rows[g.order[i]]
  {
    seq(|g.order|, i requires 0 <= i < |g.order| => g.rows[g.order[i]])
  }

  /** More bytes first. */
  function MoreBytes(): (Row, Row) -> bool {
    (a: Row, b: Row) => a.bytes >= b.bytes
  }

  /** The table shown. */
  method FlowTable(events: seq<Event>) returns (table: seq<Row>)
    ensures IsTable(events, table)
  {
    var order: seq<string>, rows: map<string, Row> := [], map[];
    for i := 0 to |events|
      invariant Groups(order, rows) == AllGrouped(events[..i])
    {
      var e := events[i];
      assert events[..i + 1][..i] == events[..i];
      if !e.kind.NetFlow? || e.daddr == "" {
        continue;
      }
      var key := KeyText(e.daddr, e.dport.GetOr(0));
      if key in rows {
        var cur := rows[key];
        rows := rows[key := cur.(bytes := cur.bytes + e.bytes.GetOr(0), count := cur.count + 1)];
      } else {
        order := order + [key];
        rows := rows[key := Row(e.daddr, e.dport.GetOr(0), e.bytes.GetOr(0), 1)];
      }
    }
    assert events[..|events|] == events;
    AllGroupedIsValid(events);
    var values := seq(|order|, i requires 0 <= i < |order| && order[i] in rows => rows[order[i]]);
    assert values == RowsOf(AllGrouped(events));
    table := Sorted(values, MoreBytes());
  }

  // ----- what the table means -----------------------------------------------------------

  predicate InGroup(e: Event, dst: string, port: int) {
    Qualifies(e) && e.daddr == dst && PortOf(e) == port
  }

  /** Bytes of the qualifying events to `dst` and `port`. */
  function GroupBytes(events: seq<Event>, dst: string, port: int): int {
    if events == [] then 0
    else
      var e := events[|events| - 1];
      GroupBytes(events[..|events| - 1], dst, port) + if InGroup(e, dst, port) then e.bytes.GetOr(0) else 0
  }

  function GroupCount(events: seq<Event>, dst: string, port: int): nat {
    if events == [] then 0
    else GroupCount(events[..|events| - 1], dst, port) + if InGroup(events[|events| - 1], dst, port) then 1 else 0
  }

  function AllBytes(events: seq<Event>): int {
    if events == [] then 0
    else
      var e := events[|events| - 1];
      AllBytes(events[..|events| - 1]) + if Qualifies(e) then e.bytes.GetOr(0) else 0
  }

  function AllCount(events: seq<Event>): nat {
    if events == [] then 0
    else AllCount(events[..|events| - 1]) + if Qualifies(events[|events| - 1]) then 1 else 0
  }

  /** The row kept under a key holds its group's own sums; a group without a row has no events. */
  ghost predicate GroupExact(events: seq<Event>, g: Groups, dst: string, port: int) {
    var key := KeyText(dst, port);
    if key in g.rows then
      g.rows[key] == Row(dst, port, GroupBytes(events, dst, port), GroupCount(events, dst, port)) &&
      GroupCount(events, dst, port) > 0
    else GroupBytes(events, dst, port) == 0 && GroupCount(events, dst, port) == 0
  }

  lemma {:induction false} GroupsAreExact(events: seq<Event>, dst: string, port: int)
    ensures GroupExact(events, AllGrouped(events), dst, port)
  {
    if events != [] {
      var before, e := events[..|events| - 1], events[|events| - 1];
      GroupsAreExact(before, dst, port);
      if Qualifies(e) && KeyText(e.daddr, PortOf(e)) == KeyText(dst, port) {
        KeyTextInjective(e.daddr, PortOf(e), dst, port);
      }
    }
  }

  function SumBytes(rows: seq<Row>): int {
    if rows == [] then 0 else rows[0].bytes + SumBytes(rows[1..])
  }

  function SumCount(rows: seq<Row>): int {
    if rows == [] then 0 else rows[0].count + SumCount(rows[1..])
  }

  lemma {:induction false} SumsAppend(a: seq<Row>, b: seq<Row>)
    ensures SumBytes(a + b) == SumBytes(a) + SumBytes(b)
    ensures SumCount(a + b) == SumCount(a) + SumCount(b)
  {
    if a == [] {
      assert a + b == b;
    } else {
      assert (a + b)[1..] == a[1..] + b;
      SumsAppend(a[1..], b);
    }
  }

  lemma SumsUpdate(rows: seq<Row>, i: nat, r: Row)
    requires i < |rows|
    ensures SumBytes(rows[i := r]) == SumBytes(rows) - rows[i].bytes + r.bytes
    ensures SumCount(rows[i := r]) == SumCount(rows) - rows[i].count + r.count
  {
    var a, b := rows[..i], rows[i + 1..];
    assert rows == a + ([rows[i]] + b) && rows[i := r] == a + ([r] + b);
    SumsAppend(a, [rows[i]] + b);
    SumsAppend(a, [r] + b);
    assert ([rows[i]] + b)[1..] == b && ([r] + b)[1..] == b;
  }

  /** The position of an existing row, and what its update makes of the rows. */
  lemma RowUpdated(g: Groups, key: string, r: Row) returns (i: nat)
    requires ValidGroups(g) && key in g.rows && ValidGroups(g.(rows := g.rows[key := r]))
    ensures i < |g.order| && RowsOf(g)[i] == g.rows[key]
    ensures RowsOf(g.(rows := g.rows[key := r])) == RowsOf(g)[i := r]
  {
    i :| i < |g.order| && g.order[i] == key;
  }

  lemma RowAdded(g: Groups, key: string, r: Row)
    requires ValidGroups(g) && key !in g.rows && ValidGroups(Groups(g.order + [key], g.rows[key := r]))
    ensures RowsOf(Groups(g.order + [key], g.rows[key := r])) == RowsOf(g) + [r]
  {
  }

  lemma {:induction false} GroupsConserve(events: seq<Event>)
    ensures ValidGroups(AllGrouped(events))
    ensures SumBytes(RowsOf(AllGrouped(events))) == AllBytes(events)
    ensures SumCount(RowsOf(AllGrouped(events))) == AllCount(events)
  {
    AllGroupedIsValid(events);
    if events != [] {
      var before, e := events[..|events| - 1], events[|events| - 1];
      GroupsConserve(before);
      if Qualifies(e) {
        var g, g' := AllGrouped(before), AllGrouped(events);
        var key := KeyText(e.daddr, PortOf(e));
        if key in g.rows {
          var i := RowUpdated(g, key, g'.rows[key]);
          SumsUpdate(RowsOf(g), i, g'.rows[key]);
        } else {
          RowAdded(g, key, g'.rows[key]);
          SumsAppend(RowsOf(g), [g'.rows[key]]);
        }
      }
    }
  }

  lemma {:induction false} SumsOfInsert(r: Row, s: seq<Row>)
    ensures SumBytes(Insert(r, s, MoreBytes())) == r.bytes + SumBytes(s)
    ensures SumCount(Insert(r, s, MoreBytes())) == r.count + SumCount(s)
  {
    if s == [] || MoreBytes()(r, s[0]) {
      assert ([r] + s)[1..] == s;
    } else {
      SumsOfInsert(r, s[1..]);
      var t := Insert(r, s[1..], MoreBytes());
      assert ([s[0]] + t)[1..] == t;
    }
  }

  lemma {:induction false} SumsOfSorted(s: seq<Row>)
    ensures SumBytes(Sorted(s, MoreBytes())) == SumBytes(s) && SumCount(Sorted(s, MoreBytes())) == SumCount(s)
  {
    if s != [] {
      SumsOfSorted(s[1..]);
      SumsOfInsert(s[0], Sorted(s[1..], MoreBytes()));
    }
  }

  ghost predicate IsTable(events: seq<Event>, table: seq<Row>) {
    ValidGroups(AllGrouped(events)) && table == Sorted(RowsOf(AllGrouped(events)), MoreBytes())
  }

  /** Conservation of bytes and flows: the table's totals are those of all qualifying events. */
  lemma TableConserves(events: seq<Event>, table: seq<Row>)
    requires IsTable(events, table)
    ensures SumBytes(table) == AllBytes(events) && SumCount(table) == AllCount(events)
  {
    GroupsConserve(events);
    SumsOfSorted(RowsOf(AllGrouped(events)));
  }

  /** The table is a permutation of the groups, most bytes first; groups with equal bytes keep
      the order of their first events. */
  lemma TableIsSorted(events: seq<Event>, table: seq<Row>)
    requires IsTable(events, table)
    ensures multiset(table) == multiset(RowsOf(AllGrouped(events)))
    ensures forall i, j :: 0 <= i < j < |table| ==> table[i].bytes >= table[j].bytes
    ensures forall r :: Ties(table, r, MoreBytes()) == Ties(RowsOf(AllGrouped(events)), r, MoreBytes())
  {
    var rows := RowsOf(AllGrouped(events));
    SortedIsSorted(rows, MoreBytes());
    forall i, j | 0 <= i < j < |table| ensures table[i].bytes >= table[j].bytes {
      assert MoreBytes()(table[i], table[j]);
    }
    forall r ensures Ties(table, r, MoreBytes()) == Ties(rows, r, MoreBytes()) {
      SortedIsStable(rows, r, MoreBytes());
    }
  }

  lemma RowInTable(g: Groups, table: seq<Row>, r: Row)
    requires ValidGroups(g) && table == Sorted(RowsOf(g), MoreBytes())
    ensures r in table <==> exists k :: k in g.rows && g.rows[k] == r
  {
    SortedMembers(RowsOf(g), MoreBytes(), r);
    RowInGroups(g, r);
  }

  lemma RowInGroups(g: Groups, r: Row)
    requires ValidGroups(g)
    ensures r in RowsOf(g) <==> exists k :: k in g.rows && g.rows[k] == r
  {
    var rows := RowsOf(g);
    if r in rows {
      var i :| 0 <= i < |rows| && rows[i] == r;
      assert g.order[i] in g.rows;
    }
    forall k | k in g.rows && g.rows[k] == r ensures r in rows {
      var i :| 0 <= i < |g.order| && g.order[i] == k;
      assert rows[i] == r;
    }
  }

  /** Each row's figures are the sums over exactly the events of its destination and port. */
  lemma RowIsExact(events: seq<Event>, table: seq<Row>, r: Row)
    requires IsTable(events, table) && r in table
    ensures r == Row(r.dst, r.port, GroupBytes(events, r.dst, r.port), GroupCount(events, r.dst, r.port))
    ensures r.count > 0
  {
    RowInTable(AllGrouped(events), table, r);
    GroupsAreExact(events, r.dst, r.port);
  }

  /** Every qualifying event is counted in some row. */
  lemma EveryEventShown(events: seq<Event>, table: seq<Row>, e: Event)
    requires IsTable(events, table) && e in events && Qualifies(e)
    ensures exists r :: r in table && r.dst == e.daddr &&
              (e.dport.Some? ==> r.port == e.dport.value) && (e.dport.None? ==> r.port == 0)
  {
    GroupsAreExact(events, e.daddr, PortOf(e));
    CountsMember(events, e);
    var key := KeyText(e.daddr, PortOf(e));
    var g := AllGrouped(events);
    RowInTable(g, table, g.rows[key]);
    assert key in g.rows && g.rows[key] in table;
  }

  lemma {:induction false} CountsMember(events: seq<Event>, e: Event)
    requires e in events && Qualifies(e)
    ensures GroupCount(events, e.daddr, PortOf(e)) > 0
  {
    var before, last := events[..|events| - 1], events[|events| - 1];
    if last != e {
      assert e in before;
      CountsMember(before, e);
    }
  }

  ghost predicate KeysDistinct(s: seq<Row>) {
    forall i, j :: 0 <= i < j < |s| ==> !SameKey(s[i], s[j])
  }

  predicate SameKey(a: Row, b: Row) {
    a.dst == b.dst && a.port == b.port
  }

  lemma {:induction false} InsertKeepsDistinct(r: Row, s: seq<Row>)
    requires KeysDistinct(s) && forall e :: e in s ==> !SameKey(r, e)
    ensures KeysDistinct(Insert(r, s, MoreBytes()))
  {
    if !(s == [] || MoreBytes()(r, s[0])) {
      var t := s[1..];
      assert s == [s[0]] + t;
      InsertKeepsDistinct(r, t);
      var u := Insert(r, t, MoreBytes());
      forall j | 0 <= j < |u| ensures !SameKey(s[0], u[j]) {
        InsertMembers(r, t, MoreBytes(), u[j]);
        if u[j] != r {
          var k :| 0 <= k < |t| && t[k] == u[j];
          assert s[k + 1] == u[j];
        } else {
          assert !SameKey(r, s[0]);
        }
      }
    }
  }

  lemma {:induction false} SortedKeepsDistinct(s: seq<Row>)
    requires KeysDistinct(s)
    ensures KeysDistinct(Sorted(s, MoreBytes()))
  {
    if s != [] {
      var t := s[1..];
      SortedKeepsDistinct(t);
      forall e | e in Sorted(t, MoreBytes()) ensures !SameKey(s[0], e) {
        SortedMembers(t, MoreBytes(), e);
        var k :| 0 <= k < |t| && t[k] == e;
        assert s[k + 1] == e;
      }
      InsertKeepsDistinct(s[0], Sorted(t, MoreBytes()));
    }
  }

  /** No destination and port has two rows. */
  lemma TableKeysDistinct(events: seq<Event>, table: seq<Row>)
    requires IsTable(events, table)
    ensures KeysDistinct(table)
  {
    var g := AllGrouped(events);
    var rows := RowsOf(g);
    forall i, j | 0 <= i < j < |rows| ensures !SameKey(rows[i], rows[j]) {
      assert g.order[i] in g.rows && g.order[j] in g.rows && g.order[i] != g.order[j];
    }
    SortedKeepsDistinct(rows);
  }

  /** One event's table: nothing unless it is a flow with a destination; else one row with the port
      and the bytes it names, 0 where it names none. */
  lemma TableOfOne(e: Event, table: seq<Row>)
    requires IsTable([e], table)
    ensures e.kind != NetFlow || e.daddr == "" ==> table == []
    ensures e.kind == NetFlow && e.daddr != "" ==>
      && |table| == 1 && table[0].dst == e.daddr && table[0].count == 1
      && (e.dport.Some? ==> table[0].port == e.dport.value) && (e.dport.None? ==> table[0].port == 0)
      && (e.bytes.Some? ==> table[0].bytes == e.bytes.value) && (e.bytes.None? ==> table[0].bytes == 0)
  {
    assert [e][..0] == [];
    var g := AllGrouped([e]);
    assert g == Grouped(AllGrouped([]), e);
    if Qualifies(e) {
      var r := g.rows[KeyText(e.daddr, PortOf(e))];
      assert g.order == [KeyText(e.daddr, PortOf(e))];
      assert RowsOf(g) == [r] && [r][1..] == [];
      assert Sorted([r], MoreBytes()) == Insert(r, Sorted([], MoreBytes()), MoreBytes()) == [r];
    }
  }

  /** Two flows share a row exactly when they go to the same address and port. */
  lemma TableOfTwo(e: Event, f: Event, table: seq<Row>)
    requires IsTable([e, f], table)
    requires e.kind == NetFlow && f.kind == NetFlow && e.daddr != "" && f.daddr != ""
    requires e.dport.Some? && f.dport.Some?
    ensures |table| == if e.daddr == f.daddr && e.dport == f.dport then 1 else 2
  {
    assert [e, f][..1] == [e] && [e][..0] == [];
    var k, k' := KeyText(e.daddr, PortOf(e)), KeyText(f.daddr, PortOf(f));
    if k == k' {
      KeyTextInjective(e.daddr, PortOf(e), f.daddr, PortOf(f));
    }
    var g := AllGrouped([e, f]);
    assert AllGrouped([e]).order == [k];
    SortedKeepsLength(RowsOf(g));
  }

  lemma SortedKeepsLength(rows: seq<Row>)
    ensures |Sorted(rows, MoreBytes())| == |rows|
  {
    SortedIsSorted(rows, MoreBytes());
    assert |multiset(Sorted(rows, MoreBytes()))| == |multiset(rows)|;
  }
}
