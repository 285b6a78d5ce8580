/** Newline framing of byte streams: how the AI engine and the dashboard cut a stream
    into lines, and how the bus daemon's scanner cuts a publisher's bytes. */
module Framing {

  newtype byte = x: int | 0 <= x < 256
  type Bytes = seq<byte>

  const NL: byte := 10
  const CR: byte := 13

  /** The daemon's limit on one line, newline included. */
  const MAX_LINE_BYTES: nat := 0x10_0000

  /** Position of the first newline, or the length when there is none. */
  function NextNL(s: Bytes): (i: nat)
    ensures i <= |s| && NL !in s[..i]
    ensures i < |s| ==> s[i] == NL
  {
    if |s| == 0 || s[0] == NL then 0
    else
      var j := NextNL(s[1..]);
      assert s[..1 + j] == [s[0]] + s[1..][..j];
      1 + j
  }

  /** The completed lines of a stream, terminators removed. */
  function Lines(s: Bytes): seq<Bytes>
    decreases |s|
  {
    var i := NextNL(s);
    if i == |s| then [] else [s[..i]] + Lines(s[i + 1..])
  }

  /** What follows the last newline. */
  function Rest(s: Bytes): Bytes
    decreases |s|
  {
    var i := NextNL(s);
    if i == |s| then s else Rest(s[i + 1..])
  }

  /** Writes each line followed by a newline. */
  function Unlines(ls: seq<Bytes>): Bytes {
    if ls == [] then [] else ls[0] + [NL] + Unlines(ls[1..])
  }

  function Concat(parts: seq<Bytes>): Bytes {
    if parts == [] then [] else parts[0] + Concat(parts[1..])
  }

  // ----- sequence facts kept apart from the recursive definitions ------------------

  lemma CutAt<T>(a: seq<T>, b: seq<T>, i: nat)
    requires i < |a|
    ensures a == a[..i] + [a[i]] + a[i + 1..]
    ensures a + b == a[..i] + [a[i]] + (a[i + 1..] + b)
  {
  }

  lemma Regroup<T>(a: seq<T>, b: seq<T>, c: seq<T>)
    ensures (a + b) + c == a + (b + c)
  {
  }

  lemma AppendNil<T>(a: seq<T>)
    ensures a + [] == a && [] + a == a
  {
  }

  lemma CutInThree<T>(s: seq<T>, k: nat, m: nat)
    requires k <= m <= |s|
    ensures s == s[..k] + (s[k..m] + s[m..])
  {
  }

  lemma TakeOneMore<T>(s: seq<T>, k: nat)
    requires k < |s|
    ensures s[..k + 1] == s[..k] + [s[k]]
  {
  }

  // ----- splitting and joining ------------------------------------------------------

  lemma {:induction false} ConcatAppend(a: seq<Bytes>, b: seq<Bytes>)
    ensures Concat(a + b) == Concat(a) + Concat(b)
  {
    if a == [] {
      assert a + b == b;
    } else {
      assert (a + b)[1..] == a[1..] + b;
      ConcatAppend(a[1..], b);
    }
  }

  lemma ConcatSnoc(a: seq<Bytes>, x: Bytes)
    ensures Concat(a + [x]) == Concat(a) + x
  {
    ConcatAppend(a, [x]);
    assert Concat([x]) == x + Concat([]);
  }

  lemma {:induction false} NextNLIs(s: Bytes, k: nat)
    requires k <= |s| && NL !in s[..k] && (k < |s| ==> s[k] == NL)
    ensures NextNL(s) == k
  {
    if k > 0 {
      assert s[0] == s[..k][0];
      assert s[1..][..k - 1] == s[..k][1..];
      NextNLIs(s[1..], k - 1);
    }
  }

  lemma NextNLUnique(l: Bytes, rest: Bytes)
    requires NL !in l
    ensures NextNL(l + [NL] + rest) == |l|
    ensures NextNL(l) == |l|
  {
    var s := l + [NL] + rest;
    assert s[|l|] == NL && s[..|l|] == l;
    NextNLIs(s, |l|);
    NextNLIs(l, |l|);
  }

  lemma SplitFirst(l: Bytes, rest: Bytes)
    requires NL !in l
    ensures Lines(l + [NL] + rest) == [l] + Lines(rest)
    ensures Rest(l + [NL] + rest) == Rest(rest)
    ensures Lines(l) == [] && Rest(l) == l
  {
    NextNLUnique(l, rest);
    var s := l + [NL] + rest;
    assert s[..|l|] == l && s[|l| + 1..] == rest;
  }

  lemma NoNewline(s: Bytes)
    requires NL !in s
    ensures Lines(s) == [] && Rest(s) == s
  {
    SplitFirst(s, []);
  }

  lemma OneLine(l: Bytes)
    requires NL !in l
    ensures Lines(l + [NL]) == [l] && Rest(l + [NL]) == []
  {
    SplitFirst(l, []);
    AppendNil(l + [NL]);
    NoNewline([]);
    AppendNil([l]);
  }

  /** Bytes put in front of a stream that has a newline lengthen its first line only. */
  lemma FirstLineExtends(r: Bytes, b: Bytes)
    requires NL in b && NL !in r
    ensures Lines(b) != [] && Lines(r + b) == [r + Lines(b)[0]] + Lines(b)[1..]
    ensures Rest(r + b) == Rest(b)
  {
    var i := NextNL(b);
    HasNewline(b);
    CutAt(b, [], i);
    var l, t := b[..i], b[i + 1..];
    SplitFirst(l, t);
    assert NL !in r + l;
    SplitFirst(r + l, t);
    Prepend(r, l, t);
    assert ([l] + Lines(t))[1..] == Lines(t);
  }

  lemma HasNewline(s: Bytes)
    ensures NextNL(s) < |s| <==> NL in s
  {
    assert s[..|s|] == s;
  }

  lemma Prepend(r: Bytes, l: Bytes, t: Bytes)
    ensures r + (l + [NL] + t) == (r + l) + [NL] + t
  {
  }

  /** Joining what was split gives the stream back, and no piece hides a newline. */
  lemma {:induction false} JoinOfSplit(s: Bytes)
    ensures Unlines(Lines(s)) + Rest(s) == s
    ensures NL !in Rest(s)
    ensures forall i :: 0 <= i < |Lines(s)| ==> NL !in Lines(s)[i]
    decreases |s|
  {
    var i := NextNL(s);
    if i < |s| {
      var l, t := s[..i], s[i + 1..];
      JoinOfSplit(t);
      CutAt(s, [], i);
      SplitFirst(l, t);
      UnlinesFirst(l, Lines(t));
      Regroup(l + [NL], Unlines(Lines(t)), Rest(t));
    } else {
      assert s[..i] == s;
    }
  }

  lemma UnlinesFirst(l: Bytes, ls: seq<Bytes>)
    ensures Unlines([l] + ls) == l + [NL] + Unlines(ls)
  {
    assert ([l] + ls)[1..] == ls;
  }

  /** Splitting what was joined gives exactly the lines back: none merged, cut or invented. */
  lemma {:induction false} SplitOfJoin(ls: seq<Bytes>, r: Bytes)
    requires NL !in r && forall i :: 0 <= i < |ls| ==> NL !in ls[i]
    ensures Lines(Unlines(ls) + r) == ls
    ensures Rest(Unlines(ls) + r) == r
  {
    if ls == [] {
      assert Unlines(ls) + r == r;
      SplitFirst(r, []);
    } else {
      var tail := Unlines(ls[1..]) + r;
      assert Unlines(ls) + r == ls[0] + [NL] + tail;
      SplitFirst(ls[0], tail);
      SplitOfJoin(ls[1..], r);
      assert ls == [ls[0]] + ls[1..];
    }
  }

  /** Cutting a stream in two and carrying the unfinished line over loses nothing. */
  lemma {:induction false} CarryOver(a: Bytes, b: Bytes)
    ensures Lines(a + b) == Lines(a) + Lines(Rest(a) + b)
    ensures Rest(a + b) == Rest(Rest(a) + b)
    decreases |a|
  {
    var i := NextNL(a);
    if i < |a| {
      var l, t := a[..i], a[i + 1..];
      CutAt(a, b, i);
      SplitFirst(l, t);
      SplitFirst(l, t + b);
      CarryOver(t, b);
      Regroup([l], Lines(t), Lines(Rest(t) + b));
    } else {
      assert a[..i] == a;
      SplitFirst(a, []);
    }
  }

  /** Reading only part of a stream yields a prefix of its lines. */
  lemma PrefixOfStream(s: Bytes, n: nat)
    requires n <= |s|
    ensures Lines(s[..n]) <= Lines(s)
  {
    assert s == s[..n] + s[n..];
    CarryOver(s[..n], s[n..]);
  }

  // ----- the daemon's scanner -------------------------------------------------

  function DropCR(l: Bytes): Bytes {
    if |l| > 0 && l[|l| - 1] == CR then l[..|l| - 1] else l
  }

  /** One broadcast unit: no newline but the last byte. */
  predicate WholeLine(l: Bytes) {
    0 < |l| <= MAX_LINE_BYTES && l[|l| - 1] == NL && NL !in l[..|l| - 1]
  }

  predicate AllWhole(ls: seq<Bytes>) {
    forall i :: 0 <= i < |ls| ==> WholeLine(ls[i])
  }

  function Body(l: Bytes): Bytes
    requires |l| > 0
  {
    l[..|l| - 1]
  }

  /** The lines a scanner hands out for the bytes `s` read so far: one trailing CR dropped,
      an unterminated last line handed out only at the end of input, and nothing from an
      over-long line on. */
  function Scan(s: Bytes, eof: bool): seq<Bytes>
    decreases |s|
  {
    var i := NextNL(s);
    if i >= MAX_LINE_BYTES then []
    else if i < |s| then [DropCR(s[..i]) + [NL]] + Scan(s[i + 1..], eof)
    else if eof && s != [] then [DropCR(s) + [NL]]
    else []
  }

  /** However the publisher's bytes are chunked, what was handed out stays handed out. */
  lemma {:induction false} ScanGrows(s: Bytes, more: Bytes, eof: bool)
    ensures Scan(s, false) <= Scan(s + more, eof)
    decreases |s|
  {
    var i := NextNL(s);
    if i < |s| {
      var l, t := s[..i], s[i + 1..];
      CutAt(s, more, i);
      ScanFirst(l, t, false);
      ScanFirst(l, t + more, eof);
      ScanGrows(t, more, eof);
    }
  }

  lemma ScanFirst(l: Bytes, rest: Bytes, eof: bool)
    requires NL !in l
    ensures Scan(l + [NL] + rest, eof) ==
            if |l| >= MAX_LINE_BYTES then [] else [DropCR(l) + [NL]] + Scan(rest, eof)
  {
    NextNLUnique(l, rest);
    var s := l + [NL] + rest;
    assert s[..|l|] == l && s[|l| + 1..] == rest;
  }

  lemma {:induction false} ScanGivesWholeLines(s: Bytes, eof: bool)
    ensures AllWhole(Scan(s, eof))
    decreases |s|
  {
    var i := NextNL(s);
    ForwardedIsWhole(s[..i]);
    if i < |s| {
      ScanGivesWholeLines(s[i + 1..], eof);
    } else {
      assert s[..i] == s;
    }
  }

  lemma ForwardedIsWhole(l: Bytes)
    requires NL !in l
    ensures |l| < MAX_LINE_BYTES ==> WholeLine(DropCR(l) + [NL])
  {
    assert (DropCR(l) + [NL])[..|DropCR(l)|] == DropCR(l);
  }

  /** What the daemon makes of each line: one trailing CR dropped, a newline put back. */
  function Forwarded(ls: seq<Bytes>): seq<Bytes> {
    if ls == [] then [] else [DropCR(ls[0]) + [NL]] + Forwarded(ls[1..])
  }

  /** How many lines come before the first over-long one. */
  function LegalLines(ls: seq<Bytes>): (k: nat)
    ensures k <= |ls| && (k < |ls| ==> |ls[k]| >= MAX_LINE_BYTES)
    ensures forall i :: 0 <= i < k ==> |ls[i]| < MAX_LINE_BYTES
  {
    if ls == [] || |ls[0]| >= MAX_LINE_BYTES then 0 else 1 + LegalLines(ls[1..])
  }

  /** The scanner on any input, given as its lines and the unfinished rest: every line before the
      first over-long one, in order, minus one trailing CR; then, if all were legal and input has
      ended, the rest. */
  lemma {:induction false} ScanExactly(ls: seq<Bytes>, r: Bytes, eof: bool)
    requires NL !in r && forall i :: 0 <= i < |ls| ==> NL !in ls[i]
    ensures Scan(Unlines(ls) + r, eof) ==
            Forwarded(ls[..LegalLines(ls)]) +
            if LegalLines(ls) == |ls| && eof && 0 < |r| < MAX_LINE_BYTES then [DropCR(r) + [NL]] else []
  {
    if ls == [] {
      assert Unlines(ls) + r == r && ls[..0] == [];
      NextNLUnique(r, []);
    } else {
      var k := LegalLines(ls);
      Regroup(ls[0] + [NL], Unlines(ls[1..]), r);
      ScanFirst(ls[0], Unlines(ls[1..]) + r, eof);
      if k == 0 {
        assert ls[..0] == [];
      } else {
        ScanExactly(ls[1..], r, eof);
        assert ls[..k][1..] == ls[1..][..k - 1];
        Regroup([DropCR(ls[0]) + [NL]], Forwarded(ls[1..][..k - 1]),
                if k == |ls| && eof && 0 < |r| < MAX_LINE_BYTES then [DropCR(r) + [NL]] else []);
      }
    }
  }

  lemma {:induction false} ForwardedCount(ls: seq<Bytes>)
    ensures |Forwarded(ls)| == |ls|
  {
    if ls != [] {
      ForwardedCount(ls[1..]);
    }
  }

  /** A publisher that writes whole lines has them all forwarded exactly when none is over-long. */
  lemma ScanOfLines(ls: seq<Bytes>, eof: bool)
    requires forall i :: 0 <= i < |ls| ==> NL !in ls[i]
    ensures Scan(Unlines(ls), eof) == Forwarded(ls) <==> forall i :: 0 <= i < |ls| ==> |ls[i]| < MAX_LINE_BYTES
  {
    ScanExactly(ls, [], eof);
    AppendNil(Unlines(ls));
    AppendNil(Forwarded(ls[..LegalLines(ls)]));
    ForwardedCount(ls);
    ForwardedCount(ls[..LegalLines(ls)]);
    if LegalLines(ls) == |ls| {
      assert ls[..|ls|] == ls;
    }
  }

  /** An over-long line silences its publisher for good: nothing from it on comes out, however
      many legal lines follow. */
  lemma ScanStopsAtOverlong(before: seq<Bytes>, l: Bytes, after: seq<Bytes>, r: Bytes, eof: bool)
    requires NL !in l && NL !in r && |l| >= MAX_LINE_BYTES
    requires forall i :: 0 <= i < |before| ==> NL !in before[i] && |before[i]| < MAX_LINE_BYTES
    requires forall i :: 0 <= i < |after| ==> NL !in after[i]
    ensures Scan(Unlines(before + [l] + after) + r, eof) == Forwarded(before)
  {
    var ls := before + [l] + after;
    ScanExactly(ls, r, eof);
    assert LegalLines(ls) == |before| by {
      assert ls[|before|] == l;
      assert forall i :: 0 <= i < |before| ==> ls[i] == before[i];
    }
    assert ls[..|before|] == before;
    AppendNil(Forwarded(before));
  }

  /** A line without a carriage return at its end goes through unchanged; of one with some, the
      last is taken off. Byte 10 ends a line, and 1048575 bytes are the most it can have. */
  lemma LineForwarded(l: Bytes, eof: bool)
    requires 10 !in l
    ensures |l| < 1048576 && (l == [] || l[|l| - 1] != 13) ==> Scan(l + [10], eof) == [l + [10]]
    ensures |l| < 1048575 ==> Scan(l + [13, 10], eof) == [l + [10]]
    ensures |l| >= 1048576 ==> Scan(l + [10], eof) == []
  {
    OneScanned(l, eof);
    var m := l + [CR];
    OneScanned(m, eof);
    assert l + [13, 10] == m + [NL] && m[..|l|] == l;
  }

  lemma OneScanned(l: Bytes, eof: bool)
    requires NL !in l
    ensures Scan(l + [NL], eof) == if |l| >= MAX_LINE_BYTES then [] else [DropCR(l) + [NL]]
  {
    ScanFirst(l, [], eof);
    AppendNil(l + [NL]);
    AppendNil([DropCR(l) + [NL]]);
    assert Scan([], eof) == [];
  }

  ghost predicate PlainLines(ls: seq<Bytes>) {
    forall i :: 0 <= i < |ls| ==> 10 !in ls[i] && |ls[i]| < 1048576 && (ls[i] == [] || ls[i][|ls[i]| - 1] != 13)
  }

  /** Transparency. What the daemon makes of a publisher's lines is, byte for byte, what it wrote,
      if they are of legal size and none ends in a carriage return. */
  lemma ScanKeepsBytes(ls: seq<Bytes>, eof: bool)
    requires PlainLines(ls)
    ensures Concat(Scan(Unlines(ls), eof)) == Unlines(ls)
    ensures |Scan(Unlines(ls), eof)| == |ls|
    ensures forall i :: 0 <= i < |ls| ==> Scan(Unlines(ls), eof)[i] == ls[i] + [10]
  {
    ScanOfLines(ls, eof);
    ForwardedPlain(ls);
  }

  lemma {:induction false} ForwardedPlain(ls: seq<Bytes>)
    requires PlainLines(ls)
    ensures |Forwarded(ls)| == |ls| && Concat(Forwarded(ls)) == Unlines(ls)
    ensures forall i :: 0 <= i < |ls| ==> Forwarded(ls)[i] == ls[i] + [10]
  {
    if ls != [] {
      var t := ls[1..];
      assert PlainLines(t);
      ForwardedPlain(t);
      PlainKept(ls[0]);
      assert ([ls[0] + [NL]] + Forwarded(t))[1..] == Forwarded(t);
      forall i | 0 < i < |ls| ensures Forwarded(ls)[i] == ls[i] + [10] {
        assert Forwarded(ls)[i] == Forwarded(t)[i - 1] && ls[i] == t[i - 1];
      }
    }
  }

  lemma PlainKept(l: Bytes)
    requires l == [] || l[|l| - 1] != 13
    ensures DropCR(l) == l
  {
  }

  /** A concatenation of whole lines followed by a torn one splits into exactly those lines. */
  lemma {:induction false} LinesOfWholeLines(ls: seq<Bytes>, torn: Bytes)
    requires NL !in torn && AllWhole(ls)
    ensures Lines(Concat(ls) + torn) == Bodies(ls)
    ensures Rest(Concat(ls) + torn) == torn
  {
    if ls == [] {
      assert Concat(ls) + torn == torn;
      SplitFirst(torn, []);
    } else {
      var tail := Concat(ls[1..]) + torn;
      assert ls[0] == Body(ls[0]) + [NL];
      assert Concat(ls) + torn == Body(ls[0]) + [NL] + tail;
      SplitFirst(Body(ls[0]), tail);
      LinesOfWholeLines(ls[1..], torn);
    }
  }

  function Bodies(ls: seq<Bytes>): (bs: seq<Bytes>)
    requires AllWhole(ls)
    ensures |bs| == |ls| && forall i :: 0 <= i < |ls| ==> bs[i] == Body(ls[i])
  {
    if ls == [] then [] else [Body(ls[0])] + Bodies(ls[1..])
  }
}
