/** The alert stream: replay the end of an append-only file, then follow it line by line. */
module AlertTail {
  import opened Framing
  import opened EventHub

  /** How far back from the end of the file the replay window reaches. */
  const BACKBUF: nat := 8192

  /** Position of the first line break of any kind, or the length. */
  function NextBreak(s: Bytes): (i: nat)
    ensures i <= |s| && NL !in s[..i] && CR !in s[..i]
    ensures i < |s| ==> s[i] == NL || s[i] == CR
  {
    if |s| == 0 || s[0] == NL || s[0] == CR then 0
    else
      var j := NextBreak(s[1..]);
      assert s[..1 + j] == [s[0]] + s[1..][..j];
      1 + j
  }

  /** Python's `bytes.splitlines`: breaks at newline, carriage return, and the pair. */
  function SplitLines(s: Bytes): seq<Bytes>
    decreases |s|
  {
    if s == [] then []
    else
      var i := NextBreak(s);
      if i == |s| then [s]
      else if s[i] == CR && i + 1 < |s| && s[i + 1] == NL then [s[..i]] + SplitLines(s[i + 2..])
      else [s[..i]] + SplitLines(s[i + 1..])
  }

  /** Without carriage returns it is splitting at newlines, an unfinished last line included. */
  lemma {:induction false} SplitLinesIsLines(s: Bytes)
    requires CR !in s
    ensures SplitLines(s) == Lines(s) + Unfinished(s)
    decreases |s|
  {
    var i := NextBreak(s);
    if i < |s| {
      var l, t := s[..i], s[i + 1..];
      CutAt(s, [], i);
      SplitFirst(l, t);
      SplitLinesIsLines(t);
      Regroup([l], Lines(t), Unfinished(t));
    } else {
      assert s[..i] == s;
      NoNewline(s);
      AppendNil(Unfinished(s));
    }
  }

  function Unfinished(s: Bytes): seq<Bytes> {
    if Rest(s) == [] then [] else [Rest(s)]
  }

  /** A line ends at the first newline, carriage return, or pair of them; what follows is split on. */
  lemma SplitAtBreak(l: Bytes, rest: Bytes)
    requires 10 !in l && 13 !in l
    ensures SplitLines(l + [10] + rest) == [l] + SplitLines(rest)
    ensures SplitLines(l + [13, 10] + rest) == [l] + SplitLines(rest)
    ensures rest == [] || rest[0] != 10 ==> SplitLines(l + [13] + rest) == [l] + SplitLines(rest)
    ensures SplitLines(l) == if l == [] then [] else [l]
  {
    SplitAtNL(l, rest);
    SplitAtPair(l, rest);
    if rest == [] || rest[0] != 10 {
      SplitAtCR(l, rest);
    }
    BreakAt(l, []);
    AppendNil(l);
    assert l[..|l|] == l;
  }

  lemma SplitAtNL(l: Bytes, rest: Bytes)
    requires NL !in l && CR !in l
    ensures SplitLines(l + [NL] + rest) == [l] + SplitLines(rest)
  {
    var s := l + [NL] + rest;
    BreakAt(l, [NL] + rest);
    Regroup(l, [NL], rest);
    assert s[..|l|] == l && s[|l|] == NL && s[|l| + 1..] == rest;
  }

  lemma SplitAtPair(l: Bytes, rest: Bytes)
    requires NL !in l && CR !in l
    ensures SplitLines(l + [CR, NL] + rest) == [l] + SplitLines(rest)
  {
    var s := l + [CR, NL] + rest;
    BreakAt(l, [CR, NL] + rest);
    Regroup(l, [CR, NL], rest);
    assert s[..|l|] == l && s[|l|] == CR && s[|l| + 1] == NL && s[|l| + 2..] == rest;
  }

  lemma SplitAtCR(l: Bytes, rest: Bytes)
    requires NL !in l && CR !in l && (rest == [] || rest[0] != NL)
    ensures SplitLines(l + [CR] + rest) == [l] + SplitLines(rest)
  {
    var s := l + [CR] + rest;
    BreakAt(l, [CR] + rest);
    Regroup(l, [CR], rest);
    assert s[..|l|] == l && s[|l|] == CR && s[|l| + 1..] == rest;
  }

  lemma {:induction false} BreakAt(l: Bytes, rest: Bytes)
    requires NL !in l && CR !in l && (rest == [] || rest[0] == NL || rest[0] == CR)
    ensures NextBreak(l + rest) == |l|
  {
    if l != [] {
      assert (l + rest)[1..] == l[1..] + rest;
      BreakAt(l[1..], rest);
    }
  }

  predicate Blank(l: Bytes) {
    forall k :: 0 <= k < |l| ==> l[k] in {9, 10, 11, 12, 13, 32}
  }

  function NonBlank(ls: seq<Bytes>): seq<Bytes> {
    if ls == [] then []
    else
      var before := NonBlank(ls[..|ls| - 1]);
      if Blank(ls[|ls| - 1]) then before else before + [ls[|ls| - 1]]
  }

  /** A line is kept exactly when some byte of it is not white space; order and repetitions stay. */
  lemma {:induction false} NonBlankExactly(ls: seq<Bytes>, l: Bytes)
    ensures l in NonBlank(ls) <==> l in ls && exists k :: 0 <= k < |l| && l[k] !in {9, 10, 11, 12, 13, 32}
  {
    if ls != [] {
      var before := ls[..|ls| - 1];
      NonBlankExactly(before, l);
      assert ls == before + [ls[|ls| - 1]];
    }
  }

  lemma {:induction false} NonBlankOfParts(a: seq<Bytes>, b: seq<Bytes>)
    ensures NonBlank(a + b) == NonBlank(a) + NonBlank(b)
  {
    if b != [] {
      assert (a + b)[..|a + b| - 1] == a + b[..|b| - 1];
      NonBlankOfParts(a, b[..|b| - 1]);
    } else {
      assert a + b == a;
    }
  }

  lemma {:induction false} NonBlankKept(ls: seq<Bytes>)
    requires forall i :: 0 <= i < |ls| ==> !Blank(ls[i])
    ensures NonBlank(ls) == ls
  {
    if ls != [] {
      NonBlankKept(ls[..|ls| - 1]);
      assert ls == ls[..|ls| - 1] + [ls[|ls| - 1]];
    }
  }

  /** Strips all trailing newlines. */
  function StripNL(l: Bytes): Bytes {
    if |l| > 0 && l[|l| - 1] == NL then StripNL(l[..|l| - 1]) else l
  }

  /** One `readline` from position `pos`: up to and including the next newline, or what there
      is; nothing at or past the end. */
  function ReadLine(content: Bytes, pos: nat): Bytes {
    if pos >= |content| then []
    else
      var rest := content[pos..];
      if NextNL(rest) < |rest| then rest[..NextNL(rest) + 1] else rest
  }

  /** Position in the file and payloads sent. */
  datatype Follower = Follower(pos: nat, sent: seq<Bytes>)

  function WindowStart(sizeAtSeek: nat): nat {
    if sizeAtSeek > BACKBUF then sizeAtSeek - BACKBUF else 0
  }

  function Replayed(sizeAtSeek: nat, content: Bytes): Follower
    requires sizeAtSeek <= |content|
  {
    Follower(|content|, NonBlank(Last(SplitLines(content[WindowStart(sizeAtSeek)..]), REPLAY)))
  }

  function Polled(f: Follower, content: Bytes, json: Bytes -> bool): Follower {
    var line := ReadLine(content, f.pos);
    Follower(f.pos + |line|, if line != [] && json(line) then f.sent + [StripNL(line)] else f.sent)
  }

  /** The replay sends exactly the lines with something in them among the last 50 of the window. */
  lemma ReplaySendsExactly(sizeAtSeek: nat, content: Bytes, l: Bytes)
    requires sizeAtSeek <= |content|
    ensures l in Replayed(sizeAtSeek, content).sent <==>
            l in Last(SplitLines(content[WindowStart(sizeAtSeek)..]), 50)
            && exists k :: 0 <= k < |l| && l[k] !in {9, 10, 11, 12, 13, 32}
  {
    NonBlankExactly(Last(SplitLines(content[WindowStart(sizeAtSeek)..]), REPLAY), l);
  }

  /** The replay looks back 8192 bytes: whatever comes before them does not matter. */
  lemma ReplayLooksBack(before: Bytes, recent: Bytes)
    requires |recent| == 8192
    ensures Replayed(|before + recent|, before + recent).sent == NonBlank(Last(SplitLines(recent), 50))
    ensures Replayed(|before + recent|, before + recent).sent == Replayed(8192, recent).sent
  {
    assert (before + recent)[|before|..] == recent && recent[0..] == recent;
  }

  class Tail {
    const json: Bytes -> bool
    var pos: nat
    var sent: seq<Bytes>

    ghost function View(): Follower
      reads this
    {
      Follower(pos, sent)
    }

    constructor (json: Bytes -> bool)
      ensures this.json == json && View() == Follower(0, [])
    {
      this.json := json;
      pos, sent := 0, [];
    }

    /** The file had `sizeAtSeek` bytes when the end was looked up and holds `content` when read. */
    method Replay(sizeAtSeek: nat, content: Bytes)
      requires sizeAtSeek <= |content| && sent == []
      modifies this
      ensures View() == Replayed(sizeAtSeek, content)
    {
      pos := if sizeAtSeek > BACKBUF then sizeAtSeek - BACKBUF else 0;
      var tail := content[pos..];
      pos := |content|;
      var lines := Last(SplitLines(tail), REPLAY);
      for i := 0 to |lines|
        invariant sent == NonBlank(lines[..i]) && pos == |content|
      {
        assert lines[..i + 1][..i] == lines[..i];
        if !Blank(lines[i]) {
          sent := sent + [lines[i]];
        }
      }
      assert lines[..|lines|] == lines;
    }

    /** One round of the follow loop; `false` when there was nothing to read. */
    method Poll(content: Bytes) returns (progress: bool)
      modifies this
      ensures View() == Polled(old(View()), content, json)
      ensures progress <==> old(pos) < |content|
    {
      var line := NextLine(content);
      if line == [] {
        return false;
      }
      pos := pos + |line|;
      if json(line) {
        sent := sent + [StripNL(line)];
      }
      return true;
    }

    /** `readline` at the current position. */
    method NextLine(content: Bytes) returns (line: Bytes)
      ensures line == ReadLine(content, pos)
      ensures line == [] <==> pos >= |content|
    {
      var rest := if pos < |content| then content[pos..] else [];
      var i := NextNL(rest);
      line := if i < |rest| then rest[..i + 1] else rest;
    }
  }

  // ----- replay ----------------------------------------------------------------------

  /** The window cut out of a file of whole lines is the file's last lines, of which only the
      first can be torn: it is then the tail of the line the window starts in. */
  lemma WindowTearsOnlyFirst(content: Bytes, p: nat)
    requires p < |content| && Rest(content) == [] && CR !in content
    ensures var w := Lines(content[p..]);
      && SplitLines(content[p..]) == w && w != []
      && Lines(content) == Lines(content[..p]) + ([Rest(content[..p]) + w[0]] + w[1..])
  {
    var a, b := content[..p], content[p..];
    assert content == a + b;
    CarryOver(a, b);
    JoinOfSplit(a);
    if NL !in b {
      assert NL !in Rest(a) + b;
      NoNewline(Rest(a) + b);
      assert false;
    }
    FirstLineExtends(Rest(a), b);
    SplitLinesIsLines(b);
    AppendNil(Lines(b));
  }

  /** The replay window opens in the middle of a line. */
  ghost predicate OpensMidLine(content: Bytes, p: nat)
    requires p <= |content|
  {
    Rest(content[..p]) != []
  }

  /** Replay of a file of whole lines, blanks dropped: when the window opens at a line start, or
      holds more than 50 lines, the last of the file's own lines, 50 or as many as the window
      holds; else one torn line, the tail of a line of the file, and every line after it. */
  lemma ReplayIsLastLines(sizeAtSeek: nat, content: Bytes)
    requires sizeAtSeek <= |content| && Rest(content) == [] && CR !in content
    ensures var p := WindowStart(sizeAtSeek);
      var w, all, f := Lines(content[p..]), Lines(content), Replayed(sizeAtSeek, content);
      && f.pos == |content| && |w| <= |all|
      && if OpensMidLine(content, p) && |w| <= REPLAY then
           && w != [] && all[|all| - |w|] == Rest(content[..p]) + w[0]
           && f.sent == NonBlank([w[0]] + Last(all, |w| - 1))
         else
           f.sent == NonBlank(Last(all, if |w| <= REPLAY then |w| else REPLAY))
  {
    var p := WindowStart(sizeAtSeek);
    var w, all, a := Lines(content[p..]), Lines(content), content[..p];
    if content == [] {
      NoNewline([]);
    } else {
      WindowTearsOnlyFirst(content, p);
      assert w == [w[0]] + w[1..];
      if !OpensMidLine(content, p) {
        assert Rest(a) + w[0] == w[0];
        LastOfAppend(Lines(a), w, if |w| <= REPLAY then |w| else REPLAY);
      } else {
        LastOfAppend(Lines(a) + [Rest(a) + w[0]], w[1..], if |w| <= REPLAY then |w| - 1 else REPLAY);
        Regroup(Lines(a), [Rest(a) + w[0]], w[1..]);
        assert Last(w, REPLAY) == if |w| <= REPLAY then w else Last(w[1..], REPLAY);
      }
    }
  }

  /** A file no longer than the window when its end was looked up, however much it has grown by
      the read: exactly its last 50 lines. */
  lemma ShortFileReplay(sizeAtSeek: nat, content: Bytes)
    requires sizeAtSeek <= |content| && sizeAtSeek <= BACKBUF && Rest(content) == [] && CR !in content
    ensures Replayed(sizeAtSeek, content).sent == NonBlank(Last(Lines(content), REPLAY))
  {
    ReplayIsLastLines(sizeAtSeek, content);
    NoNewline([]);
    assert content[..0] == [] && content[0..] == content;
  }

  lemma LastOfAppend(a: seq<Bytes>, b: seq<Bytes>, n: nat)
    requires n <= |b|
    ensures Last(a + b, n) == Last(b, n)
  {
  }

  // ----- follow ----------------------------------------------------------------------

  /** What the file holds once `m` of the contents have been read. */
  function Latest(first: Bytes, contents: seq<Bytes>, m: nat): Bytes
    requires m <= |contents|
  {
    if m == 0 then first else contents[m - 1]
  }

  /** The file's contents at successive reads: it only grows. */
  ghost predicate Grows(first: Bytes, contents: seq<Bytes>) {
    forall k :: 0 <= k < |contents| ==> GrowsAt(first, contents, k)
  }

  ghost predicate GrowsAt(first: Bytes, contents: seq<Bytes>, k: nat)
    requires k < |contents|
  {
    Latest(first, contents, k) <= contents[k]
  }

  /** It only grows, and by whole lines. */
  ghost predicate GrowsByLines(first: Bytes, contents: seq<Bytes>) {
    && Rest(first) == [] && Grows(first, contents)
    && forall k :: 0 <= k < |contents| ==> WholeAt(contents, k)
  }

  ghost predicate WholeAt(contents: seq<Bytes>, k: nat)
    requires k < |contents|
  {
    Rest(contents[k]) == []
  }

  /** The follower after `n` polls, each of which finds the next of the contents. */
  function PollAll(start: Follower, contents: seq<Bytes>, json: Bytes -> bool, n: nat): Follower
    requires n <= |contents|
  {
    if n == 0 then start else Polled(PollAll(start, contents, json, n - 1), contents[n - 1], json)
  }

  lemma {:induction false} PollAllOfPrefix(start: Follower, part: seq<Bytes>, all: seq<Bytes>, json: Bytes -> bool,
                                           n: nat)
    requires part <= all && n <= |part|
    ensures PollAll(start, part, json, n) == PollAll(start, all, json, n)
  {
    if n > 0 {
      PollAllOfPrefix(start, part, all, json, n - 1);
      assert part[n - 1] == all[n - 1];
    }
  }

  /** The lines that are sent on: those the parser accepts with their newline. */
  function Deliverable(ls: seq<Bytes>, json: Bytes -> bool): seq<Bytes> {
    if ls == [] then []
    else
      var before, l := Deliverable(ls[..|ls| - 1], json), ls[|ls| - 1];
      if json(l + [NL]) then before + [l] else before
  }

  lemma DeliverableSnoc(ls: seq<Bytes>, l: Bytes, json: Bytes -> bool)
    ensures Deliverable(ls + [l], json) == Deliverable(ls, json) + if json(l + [NL]) then [l] else []
  {
    assert (ls + [l])[..|ls|] == ls;
  }

  lemma {:induction false} DeliverableAll(ls: seq<Bytes>, json: Bytes -> bool)
    requires AllParse(ls, json)
    ensures Deliverable(ls, json) == ls
  {
    if ls != [] {
      DeliverableAll(ls[..|ls| - 1], json);
      assert ls == ls[..|ls| - 1] + [ls[|ls| - 1]];
    }
  }

  /** The follower has consumed exactly `seen` of what follows `first` in the file, which is
      whole lines, and has sent the deliverable ones of them. */
  ghost predicate UpToDate(f: Follower, first: Bytes, seen: Bytes, sent0: seq<Bytes>, content: Bytes,
                           json: Bytes -> bool) {
    && first + seen <= content && f.pos == |first + seen|
    && Rest(seen) == []
    && f.sent == sent0 + Deliverable(Lines(seen), json)
  }

  /** The next poll finds nothing new, or at least one newline. */
  predicate FindsLine(f: Follower, content: Bytes) {
    f.pos >= |content| || NL in content[f.pos..]
  }

  /** Such a poll takes exactly the next line, if there is one. */
  lemma PollTakesNextLine(f: Follower, first: Bytes, seen: Bytes, sent0: seq<Bytes>, content: Bytes,
                          json: Bytes -> bool)
    returns (seen': Bytes)
    requires UpToDate(f, first, seen, sent0, content, json) && FindsLine(f, content)
    ensures UpToDate(Polled(f, content, json), first, seen', sent0, content, json)
    ensures |Lines(seen')| == |Lines(seen)| + if f.pos < |content| then 1 else 0
  {
    seen' := seen;
    if f.pos < |content| {
      var rest := content[f.pos..];
      assert content == (first + seen) + rest;
      var l := FirstLine(rest);
      PolledLine(f, content, l, json);
      SeenOneMore(seen, l, json);
      Regroup(sent0, Deliverable(Lines(seen), json), if json(l + [NL]) then [l] else []);
      seen' := seen + (l + [NL]);
      TakenIsPrefix(first + seen, rest, l);
      Regroup(first, seen, l + [NL]);
    }
  }

  lemma FirstLine(rest: Bytes) returns (l: Bytes)
    requires NL in rest
    ensures NL !in l && NextNL(rest) == |l| < |rest| && rest[..|l| + 1] == l + [NL]
  {
    HasNewline(rest);
    l := rest[..NextNL(rest)];
    TakeOneMore(rest, |l|);
  }

  /** The reader has consumed whole lines of what follows `first`, and sent the deliverable ones. */
  ghost predicate OnTime(f: Follower, first: Bytes, sent0: seq<Bytes>, content: Bytes, json: Bytes -> bool) {
    exists seen: Bytes :: UpToDate(f, first, seen, sent0, content, json)
  }

  lemma SeenIsConsumed(first: Bytes, seen: Bytes, content: Bytes)
    requires first + seen <= content
    ensures first <= content && first + seen == content[..|first + seen|]
    ensures seen == content[|first|..|first + seen|]
  {
    assert (first + seen)[|first|..] == seen;
  }

  /** Any other poll leaves the reader in the middle of a line. */
  lemma PollTearsLine(f: Follower, first: Bytes, seen: Bytes, sent0: seq<Bytes>, content: Bytes, json: Bytes -> bool)
    requires UpToDate(f, first, seen, sent0, content, json) && !FindsLine(f, content)
    ensures !OnTime(Polled(f, content, json), first, sent0, content, json)
  {
    var g, rest := Polled(f, content, json), content[f.pos..];
    PollReachesEnd(f, content, json);
    if OnTime(g, first, sent0, content, json) {
      var seen': Bytes :| UpToDate(g, first, seen', sent0, content, json);
      SeenIsConsumed(first, seen, content);
      SeenIsConsumed(first, seen', content);
      CutRange(content, |first|, f.pos);
      assert seen' == seen + rest;
      CarryOver(seen, rest);
      AppendNil(rest);
      NoNewline(rest);
    }
  }

  lemma CutRange(s: Bytes, from: nat, pos: nat)
    requires from <= pos <= |s|
    ensures s[from..|s|] == s[from..pos] + s[pos..]
  {
  }

  lemma PollReachesEnd(f: Follower, content: Bytes, json: Bytes -> bool)
    requires !FindsLine(f, content)
    ensures Polled(f, content, json).pos == |content|
  {
    HasNewline(content[f.pos..]);
  }

  /** One poll, whatever was appended since the last: the reader stays on time exactly when it
      finds nothing new or a newline. */
  lemma PollOnTimeExactly(f: Follower, first: Bytes, sent0: seq<Bytes>, latest: Bytes, content: Bytes,
                          json: Bytes -> bool)
    requires latest <= content && OnTime(f, first, sent0, latest, json)
    ensures OnTime(Polled(f, content, json), first, sent0, content, json) <==> FindsLine(f, content)
  {
    var seen: Bytes :| UpToDate(f, first, seen, sent0, latest, json);
    assert UpToDate(f, first, seen, sent0, content, json);
    if FindsLine(f, content) {
      var seen' := PollTakesNextLine(f, first, seen, sent0, content, json);
    } else {
      PollTearsLine(f, first, seen, sent0, content, json);
    }
  }

  lemma TakenIsPrefix(before: Bytes, rest: Bytes, l: Bytes)
    requires |l| < |rest| && rest[..|l| + 1] == l + [NL]
    ensures before + (l + [NL]) <= before + rest
  {
    assert rest == (l + [NL]) + rest[|l| + 1..];
  }

  lemma SeenOneMore(seen: Bytes, l: Bytes, json: Bytes -> bool)
    requires NL !in l && Rest(seen) == []
    ensures Lines(seen + (l + [NL])) == Lines(seen) + [l] && Rest(seen + (l + [NL])) == []
    ensures Deliverable(Lines(seen + (l + [NL])), json) ==
            Deliverable(Lines(seen), json) + if json(l + [NL]) then [l] else []
  {
    CarryOver(seen, l + [NL]);
    AppendNil(l + [NL]);
    OneLine(l);
    DeliverableSnoc(Lines(seen), l, json);
  }

  lemma PolledLine(f: Follower, content: Bytes, l: Bytes, json: Bytes -> bool)
    requires NL !in l && ReadLine(content, f.pos) == l + [NL]
    ensures Polled(f, content, json) ==
            Follower(f.pos + |l| + 1, f.sent + if json(l + [NL]) then [l] else [])
  {
    StripOfLine(l);
    AppendNil(f.sent);
  }

  lemma StripOfLine(l: Bytes)
    requires NL !in l
    ensures StripNL(l + [NL]) == l
  {
    assert (l + [NL])[..|l|] == l;
    if |l| > 0 {
      assert l[|l| - 1] in l;
    }
  }

  ghost predicate OnTimeAt(first: Bytes, start: Follower, contents: seq<Bytes>, json: Bytes -> bool, m: nat)
    requires m <= |contents|
  {
    OnTime(PollAll(start, contents, json, m), first, start.sent, Latest(first, contents, m), json)
  }

  ghost predicate FindsLineAt(start: Follower, contents: seq<Bytes>, json: Bytes -> bool, k: nat)
    requires k < |contents|
  {
    FindsLine(PollAll(start, contents, json, k), contents[k])
  }

  lemma StepOnTime(first: Bytes, start: Follower, contents: seq<Bytes>, json: Bytes -> bool, m: nat)
    requires Grows(first, contents) && m < |contents| && OnTimeAt(first, start, contents, json, m)
    ensures OnTimeAt(first, start, contents, json, m + 1) <==> FindsLineAt(start, contents, json, m)
  {
    assert GrowsAt(first, contents, m);
    PollOnTimeExactly(PollAll(start, contents, json, m), first, start.sent, Latest(first, contents, m),
                      contents[m], json);
  }

  /** After none, one, and so on up to `n` polls the reader is up to date. */
  ghost predicate AllOnTime(first: Bytes, start: Follower, contents: seq<Bytes>, json: Bytes -> bool, n: nat)
    requires n <= |contents|
  {
    OnTimeAt(first, start, contents, json, n) && (n > 0 ==> AllOnTime(first, start, contents, json, n - 1))
  }

  /** Each of the first `n` polls finds nothing new or a newline. */
  ghost predicate AllFound(start: Follower, contents: seq<Bytes>, json: Bytes -> bool, n: nat)
    requires n <= |contents|
  {
    n > 0 ==> AllFound(start, contents, json, n - 1) && FindsLineAt(start, contents, json, n - 1)
  }

  /** A file growing by arbitrary bytes: the reader is up to date after each of its polls exactly
      when each of them found nothing new or a newline. */
  lemma {:induction false} FollowsExactly(first: Bytes, start: Follower, contents: seq<Bytes>, json: Bytes -> bool,
                                          n: nat)
    requires Grows(first, contents) && start.pos == |first| && n <= |contents|
    ensures AllOnTime(first, start, contents, json, n) <==> AllFound(start, contents, json, n)
  {
    if n == 0 {
      OnTimeAtFirst(first, start, contents, json);
    } else {
      FollowsExactly(first, start, contents, json, n - 1);
      if OnTimeAt(first, start, contents, json, n - 1) {
        StepOnTime(first, start, contents, json, n - 1);
      }
    }
  }

  lemma OnTimeAtFirst(first: Bytes, start: Follower, contents: seq<Bytes>, json: Bytes -> bool)
    requires start.pos == |first|
    ensures OnTimeAt(first, start, contents, json, 0)
  {
    AppendNil(first);
    AppendNil(start.sent);
    NoNewline([]);
    assert UpToDate(start, first, [], start.sent, first, json);
  }

  /** A reader that is on time in a file of whole lines finds a line wherever there is more. */
  lemma WholeFileHasLine(f: Follower, first: Bytes, sent0: seq<Bytes>, latest: Bytes, content: Bytes,
                         json: Bytes -> bool)
    requires latest <= content && OnTime(f, first, sent0, latest, json)
    requires Rest(first) == [] && Rest(content) == []
    ensures FindsLine(f, content)
  {
    var seen: Bytes :| UpToDate(f, first, seen, sent0, latest, json);
    if !FindsLine(f, content) {
      var rest := content[f.pos..];
      assert content == (first + seen) + rest;
      CarryOver(first, seen);
      AppendNil(seen);
      CarryOver(first + seen, rest);
      AppendNil(rest);
      NoNewline(rest);
    }
  }

  lemma {:induction false} WholeLinesAreFound(first: Bytes, start: Follower, contents: seq<Bytes>,
                                              json: Bytes -> bool, n: nat)
    requires GrowsByLines(first, contents) && start.pos == |first| && n <= |contents|
    ensures AllFound(start, contents, json, n)
  {
    if n > 0 {
      WholeLinesAreFound(first, start, contents, json, n - 1);
      FollowsExactly(first, start, contents, json, n - 1);
      assert OnTimeAt(first, start, contents, json, n - 1);
      assert GrowsAt(first, contents, n - 1) && WholeAt(contents, n - 1);
      WholeFileHasLine(PollAll(start, contents, json, n - 1), first, start.sent, Latest(first, contents, n - 1),
                       contents[n - 1], json);
    }
  }

  lemma WholeLinesOnTime(first: Bytes, start: Follower, contents: seq<Bytes>, json: Bytes -> bool, n: nat)
    requires GrowsByLines(first, contents) && start.pos == |first| && n <= |contents|
    ensures OnTimeAt(first, start, contents, json, n)
  {
    WholeLinesAreFound(first, start, contents, json, n);
    FollowsExactly(first, start, contents, json, n);
  }

  /** Delivery. Whatever the interleaving of appends and reads, after the replay the stream is
      exactly the deliverable lines of the part of the file consumed since, each once, in
      order, and only whole lines are consumed. */
  lemma FollowDelivers(first: Bytes, start: Follower, contents: seq<Bytes>, json: Bytes -> bool)
    returns (seen: Bytes)
    requires GrowsByLines(first, contents) && contents != []
    requires start.pos == |first|
    ensures UpToDate(PollAll(start, contents, json, |contents|), first, seen, start.sent,
                     contents[|contents| - 1], json)
  {
    var n := |contents|;
    WholeLinesOnTime(first, start, contents, json, n);
    seen :| UpToDate(PollAll(start, contents, json, n), first, seen, start.sent, contents[n - 1], json);
  }

  ghost predicate AllParse(ls: seq<Bytes>, json: Bytes -> bool) {
    forall i :: 0 <= i < |ls| ==> json(ls[i] + [NL])
  }

  /** A reader that has caught up has sent, after the replay, every appended line exactly once. */
  lemma CaughtUpMissesNothing(first: Bytes, start: Follower, contents: seq<Bytes>, json: Bytes -> bool)
    returns (appended: Bytes)
    requires GrowsByLines(first, contents) && contents != []
    requires start.pos == |first|
    requires PollAll(start, contents, json, |contents|).pos == |contents[|contents| - 1]|
    ensures contents[|contents| - 1] == first + appended
    ensures AllParse(Lines(appended), json) ==>
              PollAll(start, contents, json, |contents|).sent == start.sent + Lines(appended)
  {
    appended := FollowDelivers(first, start, contents, json);
    if AllParse(Lines(appended), json) {
      DeliverableAll(Lines(appended), json);
    }
  }

  /** A poll stays on line boundaries exactly when what it finds is nothing or has a newline. */
  lemma PollStaysOnBoundary(content: Bytes, pos: nat)
    requires pos <= |content|
    ensures Rest(ReadLine(content, pos)) == [] <==> content[pos..] == [] || NL in content[pos..]
  {
    var rest := content[pos..];
    HasNewline(rest);
    if NL in rest {
      var l := rest[..NextNL(rest)];
      TakeOneMore(rest, |l|);
      OneLine(l);
    } else {
      NoNewline(rest);
      NoNewline([]);
    }
  }

  // ----- torn appends ------------------------------------------------------------------

  /** Not empty, and without a newline except perhaps at its end. */
  predicate Piece(p: Bytes) {
    p != [] && NL !in p[..|p| - 1]
  }

  ghost predicate InPieces(pieces: seq<Bytes>) {
    forall k :: 0 <= k < |pieces| ==> Piece(pieces[k])
  }

  /** What a file holds after each of `pieces` has been appended. */
  function Appended(content: Bytes, pieces: seq<Bytes>): seq<Bytes> {
    if pieces == [] then [] else Appended(content, pieces[..|pieces| - 1]) + [content + Concat(pieces)]
  }

  /** The pieces that parse on their own. */
  function ParsingPieces(pieces: seq<Bytes>, json: Bytes -> bool): seq<Bytes> {
    if pieces == [] then []
    else
      var before, p := ParsingPieces(pieces[..|pieces| - 1], json), pieces[|pieces| - 1];
      if json(p) then before + [StripNL(p)] else before
  }

  lemma ReadPiece(content: Bytes, p: Bytes)
    requires Piece(p)
    ensures ReadLine(content + p, |content|) == p
  {
    var n := |p| - 1;
    assert (content + p)[|content|..] == p;
    assert p == p[..n] + [p[n]];
    if p[n] == NL {
      NextNLIs(p, n);
    } else {
      HasNewline(p);
    }
  }

  /** When each piece is read before the next is appended, each stands or falls on its own. */
  lemma {:induction false} PollsPieces(f: Follower, content: Bytes, pieces: seq<Bytes>, json: Bytes -> bool)
    requires f.pos == |content| && InPieces(pieces)
    ensures |Appended(content, pieces)| == |pieces|
    ensures PollAll(f, Appended(content, pieces), json, |pieces|) ==
            Follower(|content + Concat(pieces)|, f.sent + ParsingPieces(pieces, json))
  {
    if pieces == [] {
      AppendNil(f.sent);
    } else {
      var before, p := pieces[..|pieces| - 1], pieces[|pieces| - 1];
      PollsPieces(f, content, before, json);
      assert pieces == before + [p];
      ConcatSnoc(before, p);
      Regroup(content, Concat(before), p);
      ReadPiece(content + Concat(before), p);
      PollAllOfPrefix(f, Appended(content, before), Appended(content, pieces), json, |before|);
      StripNLShrinks(p);
      Regroup(f.sent, ParsingPieces(before, json), [StripNL(p)]);
    }
  }

  lemma StripNLShrinks(p: Bytes)
    requires Piece(p)
    ensures p[|p| - 1] == NL ==> StripNL(p) == p[..|p| - 1]
    ensures p[|p| - 1] != NL ==> StripNL(p) == p
  {
    if p[|p| - 1] == NL {
      var l := p[..|p| - 1];
      assert p == l + [NL];
      StripOfLine(l);
    }
  }

  lemma {:induction false} NoneParses(pieces: seq<Bytes>, json: Bytes -> bool)
    ensures ParsingPieces(pieces, json) == [] <==> forall k :: 0 <= k < |pieces| ==> !json(pieces[k])
  {
    if pieces != [] {
      NoneParses(pieces[..|pieces| - 1], json);
    }
  }

  lemma {:induction false} OneParses(pieces: seq<Bytes>, json: Bytes -> bool, x: Bytes) returns (k: nat)
    requires ParsingPieces(pieces, json) == [x]
    ensures k < |pieces| && json(pieces[k]) && StripNL(pieces[k]) == x
    ensures forall j :: 0 <= j < |pieces| && j != k ==> !json(pieces[j])
  {
    var n := |pieces| - 1;
    var before := ParsingPieces(pieces[..n], json);
    assert forall j :: 0 <= j < n ==> pieces[j] == pieces[..n][j];
    if json(pieces[n]) {
      k := n;
      assert (before + [StripNL(pieces[n])])[|before|] == x;
      NoneParses(pieces[..n], json);
    } else {
      k := OneParses(pieces[..n], json, x);
    }
  }

  lemma {:induction false} PiecesAddUp(pieces: seq<Bytes>, k: nat)
    requires InPieces(pieces) && k < |pieces|
    ensures |Concat(pieces)| >= |pieces[k]| + |pieces| - 1
  {
    if k > 0 {
      PiecesAddUp(pieces[1..], k - 1);
    } else {
      ConcatNotShorter(pieces[1..]);
    }
  }

  lemma {:induction false} ConcatNotShorter(pieces: seq<Bytes>)
    requires InPieces(pieces)
    ensures |Concat(pieces)| >= |pieces|
  {
    if pieces != [] {
      ConcatNotShorter(pieces[1..]);
    }
  }

  /** In one piece, or with only its newline cut off, and parsing nowhere else. */
  predicate ComesThrough(l: Bytes, pieces: seq<Bytes>, json: Bytes -> bool) {
    || (pieces == [l + [NL]] && json(l + [NL]))
    || (pieces == [l, [NL]] && json(l) && !json([NL]))
  }

  /** Appends must be whole lines. A line read in any number of pieces is lost exactly when none of
      them parses, and comes through exactly when it parses and at most its newline was cut off. */
  lemma TornLineExactly(f: Follower, content: Bytes, l: Bytes, pieces: seq<Bytes>, json: Bytes -> bool)
    requires f.pos == |content| && NL !in l && InPieces(pieces) && Concat(pieces) == l + [NL]
    ensures |Appended(content, pieces)| == |pieces|
    ensures var g := PollAll(f, Appended(content, pieces), json, |pieces|);
      && g == Follower(|content + (l + [NL])|, f.sent + ParsingPieces(pieces, json))
      && (g.sent == f.sent <==> forall k :: 0 <= k < |pieces| ==> !json(pieces[k]))
      && (g.sent == f.sent + [l] <==> ComesThrough(l, pieces, json))
  {
    var sent := ParsingPieces(pieces, json);
    PollsPieces(f, content, pieces, json);
    NoneParses(pieces, json);
    assert f.sent + sent == f.sent <==> sent == [];
    assert f.sent + sent == f.sent + [l] <==> sent == [l] by {
      assert (f.sent + sent)[|f.sent|..] == sent && (f.sent + [l])[|f.sent|..] == [l];
    }
    if sent == [l] {
      ThroughOnlyNearlyWhole(l, pieces, json);
    }
    if ComesThrough(l, pieces, json) {
      ThroughWhenNearlyWhole(l, pieces, json);
    }
  }

  lemma ThroughWhenNearlyWhole(l: Bytes, pieces: seq<Bytes>, json: Bytes -> bool)
    requires NL !in l && InPieces(pieces) && ComesThrough(l, pieces, json)
    ensures ParsingPieces(pieces, json) == [l]
  {
    if pieces == [l + [NL]] {
      StripOfLine(l);
      assert pieces[..0] == [];
    } else {
      assert pieces[0] == l && Piece(l);
      StripNLShrinks(l);
      assert l[|l| - 1] in l;
      assert pieces[..1] == [l] && [l][..0] == [];
      assert ParsingPieces([l], json) == ParsingPieces([], json) + [StripNL(l)];
    }
  }

  lemma ThroughOnlyNearlyWhole(l: Bytes, pieces: seq<Bytes>, json: Bytes -> bool)
    requires NL !in l && InPieces(pieces) && Concat(pieces) == l + [NL] && ParsingPieces(pieces, json) == [l]
    ensures ComesThrough(l, pieces, json)
  {
    var k := OneParses(pieces, json, l);
    PiecesAddUp(pieces, k);
    StripNLShrinks(pieces[k]);
    if |pieces| == 1 {
      assert Concat(pieces) == pieces[0] + Concat(pieces[1..]) == pieces[0];
    } else {
      assert |pieces| == 2;
      assert pieces[1..] == [pieces[1]] && pieces[1..][1..] == [];
      assert Concat(pieces) == pieces[0] + (pieces[1] + []);
      TwoPieces(l, pieces[0], pieces[1], k);
      assert pieces == [l, [NL]];
    }
  }

  lemma TwoPieces(l: Bytes, a: Bytes, b: Bytes, k: nat)
    requires NL !in l && Piece(a) && Piece(b) && a + b == l + [NL] && k < 2
    requires StripNL(if k == 0 then a else b) == l
    ensures k == 0 && a == l && b == [NL]
  {
    var whole := a + b;
    assert whole[|whole| - 1] == b[|b| - 1] == NL;
    assert a == l[..|a|];
    assert NL !in a;
    StripNLShrinks(a);
    StripNLShrinks(b);
    assert b == whole[|a|..];
  }

  /** The case of two halves. */
  lemma TornAppend(f: Follower, content: Bytes, a: Bytes, b: Bytes, json: Bytes -> bool)
    requires f.pos == |content| && a != [] && NL !in a && NL !in b
    ensures var g := Polled(Polled(f, content + a, json), content + a + (b + [NL]), json);
      && g.pos == |content + a + (b + [NL])|
      && (g.sent == f.sent <==> !json(a) && !json(b + [NL]))
      && (g.sent == f.sent + [a + b] <==> b == [] && json(a) && !json(b + [NL]))
  {
    var pieces := [a, b + [NL]];
    HalvesArePieces(content, a, b);
    TornLineExactly(f, content, a + b, pieces, json);
    TwoPolls(f, Appended(content, pieces), json);
    HalvesComeThrough(a, b, json);
  }

  lemma HalvesArePieces(content: Bytes, a: Bytes, b: Bytes)
    requires a != [] && NL !in a && NL !in b
    ensures var pieces := [a, b + [NL]];
      && InPieces(pieces) && Concat(pieces) == (a + b) + [NL]
      && Appended(content, pieces) == [content + a, content + a + (b + [NL])]
      && content + ((a + b) + [NL]) == content + a + (b + [NL])
  {
    var pieces, last := [a, b + [NL]], b + [NL];
    assert last[..|b|] == b;
    AppendedSnoc(content, [], a);
    AppendedSnoc(content, [a], last);
    ConcatSnoc([], a);
    ConcatSnoc([a], last);
    assert [] + [a] == [a] && [a] + [last] == pieces;
    AppendNil(a);
    Regroup(a, b, [NL]);
    Regroup(content, a, last);
  }

  lemma AppendedSnoc(content: Bytes, before: seq<Bytes>, p: Bytes)
    ensures Appended(content, before + [p]) == Appended(content, before) + [content + Concat(before + [p])]
  {
    assert (before + [p])[..|before|] == before;
  }

  lemma TwoPolls(f: Follower, contents: seq<Bytes>, json: Bytes -> bool)
    requires |contents| == 2
    ensures PollAll(f, contents, json, 2) == Polled(Polled(f, contents[0], json), contents[1], json)
  {
    assert PollAll(f, contents, json, 1) == Polled(PollAll(f, contents, json, 0), contents[0], json);
  }

  lemma HalvesComeThrough(a: Bytes, b: Bytes, json: Bytes -> bool)
    requires a != []
    ensures ComesThrough(a + b, [a, b + [NL]], json) <==> b == [] && json(a) && !json(b + [NL])
  {
    var pieces := [a, b + [NL]];
    assert |pieces| == 2 && pieces[0] == a && pieces[1] == b + [NL];
    if b == [] {
      assert a + b == a && b + [NL] == [NL];
    } else {
      assert |a + b| > |a| && |b + [NL]| > 1;
    }
  }
}
