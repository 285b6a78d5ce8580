/** The USB collector: blocks of `udevadm monitor` output, a header line and key=value lines,
    parsed by one loop over a mutable dictionary. */
module Udev {

  // ----- Python's string operations the loop uses ---------------------------------------

  predicate IsSpace(c: char) {
    c as int in {9, 10, 11, 12, 13, 28, 29, 30, 31, 32}
  }

  function StripLeft(s: string): string {
    if s != "" && IsSpace(s[0]) then StripLeft(s[1..]) else s
  }

  function StripRight(s: string): string {
    if s != "" && IsSpace(s[|s| - 1]) then StripRight(s[..|s| - 1]) else s
  }

  function Strip(s: string): string {
    StripRight(StripLeft(s))
  }

  lemma {:induction false} StripLeftShrinks(s: string)
    ensures |StripLeft(s)| <= |s|
    ensures StripLeft(s) != "" ==> !IsSpace(StripLeft(s)[0])
  {
    if s != "" && IsSpace(s[0]) {
      StripLeftShrinks(s[1..]);
    }
  }

  predicate AllSpace(s: string) {
    forall k :: 0 <= k < |s| ==> IsSpace(s[k])
  }

  /** A space, a tab or another of these ten characters. */
  predicate White(c: char) {
    || c == ' ' || c == '\t' || c == '\n' || c == '\r' || c as int == 11 || c as int == 12
    || 28 <= c as int <= 31
  }

  /** Stripping takes off white space at both ends, all of it and nothing else. */
  lemma StripExactly(s: string) returns (left: string, right: string)
    ensures s == left + Strip(s) + right
    ensures forall k :: 0 <= k < |left| ==> White(left[k])
    ensures forall k :: 0 <= k < |right| ==> White(right[k])
    ensures Strip(s) != "" ==> !White(Strip(s)[0]) && !White(Strip(s)[|Strip(s)| - 1])
  {
    left := StripLeftExactly(s);
    right := StripRightExactly(StripLeft(s));
    StripRightKeepsFirst(StripLeft(s));
  }

  lemma {:induction false} StripLeftExactly(s: string) returns (left: string)
    ensures s == left + StripLeft(s) && AllSpace(left)
    ensures StripLeft(s) != "" ==> !IsSpace(StripLeft(s)[0])
  {
    if s != "" && IsSpace(s[0]) {
      var rest := StripLeftExactly(s[1..]);
      left := [s[0]] + rest;
      assert s == [s[0]] + s[1..];
    } else {
      left := "";
    }
  }

  lemma {:induction false} StripRightExactly(s: string) returns (right: string)
    ensures s == StripRight(s) + right && AllSpace(right)
    ensures StripRight(s) != "" ==> !IsSpace(StripRight(s)[|StripRight(s)| - 1])
  {
    if s != "" && IsSpace(s[|s| - 1]) {
      var rest := StripRightExactly(s[..|s| - 1]);
      right := rest + [s[|s| - 1]];
      assert s == s[..|s| - 1] + [s[|s| - 1]];
    } else {
      right := "";
    }
  }

  lemma {:induction false} StripRightKeepsFirst(s: string)
    ensures StripRight(s) <= s
  {
    if s != "" && IsSpace(s[|s| - 1]) {
      StripRightKeepsFirst(s[..|s| - 1]);
    }
  }

  function FirstSpace(s: string): (i: nat)
    ensures i <= |s|
    ensures i < |s| ==> IsSpace(s[i])
    ensures forall k :: 0 <= k < i ==> !IsSpace(s[k])
  {
    if s == "" || IsSpace(s[0]) then 0 else 1 + FirstSpace(s[1..])
  }

  /** `str.split()`: the maximal runs of non-space characters. */
  function Words(s: string): seq<string>
    decreases |s|
  {
    StripLeftShrinks(s);
    var t := StripLeft(s);
    if t == "" then [] else [t[..FirstSpace(t)]] + Words(t[FirstSpace(t)..])
  }

  function FirstEq(s: string): (i: nat)
    ensures i <= |s|
    ensures i < |s| ==> s[i] == '='
    ensures forall k :: 0 <= k < i ==> s[k] != '='
  {
    if s == "" || s[0] == '=' then 0 else 1 + FirstEq(s[1..])
  }

  // ----- the loop --------------------------------------------------------------------------

  type Fields = map<string, string>

  datatype Parser = Parser(cur: Fields, emitted: seq<Fields>)

  /** The emitted record: the block's own fields win over the two added ones. */
  function Record(ts: string, cur: Fields): Fields {
    map["ts" := ts, "type" := "usb_event"] + cur
  }

  /** One line. `clock(k)` is the time at which the `k`-th record is emitted. */
  function Stepped(p: Parser, raw: string, clock: nat -> string): Parser {
    var line := Strip(raw);
    if "UDEV" <= line then
      var flushed := if p.cur != map[] then Parser(map[], p.emitted + [Record(clock(|p.emitted|), p.cur)]) else p;
      var parts := Words(line);
      if |parts| >= 4 then flushed.(cur := flushed.cur["action" := parts[2]]["devpath" := parts[3]]) else flushed
    else if FirstEq(line) < |line| then
      var i := FirstEq(line);
      p.(cur := p.cur[Strip(line[..i]) := Strip(line[i + 1..])])
    else p
  }

  function Parsed(lines: seq<string>, clock: nat -> string): Parser {
    if lines == [] then Parser(map[], [])
    else Stepped(Parsed(lines[..|lines| - 1], clock), lines[|lines| - 1], clock)
  }

  /** An emitted record: the block's own fields, each with its own value; the time and the type where
      the block does not set them; nothing else. */
  lemma RecordExactly(ts: string, cur: Fields)
    ensures forall k :: k in cur ==> k in Record(ts, cur) && Record(ts, cur)[k] == cur[k]
    ensures "ts" !in cur ==> "ts" in Record(ts, cur) && Record(ts, cur)["ts"] == ts
    ensures "type" !in cur ==> "type" in Record(ts, cur) && Record(ts, cur)["type"] == "usb_event"
    ensures forall k :: k in Record(ts, cur) ==> k == "ts" || k == "type" || k in cur
  {
  }

  /** A header with an action and a path ends the block before it, which is emitted if it has any
      field, and starts a block with just these two; a header cut short starts an empty block. */
  lemma HeaderExactly(p: Parser, raw: string, clock: nat -> string)
    requires "UDEV" <= Strip(raw)
    ensures var p', words := Stepped(p, raw, clock), Words(Strip(raw));
      && p'.emitted == p.emitted + (if p.cur == map[] then [] else [Record(clock(|p.emitted|), p.cur)])
      && p'.cur.Keys == (if |words| < 4 then {} else {"action", "devpath"})
      && (|words| >= 4 ==> p'.cur["action"] == words[2] && p'.cur["devpath"] == words[3])
  {
  }

  /** Any other line emits nothing. It sets one key if it has an equals sign: what is before the first
      one, to what is after it, both stripped. */
  lemma OtherLineExactly(p: Parser, raw: string, before: string, after: string, clock: nat -> string)
    requires !("UDEV" <= Strip(raw))
    ensures '=' !in Strip(raw) ==> Stepped(p, raw, clock) == p
    ensures Strip(raw) == before + "=" + after && '=' !in before ==>
              Stepped(p, raw, clock) == p.(cur := p.cur[Strip(before) := Strip(after)])
  {
    var line := Strip(raw);
    if line == before + "=" + after && '=' !in before {
      assert line[|before|] == '=';
      FirstEqIs(line, |before|);
      assert line[..|before|] == before && line[|before| + 1..] == after;
    }
  }

  method Collect(lines: seq<string>, clock: nat -> string) returns (cur: Fields, emitted: seq<Fields>)
    ensures Parser(cur, emitted) == Parsed(lines, clock)
  {
    cur, emitted := map[], [];
    for k := 0 to |lines|
      invariant Parser(cur, emitted) == Parsed(lines[..k], clock)
    {
      assert lines[..k + 1][..k] == lines[..k];
      var line := Strip(lines[k]);
      if "UDEV" <= line {
        if cur != map[] {
          emitted := emitted + [Record(clock(|emitted|), cur)];
          cur := map[];
        }
        var parts := Words(line);
        if |parts| >= 4 {
          cur := cur["action" := parts[2]];
          cur := cur["devpath" := parts[3]];
        }
      } else {
        var i := FirstEq(line);
        if i < |line| {
          cur := cur[Strip(line[..i]) := Strip(line[i + 1..])];
        }
      }
    }
    assert lines[..|lines|] == lines;
  }

  // ----- printing ----------------------------------------------------------------------------

  datatype Block = Block(
    stamp: string, action: string, devpath: string, subsystem: string,
    props: seq<(string, string)>)

  /** Non-empty and without spaces. */
  predicate Word(s: string) {
    s != "" && forall k :: 0 <= k < |s| ==> !IsSpace(s[k])
  }

  /** No space at either end. */
  predicate Trimmed(s: string) {
    s == "" || (!IsSpace(s[0]) && !IsSpace(s[|s| - 1]))
  }

  /** A property survives the loop: its key holds no '=' and does not look like a header. */
  predicate GoodProp(p: (string, string)) {
    Trimmed(p.0) && Trimmed(p.1) && '=' !in p.0 && !("UDEV" <= p.0)
  }

  ghost predicate GoodBlock(b: Block) {
    && Word(b.stamp) && Word(b.action) && Word(b.devpath) && Word(b.subsystem)
    && forall i :: 0 <= i < |b.props| ==> GoodProp(b.props[i])
  }

  /** Keys are distinct and do not repeat the header's. */
  ghost predicate DistinctKeys(b: Block) {
    && (forall i :: 0 <= i < |b.props| ==> b.props[i].0 != "action" && b.props[i].0 != "devpath")
    && forall i, j :: 0 <= i < j < |b.props| ==> b.props[i].0 != b.props[j].0
  }

  function Spaces(n: nat): string {
    if n == 0 then "" else " " + Spaces(n - 1)
  }

  /** Words, each followed by its number of spaces, then a last word. */
  function Padded(ws: seq<(string, nat)>, last: string): string {
    if ws == [] then last else ws[0].0 + Spaces(ws[0].1) + Padded(ws[1..], last)
  }

  /** The header's words and gaps but the last word; the action is padded to eight columns. */
  function HeaderWords(b: Block): seq<(string, nat)> {
    [("UDEV", 2), (b.stamp, 1), (b.action, if |b.action| < 8 then 9 - |b.action| else 1), (b.devpath, 1)]
  }

  function PrintHeader(b: Block): string {
    Padded(HeaderWords(b), b.subsystem) + "\n"
  }

  function PrintProp(p: (string, string)): string {
    p.0 + "=" + p.1 + "\n"
  }

  function PrintProps(props: seq<(string, string)>): (lines: seq<string>) {
    if props == [] then [] else PrintProps(props[..|props| - 1]) + [PrintProp(props[|props| - 1])]
  }

  function PrintBlocks(blocks: seq<Block>): seq<string> {
    if blocks == [] then []
    else
      var b := blocks[|blocks| - 1];
      PrintBlocks(blocks[..|blocks| - 1]) + [PrintHeader(b)] + PrintProps(b.props)
  }

  function WithProps(cur: Fields, props: seq<(string, string)>): Fields {
    if props == [] then cur
    else WithProps(cur, props[..|props| - 1])[props[|props| - 1].0 := props[|props| - 1].1]
  }

  /** The fields of a block: the header's two and the properties. */
  function FieldsOf(b: Block): Fields {
    WithProps(map["action" := b.action, "devpath" := b.devpath], b.props)
  }

  function Records(blocks: seq<Block>, clock: nat -> string): seq<Fields> {
    if blocks == [] then []
    else Records(blocks[..|blocks| - 1], clock) + [Record(clock(|blocks| - 1), FieldsOf(blocks[|blocks| - 1]))]
  }

  // ----- what stripping and splitting do to printed text ----------------------------------------

  lemma StripTrimmed(s: string)
    requires Trimmed(s)
    ensures Strip(s) == s
  {
  }

  lemma StripNewline(s: string)
    requires Trimmed(s)
    ensures Strip(s + "\n") == s
  {
    if s == "" {
      assert s + "\n" == "\n";
      assert StripLeft("\n") == StripLeft("\n"[1..]) == "";
    } else {
      assert StripLeft(s + "\n") == s + "\n";
      assert (s + "\n")[..|s|] == s;
      assert StripRight(s + "\n") == StripRight(s);
    }
  }

  lemma FirstSpaceIs(s: string, i: nat)
    requires i <= |s| && (i < |s| ==> IsSpace(s[i])) && forall k :: 0 <= k < i ==> !IsSpace(s[k])
    ensures FirstSpace(s) == i
  {
  }

  lemma FirstEqIs(s: string, i: nat)
    requires i < |s| && s[i] == '=' && forall k :: 0 <= k < i ==> s[k] != '='
    ensures FirstEq(s) == i
  {
  }

  lemma {:induction false} StripSpaces(n: nat, s: string)
    ensures StripLeft(Spaces(n) + s) == StripLeft(s)
  {
    if n == 0 {
      assert Spaces(0) + s == s;
    } else {
      assert (Spaces(n) + s)[1..] == Spaces(n - 1) + s;
      StripSpaces(n - 1, s);
    }
  }

  /** Splitting off a first word that is followed by spaces. */
  lemma FirstWord(w: string, n: nat, rest: string)
    requires Word(w) && n > 0
    ensures Words(w + Spaces(n) + rest) == [w] + Words(rest)
  {
    var s := w + Spaces(n) + rest;
    assert StripLeft(s) == s;
    assert s[|w|] == ' ';
    FirstSpaceIs(s, |w|);
    assert s[..|w|] == w && s[|w|..] == Spaces(n) + rest;
    WordsSkipSpaces(n, rest);
  }

  lemma WordsSkipSpaces(n: nat, s: string)
    ensures Words(Spaces(n) + s) == Words(s)
  {
    StripSpaces(n, s);
    StripLeftShrinks(s);
  }

  lemma LastWord(w: string)
    requires Word(w)
    ensures Words(w) == [w]
  {
    FirstSpaceIs(w, |w|);
    assert w[..|w|] == w && w[|w|..] == "";
  }

  ghost predicate GoodWords(ws: seq<(string, nat)>) {
    forall i :: 0 <= i < |ws| ==> Word(ws[i].0) && ws[i].1 > 0
  }

  function Firsts(ws: seq<(string, nat)>): (r: seq<string>)
    ensures |r| == |ws| && forall i :: 0 <= i < |ws| ==> r[i] == ws[i].0
  {
    if ws == [] then [] else [ws[0].0] + Firsts(ws[1..])
  }

  lemma {:induction false} WordsOfPadded(ws: seq<(string, nat)>, last: string)
    requires GoodWords(ws) && Word(last)
    ensures Words(Padded(ws, last)) == Firsts(ws) + [last]
  {
    if ws == [] {
      LastWord(last);
    } else {
      WordsOfPadded(ws[1..], last);
      FirstWord(ws[0].0, ws[0].1, Padded(ws[1..], last));
    }
  }

  lemma {:induction false} EndOfPadded(ws: seq<(string, nat)>, last: string)
    requires Word(last)
    ensures var s := Padded(ws, last); s != "" && !IsSpace(s[|s| - 1])
  {
    if ws != [] {
      EndOfPadded(ws[1..], last);
      LastOfConcat(ws[0].0 + Spaces(ws[0].1), Padded(ws[1..], last));
    }
  }

  lemma LastOfConcat(a: string, b: string)
    requires b != ""
    ensures var ab := a + b; ab != "" && ab[|ab| - 1] == b[|b| - 1]
  {
  }

  /** Text without its white space. */
  function Dense(s: string): string {
    if s == "" then "" else (if White(s[0]) then "" else [s[0]]) + Dense(s[1..])
  }

  function Joined(ws: seq<string>): string {
    if ws == [] then "" else ws[0] + Joined(ws[1..])
  }

  lemma {:induction false} DenseOfParts(a: string, b: string)
    ensures Dense(a + b) == Dense(a) + Dense(b)
  {
    if a == "" {
      assert a + b == b;
    } else {
      assert (a + b)[1..] == a[1..] + b;
      DenseOfParts(a[1..], b);
    }
  }

  lemma {:induction false} DenseOfSpace(a: string)
    requires AllSpace(a)
    ensures Dense(a) == ""
  {
    if a != "" {
      DenseOfSpace(a[1..]);
    }
  }

  lemma {:induction false} DenseOfWord(a: string)
    requires forall k :: 0 <= k < |a| ==> !IsSpace(a[k])
    ensures Dense(a) == a
  {
    if a != "" {
      DenseOfWord(a[1..]);
      assert a == [a[0]] + a[1..];
    }
  }

  lemma CutFirstWord(t: string) returns (w: string, rest: string)
    requires t != "" && !IsSpace(t[0])
    ensures w == t[..FirstSpace(t)] && rest == t[FirstSpace(t)..] && t == w + rest
    ensures Word(w) && |rest| < |t|
  {
    w, rest := t[..FirstSpace(t)], t[FirstSpace(t)..];
    assert FirstSpace(t) > 0;
  }

  /** Splitting loses nothing but white space, and no word has any or is empty. */
  lemma {:induction false} WordsExactly(s: string)
    ensures Joined(Words(s)) == Dense(s)
    ensures forall i :: 0 <= i < |Words(s)| ==> Word(Words(s)[i])
    decreases |s|
  {
    var left := StripLeftExactly(s);
    var t := StripLeft(s);
    StripLeftShrinks(s);
    DenseOfParts(left, t);
    DenseOfSpace(left);
    if t != "" {
      var w, rest := CutFirstWord(t);
      DenseOfParts(w, rest);
      DenseOfWord(w);
      WordsExactly(rest);
      assert Words(s) == [w] + Words(rest) && ([w] + Words(rest))[1..] == Words(rest);
    }
  }

  /** A printed header is recognised and gives back its action and device path. */
  lemma HeaderParses(b: Block)
    requires GoodBlock(b)
    ensures var line := Strip(PrintHeader(b));
      "UDEV" <= line && Words(line) == ["UDEV", b.stamp, b.action, b.devpath, b.subsystem]
  {
    var ws := HeaderWords(b);
    assert Word("UDEV");
    StripPadded(ws, b.subsystem);
    WordsOfPadded(ws, b.subsystem);
    StartsWith(ws[0].0, Spaces(ws[0].1), Padded(ws[1..], b.subsystem));
    assert Firsts(ws) + [b.subsystem] == ["UDEV", b.stamp, b.action, b.devpath, b.subsystem];
  }

  lemma StripPadded(ws: seq<(string, nat)>, last: string)
    requires ws != [] && GoodWords(ws) && Word(last)
    ensures Strip(Padded(ws, last) + "\n") == Padded(ws, last)
  {
    EndOfPadded(ws, last);
    StartsWith(ws[0].0, Spaces(ws[0].1), Padded(ws[1..], last));
    assert Padded(ws, last)[0] == ws[0].0[0];
    StripNewline(Padded(ws, last));
  }

  lemma StartsWith(a: string, b: string, c: string)
    ensures a <= a + b + c
  {
  }

  /** A trimmed property line keeps the block so far, empty or not, and sets its key, exactly when the key
      does not start like a header. */
  lemma PropertyKeptExactly(p: Parser, prop: (string, string), clock: nat -> string)
    requires Trimmed(prop.0) && Trimmed(prop.1) && '=' !in prop.0
    ensures Stepped(p, PrintProp(prop), clock) == p.(cur := p.cur[prop.0 := prop.1]) <==> !("UDEV" <= prop.0)
  {
    PropertyLine(prop);
    if "UDEV" <= prop.0 {
      HeaderSetsOther(p, PrintProp(prop), prop.0, prop.1, clock);
    }
  }

  /** What the loop makes of a printed property: its key and value, and whether it looks like a header. */
  lemma PropertyLine(prop: (string, string))
    requires Trimmed(prop.0) && Trimmed(prop.1) && '=' !in prop.0
    ensures var line, i := Strip(PrintProp(prop)), |prop.0|;
      && FirstEq(line) == i < |line|
      && Strip(line[..i]) == prop.0 && Strip(line[i + 1..]) == prop.1
      && ("UDEV" <= line <==> "UDEV" <= prop.0)
  {
    var (k, v) := prop;
    var line := k + "=" + v;
    assert Trimmed(line);
    StripNewline(line);
    assert PrintProp(prop) == line + "\n";
    assert line[|k|] == '=';
    FirstEqIs(line, |k|);
    assert line[..|k|] == k && line[|k| + 1..] == v;
    StripTrimmed(k);
    StripTrimmed(v);
    HeaderPrefix(k, v);
  }

  /** A header never just sets a key that starts like one. */
  lemma HeaderSetsOther(p: Parser, raw: string, k: string, v: string, clock: nat -> string)
    requires "UDEV" <= Strip(raw) && "UDEV" <= k
    ensures Stepped(p, raw, clock) != p.(cur := p.cur[k := v])
  {
    assert k[0] == 'U' && "action"[0] == 'a' && "devpath"[0] == 'd';
    if p.cur == map[] {
      assert k !in Stepped(p, raw, clock).cur;
    } else {
      assert |Stepped(p, raw, clock).emitted| == |p.emitted| + 1;
    }
  }

  lemma HeaderPrefix(k: string, v: string)
    ensures "UDEV" <= k + "=" + v <==> "UDEV" <= k
  {
    var line := k + "=" + v;
    assert line[|k|] == '=';
    if "UDEV" <= line {
      assert forall i :: 0 <= i < 4 ==> line[i] == "UDEV"[i];
      assert "UDEV"[0] != '=' && "UDEV"[1] != '=' && "UDEV"[2] != '=' && "UDEV"[3] != '=';
      assert |k| >= 4;
    }
  }

  // ----- round trip --------------------------------------------------------------------------

  lemma ParsedSnoc(lines: seq<string>, line: string, clock: nat -> string)
    ensures Parsed(lines + [line], clock) == Stepped(Parsed(lines, clock), line, clock)
  {
    assert (lines + [line])[..|lines|] == lines;
  }

  lemma {:induction false} PropsParse(lines: seq<string>, props: seq<(string, string)>, clock: nat -> string)
    requires forall i :: 0 <= i < |props| ==> GoodProp(props[i])
    requires Parsed(lines, clock).cur != map[]
    ensures var p := Parsed(lines, clock);
      Parsed(lines + PrintProps(props), clock) == p.(cur := WithProps(p.cur, props))
    ensures WithProps(Parsed(lines, clock).cur, props) != map[]
  {
    if props == [] {
      assert lines + [] == lines;
    } else {
      var before, last := props[..|props| - 1], props[|props| - 1];
      PropsParse(lines, before, clock);
      var all := lines + PrintProps(before);
      assert lines + PrintProps(props) == all + [PrintProp(last)];
      ParsedSnoc(all, PrintProp(last), clock);
      PropertyKeptExactly(Parsed(all, clock), last, clock);
      assert last.0 in WithProps(Parsed(lines, clock).cur, props);
    }
  }

  /** Round trip. Parsing the printed blocks emits every block but the last, in order and with
      exactly its fields; the last is held back in the current dictionary. */
  lemma {:induction false} RoundTrip(blocks: seq<Block>, clock: nat -> string)
    requires forall i :: 0 <= i < |blocks| ==> GoodBlock(blocks[i])
    ensures blocks == [] ==> Parsed(PrintBlocks(blocks), clock) == Parser(map[], [])
    ensures blocks != [] ==>
      var last := |blocks| - 1;
      && Parsed(PrintBlocks(blocks), clock) == Parser(FieldsOf(blocks[last]), Records(blocks[..last], clock))
      && FieldsOf(blocks[last]) != map[]
  {
    if blocks != [] {
      var before, b := blocks[..|blocks| - 1], blocks[|blocks| - 1];
      RoundTrip(before, clock);
      BlockParses(PrintBlocks(before), b, clock);
      RecordsCount(before, clock);
      if before != [] {
        RecordsCount(before[..|before| - 1], clock);
      }
    }
  }

  /** Record `r` holds the header fields and properties of `b`, the time and the type where `b` does
      not set them, and nothing else. */
  ghost predicate Tells(r: Fields, b: Block, ts: string) {
    && "action" in r && r["action"] == b.action && "devpath" in r && r["devpath"] == b.devpath
    && (forall j :: 0 <= j < |b.props| ==> b.props[j].0 in r && r[b.props[j].0] == b.props[j].1)
    && (!HasProp(b, "ts") ==> "ts" in r && r["ts"] == ts)
    && (!HasProp(b, "type") ==> "type" in r && r["type"] == "usb_event")
    && forall k :: k in r ==> k in {"action", "devpath", "ts", "type"} || HasProp(b, k)
  }

  ghost predicate HasProp(b: Block, k: string) {
    exists j :: 0 <= j < |b.props| && b.props[j].0 == k
  }

  lemma RecordTells(b: Block, ts: string)
    requires DistinctKeys(b)
    ensures Tells(Record(ts, FieldsOf(b)), b, ts)
  {
    FieldsExact(b, |b.props|);
    assert b.props[..|b.props|] == b.props;
    FieldsHaveProps(b);
    RecordExactly(ts, FieldsOf(b));
  }

  lemma FieldsHaveProps(b: Block)
    requires DistinctKeys(b)
    ensures forall k :: k in FieldsOf(b) ==> k == "action" || k == "devpath" || HasProp(b, k)
  {
    FieldsExact(b, |b.props|);
    assert b.props[..|b.props|] == b.props;
  }

  /** What a subscriber of the bus sees of the printed blocks: of every block but the last one
      record, in order, that tells the block. */
  lemma EmittedTellsBlocks(blocks: seq<Block>, clock: nat -> string, i: nat)
    requires forall j :: 0 <= j < |blocks| ==> GoodBlock(blocks[j]) && DistinctKeys(blocks[j])
    requires i + 1 < |blocks|
    ensures |Parsed(PrintBlocks(blocks), clock).emitted| == |blocks| - 1
    ensures Tells(Parsed(PrintBlocks(blocks), clock).emitted[i], blocks[i], clock(i))
  {
    RoundTrip(blocks, clock);
    RecordAt(blocks[..|blocks| - 1], clock, i);
    RecordTells(blocks[i], clock(i));
  }

  lemma {:induction false} RecordAt(blocks: seq<Block>, clock: nat -> string, i: nat)
    requires i < |blocks|
    ensures |Records(blocks, clock)| == |blocks| && Records(blocks, clock)[i] == Record(clock(i), FieldsOf(blocks[i]))
  {
    RecordsCount(blocks, clock);
    RecordsCount(blocks[..|blocks| - 1], clock);
    if i < |blocks| - 1 {
      RecordAt(blocks[..|blocks| - 1], clock, i);
    }
  }

  lemma BlockParses(lines: seq<string>, b: Block, clock: nat -> string)
    requires GoodBlock(b)
    ensures var p := Parsed(lines, clock);
      Parsed(lines + [PrintHeader(b)] + PrintProps(b.props), clock) ==
      Parser(FieldsOf(b), if p.cur == map[] then p.emitted else p.emitted + [Record(clock(|p.emitted|), p.cur)])
    ensures FieldsOf(b) != map[]
  {
    var fields := map["action" := b.action, "devpath" := b.devpath];
    assert "action" in fields;
    ParsedSnoc(lines, PrintHeader(b), clock);
    HeaderFlushes(Parsed(lines, clock), b, clock);
    PropsParse(lines + [PrintHeader(b)], b.props, clock);
  }

  lemma HeaderFlushes(p: Parser, b: Block, clock: nat -> string)
    requires GoodBlock(b)
    ensures Stepped(p, PrintHeader(b), clock) ==
            Parser(map["action" := b.action, "devpath" := b.devpath],
                   if p.cur == map[] then p.emitted else p.emitted + [Record(clock(|p.emitted|), p.cur)])
  {
    HeaderParses(b);
  }

  lemma {:induction false} RecordsCount(blocks: seq<Block>, clock: nat -> string)
    ensures |Records(blocks, clock)| == |blocks|
  {
    if blocks != [] {
      RecordsCount(blocks[..|blocks| - 1], clock);
    }
  }

  /** With distinct keys a block's fields are exactly its header's and its properties. */
  lemma {:induction false} FieldsExact(b: Block, n: nat)
    requires DistinctKeys(b) && n <= |b.props|
    ensures var f := WithProps(map["action" := b.action, "devpath" := b.devpath], b.props[..n]);
      && "action" in f && f["action"] == b.action && "devpath" in f && f["devpath"] == b.devpath
      && (forall i :: 0 <= i < n ==> b.props[i].0 in f && f[b.props[i].0] == b.props[i].1)
      && forall k :: k in f ==> k == "action" || k == "devpath" || exists i :: 0 <= i < n && b.props[i].0 == k
  {
    if n > 0 {
      FieldsExact(b, n - 1);
      assert b.props[..n][..n - 1] == b.props[..n - 1];
    }
  }
}
