// The exception file reader of the pnpm audit gate: a line-oriented state
// machine over a small YAML subset, and the one-line splitter it uses.
module AuditParser {
  import opened Prelude

  // Strings

  /** The characters Python's str.strip removes. */
  predicate Space(c: char) {
    || '\t' <= c <= '\r' || '\U{1C}' <= c <= ' ' || c == '\U{85}' || c == '\U{A0}' || c == '\U{1680}'
    || '\U{2000}' <= c <= '\U{200A}' || c == '\U{2028}' || c == '\U{2029}' || c == '\U{202F}'
    || c == '\U{205F}' || c == '\U{3000}'
  }

  /** Among the ASCII characters: tab, the line and page breaks, the four separators, and the blank. */
  lemma AsciiSpaces(c: char)
    requires c as int < 128
    ensures Space(c) <==> c as int in {9, 10, 11, 12, 13, 28, 29, 30, 31, 32}
  {
  }

  function LeftStrip(s: string): string {
    if s != [] && Space(s[0]) then LeftStrip(s[1..]) else s
  }

  function RightStrip(s: string): string {
    if s != [] && Space(s[|s| - 1]) then RightStrip(s[..|s| - 1]) else s
  }

  function Strip(s: string): string {
    RightStrip(LeftStrip(s))
  }

  /** No white space at either end. */
  predicate Stripped(s: string) {
    s == [] || (!Space(s[0]) && !Space(s[|s| - 1]))
  }

  predicate AllSpace(s: string) {
    forall i :: 0 <= i < |s| ==> Space(s[i])
  }

  lemma {:induction false} LeftStripCuts(s: string) returns (left: string)
    ensures s == left + LeftStrip(s) && AllSpace(left)
    ensures LeftStrip(s) != [] ==> !Space(LeftStrip(s)[0])
  {
    left := [];
    if s != [] && Space(s[0]) {
      left := LeftStripCuts(s[1..]);
      assert s == [s[0]] + s[1..];
      Associate([s[0]], left, LeftStrip(s));
      left := [s[0]] + left;
    }
  }

  lemma {:induction false} RightStripCuts(s: string) returns (right: string)
    ensures s == RightStrip(s) + right && AllSpace(right)
    ensures RightStrip(s) != [] ==> !Space(RightStrip(s)[|RightStrip(s)| - 1])
  {
    right := [];
    if s != [] && Space(s[|s| - 1]) {
      var last := [s[|s| - 1]];
      right := RightStripCuts(s[..|s| - 1]);
      assert s == s[..|s| - 1] + last;
      Associate(RightStrip(s), right, last);
      right := right + last;
    }
  }

  /** Strip cuts white space off both ends and nothing else. */
  lemma StripCuts(s: string) returns (left: string, right: string)
    ensures s == left + Strip(s) + right && AllSpace(left) && AllSpace(right) && Stripped(Strip(s))
  {
    left := LeftStripCuts(s);
    right := RightStripCuts(LeftStrip(s));
    Associate(left, Strip(s), right);
    FirstKept(LeftStrip(s), Strip(s), right);
  }

  lemma FirstKept(s: string, core: string, right: string)
    requires s == core + right
    ensures core != [] ==> core[0] == s[0]
  {
  }

  lemma Associate(a: string, b: string, c: string)
    ensures a + (b + c) == a + b + c
  {
  }

  lemma StripIsStripped(s: string)
    ensures Stripped(Strip(s))
  {
    var left, right := StripCuts(s);
  }

  lemma {:induction false} LeftStripPad(pad: string, s: string)
    requires AllSpace(pad) && (s == [] || !Space(s[0]))
    ensures LeftStrip(pad + s) == s
  {
    if pad == [] {
      assert pad + s == s;
    } else {
      assert (pad + s)[1..] == pad[1..] + s;
      LeftStripPad(pad[1..], s);
    }
  }

  lemma {:induction false} RightStripPad(s: string, pad: string)
    requires AllSpace(pad) && (s == [] || !Space(s[|s| - 1]))
    ensures RightStrip(s + pad) == s
  {
    if pad == [] {
      assert s + pad == s;
    } else {
      assert (s + pad)[..|s + pad| - 1] == s + pad[..|pad| - 1];
      RightStripPad(s, pad[..|pad| - 1]);
    }
  }

  /** Strip finds the core of a padded string, whatever the padding. */
  lemma StripPad(left: string, s: string, right: string)
    requires AllSpace(left) && AllSpace(right) && Stripped(s)
    ensures Strip(left + s + right) == s
  {
    if s == [] {
      assert left + s + right == (left + right) + s;
      LeftStripPad(left + right, s);
    } else {
      assert left + s + right == left + (s + right);
      LeftStripPad(left, s + right);
      RightStripPad(s, right);
    }
  }

  lemma StripStripped(s: string)
    ensures Strip(s) == s <==> Stripped(s)
  {
    StripIsStripped(s);
    if Stripped(s) {
      StripPad([], s, []);
      assert [] + s + [] == s;
    }
  }

  lemma StripShortens(s: string)
    ensures |Strip(s)| <= |s|
  {
    var left, right := StripCuts(s);
  }

  /** The position of the first `c`, or the length. */
  function Find(s: string, c: char): (n: nat)
    ensures n <= |s| && c !in s[..n]
    ensures n < |s| ==> s[n] == c
    ensures n == |s| <==> c !in s
  {
    if s == [] then 0
    else if s[0] == c then 0
    else
      var n := Find(s[1..], c);
      assert s[..n + 1] == [s[0]] + s[1..][..n];
      assert s == [s[0]] + s[1..];
      n + 1
  }

  lemma FindUnique(s: string, c: char, n: nat)
    requires n < |s| && s[n] == c && c !in s[..n]
    ensures Find(s, c) == n
  {
  }

  predicate StartsWith(s: string, prefix: string) {
    prefix <= s
  }

  // One line

  /** A value in matching quotes loses them; one quote character alone loses itself. */
  function Unquote(value: string): string {
    if value != [] && value[0] == value[|value| - 1] && (value[0] == '"' || value[0] == '\'')
    then if |value| == 1 then [] else value[1..|value| - 1]
    else value
  }

  type Pair = (string, string)

  /** None is the ValueError of unpacking a line without a colon. */
  function SplitKV(line: string): (r: Option<Pair>)
    ensures r.None? <==> ':' !in line
  {
    var colon := Find(line, ':');
    if colon == |line| then None
    else Some((Strip(line[..colon]), Unquote(Strip(line[colon + 1..]))))
  }

  /** How a value is written: in double quotes, in single quotes, or as it is. */
  datatype Quoting = Double | Single | Plain

  datatype Written = Written(key: string, value: string, quoting: Quoting)

  function Spell(quoting: Quoting, value: string): string {
    match quoting
    case Double => "\"" + value + "\""
    case Single => "'" + value + "'"
    case Plain => value
  }

  /** Begins and ends with the same quote character, be it one and the same character. */
  predicate Quoted(value: string) {
    value != [] && value[0] == value[|value| - 1] && (value[0] == '"' || value[0] == '\'')
  }

  /** As it is, a value may not lose anything to the reader; in quotes it may hold anything. */
  predicate Spellable(w: Written) {
    w.quoting.Plain? ==> Stripped(w.value) && !Quoted(w.value)
  }

  predicate BareKey(key: string) {
    ':' !in key && Stripped(key)
  }

  lemma UnquoteSpelled(quoting: Quoting, value: string)
    requires quoting.Plain? ==> !Quoted(value)
    ensures Unquote(Spell(quoting, value)) == value
  {
  }

  lemma UnquoteShortens(value: string)
    ensures |Unquote(value)| <= |value|
    ensures Unquote(value) == value <==> !Quoted(value)
  {
  }

  lemma SpelledIsStripped(w: Written)
    requires Spellable(w)
    ensures Stripped(Spell(w.quoting, w.value))
  {
  }

  lemma SpacesHoldNoColon(pad: string)
    requires AllSpace(pad)
    ensures ':' !in pad
  {
  }

  /** A pair reads back whatever white space surrounds the key and the value. */
  lemma SplitKVPadded(w: Written, a: string, b: string, c: string, d: string)
    requires BareKey(w.key) && Spellable(w)
    requires AllSpace(a) && AllSpace(b) && AllSpace(c) && AllSpace(d)
    ensures SplitKV(a + w.key + b + ":" + c + Spell(w.quoting, w.value) + d) == Some((w.key, w.value))
  {
    var spelled := Spell(w.quoting, w.value);
    var left, right := a + w.key + b, c + spelled + d;
    assert a + w.key + b + ":" + c + spelled + d == left + ":" + right;
    SpacesHoldNoColon(a);
    SpacesHoldNoColon(b);
    SplitKVAt(left, right);
    StripPad(a, w.key, b);
    SpelledIsStripped(w);
    StripPad(c, spelled, d);
    UnquoteSpelled(w.quoting, w.value);
  }

  /** The first colon splits. */
  lemma SplitKVAt(left: string, right: string)
    requires ':' !in left
    ensures SplitKV(left + ":" + right) == Some((Strip(left), Unquote(Strip(right))))
  {
    var line := left + ":" + right;
    assert line[..|left|] == left && line[|left|] == ':' && line[|left| + 1..] == right;
    FindUnique(line, ':', |left|);
  }

  function RenderKV(w: Written): string {
    w.key + ": " + Spell(w.quoting, w.value)
  }

  lemma RenderedShape(w: Written)
    ensures var line, spelled := RenderKV(w), Spell(w.quoting, w.value);
            |line| == |w.key| + 2 + |spelled| && line[..|w.key|] == w.key && line[|w.key|] == ':'
            && line[|w.key| + 1..] == " " + spelled
  {
  }

  /**
   * A pair reads back exactly when its key has no colon and no white space around it,
   * and its value, if written without quotes, has no white space around it and does not
   * begin and end with the same quote. In quotes the value may hold anything.
   */
  lemma SplitKVExact(w: Written)
    ensures SplitKV(RenderKV(w)) == Some((w.key, w.value)) <==> BareKey(w.key) && Spellable(w)
  {
    var line := RenderKV(w);
    RenderedShape(w);
    if ':' in w.key {
      var colon := Find(line, ':');
      var i :| 0 <= i < |w.key| && w.key[i] == ':';
      assert line[i] == ':';
      StripShortens(line[..colon]);
    } else {
      FindUnique(line, ':', |w.key|);
      StripStripped(w.key);
      ValueReads(w);
    }
  }

  lemma ValueReads(w: Written)
    ensures Unquote(Strip(" " + Spell(w.quoting, w.value))) == w.value <==> Spellable(w)
  {
    var spelled := Spell(w.quoting, w.value);
    StripLeft(" ", spelled);
    if w.quoting.Plain? {
      StripStripped(w.value);
      StripShortens(w.value);
      UnquoteShortens(Strip(w.value));
      if |Strip(w.value)| == |w.value| {
        StripKeepsLength(w.value);
      }
    } else {
      SpelledIsStripped(w);
      StripStripped(spelled);
      UnquoteSpelled(w.quoting, w.value);
    }
  }

  lemma StripKeepsLength(s: string)
    requires |Strip(s)| == |s|
    ensures Strip(s) == s
  {
    var left, right := StripCuts(s);
    assert |left| == 0 && |right| == 0;
    assert left == [] && right == [];
  }

  /** One quote character alone begins and ends the value, and is all of it. */
  lemma LoneQuoteIsEmpty(key: string, quote: char)
    requires BareKey(key) && (quote == '"' || quote == '\'')
    ensures SplitKV(key + ":" + [quote]) == Some((key, ""))
  {
    SplitKVAt(key, [quote]);
    StripStripped(key);
    StripStripped([quote]);
  }

  /** White space around a string does not change what stripping leaves. */
  lemma StripAround(left: string, s: string, right: string)
    requires AllSpace(left) && AllSpace(right)
    ensures Strip(left + s + right) == Strip(s)
  {
    var l, r := StripCuts(s);
    assert left + s + right == (left + l) + Strip(s) + (r + right);
    StripPad(left + l, Strip(s), r + right);
  }

  lemma CutAtColon(line: string) returns (key: string, value: string)
    requires ':' in line
    ensures line == key + ":" + value && ':' !in key
  {
    var n := Find(line, ':');
    key, value := line[..n], line[n + 1..];
  }

  /** Splitting a line before or after stripping it is the same. */
  lemma SplitKVStrip(s: string)
    requires ':' in s
    ensures ':' in Strip(s) && SplitKV(Strip(s)) == SplitKV(s)
  {
    var left, right := StripCuts(s);
    StripKeepsColons(s);
    var key, value := CutAtColon(Strip(s));
    SplitKVAround(left, key, value, right);
  }

  lemma SplitKVAround(left: string, key: string, value: string, right: string)
    requires ':' !in key && AllSpace(left) && AllSpace(right)
    ensures SplitKV(left + (key + ":" + value) + right) == SplitKV(key + ":" + value)
  {
    SpacesHoldNoColon(left);
    SplitKVAt(key, value);
    SplitKVAt(left + key, value + right);
    Regroup(left, key, ":", value, right);
    StripLeft(left, key);
    StripRight(value, right);
  }

  lemma Regroup(a: string, b: string, c: string, d: string, e: string)
    ensures a + (b + c + d) + e == (a + b) + c + (d + e)
  {
  }

  lemma StripLeft(left: string, s: string)
    requires AllSpace(left)
    ensures Strip(left + s) == Strip(s)
  {
    StripAround(left, s, "");
    assert left + s + "" == left + s;
  }

  lemma StripRight(s: string, right: string)
    requires AllSpace(right)
    ensures Strip(s + right) == Strip(s)
  {
    StripAround("", s, right);
    assert "" + s + right == s + right;
  }

  // The state machine

  type Record = map<string, string>

  /** The list built so far and the open record; None before the first item line. */
  datatype State = State(exceptions: seq<Record>, current: Option<Record>)

  const START := State([], None)

  predicate Skipped(line: string) {
    line == [] || StartsWith(line, "#") || StartsWith(line, "version:") || StartsWith(line, "exceptions:")
  }

  predicate Item(line: string) {
    StartsWith(line, "- ")
  }

  /** Python's truth: an open record that holds something is kept. */
  function Finish(st: State): seq<Record> {
    st.exceptions + (if st.current.Some? && st.current.value != map[] then [st.current.value] else [])
  }

  /** What one line amounts to, whatever the state. */
  datatype Line =
    | Ignored
    | Open(kv: Pair)   // an item line with its first entry
    | OpenBlank        // an item line with nothing after the marker
    | OpenBroken       // an item line that cannot be split
    | Entry(kv: Pair)

  function Read(raw: string): Line {
    var line := Strip(raw);
    if Skipped(line) then Ignored
    else if Item(line) then ReadItem(Strip(line[2..]))
    else if ':' in line then Entry(SplitKV(line).value)
    else Ignored
  }

  function ReadItem(rest: string): Line {
    if rest == [] then OpenBlank
    else if SplitKV(rest).None? then OpenBroken
    else Open(SplitKV(rest).value)
  }

  function ReadAll(handle: seq<string>): seq<Line> {
    Map(Read, handle)
  }

  /** One round of the loop; None when the round raises ValueError. */
  function Step(st: State, line: Line): Option<State> {
    match line
    case Ignored => Some(st)
    case Open(kv) => Some(State(Finish(st), Some(map[kv.0 := kv.1])))
    case OpenBlank => Some(State(Finish(st), Some(map[])))
    case OpenBroken => None
    case Entry(kv) =>
      if st.current.None? then Some(st)
      else Some(st.(current := Some(st.current.value[kv.0 := kv.1])))
  }

  function Run(st: State, lines: seq<Line>): Option<State>
    decreases |lines|
  {
    if lines == [] then Some(st)
    else
      var next := Step(st, lines[0]);
      if next.None? then None else Run(next.value, lines[1..])
  }

  function Records(lines: seq<Line>): Option<seq<Record>> {
    var st := Run(START, lines);
    if st.None? then None else Some(Finish(st.value))
  }

  function Parse(handle: seq<string>): Option<seq<Record>> {
    Records(ReadAll(handle))
  }

  /** The lines still to come decide the rest of the run. */
  ghost predicate Reached(lines: seq<Line>, i: nat, st: State) {
    i <= |lines| && Run(START, lines) == Run(st, lines[i..])
  }

  lemma Advance(lines: seq<Line>, i: nat, st: State)
    requires i < |lines| && Reached(lines, i, st)
    ensures Step(st, lines[i]).None? ==> Records(lines) == None
    ensures Step(st, lines[i]).Some? ==> Reached(lines, i + 1, Step(st, lines[i]).value)
  {
  }

  method ParseExceptions(handle: seq<string>) returns (r: Option<seq<Record>>)
    ensures r == Parse(handle)
  {
    var exceptions: seq<Record> := [];
    var current: Option<Record> := None;
    ghost var lines := ReadAll(handle);
    assert lines[0..] == lines;
    var i := 0;
    while i < |handle|
      invariant i <= |handle| && Reached(lines, i, State(exceptions, current))
    {
      var line := Strip(handle[i]);
      ghost var was := State(exceptions, current);
      Advance(lines, i, was);
      assert lines[i] == Read(handle[i]);
      i := i + 1;
      if line == [] || StartsWith(line, "#") {
        continue;
      }
      if StartsWith(line, "version:") || StartsWith(line, "exceptions:") {
        continue;
      }
      if StartsWith(line, "- ") {
        if current.Some? && current.value != map[] {
          exceptions := exceptions + [current.value];
        }
        assert exceptions == Finish(was);
        current := Some(map[]);
        line := Strip(line[2..]);
        if line != [] {
          var kv := SplitKV(line);
          if kv.None? {
            return None;
          }
          current := Some(current.value[kv.value.0 := kv.value.1]);
        }
        assert Step(was, lines[i - 1]) == Some(State(exceptions, current));
        continue;
      }
      if current.Some? && ':' in line {
        var kv := SplitKV(line);
        current := Some(current.value[kv.value.0 := kv.value.1]);
      }
      assert Step(was, lines[i - 1]) == Some(State(exceptions, current));
    }
    assert lines[i..] == [];
    ghost var end := State(exceptions, current);
    assert Run(START, lines) == Some(end);
    if current.Some? && current.value != map[] {
      exceptions := exceptions + [current.value];
    }
    assert exceptions == Finish(end);
    r := Some(exceptions);
  }

  // One record per item line

  predicate ItemLine(raw: string) {
    Item(Strip(raw))
  }

  function Count<A>(p: A -> bool, s: seq<A>): nat {
    if s == [] then 0 else (if p(s[0]) then 1 else 0) + Count(p, s[1..])
  }

  ghost predicate BadItem(handle: seq<string>) {
    exists i :: 0 <= i < |handle| && ItemLine(handle[i]) && ':' !in handle[i]
  }

  ghost predicate NonEmptyRecords(records: seq<Record>) {
    forall i :: 0 <= i < |records| ==> records[i] != map[]
  }

  lemma StripKeepsColons(s: string)
    ensures ':' in s <==> ':' in Strip(s)
  {
    var left, right := StripCuts(s);
    assert !Space(':');
  }

  lemma StripKeepsEnd(s: string)
    requires s != [] && !Space(s[|s| - 1])
    ensures Strip(s) != []
  {
    var left, right := StripCuts(s);
    assert Strip(s) == [] ==> s == left + right;
  }

  /** What follows an item marker is never blank, so every item opens a record that will be kept. */
  lemma ItemRest(line: string)
    requires Stripped(line) && Item(line)
    ensures Strip(line[2..]) != [] && !Skipped(line)
    ensures ':' in line <==> ':' in Strip(line[2..])
  {
    assert line[0] == '-' && line[1] == ' ' && Space(' ');
    StripKeepsColons(line[2..]);
    assert line == line[..2] + line[2..] && line[..2] == ['-', ' '];
    StripKeepsEnd(line[2..]);
  }

  lemma ItemsRead(raw: string)
    ensures ItemLine(raw) <==> Read(raw).Open? || Read(raw).OpenBroken?
    ensures Read(raw).OpenBroken? ==> ':' !in raw
    ensures Read(raw).Open? ==> ':' in raw
    ensures !Read(raw).OpenBlank?
  {
    var line := Strip(raw);
    StripIsStripped(raw);
    if Item(line) {
      ItemRest(line);
      StripKeepsColons(raw);
    }
  }

  function Opens(lines: seq<Line>): nat {
    if lines == [] then 0
    else (if lines[0].Open? then 1 else 0) + Opens(lines[1..])
  }

  lemma StepKeepsSomething(st: State, line: Line)
    requires st.current != Some(map[]) && line != OpenBlank && Step(st, line).Some?
    ensures Step(st, line).value.current != Some(map[])
  {
    if line.Open? || line.Entry? {
      var current := Step(st, line).value.current;
      assert current.Some? ==> line.kv.0 in current.value;
    }
  }

  /** From any point on: one more record for every record opened, none of them empty. */
  lemma {:induction false} RunCounts(st: State, lines: seq<Line>)
    requires st.current != Some(map[]) && NonEmptyRecords(st.exceptions) && OpenBlank !in lines
    ensures Run(st, lines).None? <==> OpenBroken in lines
    ensures Run(st, lines).Some? ==>
              var records := Finish(Run(st, lines).value);
              |records| == |Finish(st)| + Opens(lines) && NonEmptyRecords(records)
    decreases |lines|
  {
    if lines != [] {
      var next := Step(st, lines[0]);
      assert lines == [lines[0]] + lines[1..];
      if next.Some? {
        StepKeepsSomething(st, lines[0]);
        RunCounts(next.value, lines[1..]);
      }
    }
  }

  lemma {:induction false} OpensAreItems<A>(read: A -> Line, item: A -> bool, handle: seq<A>)
    requires forall i :: 0 <= i < |handle| ==> (read(handle[i]).Open? <==> item(handle[i]))
    ensures Opens(Map(read, handle)) == Count(item, handle)
  {
    if handle != [] {
      MapCons(read, handle);
      OpensAreItems(read, item, handle[1..]);
    }
  }

  lemma RecordsCount<A>(read: A -> Line, item: A -> bool, handle: seq<A>)
    requires forall i :: 0 <= i < |handle| ==>
      read(handle[i]) != OpenBlank && (item(handle[i]) <==> read(handle[i]).Open? || read(handle[i]).OpenBroken?)
    ensures Records(Map(read, handle)).None? <==> exists i :: 0 <= i < |handle| && read(handle[i]).OpenBroken?
    ensures Records(Map(read, handle)).Some? ==>
              var records := Records(Map(read, handle)).value;
              |records| == Count(item, handle) && NonEmptyRecords(records)
  {
    var lines := Map(read, handle);
    RunCounts(START, lines);
    if OpenBroken !in lines {
      assert forall i :: 0 <= i < |handle| ==> lines[i] == read(handle[i]);
      OpensAreItems(read, item, handle);
    }
  }

  /**
   * The reader fails exactly on an item line without a colon. Otherwise it
   * returns one record per item line, and no record is empty.
   */
  lemma OneRecordPerItem(handle: seq<string>)
    ensures Parse(handle).None? <==> BadItem(handle)
    ensures Parse(handle).Some? ==>
              |Parse(handle).value| == Count(ItemLine, handle) && NonEmptyRecords(Parse(handle).value)
  {
    forall i | 0 <= i < |handle|
      ensures Read(handle[i]) != OpenBlank
      ensures ItemLine(handle[i]) <==> Read(handle[i]).Open? || Read(handle[i]).OpenBroken?
      ensures Read(handle[i]).OpenBroken? <==> ItemLine(handle[i]) && ':' !in handle[i]
    {
      ItemsRead(handle[i]);
    }
    RecordsCount(Read, ItemLine, handle);
  }

  // Lines that do not matter

  predicate SkippedLine(raw: string) {
    Skipped(Strip(raw))
  }

  function Significant(handle: seq<string>): seq<string> {
    Filter((raw: string) => !SkippedLine(raw), handle)
  }

  lemma {:induction false} RunSkips<A>(st: State, read: A -> Line, keep: A -> bool, handle: seq<A>)
    requires forall i :: 0 <= i < |handle| && !keep(handle[i]) ==> read(handle[i]) == Ignored
    ensures Run(st, Map(read, handle)) == Run(st, Map(read, Filter(keep, handle)))
    decreases |handle|
  {
    if handle != [] {
      var rest := Filter(keep, handle[1..]);
      MapCons(read, handle);
      var next := Step(st, read(handle[0]));
      if next.Some? {
        RunSkips(next.value, read, keep, handle[1..]);
      }
      if keep(handle[0]) {
        assert ([handle[0]] + rest)[1..] == rest;
        MapCons(read, [handle[0]] + rest);
      } else {
        assert [] + rest == rest;
      }
    }
  }

  /**
   * Blank lines, comments and version: or exceptions: lines can be put in or
   * taken out anywhere: only the other lines decide what is read.
   */
  lemma SkippedLinesAreInvisible(a: seq<string>, b: seq<string>)
    requires Significant(a) == Significant(b)
    ensures Parse(a) == Parse(b)
  {
    var keep := (raw: string) => !SkippedLine(raw);
    RunSkips(START, Read, keep, a);
    RunSkips(START, Read, keep, b);
  }

  // Records do not interfere

  function Prepend(done: seq<Record>, st: Option<State>): Option<State> {
    if st.None? then None else Some(State(done + st.value.exceptions, st.value.current))
  }

  lemma {:induction false} RunPrepends(done: seq<Record>, st: State, lines: seq<Line>)
    ensures Run(State(done + st.exceptions, st.current), lines) == Prepend(done, Run(st, lines))
    decreases |lines|
  {
    if lines != [] {
      var ahead := State(done + st.exceptions, st.current);
      assert Finish(ahead) == done + Finish(st);
      var next := Step(st, lines[0]);
      if next.Some? {
        assert Step(ahead, lines[0]) == Some(State(done + next.value.exceptions, next.value.current));
        RunPrepends(done, next.value, lines[1..]);
      }
    }
  }

  lemma {:induction false} RunAppend(st: State, a: seq<Line>, b: seq<Line>)
    ensures Run(st, a + b) == if Run(st, a).None? then None else Run(Run(st, a).value, b)
    decreases |a|
  {
    if a == [] {
      assert a + b == b;
    } else {
      assert (a + b)[1..] == a[1..] + b;
      var next := Step(st, a[0]);
      if next.Some? {
        RunAppend(next.value, a[1..], b);
      }
    }
  }

  function Joined<T>(a: Option<seq<T>>, b: Option<seq<T>>): Option<seq<T>> {
    if a.None? || b.None? then None else Some(a.value + b.value)
  }

  lemma RecordsSplit(a: seq<Line>, b: seq<Line>)
    requires b == [] || b[0].Open? || b[0].OpenBroken?
    ensures Records(a + b) == Joined(Records(a), Records(b))
  {
    RunAppend(START, a, b);
    if b == [] {
      assert Records(b) == Some([]);
      assert Records(a).Some? ==> Records(a).value + [] == Records(a).value;
    } else if Run(START, a).Some? && b[0].Open? {
      var st := Run(START, a).value;
      var first := Step(START, b[0]).value;
      assert first.exceptions == [];
      assert Step(st, b[0]).value == State(Finish(st) + [], first.current);
      RunPrepends(Finish(st), first, b[1..]);
      if Run(first, b[1..]).Some? {
        var end := Run(first, b[1..]).value;
        assert Finish(State(Finish(st) + end.exceptions, end.current)) == Finish(st) + Finish(end);
      }
    }
  }

  /** Cut the file in front of an item line: the two parts are read independently. */
  lemma ParseSplitsAtItems(a: seq<string>, b: seq<string>)
    requires b == [] || ItemLine(b[0])
    ensures Parse(a + b) == Joined(Parse(a), Parse(b))
  {
    MapAppend(Read, a, b);
    if b != [] {
      ItemsRead(b[0]);
      assert ReadAll(b)[0] == Read(b[0]);
    }
    RecordsSplit(ReadAll(a), ReadAll(b));
  }

  // Round trip

  function RenderItem(first: Written): string {
    "- " + RenderKV(first)
  }

  function RenderEntry(entry: Written): string {
    "  " + RenderKV(entry)
  }

  function PairOf(w: Written): Pair {
    (w.key, w.value)
  }

  function MapHead<A, B>(first: A -> B, others: A -> B, s: seq<A>): (r: seq<B>)
    ensures |r| == |s|
    ensures forall i :: 0 <= i < |s| ==> r[i] == if i == 0 then first(s[0]) else others(s[i])
  {
    if s == [] then [] else [first(s[0])] + Map(others, s[1..])
  }

  /** A record as lines: the first pair on the item line, the others indented below. */
  function RenderRecord(entries: seq<Written>): seq<string> {
    MapHead(RenderItem, RenderEntry, entries)
  }

  function Concat<A>(blocks: seq<seq<A>>): seq<A> {
    if blocks == [] then [] else blocks[0] + Concat(blocks[1..])
  }

  function Render(records: seq<seq<Written>>): seq<string> {
    Concat(Map(RenderRecord, records))
  }

  /** On a line of its own a key must also not look like a line the reader skips or an item. */
  predicate EntryKey(key: string) {
    && BareKey(key) && !StartsWith(key, "#") && !StartsWith(key, "- ")
    && key != "version" && key != "exceptions"
  }

  lemma DropTwo(line: string, right: string, raw: string, kv: string)
    requires raw == line + right && |line| >= 2 && raw == "- " + kv
    ensures kv == line[2..] + right
  {
    assert raw[2..] == kv;
  }

  lemma MarkerIsKept(kv: string)
    requires ':' in kv
    ensures var line := Strip("- " + kv); Item(line) && Strip(line[2..]) == Strip(kv)
  {
    var raw := "- " + kv;
    var left, right := StripCuts(raw);
    var line := Strip(raw);
    assert raw[0] == '-' && left == [] && raw == line + right;
    StripKeepsColons(raw);
    assert line[0] == raw[0] && |line| >= 2;
    assert line[1] == raw[1] == ' ';
    DropTwo(line, right, raw, kv);
    StripRight(line[2..], right);
  }

  /** What follows an item marker is read on its own, stripped or not. */
  lemma ItemLineReads(kv: string)
    requires ':' in kv
    ensures ItemLine("- " + kv) && Read("- " + kv) == Open(SplitKV(kv).value)
  {
    MarkerIsKept(kv);
    SplitKVStrip(kv);
    StripIsStripped("- " + kv);
    ItemRest(Strip("- " + kv));
  }

  lemma SplitKeysAreBare(line: string)
    ensures SplitKV(line).Some? ==> BareKey(SplitKV(line).value.0)
  {
    StripKeepsColons(line[..Find(line, ':')]);
    StripIsStripped(line[..Find(line, ':')]);
  }

  lemma ReadKeysAreBare(raw: string)
    ensures Read(raw).Open? || Read(raw).Entry? ==> BareKey(Read(raw).kv.0)
  {
    SplitKeysAreBare(Strip(raw));
    if Item(Strip(raw)) {
      SplitKeysAreBare(Strip(Strip(raw)[2..]));
    }
  }

  lemma EntryLineReads(kv: string)
    requires ':' in kv
    ensures Read("  " + kv).Entry? <==> !Skipped(Strip(kv)) && !Item(Strip(kv))
    ensures Read("  " + kv).Entry? ==> Read("  " + kv) == Entry(SplitKV(kv).value)
  {
    StripLeft("  ", kv);
    SplitKVStrip(kv);
  }

  /** An item line reads back as its pair exactly when key and value survive being split. */
  lemma RenderedItemReads(first: Written)
    ensures ItemLine(RenderItem(first))
    ensures Read(RenderItem(first)) == Open(PairOf(first)) <==> BareKey(first.key) && Spellable(first)
  {
    RenderedShape(first);
    SplitKVExact(first);
    ItemLineReads(RenderKV(first));
  }

  lemma ColonIsBeyond(s: string, prefix: string, n: nat)
    requires prefix <= s && ':' in prefix && n <= |s| && ':' !in s[..n]
    ensures n < |prefix|
  {
    forall k | 0 <= k < n
      ensures s[k] != ':'
    {
      assert s[..n][k] in s[..n];
    }
    var i :| 0 <= i < |prefix| && prefix[i] == ':';
    assert s[i] == prefix[i];
  }

  /** Stripping the line of a bare key cuts nothing in front of the colon. */
  lemma KeyIsKept(w: Written)
    requires BareKey(w.key)
    ensures var line := Strip(RenderKV(w)); |w.key| < |line| && line[..|w.key|] == w.key && line[|w.key|] == ':'
  {
    var kv := RenderKV(w);
    RenderedShape(w);
    var left, right := StripCuts(kv);
    var line := Strip(kv);
    assert kv[0] == if w.key == [] then ':' else w.key[0];
    assert left == [] && kv == line + right;
    StripKeepsColons(kv);
    ColonIsBeyond(kv, line, |w.key|);
    assert kv[..|w.key|] == line[..|w.key|];
  }

  /** A key line starts with a skipped word or an item marker only when its key does. */
  lemma EntryKeyShows(key: string, line: string)
    requires ':' !in key && |key| < |line| && line[..|key|] == key && line[|key|] == ':'
    ensures Skipped(line) <==> StartsWith(key, "#") || key == "version" || key == "exceptions"
    ensures Item(line) <==> StartsWith(key, "- ")
  {
    FindUnique(line, ':', |key|);
    KeyPrefix(line, |key|, "version");
    KeyPrefix(line, |key|, "exceptions");
    assert "version" + ":" == "version:" && "exceptions" + ":" == "exceptions:";
    assert StartsWith(line, "#") <==> StartsWith(key, "#") by {
      assert line[0] == if key == [] then ':' else key[0];
    }
    assert StartsWith(line, "- ") <==> StartsWith(key, "- ") by {
      assert |key| == 1 ==> line[1] == ':';
      assert |key| >= 2 ==> line[1] == key[1];
      assert key != [] ==> line[0] == key[0];
    }
  }

  lemma KeyPrefix(line: string, n: nat, word: string)
    requires n < |line| && line[n] == ':' && ':' !in line[..n] && ':' !in word
    ensures StartsWith(line, word + ":") <==> line[..n] == word
  {
    var prefix := word + ":";
    if StartsWith(line, prefix) {
      assert line[|word|] == prefix[|word|] == ':';
      FindUnique(line, ':', n);
      assert line[..|word|] == prefix[..|word|] == word;
      FindUnique(line, ':', |word|);
    }
    if line[..n] == word {
      assert line[..n + 1] == prefix;
    }
  }

  /** A line below an item reads back as its pair exactly when the key is not mistaken for something else. */
  lemma RenderedEntryReads(entry: Written)
    ensures Read(RenderEntry(entry)) == Entry(PairOf(entry)) <==> EntryKey(entry.key) && Spellable(entry)
  {
    RenderedShape(entry);
    if BareKey(entry.key) {
      SplitKVExact(entry);
      KeyIsKept(entry);
      EntryKeyShows(entry.key, Strip(RenderKV(entry)));
      EntryLineReads(RenderKV(entry));
    } else {
      ReadKeysAreBare(RenderEntry(entry));
    }
  }

  // Whole files

  /** The pairs assigned in order, as a dict keeps them. */
  function Overwrite(m: Record, pairs: seq<Pair>): Record
    decreases |pairs|
  {
    if pairs == [] then m else Overwrite(m[pairs[0].0 := pairs[0].1], pairs[1..])
  }

  /** No later pair has the key of pair `i`. */
  predicate LastOfKey(pairs: seq<Pair>, i: nat)
    requires i < |pairs|
  {
    forall j :: i < j < |pairs| ==> pairs[j].0 != pairs[i].0
  }

  /** `pairs` writes out `m`, in any order; of several pairs with one key the last counts. */
  ghost predicate Lists(pairs: seq<Pair>, m: Record) {
    && (forall k :: k in m ==> exists i :: 0 <= i < |pairs| && pairs[i].0 == k)
    && (forall i :: 0 <= i < |pairs| ==> pairs[i].0 in m)
    && (forall i :: 0 <= i < |pairs| && LastOfKey(pairs, i) ==> m[pairs[i].0] == pairs[i].1)
  }

  lemma {:induction false} OverwriteKeys(m: Record, pairs: seq<Pair>, k: string)
    ensures k in Overwrite(m, pairs) <==> k in m || exists i :: 0 <= i < |pairs| && pairs[i].0 == k
    decreases |pairs|
  {
    if pairs != [] {
      var rest := pairs[1..];
      OverwriteKeys(m[pairs[0].0 := pairs[0].1], rest, k);
      assert forall i :: 0 <= i < |rest| ==> rest[i] == pairs[i + 1];
      assert forall i :: 1 <= i < |pairs| ==> pairs[i] == rest[i - 1];
    }
  }

  lemma {:induction false} OverwriteKeeps(m: Record, pairs: seq<Pair>, k: string)
    requires k in m && forall j :: 0 <= j < |pairs| ==> pairs[j].0 != k
    ensures k in Overwrite(m, pairs) && Overwrite(m, pairs)[k] == m[k]
    decreases |pairs|
  {
    if pairs != [] {
      OverwriteKeeps(m[pairs[0].0 := pairs[0].1], pairs[1..], k);
    }
  }

  /** The last pair of a key decides, whatever stood there before. */
  lemma {:induction false} OverwriteLast(m: Record, pairs: seq<Pair>, i: nat)
    requires i < |pairs| && LastOfKey(pairs, i)
    ensures pairs[i].0 in Overwrite(m, pairs) && Overwrite(m, pairs)[pairs[i].0] == pairs[i].1
    decreases |pairs|
  {
    var next, rest := m[pairs[0].0 := pairs[0].1], pairs[1..];
    assert forall j :: 0 <= j < |rest| ==> rest[j] == pairs[j + 1];
    if i == 0 {
      OverwriteKeeps(next, rest, pairs[0].0);
    } else {
      OverwriteLast(next, rest, i - 1);
    }
  }

  lemma {:induction false} SomeIsLast(pairs: seq<Pair>, i: nat) returns (l: nat)
    requires i < |pairs|
    ensures l < |pairs| && pairs[l].0 == pairs[i].0 && LastOfKey(pairs, l)
    decreases |pairs| - i
  {
    l := i;
    if !LastOfKey(pairs, i) {
      var j :| i < j < |pairs| && pairs[j].0 == pairs[i].0;
      l := SomeIsLast(pairs, j);
    }
  }

  lemma ListsDetermine(pairs: seq<Pair>, m: Record)
    requires Lists(pairs, m)
    ensures Overwrite(map[], pairs) == m
  {
    var all := Overwrite(map[], pairs);
    forall k
      ensures k in all <==> k in m
      ensures k in m ==> all[k] == m[k]
    {
      OverwriteKeys(map[], pairs, k);
      if k in m {
        var i :| 0 <= i < |pairs| && pairs[i].0 == k;
        var l := SomeIsLast(pairs, i);
        OverwriteLast(map[], pairs, l);
      }
    }
  }

  lemma {:induction false} RunEntries(m: Record, pairs: seq<Pair>, lines: seq<Line>)
    requires |lines| == |pairs| && forall i :: 0 <= i < |pairs| ==> lines[i] == Entry(pairs[i])
    ensures Run(State([], Some(m)), lines) == Some(State([], Some(Overwrite(m, pairs))))
    decreases |pairs|
  {
    if pairs != [] {
      RunEntries(m[pairs[0].0 := pairs[0].1], pairs[1..], lines[1..]);
    }
  }

  /** What a record may be written as: keys that are read as such, values that are read as they are. */
  ghost predicate Renderable(entries: seq<Written>) {
    && entries != [] && BareKey(entries[0].key)
    && (forall i :: 1 <= i < |entries| ==> EntryKey(entries[i].key))
    && forall i :: 0 <= i < |entries| ==> Spellable(entries[i])
  }

  lemma RecordReads(pairs: seq<Pair>, lines: seq<Line>)
    requires pairs != [] && |lines| == |pairs|
    requires lines[0] == Open(pairs[0]) && forall i :: 1 <= i < |pairs| ==> lines[i] == Entry(pairs[i])
    ensures Records(lines) == Some([Overwrite(map[], pairs)])
  {
    var head: Record := map[pairs[0].0 := pairs[0].1];
    assert map[][pairs[0].0 := pairs[0].1] == head;
    assert Finish(START) == [] && Step(START, lines[0]) == Some(State([], Some(head)));
    RunEntries(head, pairs[1..], lines[1..]);
    OverwriteKeys(head, pairs[1..], pairs[0].0);
    var full := Overwrite(head, pairs[1..]);
    assert Finish(State([], Some(full))) == [full];
  }

  lemma RenderedLine(entries: seq<Written>, i: nat)
    requires Renderable(entries) && i < |entries|
    ensures Read(RenderRecord(entries)[i]) == if i == 0 then Open(PairOf(entries[0])) else Entry(PairOf(entries[i]))
  {
    if i == 0 {
      RenderedItemReads(entries[0]);
    } else {
      RenderedEntryReads(entries[i]);
    }
  }

  lemma RenderedRecordLines(read: string -> Line, pairs: seq<Pair>, handle: seq<string>)
    requires pairs != [] && |handle| == |pairs|
    requires forall i :: 0 <= i < |pairs| ==>
      read(handle[i]) == if i == 0 then Open(pairs[0]) else Entry(pairs[i])
    ensures Records(Map(read, handle)) == Some([Overwrite(map[], pairs)])
  {
    RecordReads(pairs, Map(read, handle));
  }

  lemma RenderedRecordReads(entries: seq<Written>)
    requires Renderable(entries)
    ensures Parse(RenderRecord(entries)) == Some([Overwrite(map[], Map(PairOf, entries))])
    ensures Read(RenderRecord(entries)[0]).Open?
  {
    var handle, pairs := RenderRecord(entries), Map(PairOf, entries);
    RenderedLine(entries, 0);
    forall i | 0 <= i < |entries|
      ensures Read(handle[i]) == if i == 0 then Open(pairs[0]) else Entry(pairs[i])
    {
      RenderedLine(entries, i);
    }
    RenderedRecordLines(Read, pairs, handle);
  }

  lemma {:induction false} BlocksRead<A>(read: A -> Line, blocks: seq<seq<A>>, dicts: seq<Record>)
    requires |blocks| == |dicts|
    requires forall i :: 0 <= i < |blocks| ==> blocks[i] != [] && read(blocks[i][0]).Open?
    requires forall i :: 0 <= i < |blocks| ==> Records(Map(read, blocks[i])) == Some([dicts[i]])
    ensures Records(Map(read, Concat(blocks))) == Some(dicts)
    decreases |blocks|
  {
    if blocks == [] {
      assert Finish(START) == [];
    } else {
      var rest := Concat(blocks[1..]);
      BlocksRead(read, blocks[1..], dicts[1..]);
      MapAppend(read, blocks[0], rest);
      if blocks[1..] != [] {
        assert rest[0] == blocks[1][0];
      }
      RecordsSplit(Map(read, blocks[0]), Map(read, rest));
      assert dicts == [dicts[0]] + dicts[1..];
    }
  }

  /**
   * Writing out non-empty records as pairs, each value in either kind of quotes or as it
   * is, and reading the file back gives the same records.
   */
  lemma ParseRender(records: seq<seq<Written>>, dicts: seq<Record>)
    requires |records| == |dicts|
    requires forall i :: 0 <= i < |records| ==> Renderable(records[i]) && Lists(Map(PairOf, records[i]), dicts[i])
    ensures Parse(Render(records)) == Some(dicts)
  {
    var blocks := Map(RenderRecord, records);
    forall i | 0 <= i < |records|
      ensures blocks[i] != [] && Read(blocks[i][0]).Open?
      ensures Records(Map(Read, blocks[i])) == Some([dicts[i]])
    {
      RenderedRecordReads(records[i]);
      ListsDetermine(Map(PairOf, records[i]), dicts[i]);
    }
    BlocksRead(Read, blocks, dicts);
  }

  // From text to lines

  /** The length of the first line with its end; a carriage return ends a line too. */
  function FirstLine(text: string): (n: nat)
    requires text != []
    ensures 0 < n <= |text|
  {
    if text[0] == '\n' then 1
    else if text[0] == '\r' then if |text| > 1 && text[1] == '\n' then 2 else 1
    else if |text| == 1 then 1
    else 1 + FirstLine(text[1..])
  }

  /** The lines a text file is iterated in, each with its end. */
  function Lines(text: string): seq<string> {
    if text == [] then [] else [text[..FirstLine(text)]] + Lines(text[FirstLine(text)..])
  }

  predicate OneLine(s: string) {
    '\n' !in s && '\r' !in s
  }

  const LINE_ENDS := {"\n", "\r", "\r\n"}

  /** The lines of a text, each with the end it was given; the last one may lack its end. */
  function Unlines(lines: seq<string>, ends: seq<string>): string
    requires |lines| == |ends|
  {
    if lines == [] then [] else lines[0] + ends[0] + Unlines(lines[1..], ends[1..])
  }

  function Ended(lines: seq<string>, ends: seq<string>): seq<string>
    requires |lines| == |ends|
  {
    seq(|lines|, i requires 0 <= i < |lines| => lines[i] + ends[i])
  }

  /** Every line is ended in one of the three ways, and no two ends run together. */
  ghost predicate Terminated(lines: seq<string>, ends: seq<string>) {
    |lines| == |ends| &&
    (forall i :: 0 <= i < |lines| ==> OneLine(lines[i])) &&
    (forall i :: 0 <= i < |lines| - 1 ==> ends[i] in LINE_ENDS) &&
    (forall i :: 0 <= i < |lines| - 1 && ends[i] == "\r" ==> lines[i + 1] != [] || ends[i + 1] == "\r") &&
    (lines != [] ==> ends[|lines| - 1] in LINE_ENDS || (ends[|lines| - 1] == [] && lines[|lines| - 1] != []))
  }

  lemma {:induction false} FirstLineEnds(line: string, end: string, rest: string)
    requires OneLine(line)
    requires end in LINE_ENDS || (end == [] && line != [] && rest == [])
    requires end == "\r" ==> rest == [] || rest[0] != '\n'
    ensures FirstLine(line + end + rest) == |line| + |end|
  {
    var text := line + end + rest;
    if line == [] {
      assert text == end + rest;
      assert end == "\r\n" ==> text[0] == '\r' && text[1] == '\n';
      assert end == "\r" && rest != [] ==> text[1] == rest[0];
    } else {
      assert text[0] == line[0] && text[1..] == line[1..] + end + rest;
      if |line| > 1 || end != [] {
        FirstLineEnds(line[1..], end, rest);
      }
    }
  }

  lemma {:induction false} LinesUnlines(lines: seq<string>, ends: seq<string>)
    requires Terminated(lines, ends)
    ensures Lines(Unlines(lines, ends)) == Ended(lines, ends)
  {
    if lines != [] {
      var rest := Unlines(lines[1..], ends[1..]);
      TerminatedRest(lines, ends);
      if ends[0] == "\r" {
        StartsApart(lines, ends);
      }
      FirstLineEnds(lines[0], ends[0], rest);
      var text := lines[0] + ends[0] + rest;
      var first := lines[0] + ends[0];
      assert text == first + rest && text[..|first|] == first && text[|first|..] == rest;
      LinesUnlines(lines[1..], ends[1..]);
      assert Ended(lines, ends) == [first] + Ended(lines[1..], ends[1..]);
    }
  }

  lemma TerminatedRest(lines: seq<string>, ends: seq<string>)
    requires lines != [] && Terminated(lines, ends)
    ensures Terminated(lines[1..], ends[1..])
    ensures ends[0] in LINE_ENDS || (ends[0] == [] && lines[0] != [] && |lines| == 1)
  {
  }

  /** After a carriage return the text does not go on with a line feed. */
  lemma StartsApart(lines: seq<string>, ends: seq<string>)
    requires lines != [] && Terminated(lines, ends) && ends[0] == "\r"
    ensures var rest := Unlines(lines[1..], ends[1..]); rest == [] || rest[0] != '\n'
  {
    if |lines| > 1 {
      var line, end := lines[1], ends[1];
      assert Unlines(lines[1..], ends[1..]) == line + end + Unlines(lines[2..], ends[2..]) by {
        assert lines[1..][1..] == lines[2..] && ends[1..][1..] == ends[2..];
      }
      if line != [] {
        assert line[0] in line;
      }
    }
  }

  function ParseText(text: string): Option<seq<Record>> {
    Parse(Lines(text))
  }

  lemma SameReading(a: seq<string>, b: seq<string>)
    requires Map(Strip, a) == Map(Strip, b)
    ensures ReadAll(a) == ReadAll(b)
  {
    forall i | 0 <= i < |a|
      ensures Read(a[i]) == Read(b[i])
    {
      assert Map(Strip, a)[i] == Map(Strip, b)[i];
    }
  }

  lemma EndIsSpace(end: string)
    requires end in LINE_ENDS || end == []
    ensures AllSpace(end)
  {
  }

  lemma EndsAreStripped(lines: seq<string>, ends: seq<string>)
    requires Terminated(lines, ends)
    ensures Map(Strip, Ended(lines, ends)) == Map(Strip, lines)
  {
    forall i | 0 <= i < |lines|
      ensures Strip(lines[i] + ends[i]) == Strip(lines[i])
    {
      EndIsSpace(ends[i]);
      StripRight(lines[i], ends[i]);
    }
  }

  /**
   * The round trip through one text: lines that say `records` up to indentation, with
   * blank, comment and heading lines anywhere between them and with any line ends.
   */
  lemma TextRoundTrip(records: seq<seq<Written>>, dicts: seq<Record>, lines: seq<string>, ends: seq<string>)
    requires |records| == |dicts|
    requires forall i :: 0 <= i < |records| ==> Renderable(records[i]) && Lists(Map(PairOf, records[i]), dicts[i])
    requires Terminated(lines, ends) && Map(Strip, Significant(lines)) == Map(Strip, Render(records))
    ensures ParseText(Unlines(lines, ends)) == Some(dicts)
  {
    LinesUnlines(lines, ends);
    EndsAreStripped(lines, ends);
    SameReading(Ended(lines, ends), lines);
    OnlySignificantLines(lines);
    SameReading(Significant(lines), Render(records));
    ParseRender(records, dicts);
  }

  lemma OnlySignificantLines(lines: seq<string>)
    ensures Parse(Significant(lines)) == Parse(lines)
  {
    var keep := (raw: string) => !SkippedLine(raw);
    RunSkips(START, Read, keep, lines);
  }
}
