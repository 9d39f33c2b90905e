/** The line buffer of the Lifo-native editors. Lines are sequences of UTF-16 code units. */
module Editors {
  import opened Text

  type Unit = u: int | 0 <= u < 0x1_0000

  type Line = seq<Unit>

  const NEWLINE: Unit := 0x0A
  const RETURN: Unit := 0x0D
  const BACKSPACE: Unit := 0x08
  const DELETE: Unit := 0x7F
  const ESCAPE: Unit := 0x1B
  const BRACKET: Unit := 0x5B
  const TILDE: Unit := 0x7E

  datatype Buffer = Buffer(lines: seq<Line>, row: nat, col: nat, dirty: bool)

  datatype Arrow = Left | Right | Up | Down

  // ----- JavaScript string primitives -----

  predicate IsHigh(u: Unit)
  {
    0xD800 <= u <= 0xDBFF
  }

  predicate IsLow(u: Unit)
  {
    0xDC00 <= u <= 0xDFFF
  }

  function SliceTo(s: Line, end: nat): Line
  {
    if end >= |s| then s else s[..end]
  }

  function SliceFrom(s: Line, start: nat): Line
  {
    if start >= |s| then [] else s[start..]
  }

  function PreviousCodePoint(value: Line, index: nat): nat
  {
    if index == 0 then 0
    else if index - 1 < |value| && IsLow(value[index - 1]) && index >= 2 then index - 2
    else index - 1
  }

  function NextCodePoint(value: Line, index: nat): nat
  {
    if index >= |value| then |value|
    else if IsHigh(value[index]) && index + 1 < |value| then index + 2
    else index + 1
  }

  /** First match at or after `from`. */
  function IndexOf(line: Line, query: Line, from: nat): Option<nat>
    decreases |line| + 1 - from
  {
    if from + |query| > |line| then None
    else if line[from..from + |query|] == query then Some(from)
    else IndexOf(line, query, from + 1)
  }

  // ----- Editing -----

  predicate IsNewlineKey(key: Line)
  {
    key == [RETURN] || key == [NEWLINE]
  }

  predicate IsEraseKey(key: Line)
  {
    key == [DELETE] || key == [BACKSPACE]
  }

  predicate IsPrintableKey(key: Line)
  {
    key != [] && key[0] != ESCAPE && key[0] >= 0x20
  }

  predicate HasRow(s: Buffer)
  {
    s.row < |s.lines|
  }

  predicate InBounds(s: Buffer)
  {
    s.row < |s.lines| && s.col <= |s.lines[s.row]|
  }

  function EditKey(s: Buffer, key: Line): Buffer
    requires HasRow(s)
  {
    var line := s.lines[s.row];
    if IsNewlineKey(key) then
      Buffer(s.lines[..s.row] + [SliceTo(line, s.col), SliceFrom(line, s.col)] + s.lines[s.row + 1..], s.row + 1, 0, true)
    else if IsEraseKey(key) then
      if s.col > 0 then
        var start := PreviousCodePoint(line, s.col);
        Buffer(s.lines[s.row := SliceTo(line, start) + SliceFrom(line, s.col)], s.row, start, true)
      else if s.row > 0 then
        var previous := s.lines[s.row - 1];
        Buffer(s.lines[..s.row - 1] + [previous + line] + s.lines[s.row + 1..], s.row - 1, |previous|, true)
      else s
    else if IsPrintableKey(key) then
      Buffer(s.lines[s.row := SliceTo(line, s.col) + key + SliceFrom(line, s.col)], s.row, s.col + |key|, true)
    else s
  }

  function RemoveChar(s: Buffer): Buffer
    requires HasRow(s)
  {
    var line := s.lines[s.row];
    if s.col < |line| then
      s.(lines := s.lines[s.row := SliceTo(line, s.col) + SliceFrom(line, NextCodePoint(line, s.col))], dirty := true)
    else s
  }

  function Min(a: nat, b: nat): nat
  {
    if a < b then a else b
  }

  function MoveKey(s: Buffer, arrow: Option<Arrow>): Buffer
    requires HasRow(s)
  {
    var line := s.lines[s.row];
    var row := match arrow
      case Some(Up) => if s.row == 0 then 0 else s.row - 1
      case Some(Down) => Min(|s.lines| - 1, s.row + 1)
      case _ => s.row;
    var col := match arrow
      case Some(Left) => PreviousCodePoint(line, s.col)
      case Some(Right) => NextCodePoint(line, s.col)
      case _ => s.col;
    s.(row := row, col := Min(col, |s.lines[row]|))
  }

  /** vi's `a` before it enters insert mode. */
  function AppendMode(s: Buffer): Buffer
  {
    s.(col := s.col + 1)
  }

  datatype Hit = Hit(row: nat, col: nat)

  function FindFrom(lines: seq<Line>, query: Line, row: nat, offset: nat): Option<Hit>
    decreases |lines| - row
  {
    if row >= |lines| then None
    else
      match IndexOf(lines[row], query, offset)
      case Some(col) => Some(Hit(row, col))
      case None => FindFrom(lines, query, row + 1, 0)
  }

  function Find(s: Buffer, query: Line, afterCurrent: bool): Option<Hit>
  {
    if query == [] then None else FindFrom(s.lines, query, s.row, s.col + (if afterCurrent then 1 else 0))
  }

  function MoveToMatch(s: Buffer, query: Line): Buffer
  {
    var ahead := Find(s, query, true);
    var hit := if ahead.Some? then ahead else Find(s.(row := 0, col := 0), query, false);
    if hit.Some? then s.(row := hit.value.row, col := hit.value.col) else s
  }

  // ----- Keys -----

  function CodePointLength(s: Line): (n: nat)
    requires s != []
    ensures 1 <= n <= |s|
  {
    if IsHigh(s[0]) && |s| > 1 && IsLow(s[1]) then 2 else 1
  }

  function KeyLength(input: Line): (n: nat)
    requires input != []
    ensures 1 <= n <= |input|
  {
    if |input| > 2 && input[0] == ESCAPE && input[1] == BRACKET then
      if 0x41 <= input[2] <= 0x44 then 3
      else
        match IndexOf(input, [TILDE], 2)
        case Some(end) => IndexOfIsFirst(input, [TILDE], 2); end + 1
        case None => CodePointLength(input)
    else CodePointLength(input)
  }

  function SplitKeys(input: Line): seq<Line>
  {
    if input == [] then [] else [input[..KeyLength(input)]] + SplitKeys(input[KeyLength(input)..])
  }

  method SplitKeysLoop(input: Line) returns (keys: seq<Line>)
    ensures keys == SplitKeys(input)
  {
    hide KeyLength, SplitKeys;
    keys := [];
    var i := 0;
    assert input[0..] == input;
    NoKeys();
    while i < |input|
      invariant 0 <= i <= |input|
      invariant SplitKeys(input) == keys + SplitKeys(input[i..])
    {
      var rest := input[i..];
      var n := KeyLength(rest);
      OneKeyMore(rest);
      assert input[i + n..] == rest[n..];
      keys, i := keys + [rest[..n]], i + n;
    }
    assert input[i..] == [];
  }

  lemma NoKeys()
    ensures SplitKeys([]) == []
  {
  }

  lemma OneKeyMore(input: Line)
    requires input != []
    ensures var n := KeyLength(input); SplitKeys(input) == [input[..n]] + SplitKeys(input[n..])
  {
  }

  /** The keys spell the input, and no key is empty. */
  lemma {:induction false} KeysSpellTheInput(input: Line)
    ensures Concat(SplitKeys(input)) == input
    ensures [] !in SplitKeys(input)
  {
    if input != [] {
      var n := KeyLength(input);
      KeysSpellTheInput(input[n..]);
      assert input[..n] + input[n..] == input;
    }
  }

  /** Every arrow sequence is one key. */
  lemma ArrowIsOneKey(letter: Unit, rest: Line)
    requires 0x41 <= letter <= 0x44
    ensures SplitKeys([ESCAPE, BRACKET, letter] + rest) == [[ESCAPE, BRACKET, letter]] + SplitKeys(rest)
  {
    var input := [ESCAPE, BRACKET, letter] + rest;
    assert input[..3] == [ESCAPE, BRACKET, letter] && input[3..] == rest;
  }

  /** What one key may be: an arrow, a sequence up to its first tilde, or one code point. */
  predicate IsArrowKey(key: Line)
  {
    |key| == 3 && key[0] == 0x1B && key[1] == 0x5B && 0x41 <= key[2] <= 0x44
  }

  predicate IsTildeKey(key: Line)
  {
    && |key| >= 3 && key[0] == 0x1B && key[1] == 0x5B && !(0x41 <= key[2] <= 0x44)
    && key[|key| - 1] == 0x7E && forall i :: 2 <= i < |key| - 1 ==> key[i] != 0x7E
  }

  predicate IsPointKey(key: Line, rest: Line)
  {
    || (|key| == 1 && !(IsHigh(key[0]) && rest != [] && IsLow(rest[0])))
    || (|key| == 2 && IsHigh(key[0]) && IsLow(key[1]))
  }

  /** Behind the escape character: the rest of an arrow or of a sequence that a tilde ends somewhere. */
  predicate GoesOn(rest: Line)
  {
    |rest| > 1 && rest[0] == 0x5B && (0x41 <= rest[1] <= 0x44 || exists i :: 1 <= i < |rest| && rest[i] == 0x7E)
  }

  /** In front of the rest of the input, an escape character is a key of its own only when nothing goes on from it. */
  predicate IsKey(key: Line, rest: Line)
  {
    IsArrowKey(key) || IsTildeKey(key) || (IsPointKey(key, rest) && (key == [0x1B] ==> !GoesOn(rest)))
  }

  predicate AreKeys(keys: seq<Line>)
  {
    keys != [] ==> IsKey(keys[0], Concat(keys[1..])) && AreKeys(keys[1..])
  }

  lemma FirstTilde(input: Line)
    requires |input| > 2
    ensures match IndexOf(input, [TILDE], 2)
            case Some(end) => 2 <= end < |input| && input[end] == 0x7E && forall i :: 2 <= i < end ==> input[i] != 0x7E
            case None => forall i :: 2 <= i < |input| ==> input[i] != 0x7E
  {
    hide IndexOf;
    IndexOfIsFirst(input, [TILDE], 2);
    assert forall i :: 0 <= i < |input| && input[i] == 0x7E ==> MatchAt(input, [TILDE], i) by {
      forall i | 0 <= i < |input| && input[i] == 0x7E
        ensures MatchAt(input, [TILDE], i)
      {
        assert input[i..i + 1] == [input[i]];
      }
    }
    var end := IndexOf(input, [TILDE], 2);
    if end.Some? {
      assert input[end.value..end.value + 1] == [input[end.value]];
    }
  }

  lemma KeyIsOne(input: Line)
    requires input != []
    ensures IsKey(input[..KeyLength(input)], input[KeyLength(input)..])
  {
    hide IndexOf;
    var n := KeyLength(input);
    var rest := input[n..];
    if |input| > 2 {
      FirstTilde(input);
      assert n == 1 ==> forall i :: 1 <= i < |rest| ==> rest[i] == input[i + 1];
    }
  }

  lemma OneIsTheKey(key: Line, rest: Line)
    requires IsKey(key, rest)
    ensures key + rest != [] && KeyLength(key + rest) == |key|
  {
    hide IndexOf;
    var input := key + rest;
    if |input| > 2 {
      FirstTilde(input);
      if IsTildeKey(key) {
        var k := |key| - 1;
        assert input[k] == 0x7E && forall i :: 2 <= i < k ==> input[i] == key[i];
      } else if key == [0x1B] {
        assert forall i :: 2 <= i < |input| ==> input[i] == rest[i - 1];
      }
    }
  }

  /** Every input is split into keys, and a list of keys is what its joined text is split into: there is no other way. */
  lemma {:induction false} SplitsIntoKeys(input: Line)
    ensures AreKeys(SplitKeys(input))
  {
    hide KeyLength, IsKey;
    if input != [] {
      var n := KeyLength(input);
      KeyIsOne(input);
      SplitsIntoKeys(input[n..]);
      KeysSpellTheInput(input[n..]);
      assert SplitKeys(input)[1..] == SplitKeys(input[n..]);
    }
  }

  lemma {:induction false} KeysAreSplitOnly(keys: seq<Line>)
    requires AreKeys(keys)
    ensures SplitKeys(Concat(keys)) == keys
  {
    hide KeyLength, IsKey;
    if keys != [] {
      var key, rest := keys[0], Concat(keys[1..]);
      OneIsTheKey(key, rest);
      KeysAreSplitOnly(keys[1..]);
      assert Concat(keys) == key + rest;
      assert (key + rest)[..|key|] == key && (key + rest)[|key|..] == rest;
    }
  }

  // ----- The buffer as one text -----

  /** Every line followed by a newline. */
  function Above(lines: seq<Line>): Line
  {
    if lines == [] then [] else Above(lines[..|lines| - 1]) + lines[|lines| - 1] + [NEWLINE]
  }

  /** Every line preceded by a newline. */
  function Below(lines: seq<Line>): Line
  {
    if lines == [] then [] else [NEWLINE] + lines[0] + Below(lines[1..])
  }

  /** `lines.join('\n')` */
  function Flat(lines: seq<Line>): Line
  {
    if lines == [] then [] else lines[0] + Below(lines[1..])
  }

  /** Cursor position in the joined text. */
  function Offset(s: Buffer): nat
    requires HasRow(s)
  {
    |Above(s.lines[..s.row])| + s.col
  }

  lemma {:induction false} FlatAround(lines: seq<Line>, row: nat)
    requires row < |lines|
    ensures Flat(lines) == Above(lines[..row]) + lines[row] + Below(lines[row + 1..])
  {
    if row == 0 {
      assert lines[..0] == [];
    } else {
      FlatAround(lines, row - 1);
      assert lines[..row][..row - 1] == lines[..row - 1];
      assert lines[row..][1..] == lines[row + 1..];
      assert Below(lines[row..]) == [NEWLINE] + lines[row] + Below(lines[row + 1..]);
      assert Above(lines[..row]) == Above(lines[..row - 1]) + lines[row - 1] + [NEWLINE];
    }
  }

  lemma FlatOfThree(above: seq<Line>, line: Line, below: seq<Line>)
    ensures Flat(above + [line] + below) == Above(above) + line + Below(below)
  {
    var lines := above + [line] + below;
    FlatAround(lines, |above|);
    assert lines[..|above|] == above && lines[|above| + 1..] == below;
  }

  /** Any change of the cursor's line alone shows up alone in the text. */
  lemma ReplaceLine(lines: seq<Line>, row: nat, line: Line)
    requires row < |lines|
    ensures Flat(lines[row := line]) == Above(lines[..row]) + line + Below(lines[row + 1..])
    ensures lines[row := line][..row] == lines[..row]
  {
    assert lines[row := line] == lines[..row] + [line] + lines[row + 1..];
    FlatOfThree(lines[..row], line, lines[row + 1..]);
  }

  /** What a key inserts: a newline for Enter, itself when printable. */
  function Inserted(key: Line): Line
  {
    if IsNewlineKey(key) then [NEWLINE] else key
  }

  /** The text in front of column `c` of the cursor's line, and from it on. */
  function Front(s: Buffer, c: nat): Line
    requires HasRow(s) && c <= |s.lines[s.row]|
  {
    Above(s.lines[..s.row]) + s.lines[s.row][..c]
  }

  function Back(s: Buffer, c: nat): Line
    requires HasRow(s) && c <= |s.lines[s.row]|
  {
    s.lines[s.row][c..] + Below(s.lines[s.row + 1..])
  }

  lemma FlatCut(s: Buffer, a: nat, b: nat)
    requires HasRow(s) && a <= b <= |s.lines[s.row]|
    ensures Flat(s.lines) == Front(s, a) + s.lines[s.row][a..b] + Back(s, b)
  {
    FlatAround(s.lines, s.row);
    var line := s.lines[s.row];
    assert line == line[..a] + line[a..b] + line[b..];
  }

  /** The line becomes what stood in front of column `a`, new text, and what stood from column `b` on. */
  lemma FlatReplaced(s: Buffer, a: nat, b: nat, added: Line)
    requires HasRow(s) && a <= b <= |s.lines[s.row]|
    ensures var line := s.lines[s.row];
            var lines := s.lines[s.row := line[..a] + added + line[b..]];
            Flat(lines) == Front(s, a) + added + Back(s, b) && lines[..s.row] == s.lines[..s.row]
  {
    var line := s.lines[s.row];
    ReplaceLine(s.lines, s.row, line[..a] + added + line[b..]);
  }

  /** Replacing a stretch of text, seen from the text before. */
  lemma Replaced(before: Line, after: Line, front: Line, removed: Line, added: Line, back: Line)
    requires before == front + removed + back && after == front + added + back
    ensures |front| + |removed| <= |before|
    ensures after == before[..|front|] + added + before[|front| + |removed|..]
  {
    assert before[..|front|] == front;
    assert before[|front| + |removed|..] == back;
  }

  /** Editing within the cursor's line, from column `a` to column `b`. */
  lemma EditedLine(s: Buffer, a: nat, b: nat, added: Line, lines: seq<Line>)
    requires HasRow(s) && a <= b <= |s.lines[s.row]|
    requires lines == s.lines[s.row := s.lines[s.row][..a] + added + s.lines[s.row][b..]]
    ensures var at := Offset(s.(col := a));
            && at + (b - a) <= |Flat(s.lines)| && Offset(s.(lines := lines)) == Offset(s)
            && Flat(lines) == Flat(s.lines)[..at] + added + Flat(s.lines)[at + (b - a)..]
  {
    FlatCut(s, a, b);
    FlatReplaced(s, a, b, added);
    Replaced(Flat(s.lines), Flat(lines), Front(s, a), s.lines[s.row][a..b], added, Back(s, b));
  }

  lemma BrokenLines(s: Buffer)
    requires InBounds(s)
    ensures var line := s.lines[s.row];
            EditKey(s, [RETURN])
            == Buffer(s.lines[..s.row] + [line[..s.col], line[s.col..]] + s.lines[s.row + 1..], s.row + 1, 0, true)
  {
    var line := s.lines[s.row];
    assert SliceTo(line, s.col) == line[..s.col] && SliceFrom(line, s.col) == line[s.col..];
  }

  lemma FlatBroken(s: Buffer)
    requires InBounds(s)
    ensures var t := EditKey(s, [RETURN]);
            Flat(t.lines) == Front(s, s.col) + [NEWLINE] + Back(s, s.col) && Offset(t) == Offset(s) + 1
  {
    hide EditKey;
    var line := s.lines[s.row];
    var above, below := s.lines[..s.row], s.lines[s.row + 1..];
    var head, tail := line[..s.col], line[s.col..];
    var t := EditKey(s, [RETURN]);
    var split := [tail] + below;
    BrokenLines(s);
    assert t.lines == above + [head] + split;
    FlatOfThree(above, head, split);
    assert split[1..] == below;
    assert t.lines[..t.row] == above + [head];
    assert (above + [head])[..|above|] == above;
  }

  /** Enter and printable keys insert at the cursor and move it behind the insertion. */
  lemma EditInserts(s: Buffer, key: Line)
    requires InBounds(s)
    requires IsNewlineKey(key) || (!IsEraseKey(key) && IsPrintableKey(key))
    ensures var t, at := EditKey(s, key), Offset(s);
            && InBounds(t) && at <= |Flat(s.lines)|
            && Flat(t.lines) == Flat(s.lines)[..at] + Inserted(key) + Flat(s.lines)[at..]
            && Offset(t) == at + |Inserted(key)| && t.dirty
  {
    if IsNewlineKey(key) {
      FlatCut(s, s.col, s.col);
      FlatBroken(s);
      assert EditKey(s, key) == EditKey(s, [RETURN]);
      Replaced(Flat(s.lines), Flat(EditKey(s, key).lines), Front(s, s.col), [], [NEWLINE], Back(s, s.col));
    } else {
      var line := s.lines[s.row];
      assert SliceTo(line, s.col) == line[..s.col] && SliceFrom(line, s.col) == line[s.col..];
      EditedLine(s, s.col, s.col, key, EditKey(s, key).lines);
    }
  }

  /** Which keys insert: every one that begins with a printable unit, but for delete; and which do nothing at all. */
  lemma EveryKeyHasItsEffect(s: Buffer, key: Line)
    requires InBounds(s)
    ensures key != [] && key[0] >= 0x20 && key != [0x7F] ==>
              EditKey(s, key) == Buffer(s.lines[s.row := s.lines[s.row][..s.col] + key + s.lines[s.row][s.col..]],
                                        s.row, s.col + |key|, true)
    ensures key == [] || (key[0] < 0x20 && key != [0x0D] && key != [0x0A] && key != [0x08]) ==> EditKey(s, key) == s
    ensures key == [0x0D] || key == [0x0A] ==> |EditKey(s, key).lines| == |s.lines| + 1
    ensures key == [0x7F] || key == [0x08] ==> |Flat(EditKey(s, key).lines)| <= |Flat(s.lines)|
  {
    hide Flat;
    var line := s.lines[s.row];
    assert SliceTo(line, s.col) == line[..s.col] && SliceFrom(line, s.col) == line[s.col..];
    if key == [0x7F] || key == [0x08] {
      EditErases(s, key);
    }
  }

  lemma JoinedLines(s: Buffer)
    requires InBounds(s) && s.col == 0 && s.row > 0
    ensures var previous := s.lines[s.row - 1];
            EditKey(s, [BACKSPACE])
            == Buffer(s.lines[..s.row - 1] + [previous + s.lines[s.row]] + s.lines[s.row + 1..], s.row - 1, |previous|, true)
  {
  }

  lemma FlatJoined(s: Buffer)
    requires InBounds(s) && s.col == 0 && s.row > 0
    ensures var t, at := EditKey(s, [BACKSPACE]), Offset(s);
            && InBounds(t) && Offset(t) + 1 == at <= |Flat(s.lines)|
            && Flat(t.lines) == Flat(s.lines)[..Offset(t)] + [] + Flat(s.lines)[at..]
  {
    hide EditKey;
    var line, previous := s.lines[s.row], s.lines[s.row - 1];
    var above, below := s.lines[..s.row - 1], s.lines[s.row + 1..];
    var t := EditKey(s, [BACKSPACE]);
    JoinedLines(s);
    assert s.lines[..s.row][..s.row - 1] == above;
    FlatOfThree(above, previous + line, below);
    assert t.lines[..t.row] == above;
    FlatAround(s.lines, s.row);
    var front, back := Above(above) + previous, line + Below(below);
    assert Flat(s.lines) == front + [NEWLINE] + back;
    assert Flat(t.lines) == front + [] + back;
    Replaced(Flat(s.lines), Flat(t.lines), front, [NEWLINE], [], back);
  }

  lemma FlatErased(s: Buffer)
    requires InBounds(s) && s.col > 0
    ensures var t, at := EditKey(s, [BACKSPACE]), Offset(s);
            && InBounds(t) && Offset(t) <= at <= |Flat(s.lines)|
            && Flat(t.lines) == Flat(s.lines)[..Offset(t)] + [] + Flat(s.lines)[at..]
            && at - Offset(t) == s.col - PreviousCodePoint(s.lines[s.row], s.col)
  {
    var line := s.lines[s.row];
    var start := PreviousCodePoint(line, s.col);
    var t := EditKey(s, [BACKSPACE]);
    assert line[..start] + [] + line[s.col..] == line[..start] + line[s.col..];
    EditedLine(s, start, s.col, [], t.lines);
  }

  /** Erasing removes what stands between the new cursor and the old one: one or two code units, or the newline
      in front of the line; nothing at the start of the text. */
  lemma EditErases(s: Buffer, key: Line)
    requires InBounds(s) && IsEraseKey(key)
    ensures var t, at := EditKey(s, key), Offset(s);
            && InBounds(t) && Offset(t) <= at <= |Flat(s.lines)|
            && Flat(t.lines) == Flat(s.lines)[..Offset(t)] + Flat(s.lines)[at..]
            && at - Offset(t) == (if at == 0 then 0 else if s.col == 0 then 1 else s.col - PreviousCodePoint(s.lines[s.row], s.col))
            && (at == 0 ==> t == s)
  {
    assert EditKey(s, key) == EditKey(s, [BACKSPACE]);
    if s.col > 0 {
      FlatErased(s);
    } else if s.row > 0 {
      FlatJoined(s);
    } else {
      assert s.lines[..s.row] == [];
    }
  }

  /** `x` removes the code units from the cursor to the next code point, and leaves the cursor where it is. */
  lemma RemoveCharErases(s: Buffer)
    requires InBounds(s)
    ensures var t, at := RemoveChar(s), Offset(s);
            var width := NextCodePoint(s.lines[s.row], s.col) - s.col;
            && InBounds(t) && Offset(t) == at && at + width <= |Flat(s.lines)|
            && Flat(t.lines) == Flat(s.lines)[..at] + Flat(s.lines)[at + width..]
  {
    var line := s.lines[s.row];
    var next := NextCodePoint(line, s.col);
    if s.col < |line| {
      assert SliceFrom(line, next) == line[next..];
      assert line[..s.col] + [] + line[next..] == line[..s.col] + line[next..];
      EditedLine(s, s.col, next, [], RemoveChar(s).lines);
    } else {
      FlatCut(s, s.col, s.col);
    }
  }

  // ----- Code points -----

  /** No code point of the line spans the position. */
  predicate IsBoundary(line: Line, i: nat)
    requires i <= |line|
  {
    !(0 < i < |line| && IsHigh(line[i - 1]) && IsLow(line[i]))
  }

  /** The range is exactly one code point of the line. */
  predicate IsOneCodePoint(line: Line, start: nat, end: nat)
    requires end <= |line|
  {
    start < end && IsBoundary(line, start) && IsBoundary(line, end)
    && forall i :: start < i < end ==> !IsBoundary(line, i)
  }

  /** Backspace removes exactly one code point unless the cursor stands inside one or a lone low surrogate
      precedes it. */
  lemma BackspaceRemovesOneCodePoint(line: Line, col: nat)
    requires 0 < col <= |line|
    ensures IsOneCodePoint(line, PreviousCodePoint(line, col), col)
       <==> IsBoundary(line, col) && !(col >= 2 && IsLow(line[col - 1]) && !IsHigh(line[col - 2]))
  {
    var start := PreviousCodePoint(line, col);
    assert start == col - 2 ==> (IsBoundary(line, col - 1) <==> !IsHigh(line[col - 2]));
  }

  /** `x` removes exactly one code point unless the cursor stands inside one or on a lone high surrogate
      that another code unit follows. */
  lemma RemoveCharRemovesOneCodePoint(line: Line, col: nat)
    requires col < |line|
    ensures IsOneCodePoint(line, col, NextCodePoint(line, col))
       <==> IsBoundary(line, col) && !(IsHigh(line[col]) && col + 1 < |line| && !IsLow(line[col + 1]))
  {
    var end := NextCodePoint(line, col);
    assert end == col + 2 ==> (IsBoundary(line, col + 1) <==> !IsLow(line[col + 1]));
  }

  /** Every surrogate is half of a pair. */
  predicate WellFormed(line: Line)
  {
    && (forall i :: 0 <= i < |line| && IsHigh(line[i]) ==> i + 1 < |line| && IsLow(line[i + 1]))
    && (forall i :: 0 <= i < |line| && IsLow(line[i]) ==> i > 0 && IsHigh(line[i - 1]))
  }

  /** The text is well formed and the cursor stands between two code points. */
  predicate OnBoundary(s: Buffer)
  {
    InBounds(s) && (forall i :: 0 <= i < |s.lines| ==> WellFormed(s.lines[i])) && IsBoundary(s.lines[s.row], s.col)
  }

  lemma CutWellFormed(line: Line, i: nat)
    requires WellFormed(line) && i <= |line| && IsBoundary(line, i)
    ensures WellFormed(line[..i]) && WellFormed(line[i..])
  {
  }

  lemma JoinWellFormed(a: Line, b: Line)
    requires WellFormed(a) && WellFormed(b)
    ensures WellFormed(a + b) && IsBoundary(a + b, |a|)
  {
    var c := a + b;
    forall i | 0 <= i < |c| && IsHigh(c[i])
      ensures i + 1 < |c| && IsLow(c[i + 1])
    {
      if i < |a| {
        assert IsHigh(a[i]);
      } else {
        assert IsHigh(b[i - |a|]);
      }
    }
    forall i | 0 <= i < |c| && IsLow(c[i])
      ensures i > 0 && IsHigh(c[i - 1])
    {
      if i < |a| {
        assert IsLow(a[i]);
      } else {
        assert IsLow(b[i - |a|]);
      }
    }
    if 0 < |a| < |c| {
      assert c[|a| - 1] == a[|a| - 1];
    }
  }

  lemma PreviousIsBoundary(line: Line, col: nat)
    requires WellFormed(line) && col <= |line| && IsBoundary(line, col)
    ensures IsBoundary(line, PreviousCodePoint(line, col))
  {
  }

  lemma NextIsBoundary(line: Line, col: nat)
    requires WellFormed(line) && col <= |line| && IsBoundary(line, col)
    ensures NextCodePoint(line, col) <= |line| && IsBoundary(line, NextCodePoint(line, col))
  {
  }

  predicate AllWellFormed(lines: seq<Line>)
  {
    forall i :: 0 <= i < |lines| ==> WellFormed(lines[i])
  }

  lemma ReplaceKeepsBoundary(s: Buffer, line: Line, col: nat, dirty: bool)
    requires OnBoundary(s) && WellFormed(line) && col <= |line| && IsBoundary(line, col)
    ensures OnBoundary(Buffer(s.lines[s.row := line], s.row, col, dirty))
  {
  }

  lemma BreakKeepsBoundary(s: Buffer)
    requires OnBoundary(s)
    ensures OnBoundary(EditKey(s, [RETURN]))
  {
    var line := s.lines[s.row];
    CutWellFormed(line, s.col);
    var t := EditKey(s, [RETURN]);
    assert SliceTo(line, s.col) == line[..s.col] && SliceFrom(line, s.col) == line[s.col..];
    forall i | 0 <= i < |t.lines|
      ensures WellFormed(t.lines[i])
    {
      assert t.lines[i] == if i < s.row then s.lines[i] else if i == s.row then line[..s.col]
                           else if i == s.row + 1 then line[s.col..] else s.lines[i - 1];
    }
  }

  lemma JoinKeepsBoundary(s: Buffer)
    requires OnBoundary(s) && s.col == 0 && s.row > 0
    ensures OnBoundary(EditKey(s, [BACKSPACE]))
  {
    var line := s.lines[s.row];
    JoinWellFormed(s.lines[s.row - 1], line);
    var t := EditKey(s, [BACKSPACE]);
    forall i | 0 <= i < |t.lines|
      ensures WellFormed(t.lines[i])
    {
      assert t.lines[i] == if i < s.row - 1 then s.lines[i] else if i == s.row - 1 then s.lines[s.row - 1] + line
                           else s.lines[i + 1];
    }
  }

  lemma EraseKeepsBoundary(s: Buffer, key: Line)
    requires OnBoundary(s) && IsEraseKey(key) && !IsNewlineKey(key)
    ensures OnBoundary(EditKey(s, key))
  {
    hide WellFormed;
    var line := s.lines[s.row];
    if s.col > 0 {
      var start := PreviousCodePoint(line, s.col);
      CutWellFormed(line, s.col);
      PreviousIsBoundary(line, s.col);
      CutWellFormed(line, start);
      JoinWellFormed(line[..start], line[s.col..]);
      ReplaceKeepsBoundary(s, line[..start] + line[s.col..], start, true);
    } else if s.row > 0 {
      JoinKeepsBoundary(s);
      assert EditKey(s, key) == EditKey(s, [BACKSPACE]);
    }
  }

  lemma InsertKeepsBoundary(s: Buffer, key: Line)
    requires OnBoundary(s) && WellFormed(key) && !IsNewlineKey(key) && !IsEraseKey(key)
    ensures OnBoundary(EditKey(s, key))
  {
    hide IsLow, IsHigh, WellFormed, IsBoundary;
    var line := s.lines[s.row];
    if IsPrintableKey(key) {
      CutWellFormed(line, s.col);
      JoinWellFormed(line[..s.col], key);
      JoinWellFormed(line[..s.col] + key, line[s.col..]);
      ReplaceKeepsBoundary(s, line[..s.col] + key + line[s.col..], s.col + |key|, true);
      assert SliceTo(line, s.col) == line[..s.col] && SliceFrom(line, s.col) == line[s.col..];
      assert EditKey(s, key)
          == Buffer(s.lines[s.row := line[..s.col] + key + line[s.col..]], s.row, s.col + |key|, true);
    } else {
      assert EditKey(s, key) == s;
    }
  }

  /** Editing well-formed text from a boundary keeps both, whatever well-formed key is pressed. */
  lemma EditKeepsBoundary(s: Buffer, key: Line)
    requires OnBoundary(s) && WellFormed(key)
    ensures OnBoundary(EditKey(s, key))
  {
    hide WellFormed, IsPrintableKey;
    if IsNewlineKey(key) {
      BreakKeepsBoundary(s);
      assert EditKey(s, key) == EditKey(s, [RETURN]) by {
        SameBreak(s, key);
      }
    } else if IsEraseKey(key) {
      EraseKeepsBoundary(s, key);
    } else {
      InsertKeepsBoundary(s, key);
    }
  }

  lemma SameBreak(s: Buffer, key: Line)
    requires OnBoundary(s) && IsNewlineKey(key)
    ensures EditKey(s, key) == EditKey(s, [RETURN])
  {
  }

  lemma RemoveCharKeepsBoundary(s: Buffer)
    requires OnBoundary(s)
    ensures OnBoundary(RemoveChar(s))
  {
    var line := s.lines[s.row];
    if s.col < |line| {
      var next := NextCodePoint(line, s.col);
      NextIsBoundary(line, s.col);
      CutWellFormed(line, s.col);
      CutWellFormed(line, next);
      JoinWellFormed(line[..s.col], line[next..]);
      assert SliceFrom(line, next) == line[next..];
      ReplaceKeepsBoundary(s, line[..s.col] + line[next..], s.col, true);
    }
  }

  // ----- Moving -----

  /** Every move ends in bounds, even from a column past the end of the line. */
  lemma MoveKeyStaysInBounds(s: Buffer, arrow: Option<Arrow>)
    requires HasRow(s)
    ensures InBounds(MoveKey(s, arrow)) && MoveKey(s, arrow).lines == s.lines
  {
  }

  function TargetRow(s: Buffer, arrow: Option<Arrow>): nat
    requires HasRow(s)
  {
    match arrow
    case Some(Up) => if s.row == 0 then 0 else s.row - 1
    case Some(Down) => Min(|s.lines| - 1, s.row + 1)
    case _ => s.row
  }

  /** In well-formed text left and right always end between two code points, even from inside one. Up and down do so
      exactly when the column, cut to the length of the line they come to, does not part a surrogate pair of it. */
  lemma MovesEndBetweenCodePoints(s: Buffer, arrow: Option<Arrow>)
    requires HasRow(s) && AllWellFormed(s.lines)
    ensures var line := s.lines[TargetRow(s, arrow)]; var col := Min(s.col, |line|);
            OnBoundary(MoveKey(s, arrow))
            <==> arrow == Some(Left) || arrow == Some(Right) || !(0 < col < |line| && IsHigh(line[col - 1]) && IsLow(line[col]))
  {
  }

  /** Inside a pair backspace takes the first half and `x` the second; either way the other half stays behind alone. */
  lemma ErasingInsideAPair(t: Buffer)
    requires InBounds(t) && WellFormed(t.lines[t.row]) && !IsBoundary(t.lines[t.row], t.col)
    ensures var line := t.lines[t.row]; var col := t.col;
            && EditKey(t, [BACKSPACE]) == Buffer(t.lines[t.row := line[..col - 1] + line[col..]], t.row, col - 1, true)
            && RemoveChar(t) == Buffer(t.lines[t.row := line[..col] + line[col + 1..]], t.row, col, true)
            && !WellFormed(line[..col - 1] + line[col..]) && !WellFormed(line[..col] + line[col + 1..])
  {
    var line, col := t.lines[t.row], t.col;
    assert (line[..col - 1] + line[col..])[col - 1] == line[col];
    assert col >= 2 ==> (line[..col - 1] + line[col..])[col - 2] == line[col - 2];
    assert (line[..col] + line[col + 1..])[col - 1] == line[col - 1];
    assert col + 1 < |line| ==> (line[..col] + line[col + 1..])[col] == line[col + 1];
  }

  /** So erasing after a move keeps the text well formed exactly when the move ended between two code points. */
  lemma ErasingAfterAMove(s: Buffer, arrow: Option<Arrow>)
    requires HasRow(s) && AllWellFormed(s.lines)
    ensures var t := MoveKey(s, arrow);
            && (AllWellFormed(EditKey(t, [BACKSPACE]).lines) <==> OnBoundary(t))
            && (AllWellFormed(RemoveChar(t).lines) <==> OnBoundary(t))
  {
    hide EditKey, RemoveChar, WellFormed, MoveKey;
    var t := MoveKey(s, arrow);
    MoveKeyStaysInBounds(s, arrow);
    if OnBoundary(t) {
      BackspaceIsAscii();
      EditKeepsBoundary(t, [BACKSPACE]);
      RemoveCharKeepsBoundary(t);
    } else {
      ErasingInsideAPair(t);
      assert EditKey(t, [BACKSPACE]).lines[t.row] == t.lines[t.row][..t.col - 1] + t.lines[t.row][t.col..];
      assert RemoveChar(t).lines[t.row] == t.lines[t.row][..t.col] + t.lines[t.row][t.col + 1..];
    }
  }

  lemma BackspaceIsAscii()
    ensures WellFormed([BACKSPACE])
  {
  }

  /** The simplest case: down into a line that starts with a pair. */
  lemma VerticalMoveCanSplitAPair()
    ensures var s := Buffer([[0x61], [0xD83D, 0xDE00]], 0, 1, false);
            OnBoundary(s) && !OnBoundary(MoveKey(s, Some(Down)))
  {
    var s := Buffer([[0x61], [0xD83D, 0xDE00]], 0, 1, false);
    MovesEndBetweenCodePoints(s, Some(Down));
    assert s.lines[1][0] == 0xD83D && s.lines[1][1] == 0xDE00;
  }

  /** On a boundary of well-formed text, left undoes right and right undoes left. */
  lemma LeftAndRightAreInverse(s: Buffer)
    requires OnBoundary(s)
    ensures s.col < |s.lines[s.row]| ==> MoveKey(MoveKey(s, Some(Right)), Some(Left)) == s
    ensures s.col > 0 ==> MoveKey(MoveKey(s, Some(Left)), Some(Right)) == s
  {
  }

  /** vi's `a` leaves the buffer exactly when the cursor is at the end of its line. There the insertion still goes
      to the end of the line, but the first erase then removes nothing. */
  lemma AppendModeLeavesBounds(s: Buffer, key: Line)
    requires InBounds(s)
    requires !IsNewlineKey(key) && !IsEraseKey(key) && IsPrintableKey(key)
    ensures InBounds(AppendMode(s)) <==> s.col < |s.lines[s.row]|
    ensures s.col == |s.lines[s.row]| ==>
              && EditKey(AppendMode(s), key).lines == s.lines[s.row := s.lines[s.row] + key]
              && !InBounds(EditKey(AppendMode(s), key))
              && EditKey(EditKey(AppendMode(s), key), [BACKSPACE]).lines == EditKey(AppendMode(s), key).lines
  {
    if s.col == |s.lines[s.row]| {
      var line := s.lines[s.row];
      assert line + key + [] == line + key;
      var t := EditKey(AppendMode(s), key);
      var longer := line + key;
      assert t.lines[t.row] == longer && t.col == |longer| + 1;
      assert PreviousCodePoint(longer, t.col) == |longer|;
      assert longer + [] == longer;
      assert t.lines[t.row := longer] == t.lines;
    }
  }

  // ----- Searching -----

  predicate MatchAt(line: Line, query: Line, col: nat)
  {
    col + |query| <= |line| && line[col..col + |query|] == query
  }

  predicate Matches(lines: seq<Line>, query: Line, row: nat, col: nat)
  {
    row < |lines| && MatchAt(lines[row], query, col)
  }

  lemma {:induction false} IndexOfIsFirst(line: Line, query: Line, from: nat)
    ensures var r := IndexOf(line, query, from);
            && (r.Some? ==> from <= r.value && MatchAt(line, query, r.value))
            && (forall c: nat :: from <= c && MatchAt(line, query, c) ==> r.Some? && r.value <= c)
    decreases |line| + 1 - from
  {
    if from + |query| <= |line| && line[from..from + |query|] != query {
      IndexOfIsFirst(line, query, from + 1);
    }
  }

  predicate NotBefore(row: nat, col: nat, row': nat, col': nat)
  {
    row < row' || (row == row' && col <= col')
  }

  lemma {:induction false} FindFromIsFirst(lines: seq<Line>, query: Line, row: nat, offset: nat)
    ensures var r := FindFrom(lines, query, row, offset);
            && (r.Some? ==> Matches(lines, query, r.value.row, r.value.col)
                            && NotBefore(row, offset, r.value.row, r.value.col))
            && (forall i, j :: Matches(lines, query, i, j) && NotBefore(row, offset, i, j) ==>
                  r.Some? && NotBefore(r.value.row, r.value.col, i, j))
    decreases |lines| - row
  {
    if row < |lines| {
      IndexOfIsFirst(lines[row], query, offset);
      if IndexOf(lines[row], query, offset).None? {
        FindFromIsFirst(lines, query, row + 1, 0);
      }
    }
  }

  /** A search lands on the first match after the cursor, or else on the first of the whole buffer; it moves
      nowhere only when there is no match at all. */
  lemma MoveToMatchFindsTheNext(s: Buffer, query: Line)
    requires InBounds(s) && query != []
    ensures var t := MoveToMatch(s, query);
            && InBounds(t) && t.lines == s.lines
            && (forall i, j :: Matches(s.lines, query, i, j) ==>
                  && Matches(s.lines, query, t.row, t.col)
                  && (NotBefore(s.row, s.col + 1, i, j) ==>
                        NotBefore(s.row, s.col + 1, t.row, t.col) && NotBefore(t.row, t.col, i, j))
                  && (!NotBefore(s.row, s.col + 1, t.row, t.col) ==> NotBefore(t.row, t.col, i, j)))
            && ((forall i, j :: !Matches(s.lines, query, i, j)) ==> t == s)
  {
    FindFromIsFirst(s.lines, query, s.row, s.col + 1);
    FindFromIsFirst(s.lines, query, 0, 0);
  }

  // ----- The class -----

  class BufferState {
    var lines: seq<Line>
    var row: nat
    var col: nat
    var dirty: bool

    ghost function View(): Buffer
      reads this
    {
      Buffer(lines, row, col, dirty)
    }

    constructor (lines: seq<Line>)
      ensures View() == Buffer(if lines == [] then [[]] else lines, 0, 0, false)
      ensures InBounds(View())
    {
      this.lines := if lines == [] then [[]] else lines;
      row, col, dirty := 0, 0, false;
    }

    method Edit(key: Line)
      requires HasRow(View())
      modifies this
      ensures View() == EditKey(old(View()), key)
    {
      if key == [RETURN] || key == [NEWLINE] {
        var tail := SliceFrom(lines[row], col);
        lines := lines[row := SliceTo(lines[row], col)];
        lines := lines[..row + 1] + [tail] + lines[row + 1..];
        row, col, dirty := row + 1, 0, true;
        return;
      }
      if key == [DELETE] || key == [BACKSPACE] {
        if col > 0 {
          var line := lines[row];
          var start := PreviousCodePoint(line, col);
          lines := lines[row := SliceTo(line, start) + SliceFrom(line, col)];
          col, dirty := start, true;
        } else if row > 0 {
          var previous := lines[row - 1];
          col := |previous|;
          lines := lines[row - 1 := previous + lines[row]];
          lines := lines[..row] + lines[row + 1..];
          row, dirty := row - 1, true;
        }
        return;
      }
      if IsPrintableKey(key) {
        var line := lines[row];
        lines := lines[row := SliceTo(line, col) + key + SliceFrom(line, col)];
        col, dirty := col + |key|, true;
      }
    }

    method Move(arrow: Option<Arrow>)
      requires HasRow(View())
      modifies this`row, this`col
      ensures View() == MoveKey(old(View()), arrow)
    {
      match arrow {
        case Some(Left) => col := PreviousCodePoint(lines[row], col);
        case Some(Right) => col := NextCodePoint(lines[row], col);
        case Some(Up) => row := if row == 0 then 0 else row - 1;
        case Some(Down) => row := Min(|lines| - 1, row + 1);
        case None =>
      }
      col := Min(col, |lines[row]|);
    }

    method Remove()
      requires HasRow(View())
      modifies this`lines, this`dirty
      ensures View() == RemoveChar(old(View()))
    {
      var line := lines[row];
      if col < |line| {
        lines := lines[row := SliceTo(line, col) + SliceFrom(line, NextCodePoint(line, col))];
        dirty := true;
      }
    }

    method Search(query: Line, startRow: nat, startOffset: nat) returns (hit: Option<Hit>)
      ensures hit == if query == [] then None else FindFrom(lines, query, startRow, startOffset)
    {
      if query == [] {
        return None;
      }
      var r := startRow;
      while r < |lines|
        invariant FindFrom(lines, query, startRow, startOffset)
               == FindFrom(lines, query, r, if r == startRow then startOffset else 0)
        invariant startRow <= r
      {
        var at := IndexOf(lines[r], query, if r == startRow then startOffset else 0);
        if at.Some? {
          return Some(Hit(r, at.value));
        }
        r := r + 1;
      }
      return None;
    }

    method JumpToMatch(query: Line)
      modifies this`row, this`col
      ensures View() == MoveToMatch(old(View()), query)
    {
      var hit := Search(query, row, col + 1);
      if hit.None? {
        hit := Search(query, 0, 0);
      }
      if hit.Some? {
        row, col := hit.value.row, hit.value.col;
      }
    }
  }
}
