/** How the editors cut a line to the width of the screen. */
module EditorColumns {
  import opened Editors

  const DOTS: Line := [0x2E, 0x2E, 0x2E]

  // ----- Widths -----

  function CodePointAt(s: Line): (code: nat)
    requires s != []
  {
    if CodePointLength(s) == 2 then 0x1_0000 + (s[0] as int - 0xD800) * 0x400 + (s[1] as int - 0xDC00) else s[0]
  }

  /** Combining marks take no column, East Asian wide characters and pictographs two. */
  function Columns(code: nat): (n: nat)
    ensures n <= 2
  {
    if code == 0 || 0x300 <= code <= 0x36F then 0
    else if code >= 0x1100
      && (code <= 0x115F || code == 0x2329 || code == 0x232A || 0x2E80 <= code <= 0xA4CF || 0xAC00 <= code <= 0xD7A3
          || 0xF900 <= code <= 0xFAFF || 0xFE10 <= code <= 0xFE6F || 0xFF00 <= code <= 0xFF60 || 0xFFE0 <= code <= 0xFFE6
          || 0x1_F300 <= code <= 0x1_FAFF) then 2
    else 1
  }

  /** The pair of units of a code point beyond the first plane (section 2.1 of RFC 2781). */
  function Utf16(code: int): (pair: Line)
    requires 0x1_0000 <= code <= 0x10_FFFF
    ensures |pair| == 2
  {
    [0xD800 + (code - 0x1_0000) / 0x400, 0xDC00 + (code - 0x1_0000) % 0x400]
  }

  /** Two units are read as one code point exactly when they are the pair of one, and then as that one. */
  lemma PairsAreRead(s: Line)
    requires |s| >= 2
    ensures CodePointLength(s) == 2 <==> exists code :: 0x1_0000 <= code <= 0x10_FFFF && s[..2] == Utf16(code)
    ensures forall code :: 0x1_0000 <= code <= 0x10_FFFF && s[..2] == Utf16(code) ==> CodePointAt(s) == code
  {
    if CodePointLength(s) == 2 {
      assert s[..2] == Utf16(CodePointAt(s));
    }
    forall code | 0x1_0000 <= code <= 0x10_FFFF && s[..2] == Utf16(code)
      ensures CodePointLength(s) == 2 && CodePointAt(s) == code
    {
      assert s[0] == Utf16(code)[0] && s[1] == Utf16(code)[1];
    }
  }

  /** The blocks that take two columns: Hangul Jamo, angle brackets, CJK, Hangul, compatibility and full-width forms, and
      pictographs. */
  const WIDE: seq<(int, int)> := [
    (0x1100, 0x115F), (0x2329, 0x232A), (0x2E80, 0xA4CF), (0xAC00, 0xD7A3), (0xF900, 0xFAFF), (0xFE10, 0xFE6F),
    (0xFF00, 0xFF60), (0xFFE0, 0xFFE6), (0x1_F300, 0x1_FAFF)]

  predicate IsWide(code: int)
  {
    exists i :: 0 <= i < |WIDE| && WIDE[i].0 <= code <= WIDE[i].1
  }

  lemma ColumnsByBlock(code: nat)
    ensures Columns(code) == if code == 0 || 0x300 <= code < 0x370 then 0 else if IsWide(code) then 2 else 1
  {
    if IsWide(code) {
      var i :| 0 <= i < |WIDE| && WIDE[i].0 <= code <= WIDE[i].1;
      assert i == 0 || i == 1 || i == 2 || i == 3 || i == 4 || i == 5 || i == 6 || i == 7 || i == 8;
    } else {
      assert forall i :: 0 <= i < 9 ==> !(WIDE[i].0 <= code <= WIDE[i].1);
      assert !(WIDE[0].0 <= code <= WIDE[0].1) && !(WIDE[1].0 <= code <= WIDE[1].1) && !(WIDE[2].0 <= code <= WIDE[2].1);
      assert !(WIDE[3].0 <= code <= WIDE[3].1) && !(WIDE[4].0 <= code <= WIDE[4].1) && !(WIDE[5].0 <= code <= WIDE[5].1);
      assert !(WIDE[6].0 <= code <= WIDE[6].1) && !(WIDE[7].0 <= code <= WIDE[7].1) && !(WIDE[8].0 <= code <= WIDE[8].1);
    }
  }

  function Width(s: Line): nat
  {
    if s == [] then 0 else Columns(CodePointAt(s)) + Width(s[CodePointLength(s)..])
  }

  method StringWidth(value: Line) returns (width: nat)
    ensures width == Width(value)
  {
    width := 0;
    var i := 0;
    assert value[0..] == value;
    while i < |value|
      invariant 0 <= i <= |value| && width + Width(value[i..]) == Width(value)
    {
      var rest := value[i..];
      var n := CodePointLength(rest);
      assert value[i + n..] == rest[n..];
      width, i := width + Columns(CodePointAt(rest)), i + n;
    }
  }

  /** A cut that does not part a surrogate pair parts the width. */
  lemma {:induction false} WidthIsSplit(s: Line, k: nat)
    requires k <= |s| && IsBoundary(s, k)
    ensures Width(s) == Width(s[..k]) + Width(s[k..])
    decreases |s|
  {
    if k == 0 {
      assert s[0..] == s;
    } else {
      hide Columns;
      var n, front := CodePointLength(s), s[..k];
      assert n <= k;
      WidthIsSplit(s[n..], k - n);
      assert CodePointLength(front) == n && CodePointAt(front) == CodePointAt(s);
      assert front[n..] == s[n..][..k - n] && s[n..][k - n..] == s[k..];
    }
  }

  // ----- Cutting -----

  /** Code points taken from the front as long as they fit. */
  function Fitting(s: Line, columns: nat): (n: nat)
    ensures n <= |s|
  {
    if s == [] || Columns(CodePointAt(s)) > columns then 0
    else CodePointLength(s) + Fitting(s[CodePointLength(s)..], columns - Columns(CodePointAt(s)))
  }

  function Content(columns: int): nat
  {
    if columns > 3 then columns - 3 else 0
  }

  function Truncate(value: Line, columns: int): Line
  {
    if Width(value) <= columns then value
    else value[..Fitting(value, Content(columns))] + if columns > 3 then DOTS else []
  }

  lemma FittingStep(value: Line, i: nat, room: nat)
    requires i < |value|
    ensures var rest := value[i..];
            var n, w := CodePointLength(rest), Columns(CodePointAt(rest));
            Fitting(rest, room) == if w > room then 0 else n + Fitting(value[i + n..], room - w)
  {
    hide Columns;
    assert value[i..][CodePointLength(value[i..])..] == value[i + CodePointLength(value[i..])..];
  }

  method TruncateColumns(value: Line, columns: int) returns (result: Line)
    ensures result == Truncate(value, columns)
  {
    hide Columns, CodePointAt, Fitting, Width;
    var whole := StringWidth(value);
    if whole <= columns {
      return value;
    }
    var contentColumns := if columns - 3 > 0 then columns - 3 else 0;
    var width, i := 0, 0;
    assert value[0..] == value;
    while i < |value|
      invariant 0 <= i <= |value| && width <= contentColumns
      invariant i + Fitting(value[i..], contentColumns - width) == Fitting(value, contentColumns)
    {
      var rest := value[i..];
      var n, charWidth := CodePointLength(rest), Columns(CodePointAt(rest));
      FittingStep(value, i, contentColumns - width);
      if width + charWidth > contentColumns {
        break;
      }
      width, i := width + charWidth, i + n;
    }
    return value[..i] + if columns > 3 then DOTS else [];
  }

  /** The first `n` units end between code points and fit, and no longer such beginning does. */
  predicate IsLongestFit(s: Line, n: nat, columns: nat)
    requires n <= |s|
  {
    && IsBoundary(s, n) && Width(s[..n]) <= columns
    && forall k :: n < k <= |s| && IsBoundary(s, k) ==> Width(s[..k]) > columns
  }

  lemma {:induction false} FittingIsLongest(s: Line, columns: nat)
    ensures IsLongestFit(s, Fitting(s, columns), columns)
    decreases |s|
  {
    hide Columns, CodePointAt, CodePointLength, IsBoundary;
    if s == [] {
      TakesNothing(s);
    } else {
      var n, first, columnsOfFirst := Fitting(s, columns), CodePointLength(s), Columns(CodePointAt(s));
      TakesNothing(s);
      if columnsOfFirst <= columns {
        FittingIsLongest(s[first..], columns - columnsOfFirst);
        WidthOfPrefix(s, n);
      }
      forall k | n < k <= |s| && IsBoundary(s, k)
        ensures Width(s[..k]) > columns
      {
        WidthOfPrefix(s, k);
      }
    }
  }

  lemma TakesNothing(s: Line)
    ensures IsBoundary(s, 0) && Width(s[..0]) == 0
  {
  }

  /** A longer beginning is the first code point and a beginning of the rest. */
  lemma WidthOfPrefix(s: Line, k: nat)
    requires s != [] && 0 < k <= |s|
    ensures IsBoundary(s, k) ==> CodePointLength(s) <= k
    ensures CodePointLength(s) <= k ==>
              var rest := s[CodePointLength(s)..]; var i := k - CodePointLength(s);
              && (IsBoundary(s, k) <==> IsBoundary(rest, i))
              && Width(s[..k]) == Columns(CodePointAt(s)) + Width(rest[..i])
  {
    hide Columns;
    if CodePointLength(s) <= k {
      var n, front := CodePointLength(s), s[..k];
      assert CodePointLength(front) == n && CodePointAt(front) == CodePointAt(s);
      assert front[n..] == s[n..][..k - n];
    }
  }

  /** The cut line never takes more columns than there are. A line that fits stays whole; of any other the longest
      beginning is kept that leaves room for the dots, and no surrogate pair is parted. */
  lemma TruncatedLineFits(value: Line, columns: nat)
    ensures var t, dots := Truncate(value, columns), if columns > 3 then DOTS else [];
            && Width(t) <= columns
            && (Width(value) <= columns ==> t == value)
            && (Width(value) > columns ==>
                  var n := |t| - |dots|;
                  0 <= n <= |value| && t == value[..n] + dots && IsLongestFit(value, n, Content(columns)))
  {
    hide Width, Fitting, IsBoundary;
    if Width(value) > columns {
      var n := Fitting(value, Content(columns));
      FittingIsLongest(value, Content(columns));
      if columns > 3 {
        DottedWidth(value[..n]);
      } else {
        assert value[..n] + [] == value[..n];
      }
    }
  }

  lemma DottedWidth(front: Line)
    ensures Width(front + DOTS) == Width(front) + 3
  {
    var t := front + DOTS;
    assert t[..|front|] == front && t[|front|..] == DOTS;
    WidthIsSplit(t, |front|);
    assert DOTS[1..] == [0x2E, 0x2E] && DOTS[1..][1..] == [0x2E];
  }
}
