/** Names of the frame files in a terminal mailbox. */
module TransportProtocol {
  import opened Text

  const TERMINAL_FRAME_LIMIT := 32 * 1024
  const MAX_SAFE_INTEGER := 0x1F_FFFF_FFFF_FFFF
  const SEQUENCE_DIGITS := 12

  datatype Direction = In | Out

  datatype FrameError = InvalidSequence

  function Prefix(direction: Direction): string
  {
    if direction == In then "in" else "out"
  }

  function Zeros(n: nat): string
  {
    if n == 0 then "" else "0" + Zeros(n - 1)
  }

  function PadStart(s: string, width: nat): string
  {
    if |s| >= width then s else Zeros(width - |s|) + s
  }

  function FrameFile(direction: Direction, sequence: int): Result<string, FrameError>
  {
    if sequence < 1 || sequence > MAX_SAFE_INTEGER then Err(InvalidSequence)
    else Ok(Prefix(direction) + "-" + PadStart(Decimal(sequence), SEQUENCE_DIGITS) + ".json")
  }

  /** Accepts one to twelve digits between the prefix and the extension. */
  function ParseFrameSequence(name: string, direction: Direction): Option<int>
  {
    var head := Prefix(direction) + "-";
    var n := |name| - |".json"|;
    if !(head <= name) || n < |head| || name[n..] != ".json" then None
    else
      var digits := name[|head|..n];
      if !(1 <= |digits| <= SEQUENCE_DIGITS) || !AllDigits(digits) then None
      else if Value(digits) > 0 then Some(Value(digits)) else None
  }

  function PowerOfTen(k: nat): nat
  {
    if k == 0 then 1 else 10 * PowerOfTen(k - 1)
  }

  lemma {:induction false} DecimalLength(n: nat, k: nat)
    requires k >= 1
    ensures |Decimal(n)| <= k <==> n < PowerOfTen(k)
  {
    if n < 10 {
      PowerOfTenAtLeastTen(k);
    } else {
      if k == 1 {
        assert PowerOfTen(1) == 10 * PowerOfTen(0);
      } else {
        DecimalLength(n / 10, k - 1);
      }
    }
  }

  lemma {:induction false} PowerOfTenAtLeastTen(k: nat)
    requires k >= 1
    ensures PowerOfTen(k) >= 10
  {
    if k == 1 {
      assert PowerOfTen(1) == 10 * PowerOfTen(0);
    } else {
      PowerOfTenAtLeastTen(k - 1);
    }
  }

  lemma {:induction false} LeadingZero(s: string)
    requires AllDigits(s)
    ensures AllDigits("0" + s) && Value("0" + s) == Value(s)
  {
    var t := "0" + s;
    if s == "" {
      assert t[..0] == "";
    } else {
      LeadingZero(s[..|s| - 1]);
      assert t[..|t| - 1] == "0" + s[..|s| - 1];
    }
  }

  lemma {:induction false} LeadingZeros(k: nat, s: string)
    requires AllDigits(s)
    ensures AllDigits(Zeros(k) + s) && Value(Zeros(k) + s) == Value(s)
    ensures |Zeros(k)| == k
  {
    hide AllDigits, Value;
    if k == 0 {
      assert Zeros(0) + s == s;
    } else {
      LeadingZeros(k - 1, s);
      LeadingZero(Zeros(k - 1) + s);
      assert Zeros(k) + s == "0" + (Zeros(k - 1) + s);
    }
  }

  lemma ParseBuiltName(direction: Direction, digits: string)
    ensures ParseFrameSequence(Prefix(direction) + "-" + digits + ".json", direction)
         == if !(1 <= |digits| <= SEQUENCE_DIGITS) || !AllDigits(digits) || Value(digits) == 0 then None
            else Some(Value(digits))
  {
    var head := Prefix(direction) + "-";
    var name := head + digits + ".json";
    assert head <= name;
    assert name[|name| - |".json"|..] == ".json";
    assert name[|head|..|name| - |".json"|] == digits;
  }

  lemma ParseOtherDirection(direction: Direction, digits: string)
    ensures ParseFrameSequence(Prefix(direction) + "-" + digits + ".json", if direction == In then Out else In) == None
  {
    var name := Prefix(direction) + "-" + digits + ".json";
    var other := Prefix(if direction == In then Out else In) + "-";
    assert name[0] != other[0];
  }

  /** A frame file is read back under its own direction exactly while its number has at most twelve digits,
      and never under the other direction. */
  lemma FrameFileRoundTrip(direction: Direction, sequence: int)
    requires 1 <= sequence <= MAX_SAFE_INTEGER
    ensures FrameFile(direction, sequence).Ok?
    ensures ParseFrameSequence(FrameFile(direction, sequence).value, direction)
         == if sequence < PowerOfTen(SEQUENCE_DIGITS) then Some(sequence) else None
    ensures ParseFrameSequence(FrameFile(direction, sequence).value, if direction == In then Out else In) == None
  {
    var digits := PadStart(Decimal(sequence), SEQUENCE_DIGITS);
    DecimalLength(sequence, SEQUENCE_DIGITS);
    PaddedValue(sequence);
    ParseBuiltName(direction, digits);
    ParseOtherDirection(direction, digits);
  }

  /** Names of different frames differ. */
  lemma FrameFilesAreDistinct(a: Direction, i: int, b: Direction, j: int)
    requires 1 <= i <= MAX_SAFE_INTEGER && 1 <= j <= MAX_SAFE_INTEGER
    requires FrameFile(a, i) == FrameFile(b, j)
    ensures a == b && i == j
  {
    assert FrameFile(a, i).value[0] == Prefix(a)[0] && FrameFile(b, j).value[0] == Prefix(b)[0];
    assert a == b;
    var head := Prefix(a) + "-";
    var x, y := PadStart(Decimal(i), SEQUENCE_DIGITS), PadStart(Decimal(j), SEQUENCE_DIGITS);
    assert (head + x + ".json")[|head|..|head| + |x|] == x;
    assert (head + y + ".json")[|head|..|head| + |y|] == y;
    assert x == y;
    PaddedValue(i);
    PaddedValue(j);
  }

  lemma PaddedValue(n: nat)
    ensures AllDigits(PadStart(Decimal(n), SEQUENCE_DIGITS)) && Value(PadStart(Decimal(n), SEQUENCE_DIGITS)) == n
    ensures |Decimal(n)| <= SEQUENCE_DIGITS ==> |PadStart(Decimal(n), SEQUENCE_DIGITS)| == SEQUENCE_DIGITS
  {
    ValueOfDecimal(n);
    if |Decimal(n)| < SEQUENCE_DIGITS {
      LeadingZeros(SEQUENCE_DIGITS - |Decimal(n)|, Decimal(n));
    }
  }

  /** The name itself: `in-` or `out-`, the number with leading zeros up to twelve digits, and the extension. */
  lemma NamesAreWritten(direction: Direction, sequence: int)
    requires 1 <= sequence <= MAX_SAFE_INTEGER
    ensures exists digits ::
              && FrameFile(direction, sequence) == Ok((if direction == Out then "out-" else "in-") + digits + ".json")
              && AllDigits(digits) && Value(digits) == sequence && |digits| >= 12
              && (|digits| > 12 ==> sequence >= PowerOfTen(12))
  {
    hide AllDigits, Value, Decimal;
    PaddedValue(sequence);
    DecimalLength(sequence, SEQUENCE_DIGITS);
    var digits := PadStart(Decimal(sequence), SEQUENCE_DIGITS);
    assert Prefix(direction) + "-" == if direction == Out then "out-" else "in-";
    assert FrameFile(direction, sequence) == Ok((if direction == Out then "out-" else "in-") + digits + ".json");
  }

  predicate IsFrameName(name: string, direction: Direction, digits: string)
  {
    && name == (if direction == Out then "out-" else "in-") + digits + ".json"
    && 1 <= |digits| <= 12 && AllDigits(digits)
  }

  /** And exactly such names are read, with one to twelve digits whose value is not zero. */
  lemma NamesAreRead(name: string, direction: Direction, n: int)
    ensures ParseFrameSequence(name, direction) == Some(n)
       <==> exists digits :: IsFrameName(name, direction, digits) && Value(digits) == n > 0
  {
    hide AllDigits, Value, ParseFrameSequence;
    if ParseFrameSequence(name, direction) == Some(n) {
      var digits := ReadNameIsBuilt(name, direction, n);
    }
    if digits :| IsFrameName(name, direction, digits) && Value(digits) == n > 0 {
      BuiltNameIsRead(name, direction, digits);
    }
  }

  lemma BuiltNameIsRead(name: string, direction: Direction, digits: string)
    requires IsFrameName(name, direction, digits) && Value(digits) > 0
    ensures ParseFrameSequence(name, direction) == Some(Value(digits))
  {
    hide AllDigits, Value, ParseFrameSequence;
    assert Prefix(direction) + "-" == if direction == Out then "out-" else "in-";
    assert name == Prefix(direction) + "-" + digits + ".json";
    ParseBuiltName(direction, digits);
  }

  lemma ReadNameIsBuilt(name: string, direction: Direction, n: int) returns (digits: string)
    requires ParseFrameSequence(name, direction) == Some(n)
    ensures IsFrameName(name, direction, digits) && Value(digits) == n > 0
  {
    hide AllDigits, Value;
    var head, end := Prefix(direction) + "-", |name| - 5;
    digits := name[|head|..end];
    assert name == name[..|head|] + digits + name[end..];
  }
}
