/** One JSON record a line, seen through an encoder and a decoder. */
module JsonLines {
  import opened Text

  /** Result of decoding one line: not JSON, JSON that is no event, or an event. */
  datatype Parsed<+E> = Malformed | NotAnEvent | Event(event: E)

  datatype Codec<!E> = Codec(valid: E -> bool, encode: E -> string, decode: string -> Parsed<E>)

  /** What JSON objects give (section 7 of RFC 8259 for the missing raw newline): a record reads back and spans one
      line, no strict prefix of it is JSON, and neither is a record behind the start or the whole of another one. */
  ghost predicate Lawful<E(!new)>(c: Codec<E>)
  {
    && (forall e {:trigger c.decode(c.encode(e))} :: c.valid(e) ==> c.decode(c.encode(e)) == Event(e))
    && (forall e {:trigger OneLine(c, e)} :: c.valid(e) ==> OneLine(c, e))
    && (forall e, k {:trigger c.decode(c.encode(e)[..k])} :: c.valid(e) && 0 <= k < |c.encode(e)| ==>
          c.decode(c.encode(e)[..k]) == Malformed)
    && (forall e, f, k {:trigger c.decode(c.encode(e)[..k] + c.encode(f))} ::
          c.valid(e) && c.valid(f) && 0 < k <= |c.encode(e)| ==> c.decode(c.encode(e)[..k] + c.encode(f)) == Malformed)
  }

  predicate OneLine<E>(c: Codec<E>, e: E)
  {
    c.encode(e) != "" && '\n' !in c.encode(e)
  }

  /** The lines of the records, each ended by a newline. */
  function Lines<E>(c: Codec<E>, events: seq<E>): string
  {
    if events == [] then "" else Lines(c, events[..|events| - 1]) + c.encode(events[|events| - 1]) + "\n"
  }

  function Encoded<E>(c: Codec<E>, events: seq<E>): seq<string>
  {
    seq(|events|, i requires 0 <= i < |events| => c.encode(events[i]))
  }

  lemma {:induction false} LinesAppend<E>(c: Codec<E>, a: seq<E>, b: seq<E>)
    ensures Lines(c, a + b) == Lines(c, a) + Lines(c, b)
  {
    if b == [] {
      assert a + b == a;
    } else {
      var front, last := b[..|b| - 1], b[|b| - 1];
      LinesAppend(c, a, front);
      assert (a + b)[..|a + b| - 1] == a + front;
      assert Lines(c, a) + (Lines(c, front) + c.encode(last) + "\n") == Lines(c, a) + Lines(c, front) + c.encode(last) + "\n";
    }
  }

  lemma LinesOne<E>(c: Codec<E>, event: E)
    ensures Lines(c, [event]) == c.encode(event) + "\n"
  {
    assert [event][..0] == [];
  }

  /** Splitting the lines, followed by any last line, gives back the records and that line. */
  lemma {:induction false} SplitLines<E>(c: Codec<E>, events: seq<E>, last: string)
    requires forall i :: 0 <= i < |events| ==> OneLine(c, events[i])
    ensures Split(Lines(c, events) + last, '\n') == Encoded(c, events) + Split(last, '\n')
  {
    hide Split;
    if events == [] {
      assert Lines(c, events) + last == last;
      assert Encoded(c, events) + Split(last, '\n') == Split(last, '\n');
    } else {
      var front, e := events[..|events| - 1], events[|events| - 1];
      var rest := c.encode(e) + "\n" + last;
      SplitLines(c, front, rest);
      assert OneLine(c, events[|events| - 1]);
      SplitFirst(c.encode(e), last, '\n');
      assert Lines(c, events) + last == Lines(c, front) + rest;
      assert Encoded(c, events) == Encoded(c, front) + [c.encode(e)];
      assert Encoded(c, front) + ([c.encode(e)] + Split(last, '\n')) == Encoded(c, events) + Split(last, '\n');
    }
  }

  /** `text.split('\n')` without the empty piece behind a final newline. */
  function LinesOf(text: string): seq<string>
  {
    var lines := Split(text, '\n');
    if lines[|lines| - 1] == "" then lines[..|lines| - 1] else lines
  }

  lemma LinesOfRecords<E>(c: Codec<E>, events: seq<E>, rest: string)
    requires forall i :: 0 <= i < |events| ==> OneLine(c, events[i])
    ensures LinesOf(Lines(c, events) + rest) == Encoded(c, events) + LinesOf(rest)
  {
    SplitLines(c, events, rest);
    var before, last := Encoded(c, events), Split(rest, '\n');
    assert (before + last)[..|before + last| - 1] == before + last[..|last| - 1];
    assert (before + last)[|before + last| - 1] == last[|last| - 1];
  }

  lemma LinesOfTail(tail: string)
    requires '\n' !in tail
    ensures LinesOf(tail) == if tail == "" then [] else [tail]
  {
    SplitWhole(tail, '\n');
  }

  /** JavaScript's `lines.map(encode).join('\n') + (lines.length ? '\n' : '')` */
  lemma {:induction false} JoinedLines<E>(c: Codec<E>, events: seq<E>)
    ensures Lines(c, events) == Join(Encoded(c, events), "\n") + (if events == [] then "" else "\n")
  {
    if |events| == 1 {
      assert events == [events[0]];
      LinesOne(c, events[0]);
    } else if |events| > 1 {
      var head, tail := events[0], events[1..];
      JoinedLines(c, tail);
      assert events == [head] + tail;
      LinesAppend(c, [head], tail);
      LinesOne(c, head);
      assert Encoded(c, events)[1..] == Encoded(c, tail);
    }
  }

  // ----- The laws are satisfiable -----

  function EncodeNumber(n: nat): string
  {
    "{" + Decimal(n) + "}"
  }

  function DecodeNumber(s: string): Parsed<nat>
  {
    if |s| < 3 || s[0] != '{' || s[|s| - 1] != '}' || !AllDigits(s[1..|s| - 1]) then Malformed
    else Event(Value(s[1..|s| - 1]))
  }

  function NumberCodec(): Codec<nat>
  {
    Codec((n: nat) => true, EncodeNumber, DecodeNumber)
  }

  lemma NumberReadsBack(n: nat)
    ensures DecodeNumber(EncodeNumber(n)) == Event(n) && '\n' !in EncodeNumber(n)
  {
    ValueOfDecimal(n);
    assert EncodeNumber(n)[1..|EncodeNumber(n)| - 1] == Decimal(n);
    assert forall i :: 0 <= i < |Decimal(n)| ==> IsDigit(Decimal(n)[i]);
  }

  lemma NumberPrefixIsMalformed(n: nat, k: nat)
    requires k < |EncodeNumber(n)|
    ensures DecodeNumber(EncodeNumber(n)[..k]) == Malformed
  {
    var p := EncodeNumber(n)[..k];
    if k >= 3 {
      assert p[k - 1] == Decimal(n)[k - 2] && IsDigit(Decimal(n)[k - 2]);
    }
  }

  lemma NumberPairIsMalformed(n: nat, m: nat, k: nat)
    requires 0 < k <= |EncodeNumber(n)|
    ensures DecodeNumber(EncodeNumber(n)[..k] + EncodeNumber(m)) == Malformed
  {
    var both := EncodeNumber(n)[..k] + EncodeNumber(m);
    var inner := both[1..|both| - 1];
    assert inner[k - 1] == both[k] == '{';
    assert !IsDigit(inner[k - 1]);
  }

  lemma NumberCodecIsLawful()
    ensures Lawful(NumberCodec())
  {
    forall n: nat
      ensures DecodeNumber(EncodeNumber(n)) == Event(n) && OneLine(NumberCodec(), n)
    {
      NumberReadsBack(n);
    }
    forall n: nat, k: nat | k < |EncodeNumber(n)|
      ensures DecodeNumber(EncodeNumber(n)[..k]) == Malformed
    {
      NumberPrefixIsMalformed(n, k);
    }
    forall n: nat, m: nat, k: nat | 0 < k <= |EncodeNumber(n)|
      ensures DecodeNumber(EncodeNumber(n)[..k] + EncodeNumber(m)) == Malformed
    {
      NumberPairIsMalformed(n, m, k);
    }
  }
}
