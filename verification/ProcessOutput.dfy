/** The bounded output tail a process entry shows in `ps`. */
module ProcessOutput {
  import opened Text

  const OUTPUT_TAIL_MAX_BYTES := 64 * 1024

  type Byte = b: int | 0 <= b < 256

  // ----- UTF-8 (section 3 of RFC 3629) -----

  function EncodeChar(c: char): (bytes: seq<Byte>)
    ensures |bytes| == CharBytes(c)
    ensures forall i :: 0 <= i < |bytes| ==> (IsContinuation(bytes[i]) <==> i > 0)
  {
    var v := c as int;
    if v < 0x80 then [v]
    else if v < 0x800 then [0xC0 + v / 64, 0x80 + v % 64]
    else if v < 0x1_0000 then [0xE0 + v / 4096, 0x80 + v / 64 % 64, 0x80 + v % 64]
    else [0xF0 + v / 262144, 0x80 + v / 4096 % 64, 0x80 + v / 64 % 64, 0x80 + v % 64]
  }

  function Encode(s: string): (bytes: seq<Byte>)
    ensures |bytes| == ByteLength(s)
  {
    if s == "" then [] else EncodeChar(s[0]) + Encode(s[1..])
  }

  /** `(b & 0xc0) === 0x80` */
  predicate IsContinuation(b: Byte)
  {
    0x80 <= b < 0xC0
  }

  /** Length of the sequence a lead byte announces; 0 for a byte that cannot lead. */
  function SequenceLength(lead: Byte): nat
  {
    if lead < 0x80 then 1
    else if 0xC0 <= lead < 0xE0 then 2
    else if 0xE0 <= lead < 0xF0 then 3
    else if 0xF0 <= lead < 0xF8 then 4
    else 0
  }

  /** Scalar value carried by one byte sequence. */
  function SequenceValue(bytes: seq<Byte>): int
    requires 1 <= |bytes| <= 4
  {
    match |bytes|
    case 1 => bytes[0] as int
    case 2 => (bytes[0] as int - 0xC0) * 64 + (bytes[1] as int - 0x80)
    case 3 => (bytes[0] as int - 0xE0) * 4096 + (bytes[1] as int - 0x80) * 64 + (bytes[2] as int - 0x80)
    case _ => (bytes[0] as int - 0xF0) * 262144 + (bytes[1] as int - 0x80) * 4096 + (bytes[2] as int - 0x80) * 64 + (bytes[3] as int - 0x80)
  }

  predicate IsScalar(v: int)
  {
    0 <= v < 0xD800 || 0xE000 <= v < 0x11_0000
  }

  /** Strict decoder: `None` on anything a lenient decoder would replace. */
  function Decode(bytes: seq<Byte>): Option<string>
  {
    if bytes == [] then Some("")
    else
      var n := SequenceLength(bytes[0]);
      if n == 0 || n > |bytes| || (exists i :: 1 <= i < n && !IsContinuation(bytes[i])) then None
      else
        var v := SequenceValue(bytes[..n]);
        if !IsScalar(v) || CharBytes(v as char) != n then None
        else
          match Decode(bytes[n..])
          case None => None
          case Some(rest) => Some([v as char] + rest)
  }

  lemma EncodedCharDecodes(c: char)
    ensures SequenceLength(EncodeChar(c)[0]) == |EncodeChar(c)|
    ensures SequenceValue(EncodeChar(c)) == c as int
  {
    var v := c as int;
    if v >= 0x1_0000 {
      assert v / 4096 == v / 262144 * 64 + v / 4096 % 64;
      assert v / 64 == v / 4096 * 64 + v / 64 % 64;
    } else if v >= 0x800 {
      assert v / 64 == v / 4096 * 64 + v / 64 % 64;
    }
  }

  lemma {:induction false} DecodeEncode(s: string)
    ensures Decode(Encode(s)) == Some(s)
  {
    if s != "" {
      var head, rest := EncodeChar(s[0]), Encode(s[1..]);
      var bytes := head + rest;
      var n := |head|;
      assert Encode(s) == bytes && bytes[..n] == head && bytes[n..] == rest && bytes[0] == head[0];
      EncodedCharDecodes(s[0]);
      DecodeEncode(s[1..]);
      assert forall i :: 0 <= i < n ==> bytes[i] == head[i];
      var v := SequenceValue(bytes[..n]);
      assert v == s[0] as int && v as char == s[0];
      assert [v as char] + s[1..] == s;
    }
  }

  lemma SequenceIsEncoded(bytes: seq<Byte>)
    requires 1 <= |bytes| <= 4 && SequenceLength(bytes[0]) == |bytes|
    requires forall i :: 1 <= i < |bytes| ==> IsContinuation(bytes[i])
    requires IsScalar(SequenceValue(bytes)) && CharBytes(SequenceValue(bytes) as char) == |bytes|
    ensures EncodeChar(SequenceValue(bytes) as char) == bytes
  {
    var v: int := SequenceValue(bytes);
    var lead: int := bytes[0];
    if |bytes| == 2 {
      assert v / 64 == lead - 0xC0;
    } else if |bytes| == 3 {
      var high: int := (lead - 0xE0) * 64 + (bytes[1] - 0x80);
      assert v / 64 == high && high / 64 == lead - 0xE0;
      assert v / 4096 == high / 64;
    } else if |bytes| == 4 {
      var high: int := (lead - 0xF0) * 64 + (bytes[1] - 0x80);
      var w: int := high * 64 + (bytes[2] - 0x80);
      assert v / 64 == w && w / 64 == high && high / 64 == lead - 0xF0;
      assert v / 4096 == high && v / 262144 == lead - 0xF0;
    }
  }

  /** And only what is an encoding is decoded: no overlong form, no half of a pair, no stray byte. */
  lemma {:induction false} DecodedIsEncoded(bytes: seq<Byte>)
    requires Decode(bytes).Some?
    ensures Encode(Decode(bytes).value) == bytes
  {
    hide SequenceValue, EncodeChar, SequenceLength, Encode;
    if bytes != [] {
      var n := SequenceLength(bytes[0]);
      LeadsAtMostFour(bytes[0]);
      var head, rest := bytes[..n], bytes[n..];
      DecodedIsEncoded(rest);
      SequenceIsEncoded(head);
      EncodeOn(SequenceValue(head) as char, Decode(rest).value);
      assert bytes == head + rest;
    } else {
      EncodeNothing();
    }
  }

  lemma LeadsAtMostFour(lead: Byte)
    ensures SequenceLength(lead) <= 4
  {
  }

  lemma EncodeOn(c: char, rest: string)
    ensures Encode([c] + rest) == EncodeChar(c) + Encode(rest)
  {
    assert ([c] + rest)[1..] == rest;
  }

  lemma EncodeNothing()
    ensures Encode("") == []
  {
  }

  // ----- The tail -----

  /** Characters dropped from the front until the rest fits. */
  function Tail(value: string, maxBytes: nat): string
  {
    if ByteLength(value) <= maxBytes then value else Tail(value[1..], maxBytes)
  }

  /** The tail is a suffix that fits, and no longer suffix fits. */
  lemma {:induction false} TailIsLongestFittingSuffix(value: string, maxBytes: nat)
    ensures |Tail(value, maxBytes)| <= |value|
    ensures Tail(value, maxBytes) == value[|value| - |Tail(value, maxBytes)|..]
    ensures ByteLength(Tail(value, maxBytes)) <= maxBytes
    ensures forall j :: 0 <= j < |value| - |Tail(value, maxBytes)| ==> ByteLength(value[j..]) > maxBytes
  {
    if ByteLength(value) > maxBytes {
      TailIsLongestFittingSuffix(value[1..], maxBytes);
      var kept := |Tail(value, maxBytes)|;
      forall j | 0 <= j < |value| - kept
        ensures ByteLength(value[j..]) > maxBytes
      {
        if j == 0 {
          assert value[0..] == value;
        } else {
          assert value[1..][j - 1..] == value[j..];
        }
      }
    } else {
      assert value[0..] == value;
    }
  }

  lemma {:induction false} LeadBytesAreNotContinuations(value: string)
    ensures value != "" ==> Encode(value) != [] && !IsContinuation(Encode(value)[0])
  {
  }

  /** Skipping continuation bytes from the cut lands on the first character of the tail. */
  lemma {:induction false} CutThenSkipIsTail(value: string, cut: nat, start: nat)
    requires cut <= start <= ByteLength(value)
    requires forall i :: cut <= i < start ==> IsContinuation(Encode(value)[i])
    requires start == ByteLength(value) || !IsContinuation(Encode(value)[start])
    ensures Encode(value)[start..] == Encode(Tail(value, ByteLength(value) - cut))
  {
    hide EncodeChar, CharBytes;
    LeadBytesAreNotContinuations(value);
    if cut == 0 {
      assert start == 0;
      assert Encode(value)[0..] == Encode(value);
    } else {
      var head, rest := EncodeChar(value[0]), Encode(value[1..]);
      var w := |head|;
      if cut < w {
        CutInsideFirstCharacter(head, rest, cut, start) by {
          LeadBytesAreNotContinuations(value[1..]);
        }
      } else {
        forall i | cut - w <= i < start - w
          ensures IsContinuation(rest[i])
        {
          assert rest[i] == (head + rest)[i + w];
        }
        assert start < |head + rest| ==> (head + rest)[start] == rest[start - w];
        CutThenSkipIsTail(value[1..], cut - w, start - w);
        assert (head + rest)[start..] == rest[start - w..];
      }
    }
  }

  lemma CutInsideFirstCharacter(head: seq<Byte>, rest: seq<Byte>, cut: nat, start: nat)
    requires 0 < cut < |head| && cut <= start <= |head + rest|
    requires forall i :: 0 < i < |head| ==> IsContinuation(head[i])
    requires rest != [] ==> !IsContinuation(rest[0])
    requires forall i :: cut <= i < start ==> IsContinuation((head + rest)[i])
    requires start == |head + rest| || !IsContinuation((head + rest)[start])
    ensures start == |head| && (head + rest)[start..] == rest
  {
    assert forall i :: 0 <= i < |head| ==> (head + rest)[i] == head[i];
    assert rest != [] ==> (head + rest)[|head|] == rest[0];
  }

  /** The bytes handed to the decoder are always well formed. */
  method Utf8Tail(value: string, maxBytes: nat) returns (tail: string)
    ensures tail == Tail(value, maxBytes)
  {
    var bytes := Encode(value);
    if |bytes| <= maxBytes {
      return value;
    }
    var start := |bytes| - maxBytes;
    while start < |bytes| && IsContinuation(bytes[start])
      invariant |bytes| - maxBytes <= start <= |bytes|
      invariant forall i :: |bytes| - maxBytes <= i < start ==> IsContinuation(bytes[i])
    {
      start := start + 1;
    }
    CutThenSkipIsTail(value, |bytes| - maxBytes, start);
    DecodeEncode(Tail(value, maxBytes));
    tail := Decode(bytes[start..]).value;
  }

  /** Cutting early loses nothing that the final cut would keep. */
  lemma {:induction false} TailOfTailIsTail(before: string, chunk: string, maxBytes: nat)
    ensures Tail(Tail(before, maxBytes) + chunk, maxBytes) == Tail(before + chunk, maxBytes)
  {
    if ByteLength(before) > maxBytes {
      TailOfTailIsTail(before[1..], chunk, maxBytes);
      ByteLengthConcat(before, chunk);
      assert (before + chunk)[1..] == before[1..] + chunk;
    }
  }

  /** The text shown after appending every chunk in turn. */
  function TailOfChunks(chunks: seq<string>, maxBytes: nat): string
  {
    if chunks == [] then ""
    else Tail(TailOfChunks(chunks[..|chunks| - 1], maxBytes) + chunks[|chunks| - 1], maxBytes)
  }

  lemma {:induction false} IncrementalTailEqualsWholeTail(chunks: seq<string>, maxBytes: nat)
    ensures TailOfChunks(chunks, maxBytes) == Tail(Concat(chunks), maxBytes)
  {
    if chunks != [] {
      var front, last := chunks[..|chunks| - 1], chunks[|chunks| - 1];
      IncrementalTailEqualsWholeTail(front, maxBytes);
      TailOfTailIsTail(Concat(front), last, maxBytes);
      assert chunks == front + [last];
      ConcatSnoc(front, last);
    }
  }

  /** One table entry: the tail it shows, and everything the child ever wrote. */
  class ProcEntry {
    var outputTail: string
    ghost var chunks: seq<string>

    ghost predicate Valid()
      reads this
    {
      outputTail == Tail(Concat(chunks), OUTPUT_TAIL_MAX_BYTES)
    }

    constructor ()
      ensures Valid() && chunks == [] && outputTail == ""
    {
      outputTail, chunks := "", [];
    }

    method AppendProcessOutput(text: string)
      requires Valid()
      modifies this
      ensures Valid() && chunks == old(chunks) + [text]
      ensures outputTail == Tail(Concat(old(chunks)) + text, OUTPUT_TAIL_MAX_BYTES)
    {
      TailOfTailIsTail(Concat(chunks), text, OUTPUT_TAIL_MAX_BYTES);
      ConcatSnoc(chunks, text);
      outputTail := Utf8Tail(outputTail + text, OUTPUT_TAIL_MAX_BYTES);
      chunks := chunks + [text];
    }
  }
}
