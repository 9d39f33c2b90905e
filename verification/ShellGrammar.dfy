/** How command lines are written: a grammar of every text, and what the tokenizer and the here-document detector make of
    it. */
module ShellGrammar {
  import opened Text
  import opened Tokenize

  /** Inside quotes: a character as it stands, or one behind a backslash that is taken away. */
  datatype Item = Raw(c: char) | Esc(c: char)

  /** A backslash at the very end stands for itself, and so may a quote that nothing closes come last. */
  datatype Part =
    | Plain(c: char)
    | Escaped(c: char)
    | Blank(c: char)
    | LastBackslash
    | Closed(quote: Quote, body: seq<Item>)
    | Open(quote: Quote, body: seq<Item>)

  /** The two readers differ in what a backslash escapes inside quotes. */
  datatype Reader = Words | Marks

  predicate Escapes(reader: Reader, quote: Quote, c: char)
  {
    match (reader, quote)
    case (Words, DoubleQuoted) => c in {'\\', '"', '$', '`'}
    case (Words, SingleQuoted) => c in {'\\', '\''}
    case (Marks, DoubleQuoted) => true
    case _ => false
  }

  function Mark(quote: Quote): string
  {
    match quote
    case DoubleQuoted => "\""
    case SingleQuoted => "'"
    case Unquoted => ""
  }

  // ----- Writing -----

  function ShowItem(item: Item): (text: string)
    ensures text != ""
  {
    match item
    case Raw(c) => [c]
    case Esc(c) => ['\\', c]
  }

  function ShowBody(body: seq<Item>): string
  {
    if body == [] then "" else ShowItem(body[0]) + ShowBody(body[1..])
  }

  function ShowPart(part: Part): string
  {
    match part
    case Plain(c) => [c]
    case Escaped(c) => ['\\', c]
    case Blank(c) => [c]
    case LastBackslash => "\\"
    case Closed(quote, body) => Mark(quote) + ShowBody(body) + Mark(quote)
    case Open(quote, body) => Mark(quote) + ShowBody(body)
  }

  function Show(parts: seq<Part>): string
  {
    if parts == [] then "" else ShowPart(parts[0]) + Show(parts[1..])
  }

  // ----- Which texts are well written -----

  /** In front of what follows: no raw mark, and no raw backslash in front of what it would escape. */
  predicate ItemIsWritten(reader: Reader, quote: Quote, item: Item, follows: string)
  {
    match item
    case Raw(c) => [c] != Mark(quote) && (c == '\\' && follows != "" ==> !Escapes(reader, quote, follows[0]))
    case Esc(c) => Escapes(reader, quote, c)
  }

  predicate BodyIsWritten(reader: Reader, quote: Quote, body: seq<Item>, after: string)
  {
    body != [] ==>
      ItemIsWritten(reader, quote, body[0], ShowBody(body[1..]) + after) && BodyIsWritten(reader, quote, body[1..], after)
  }

  predicate IsWritten(reader: Reader, part: Part, isLast: bool)
  {
    match part
    case Plain(c) => c !in {'"', '\'', '\\', ' ', '\t'}
    case Escaped(c) => true
    case Blank(c) => c in {' ', '\t'}
    case LastBackslash => isLast
    case Closed(quote, body) => quote != Unquoted && BodyIsWritten(reader, quote, body, Mark(quote))
    case Open(quote, body) => quote != Unquoted && isLast && BodyIsWritten(reader, quote, body, "")
  }

  predicate AreWritten(reader: Reader, parts: seq<Part>)
  {
    forall i :: 0 <= i < |parts| ==> IsWritten(reader, parts[i], i == |parts| - 1)
  }

  lemma RestIsWritten(reader: Reader, parts: seq<Part>)
    requires AreWritten(reader, parts) && parts != []
    ensures AreWritten(reader, parts[1..]) && IsWritten(reader, parts[0], |parts| == 1)
  {
    hide IsWritten;
    forall i | 0 <= i < |parts[1..]|
      ensures IsWritten(reader, parts[1..][i], i == |parts[1..]| - 1)
    {
      assert IsWritten(reader, parts[i + 1], i + 1 == |parts| - 1);
    }
  }

  lemma MoreIsWritten(reader: Reader, part: Part, parts: seq<Part>)
    requires AreWritten(reader, parts) && IsWritten(reader, part, parts == [])
    ensures AreWritten(reader, [part] + parts) && Show([part] + parts) == ShowPart(part) + Show(parts)
  {
    hide IsWritten;
    assert ([part] + parts)[1..] == parts;
  }

  // ----- Every text is written in one of these ways -----

  lemma BodyOn(item: Item, body: seq<Item>)
    ensures ShowBody([item] + body) == ShowItem(item) + ShowBody(body)
  {
    assert ([item] + body)[1..] == body;
  }

  lemma NoBody()
    ensures ShowBody([]) == ""
  {
  }

  /** What stands inside a quote, and what follows its closing mark. */
  lemma {:induction false} EveryBodyIsWritten(reader: Reader, quote: Quote, text: string)
    returns (body: seq<Item>, closed: bool, rest: string)
    requires quote != Unquoted
    ensures text == ShowBody(body) + (if closed then Mark(quote) + rest else "")
    ensures BodyIsWritten(reader, quote, body, if closed then Mark(quote) else "")
    ensures closed ==> |rest| < |text|
    decreases |text|
  {
    hide ShowBody, Escapes;
    if text == "" {
      NoBody();
      body, closed, rest := [], false, "";
    } else if text[0] == '\\' && |text| > 1 && Escapes(reader, quote, text[1]) {
      var inner;
      inner, closed, rest := EveryBodyIsWritten(reader, quote, text[2..]);
      body := [Esc(text[1])] + inner;
      BodyOn(Esc(text[1]), inner);
      assert body[1..] == inner && text == ['\\', text[1]] + text[2..];
    } else if [text[0]] == Mark(quote) {
      NoBody();
      body, closed, rest := [], true, text[1..];
      assert text == [text[0]] + text[1..];
    } else {
      var inner;
      inner, closed, rest := EveryBodyIsWritten(reader, quote, text[1..]);
      body := [Raw(text[0])] + inner;
      BodyOn(Raw(text[0]), inner);
      assert body[1..] == inner && text == [text[0]] + text[1..];
      var follows := ShowBody(inner) + (if closed then Mark(quote) else "");
      assert closed ==> text[1..] == follows + rest;
    }
  }

  /** There is no text that is not written in this grammar, for either reader. */
  lemma {:induction false} EveryTextIsWritten(reader: Reader, text: string) returns (parts: seq<Part>)
    ensures AreWritten(reader, parts) && Show(parts) == text
    decreases |text|
  {
    hide BodyIsWritten, ShowBody, Escapes, AreWritten, Show;
    if text == "" {
      parts := NothingIsWritten(reader);
    } else {
      var c := text[0];
      var part, rest := Plain(c), text[1..];
      if c == '"' || c == '\'' {
        var quote := if c == '"' then DoubleQuoted else SingleQuoted;
        var body, closed, behind := EveryBodyIsWritten(reader, quote, text[1..]);
        part, rest := if closed then Closed(quote, body) else Open(quote, body), if closed then behind else "";
        assert text == [c] + text[1..] == ShowPart(part) + rest;
      } else if c == '\\' {
        if |text| == 1 {
          part, rest := LastBackslash, "";
        } else {
          part, rest := Escaped(text[1]), text[2..];
        }
      } else if c == ' ' || c == '\t' {
        part := Blank(c);
      }
      assert text == ShowPart(part) + rest;
      var others: seq<Part>;
      if rest == "" {
        others := NothingIsWritten(reader);
      } else {
        others := EveryTextIsWritten(reader, rest);
        NothingIsEmpty(others);
      }
      MoreIsWritten(reader, part, others);
      parts := [part] + others;
    }
  }

  lemma NothingIsWritten(reader: Reader) returns (parts: seq<Part>)
    ensures parts == [] && AreWritten(reader, parts) && Show(parts) == ""
  {
    parts := [];
  }

  lemma NothingIsEmpty(parts: seq<Part>)
    requires Show(parts) != ""
    ensures parts != []
  {
  }

  // ----- What the tokenizer reads -----

  function TextOf(body: seq<Item>): string
  {
    if body == [] then "" else [body[0].c] + TextOf(body[1..])
  }

  /** Blanks end words; quotes and backslashes vanish; a quote that nothing closes is an error. */
  function WordsOf(parts: seq<Part>, word: string): Tokens
  {
    if parts == [] then Ok(if word == "" then [] else [word])
    else
      match parts[0]
      case Plain(c) => WordsOf(parts[1..], word + [c])
      case Escaped(c) => WordsOf(parts[1..], word + [c])
      case LastBackslash => WordsOf(parts[1..], word + "\\")
      case Closed(_, body) => WordsOf(parts[1..], word + TextOf(body))
      case Open(_, _) => Err(UnterminatedQuote)
      case Blank(_) =>
        match WordsOf(parts[1..], "")
        case Err(error) => Err(error)
        case Ok(words) => Ok(if word == "" then words else [word] + words)
  }

  lemma {:induction false} LexBody(quote: Quote, word: string, body: seq<Item>, after: string, rest: string)
    requires quote != Unquoted && BodyIsWritten(Words, quote, body, after) && (after == Mark(quote) || (after == "" && rest == ""))
    ensures Lex(quote, word, ShowBody(body) + after + rest) == Lex(quote, word + TextOf(body), after + rest)
    decreases |body|
  {
    var text := ShowBody(body) + after + rest;
    if body == [] {
      assert text == after + rest && word + "" == word;
    } else {
      var item, tail := body[0], ShowBody(body[1..]) + after + rest;
      assert text == ShowItem(item) + tail;
      assert word + [item.c] + TextOf(body[1..]) == word + TextOf(body);
      LexItem(quote, word, item, tail);
      LexBody(quote, word + [item.c], body[1..], after, rest);
    }
  }

  lemma LexItem(quote: Quote, word: string, item: Item, tail: string)
    requires quote != Unquoted
    requires ItemIsWritten(Words, quote, item, tail)
    ensures Lex(quote, word, ShowItem(item) + tail) == Lex(quote, word + [item.c], tail)
  {
    var text := ShowItem(item) + tail;
    match item {
      case Raw(c) => assert text[1..] == tail;
      case Esc(c) => assert text[2..] == tail;
    }
  }

  lemma LexMark(quote: Quote, word: string, rest: string)
    requires quote != Unquoted
    ensures Lex(quote, word, Mark(quote) + rest) == Lex(Unquoted, word, rest)
    ensures Lex(Unquoted, word, Mark(quote) + rest) == Lex(quote, word, rest)
  {
    assert (Mark(quote) + rest)[1..] == rest;
  }

  lemma LexQuoted(quote: Quote, word: string, body: seq<Item>, closed: bool, rest: string)
    requires quote != Unquoted && BodyIsWritten(Words, quote, body, if closed then Mark(quote) else "")
    ensures closed ==> Lex(Unquoted, word, Mark(quote) + ShowBody(body) + Mark(quote) + rest) == Lex(Unquoted, word + TextOf(body), rest)
    ensures !closed ==> Lex(Unquoted, word, Mark(quote) + ShowBody(body)) == Err(UnterminatedQuote)
  {
    hide Lex, Mark;
    var after := if closed then Mark(quote) else "";
    var behind := if closed then rest else "";
    assert Mark(quote) + ShowBody(body) + after + behind == Mark(quote) + (ShowBody(body) + after + behind);
    assert Mark(quote) + ShowBody(body) + "" + "" == Mark(quote) + ShowBody(body);
    LexMark(quote, word, ShowBody(body) + after + behind);
    LexBody(quote, word, body, after, behind);
    LexMark(quote, word + TextOf(body), rest);
    assert after + behind == if closed then Mark(quote) + rest else "";
    LexEnd(quote, word + TextOf(body));
  }

  lemma LexEnd(quote: Quote, word: string)
    ensures Lex(quote, word, "") == if quote != Unquoted then Err(UnterminatedQuote) else Ok(if word == "" then [] else [word])
  {
  }

  lemma LexOther(word: string, part: Part, rest: string)
    requires IsWritten(Words, part, rest == "") && !part.Closed? && !part.Open?
    ensures part.Plain? || part.Escaped? ==> Lex(Unquoted, word, ShowPart(part) + rest) == Lex(Unquoted, word + [part.c], rest)
    ensures part.LastBackslash? ==> Lex(Unquoted, word, ShowPart(part) + rest) == Lex(Unquoted, word + "\\", rest)
    ensures part.Blank? ==>
              Lex(Unquoted, word, ShowPart(part) + rest) == Prepend(if word == "" then [] else [word], Lex(Unquoted, "", rest))
  {
    var text := ShowPart(part) + rest;
    if part.Escaped? {
      assert text[2..] == rest;
    } else {
      assert text[1..] == rest;
    }
  }

  /** The tokenizer reads every text as what was written: escapes and quotes as the shell has them, blanks between words, and
      an error exactly for a quote left open. */
  lemma {:induction false} ReadsWhatIsWritten(parts: seq<Part>, word: string)
    requires AreWritten(Words, parts)
    ensures Lex(Unquoted, word, Show(parts)) == WordsOf(parts, word)
    decreases |parts|
  {
    hide Lex, AreWritten, BodyIsWritten, ShowBody, TextOf, Mark;
    if parts == [] {
      LexEnd(Unquoted, word);
    } else {
      var part, others := parts[0], parts[1..];
      var rest := Show(others);
      RestIsWritten(Words, parts);
      assert others == [] ==> rest == "";
      match part {
        case Closed(quote, body) =>
          LexQuoted(quote, word, body, true, rest);
          ReadsWhatIsWritten(others, word + TextOf(body));
        case Open(quote, body) =>
          LexQuoted(quote, word, body, false, rest);
          assert Mark(quote) + ShowBody(body) + "" == Mark(quote) + ShowBody(body);
        case LastBackslash =>
          LexOther(word, part, rest);
          ReadsWhatIsWritten(others, word + "\\");
        case Blank(_) =>
          LexOther(word, part, rest);
          ReadsWhatIsWritten(others, "");
          PrependNothing(WordsOf(others, ""));
        case _ =>
          LexOther(word, part, rest);
          ReadsWhatIsWritten(others, word + [part.c]);
      }
    }
  }

  // ----- What the here-document detector finds -----

  /** Two characters `<` side by side, neither quoted nor escaped. */
  predicate HasMark(parts: seq<Part>)
  {
    exists i :: 0 <= i < |parts| - 1 && parts[i] == Plain('<') && parts[i + 1] == Plain('<')
  }

  lemma {:induction false} SearchBody(quote: Quote, body: seq<Item>, after: string, rest: string)
    requires quote != Unquoted && BodyIsWritten(Marks, quote, body, after) && (after == Mark(quote) || (after == "" && rest == ""))
    ensures HereDocument(quote, ShowBody(body) + after + rest) == HereDocument(quote, after + rest)
    decreases |body|
  {
    var text := ShowBody(body) + after + rest;
    if body == [] {
      assert text == after + rest;
    } else {
      var item, tail := body[0], ShowBody(body[1..]) + after + rest;
      assert text == ShowItem(item) + tail;
      SearchItem(quote, item, tail);
      SearchBody(quote, body[1..], after, rest);
    }
  }

  lemma SearchItem(quote: Quote, item: Item, tail: string)
    requires quote != Unquoted
    requires ItemIsWritten(Marks, quote, item, tail)
    ensures HereDocument(quote, ShowItem(item) + tail) == HereDocument(quote, tail)
  {
    var text := ShowItem(item) + tail;
    match item {
      case Raw(c) => assert text[1..] == tail;
      case Esc(c) => assert text[2..] == tail;
    }
  }

  lemma SearchMark(quote: Quote, rest: string)
    requires quote != Unquoted
    ensures HereDocument(quote, Mark(quote) + rest) == HereDocument(Unquoted, rest)
    ensures HereDocument(Unquoted, Mark(quote) + rest) == HereDocument(quote, rest)
    ensures !HereDocument(quote, "")
  {
    assert (Mark(quote) + rest)[1..] == rest;
  }

  lemma SearchQuoted(quote: Quote, body: seq<Item>, closed: bool, rest: string)
    requires quote != Unquoted && BodyIsWritten(Marks, quote, body, if closed then Mark(quote) else "")
    ensures closed ==> HereDocument(Unquoted, Mark(quote) + ShowBody(body) + Mark(quote) + rest) == HereDocument(Unquoted, rest)
    ensures !closed ==> !HereDocument(Unquoted, Mark(quote) + ShowBody(body))
  {
    hide HereDocument, Mark;
    var after := if closed then Mark(quote) else "";
    var behind := if closed then rest else "";
    assert Mark(quote) + ShowBody(body) + after + behind == Mark(quote) + (ShowBody(body) + after + behind);
    assert Mark(quote) + ShowBody(body) + "" + "" == Mark(quote) + ShowBody(body);
    SearchMark(quote, ShowBody(body) + after + behind);
    SearchBody(quote, body, after, behind);
    SearchMark(quote, rest);
    assert after + behind == if closed then Mark(quote) + rest else "";
  }

  lemma SearchOther(part: Part, rest: string)
    requires IsWritten(Marks, part, rest == "") && !part.Closed? && !part.Open?
    ensures HereDocument(Unquoted, ShowPart(part) + rest)
       <==> (part == Plain('<') && rest != "" && rest[0] == '<') || HereDocument(Unquoted, rest)
  {
    var text := ShowPart(part) + rest;
    if part.Escaped? {
      assert text[2..] == rest;
    } else {
      assert text[1..] == rest;
    }
  }

  lemma StartsWith(parts: seq<Part>)
    requires AreWritten(Marks, parts) && parts != []
    ensures Show(parts) != "" && (Show(parts)[0] == '<' <==> parts[0] == Plain('<'))
  {
    assert IsWritten(Marks, parts[0], |parts| == 1);
  }

  lemma MarkOrLater(parts: seq<Part>)
    requires parts != []
    ensures HasMark(parts) <==> (|parts| > 1 && parts[0] == Plain('<') && parts[1] == Plain('<')) || HasMark(parts[1..])
  {
    if HasMark(parts) {
      var i :| 0 <= i < |parts| - 1 && parts[i] == Plain('<') && parts[i + 1] == Plain('<');
      assert i > 0 ==> parts[1..][i - 1] == Plain('<') && parts[1..][i] == Plain('<');
    }
    if HasMark(parts[1..]) {
      var i :| 0 <= i < |parts[1..]| - 1 && parts[1..][i] == Plain('<') && parts[1..][i + 1] == Plain('<');
      assert parts[i + 1] == Plain('<') && parts[i + 2] == Plain('<');
    }
  }

  /** The detector is right about every text: it finds a here-document exactly when two unquoted, unescaped `<` stand side by
      side. */
  lemma {:induction false} FindsExactlyTheMarks(parts: seq<Part>)
    requires AreWritten(Marks, parts)
    ensures HereDocument(Unquoted, Show(parts)) <==> HasMark(parts)
    decreases |parts|
  {
    hide HereDocument, AreWritten, BodyIsWritten, ShowBody, Mark, HasMark;
    if parts == [] {
      NoMark();
    } else {
      var part, others := parts[0], parts[1..];
      var rest := Show(others);
      RestIsWritten(Marks, parts);
      FindsExactlyTheMarks(others);
      MarkOrLater(parts);
      if others != [] {
        StartsWith(others);
      }
      match part {
        case Closed(quote, body) => SearchQuoted(quote, body, true, rest);
        case Open(quote, body) =>
          SearchQuoted(quote, body, false, rest);
          NoMark();
          assert Mark(quote) + ShowBody(body) + "" == Mark(quote) + ShowBody(body);
        case _ => SearchOther(part, rest);
      }
    }
  }

  lemma NoMark()
    ensures !HereDocument(Unquoted, "") && !HasMark([])
  {
  }
}
