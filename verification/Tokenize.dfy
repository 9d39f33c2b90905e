/** Shell tokenizer, the single-quote printer that feeds it, and the here-document detector. */
module Tokenize {
  import opened Text

  datatype Quote = Unquoted | DoubleQuoted | SingleQuoted

  datatype TokenizeError = UnterminatedQuote

  type Tokens = Result<seq<string>, TokenizeError>

  const DOUBLE_QUOTE_ESCAPES := "\\\"$`"
  const SINGLE_QUOTE_ESCAPES := "\\'"

  /** A pending word becomes a token only when it is not empty. */
  function Flush(word: string): seq<string>
  {
    if word == "" then [] else [word]
  }

  function Prepend(tokens: seq<string>, rest: Tokens): Tokens
  {
    if rest.Ok? then Ok(tokens + rest.value) else rest
  }

  /** Tokens of `text` when `word` is already collected inside `quote`. */
  function Lex(quote: Quote, word: string, text: string): Tokens
    decreases |text|
  {
    if text == "" then
      if quote != Unquoted then Err(UnterminatedQuote) else Ok(Flush(word))
    else
      var c := text[0];
      match quote
      case DoubleQuoted =>
        if c == '\\' && |text| > 1 && text[1] in DOUBLE_QUOTE_ESCAPES then Lex(quote, word + [text[1]], text[2..])
        else if c == '"' then Lex(Unquoted, word, text[1..])
        else Lex(quote, word + [c], text[1..])
      case SingleQuoted =>
        if c == '\\' && |text| > 1 && text[1] in SINGLE_QUOTE_ESCAPES then Lex(quote, word + [text[1]], text[2..])
        else if c == '\'' then Lex(Unquoted, word, text[1..])
        else Lex(quote, word + [c], text[1..])
      case Unquoted =>
        if c == '"' then Lex(DoubleQuoted, word, text[1..])
        else if c == '\'' then Lex(SingleQuoted, word, text[1..])
        else if c == '\\' then
          if |text| > 1 then Lex(quote, word + [text[1]], text[2..]) else Lex(quote, word + ['\\'], text[1..])
        else if c == ' ' || c == '\t' then Prepend(Flush(word), Lex(quote, "", text[1..]))
        else Lex(quote, word + [c], text[1..])
  }

  method Tokenize(command: string) returns (result: Tokens)
    ensures result == Lex(Unquoted, "", command)
  {
    var tokens: seq<string> := [];
    var cur := "";
    var quote := Unquoted;
    var i := 0;
    var n := |command|;
    assert command[i..] == command;
    PrependNothing(Lex(quote, cur, command));
    while i < n
      invariant 0 <= i <= n
      invariant Lex(Unquoted, "", command) == Prepend(tokens, Lex(quote, cur, command[i..]))
    {
      var ch := command[i];
      ghost var rest := command[i..];
      assert rest[0] == ch && rest[1..] == command[i + 1..];
      assert i + 1 < n ==> rest[1] == command[i + 1] && rest[2..] == command[i + 2..];
      if quote == DoubleQuoted {
        if ch == '\\' && i + 1 < n && command[i + 1] in DOUBLE_QUOTE_ESCAPES {
          cur, i := cur + [command[i + 1]], i + 2;
        } else if ch == '"' {
          quote, i := Unquoted, i + 1;
        } else {
          cur, i := cur + [ch], i + 1;
        }
      } else if quote == SingleQuoted {
        if ch == '\\' && i + 1 < n && command[i + 1] in SINGLE_QUOTE_ESCAPES {
          cur, i := cur + [command[i + 1]], i + 2;
        } else if ch == '\'' {
          quote, i := Unquoted, i + 1;
        } else {
          cur, i := cur + [ch], i + 1;
        }
      } else if ch == '"' || ch == '\'' {
        quote, i := if ch == '"' then DoubleQuoted else SingleQuoted, i + 1;
      } else if ch == '\\' {
        if i + 1 < n {
          cur, i := cur + [command[i + 1]], i + 2;
        } else {
          cur, i := cur + ['\\'], i + 1;
        }
      } else if ch == ' ' || ch == '\t' {
        PrependTwice(tokens, Flush(cur), Lex(quote, "", rest[1..]));
        if cur != "" {
          tokens, cur := tokens + [cur], "";
        } else {
          assert tokens + Flush(cur) == tokens;
        }
        i := i + 1;
      } else {
        cur, i := cur + [ch], i + 1;
      }
    }
    assert command[i..] == "";
    if quote != Unquoted {
      return Err(UnterminatedQuote);
    }
    assert Lex(quote, cur, "") == Ok(Flush(cur));
    if cur != "" {
      tokens := tokens + [cur];
    } else {
      assert tokens + [] == tokens;
    }
    return Ok(tokens);
  }

  lemma PrependNothing(rest: Tokens)
    ensures Prepend([], rest) == rest
  {
    if rest.Ok? {
      assert [] + rest.value == rest.value;
    }
  }

  lemma PrependTwice(a: seq<string>, b: seq<string>, rest: Tokens)
    ensures Prepend(a, Prepend(b, rest)) == Prepend(a + b, rest)
  {
    if rest.Ok? {
      assert a + (b + rest.value) == (a + b) + rest.value;
    }
  }

  // ----- What the tokens look like -----

  /** No token is ever empty, and a word already begun is the start of the first token. */
  lemma {:induction false} TokensAreNotEmpty(quote: Quote, word: string, text: string)
    requires Lex(quote, word, text).Ok?
    ensures "" !in Lex(quote, word, text).value
    ensures word != "" ==> |Lex(quote, word, text).value| > 0 && word <= Lex(quote, word, text).value[0]
    decreases |text|
  {
    if text != "" {
      var c := text[0];
      var special := if quote == DoubleQuoted then DOUBLE_QUOTE_ESCAPES else SINGLE_QUOTE_ESCAPES;
      if quote == Unquoted && (c == ' ' || c == '\t') {
        TokensAreNotEmpty(quote, "", text[1..]);
      } else if quote == Unquoted && (c == '"' || c == '\'') {
        TokensAreNotEmpty(if c == '"' then DoubleQuoted else SingleQuoted, word, text[1..]);
      } else if c == '\\' && |text| > 1 && (quote == Unquoted || text[1] in special) {
        TokensAreNotEmpty(quote, word + [text[1]], text[2..]);
      } else if (quote == DoubleQuoted && c == '"') || (quote == SingleQuoted && c == '\'') {
        TokensAreNotEmpty(Unquoted, word, text[1..]);
      } else {
        TokensAreNotEmpty(quote, word + [c], text[1..]);
      }
    }
  }

  // ----- The printer -----

  /** `arg.replaceAll("'", "'\\''")` */
  function Escape(arg: string): string
  {
    if arg == "" then ""
    else (if arg[0] == '\'' then "'\\''" else [arg[0]]) + Escape(arg[1..])
  }

  function QuoteArg(arg: string): string
  {
    "'" + Escape(arg) + "'"
  }

  /** `args.map(quote).join(' ')` */
  function Print(args: seq<string>): string
  {
    if args == [] then ""
    else if |args| == 1 then QuoteArg(args[0])
    else QuoteArg(args[0]) + " " + Print(args[1..])
  }

  /** The arguments the printer carries faithfully: not empty, and no backslash stands last or in front
      of a backslash or a single quote. */
  predicate Faithful(arg: string)
  {
    arg != "" && SafeBackslashes(arg)
  }

  predicate SafeBackslashes(arg: string)
  {
    forall i :: 0 <= i < |arg| && arg[i] == '\\' ==> i + 1 < |arg| && arg[i + 1] !in SINGLE_QUOTE_ESCAPES
  }

  lemma {:induction false} LexEscaped(word: string, arg: string, rest: string)
    requires SafeBackslashes(arg)
    ensures Lex(SingleQuoted, word, Escape(arg) + "'" + rest) == Lex(Unquoted, word + arg, rest)
    decreases |arg|
  {
    var text := Escape(arg) + "'" + rest;
    if arg == "" {
      assert text[1..] == rest && word + arg == word;
    } else {
      var tail := Escape(arg[1..]) + "'" + rest;
      assert SafeBackslashes(arg[1..]) by {
        forall i | 0 <= i < |arg[1..]| && arg[1..][i] == '\\'
          ensures i + 1 < |arg[1..]| && arg[1..][i + 1] !in SINGLE_QUOTE_ESCAPES
        {
          assert arg[i + 1] == '\\';
        }
      }
      LexEscaped(word + [arg[0]], arg[1..], rest);
      assert word + [arg[0]] + arg[1..] == word + arg;
      if arg[0] == '\'' {
        LexQuoteCharacter(word, tail);
        assert text == "'\\''" + tail;
      } else {
        assert text == [arg[0]] + tail;
        assert text[1..] == tail;
        if arg[0] == '\\' {
          EscapeHead(arg[1..]);
        }
      }
    }
  }

  /** What the printer writes for a single quote reads back as one quote character. */
  lemma LexQuoteCharacter(word: string, tail: string)
    ensures Lex(SingleQuoted, word, "'\\''" + tail) == Lex(SingleQuoted, word + ['\''], tail)
  {
    var text := "'\\''" + tail;
    var escaped := "\\''" + tail;
    var opening := "'" + tail;
    assert text[1..] == escaped && escaped[2..] == opening && opening[1..] == tail;
    assert escaped[0] == '\\' && escaped[1] == '\'';
    assert Lex(SingleQuoted, word, text) == Lex(Unquoted, word, escaped);
    assert Lex(Unquoted, word, escaped) == Lex(Unquoted, word + ['\''], opening);
  }

  lemma EscapeHead(arg: string)
    ensures arg == "" ==> Escape(arg) == ""
    ensures arg != "" ==> |Escape(arg)| > 0 && Escape(arg)[0] == arg[0]
  {
  }

  predicate Owes(owed: string)
  {
    owed != "" && forall i :: 0 <= i < |owed| ==> owed[i] == '\\'
  }

  /** A token that goes on with another character than the one owed is not the one wanted. */
  lemma OwedElsewhere(word: string, owed: string, c: char, arg: string, text: string)
    requires word != "" && Owes(owed) && c != '\\'
    ensures var r := Lex(SingleQuoted, word + [c], text);
            r.Ok? ==> |r.value| > 0 && r.value[0] != word + owed + arg
  {
    hide Lex;
    if Lex(SingleQuoted, word + [c], text).Ok? {
      TokensAreNotEmpty(SingleQuoted, word + [c], text);
    }
    assert (word + [c])[|word|] == c;
    assert (word + owed + arg)[|word|] == '\\';
  }

  /** An escaped text starts with its first character, unless that is a single quote. */
  lemma EscapedText(arg: string, rest: string)
    requires arg != ""
    ensures var text, tail := Escape(arg) + "'" + rest, Escape(arg[1..]) + "'" + rest;
      && tail != ""
      && (if arg[0] == '\'' then text == "'\\''" + tail
          else text == [arg[0]] + tail && text[0] == arg[0] && text[1..] == tail && text[1] == tail[0])
    ensures (Escape(arg[1..]) + "'" + rest)[0] == '\\' ==> |arg| > 1 && arg[1] == '\\'
  {
    hide Escape;
    EscapeOn(arg);
    EscapeHead(arg[1..]);
    var e := Escape(arg[1..]);
    Regroup(if arg[0] == '\'' then "'\\''" else [arg[0]], e, "'", rest);
  }

  lemma Regroup(a: string, b: string, c: string, d: string)
    ensures a + b + c + d == a + (b + c + d)
  {
  }

  lemma EscapeOn(arg: string)
    requires arg != ""
    ensures Escape(arg) == (if arg[0] == '\'' then "'\\''" else [arg[0]]) + Escape(arg[1..])
  {
  }

  lemma EscapedPair(arg: string, rest: string)
    requires |arg| > 1 && arg[0] == '\\' && arg[1] == '\\'
    ensures (Escape(arg) + "'" + rest)[2..] == Escape(arg[2..]) + "'" + rest
  {
    hide Escape;
    EscapedText(arg, rest);
    EscapedText(arg[1..], rest);
    assert arg[1..][1..] == arg[2..];
    var text := Escape(arg) + "'" + rest;
    assert text[2..] == text[1..][1..];
  }

  lemma LexPlain(word: string, text: string)
    requires text != "" && text[0] != '\\' && text[0] != '\''
    ensures Lex(SingleQuoted, word, text) == Lex(SingleQuoted, word + [text[0]], text[1..])
  {
  }

  lemma LexBackslash(word: string, text: string)
    requires |text| > 1 && text[0] == '\\'
    ensures Lex(SingleQuoted, word, text)
         == if text[1] in SINGLE_QUOTE_ESCAPES then Lex(SingleQuoted, word + [text[1]], text[2..])
            else Lex(SingleQuoted, word + ['\\'], text[1..])
  {
  }

  /** Once the word read so far owes backslashes to the argument, no continuation repairs the token. */
  lemma {:induction false} OwedBackslashes(word: string, owed: string, arg: string, rest: string)
    requires word != "" && Owes(owed)
    requires rest == "" || rest[0] == ' '
    ensures var r := Lex(SingleQuoted, word, Escape(arg) + "'" + rest);
            r.Ok? ==> |r.value| > 0 && r.value[0] != word + owed + arg
    decreases |arg|
  {
    hide Lex, Escape;
    var text := Escape(arg) + "'" + rest;
    if arg == "" {
      OwedNothing(word, owed, rest);
    } else {
      var tail := Escape(arg[1..]) + "'" + rest;
      EscapedText(arg, rest);
      if arg[0] == '\'' {
        LexQuoteCharacter(word, tail);
        OwedElsewhere(word, owed, '\'', arg, tail);
      } else if arg[0] != '\\' {
        LexPlain(word, text);
        OwedElsewhere(word, owed, arg[0], arg, tail);
      } else {
        LexBackslash(word, text);
        if tail[0] == '\'' {
          OwedElsewhere(word, owed, '\'', arg, text[2..]);
        } else if tail[0] == '\\' {
          EscapedPair(arg, rest);
          OwedBackslashes(word + ['\\'], owed + ['\\'], arg[2..], rest);
          assert arg == ['\\', '\\'] + arg[2..];
          OwedTwice(word, owed, arg);
        } else {
          OwedBackslashes(word + ['\\'], owed, arg[1..], rest);
          OwedOnce(word, owed, arg);
        }
      }
    }
  }

  lemma OwedOnce(word: string, owed: string, arg: string)
    requires Owes(owed) && arg != "" && arg[0] == '\\'
    ensures word + owed + arg == word + ['\\'] + owed + arg[1..]
  {
    var a, b := owed + arg, ['\\'] + owed + arg[1..];
    assert a == b by {
      assert forall i :: 0 <= i < |a| ==> a[i] == b[i];
    }
    assert word + owed + arg == word + a && word + ['\\'] + owed + arg[1..] == word + b;
  }

  lemma OwedTwice(word: string, owed: string, arg: string)
    requires Owes(owed) && |arg| > 1 && arg[0] == '\\' && arg[1] == '\\'
    ensures word + owed + arg == word + ['\\'] + (owed + ['\\']) + arg[2..]
  {
    OwedOnce(word, owed, arg);
    assert arg[1..] == ['\\'] + arg[2..];
    assert word + ['\\'] + owed + (['\\'] + arg[2..]) == word + ['\\'] + (owed + ['\\']) + arg[2..];
  }

  lemma OwedNothing(word: string, owed: string, rest: string)
    requires word != "" && Owes(owed) && (rest == "" || rest[0] == ' ')
    ensures var r := Lex(SingleQuoted, word, Escape("") + "'" + rest);
            r.Ok? ==> |r.value| > 0 && r.value[0] != word + owed + ""
  {
    var text := Escape("") + "'" + rest;
    assert text[1..] == rest;
    if Lex(SingleQuoted, word, text).Ok? {
      TokensAreNotEmpty(SingleQuoted, word, text);
    }
  }

  /** An unsafe backslash spoils the token it stands in. */
  lemma {:induction false} UnsafeArgument(word: string, arg: string, rest: string)
    requires !SafeBackslashes(arg)
    requires rest == "" || rest[0] == ' '
    ensures var r := Lex(SingleQuoted, word, Escape(arg) + "'" + rest);
            r.Ok? ==> |r.value| > 0 && r.value[0] != word + arg
    decreases |arg|
  {
    hide Lex, Escape;
    var text := Escape(arg) + "'" + rest;
    var tail := Escape(arg[1..]) + "'" + rest;
    EscapedText(arg, rest);
    assert word + [arg[0]] + arg[1..] == word + arg;
    if arg[0] == '\'' {
      LexQuoteCharacter(word, tail);
      UnsafeTail(arg);
      UnsafeArgument(word + [arg[0]], arg[1..], rest);
    } else if arg[0] != '\\' {
      LexPlain(word, text);
      UnsafeTail(arg);
      UnsafeArgument(word + [arg[0]], arg[1..], rest);
    } else {
      LexBackslash(word, text);
      if tail[0] !in SINGLE_QUOTE_ESCAPES {
        SafeHead(arg, rest);
        UnsafeTail(arg);
        UnsafeArgument(word + [arg[0]], arg[1..], rest);
      } else {
        SpoiledHere(word, arg, rest);
      }
    }
  }

  lemma SafeHead(arg: string, rest: string)
    requires arg != "" && (Escape(arg[1..]) + "'" + rest)[0] !in SINGLE_QUOTE_ESCAPES
    ensures |arg| > 1 && arg[1] !in SINGLE_QUOTE_ESCAPES
  {
    EscapeHead(arg[1..]);
  }

  /** The backslash is eaten: what follows it takes its place. */
  lemma SpoiledHere(word: string, arg: string, rest: string)
    requires arg != "" && arg[0] == '\\' && (rest == "" || rest[0] == ' ')
    requires (Escape(arg[1..]) + "'" + rest)[0] in SINGLE_QUOTE_ESCAPES
    ensures var text := Escape(arg) + "'" + rest; var tail := Escape(arg[1..]) + "'" + rest;
            var r := Lex(SingleQuoted, word + [tail[0]], text[2..]);
            r.Ok? ==> |r.value| > 0 && r.value[0] != word + arg
  {
    hide Lex, Escape;
    var text, tail := Escape(arg) + "'" + rest, Escape(arg[1..]) + "'" + rest;
    EscapedText(arg, rest);
    if tail[0] == '\'' {
      if Lex(SingleQuoted, word + ['\''], text[2..]).Ok? {
        TokensAreNotEmpty(SingleQuoted, word + ['\''], text[2..]);
      }
      assert (word + ['\''])[|word|] == '\'';
      assert (word + arg)[|word|] == '\\';
    } else {
      EscapedPair(arg, rest);
      OwedBackslashes(word + ['\\'], ['\\'], arg[2..], rest);
      assert word + arg == (word + ['\\']) + ['\\'] + arg[2..];
    }
  }

  lemma UnsafeTail(arg: string)
    requires !SafeBackslashes(arg)
    requires arg[0] != '\\' || (|arg| > 1 && arg[1] !in SINGLE_QUOTE_ESCAPES)
    ensures !SafeBackslashes(arg[1..])
  {
    var i :| 0 <= i < |arg| && arg[i] == '\\' && !(i + 1 < |arg| && arg[i + 1] !in SINGLE_QUOTE_ESCAPES);
    assert arg[1..][i - 1] == '\\';
  }

  /** The printer and the tokenizer are inverse on exactly the lists of faithful arguments. */
  lemma {:induction false} RoundTripExactly(args: seq<string>)
    ensures Lex(Unquoted, "", Print(args)) == Ok(args) <==> forall i :: 0 <= i < |args| ==> Faithful(args[i])
  {
    hide Escape, SafeBackslashes;
    if args != [] {
      var rest := if |args| == 1 then "" else " " + Print(args[1..]);
      var printed := Escape(args[0]) + "'" + rest;
      assert Print(args) == "'" + printed;
      assert Print(args)[1..] == printed;
      if args[0] == "" {
        if Lex(Unquoted, "", Print(args)).Ok? {
          TokensAreNotEmpty(Unquoted, "", Print(args));
          assert args[0] in args;
        }
      } else if !SafeBackslashes(args[0]) {
        UnsafeArgument("", args[0], rest);
        assert "" + args[0] == args[0];
      } else {
        LexEscaped("", args[0], rest);
        assert "" + args[0] == args[0];
        if |args| == 1 {
          assert args == [args[0]];
        } else {
          assert rest[1..] == Print(args[1..]);
          RoundTripExactly(args[1..]);
          var tail := Lex(Unquoted, "", Print(args[1..]));
          assert args == [args[0]] + args[1..];
          if tail.Ok? && [args[0]] + tail.value == args {
            assert tail.value == ([args[0]] + tail.value)[1..] == args[1..];
          }
          assert forall i :: 0 <= i < |args[1..]| ==> args[1..][i] == args[i + 1];
          if forall i :: 0 <= i < |args[1..]| ==> Faithful(args[1..][i]) {
            forall i | 0 <= i < |args|
              ensures Faithful(args[i])
            {
              if i > 0 {
                assert args[i] == args[1..][i - 1];
              }
            }
          }
        }
      }
    }
  }

  /** A backslash in front of the closing quote escapes it: no list with such an argument is read back. */
  lemma TrailingBackslashIsNotReadBack(args: seq<string>, i: nat)
    requires i < |args| && args[i] != "" && args[i][|args[i]| - 1] == '\\'
    ensures Lex(Unquoted, "", Print(args)) != Ok(args)
  {
    RoundTripExactly(args);
    assert !Faithful(args[i]);
  }

  // ----- Here-documents -----

  function HereDocument(quote: Quote, text: string): bool
    decreases |text|
  {
    if text == "" then false
    else if quote != Unquoted then
      if text[0] == '\\' && quote == DoubleQuoted && |text| > 1 then HereDocument(quote, text[2..])
      else if text[0] == (if quote == DoubleQuoted then '"' else '\'') then HereDocument(Unquoted, text[1..])
      else HereDocument(quote, text[1..])
    else if text[0] == '\\' && |text| > 1 then HereDocument(quote, text[2..])
    else if text[0] == '"' then HereDocument(DoubleQuoted, text[1..])
    else if text[0] == '\'' then HereDocument(SingleQuoted, text[1..])
    else if text[0] == '<' && |text| > 1 && text[1] == '<' then true
    else HereDocument(quote, text[1..])
  }

  method HasUnsupportedHereDocument(command: string) returns (found: bool)
    ensures found == HereDocument(Unquoted, command)
  {
    var quote := Unquoted;
    var index := 0;
    while index < |command|
      invariant 0 <= index <= |command|
      invariant HereDocument(Unquoted, command) == HereDocument(quote, command[index..])
    {
      var character := command[index];
      ghost var rest := command[index..];
      assert rest[1..] == command[index + 1..];
      assert index + 1 < |command| ==> rest[1] == command[index + 1] && rest[2..] == command[index + 2..];
      if quote != Unquoted {
        if character == '\\' && quote == DoubleQuoted && index + 1 < |command| {
          index := index + 1;
        } else if character == (if quote == DoubleQuoted then '"' else '\'') {
          quote := Unquoted;
        }
      } else if character == '\\' && index + 1 < |command| {
        index := index + 1;
      } else if character == '"' {
        quote := DoubleQuoted;
      } else if character == '\'' {
        quote := SingleQuoted;
      } else if character == '<' && index + 1 < |command| && command[index + 1] == '<' {
        return true;
      }
      index := index + 1;
    }
    return false;
  }

  /** Printed arguments never look like a here-document, whatever they contain. */
  lemma {:induction false} PrintedArgumentsHoldNoHereDocument(args: seq<string>)
    ensures !HereDocument(Unquoted, Print(args))
  {
    if args != [] {
      var rest := if |args| == 1 then "" else " " + Print(args[1..]);
      assert Print(args) == "'" + (Escape(args[0]) + "'" + rest);
      assert Print(args)[1..] == Escape(args[0]) + "'" + rest;
      EscapedHoldsNoHereDocument(args[0], rest);
      if |args| > 1 {
        assert rest[1..] == Print(args[1..]);
        PrintedArgumentsHoldNoHereDocument(args[1..]);
      }
    }
  }

  lemma {:induction false} EscapedHoldsNoHereDocument(arg: string, rest: string)
    ensures HereDocument(SingleQuoted, Escape(arg) + "'" + rest) == HereDocument(Unquoted, rest)
  {
    var text := Escape(arg) + "'" + rest;
    if arg == "" {
      assert text[1..] == rest;
    } else {
      var tail := Escape(arg[1..]) + "'" + rest;
      EscapedHoldsNoHereDocument(arg[1..], rest);
      if arg[0] == '\'' {
        assert text == "'\\''" + tail;
        var escaped := "\\''" + tail;
        var opening := "'" + tail;
        assert text[1..] == escaped && escaped[2..] == opening && opening[1..] == tail;
        assert HereDocument(SingleQuoted, text) == HereDocument(Unquoted, escaped);
        assert HereDocument(Unquoted, escaped) == HereDocument(Unquoted, opening);
      } else {
        assert text[1..] == tail;
      }
    }
  }
}
