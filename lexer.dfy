/** The lexer: a splitter that cuts source text into token strings at spaces, newlines and
    punctuation, and a classifier that turns each token string into a Token. */
module Lexer {
  import opened Wrappers
  import opened Int64
  import opened Numerals
  import opened Tokens

  predicate IsSeparator(c: char) {
    c == ' ' || c == '\n'
  }

  predicate IsPunctuation(c: char) {
    c == '{' || c == '}' || c == '(' || c == ')' || c == ';'
  }

  /** A character that is appended to the pending token: everything else, tabs included. */
  predicate IsOrdinary(c: char) {
    !IsSeparator(c) && !IsPunctuation(c)
  }

  predicate AllOrdinary(s: string) {
    forall i :: 0 <= i < |s| ==> IsOrdinary(s[i])
  }

  function Flush(pending: string): seq<string> {
    if |pending| > 0 then [pending] else []
  }

  /** The token strings emitted while reading `s`, starting with `pending` already collected. */
  function SplitFrom(s: string, pending: string): seq<string>
    decreases |s|
  {
    if |s| == 0 then []
    else if IsSeparator(s[0]) then Flush(pending) + SplitFrom(s[1..], "")
    else if IsPunctuation(s[0]) then Flush(pending) + [[s[0]]] + SplitFrom(s[1..], "")
    else SplitFrom(s[1..], pending + [s[0]])
  }

  /** The token collected but never emitted when the input runs out. */
  function PendingAtEnd(s: string, pending: string): string
    decreases |s|
  {
    if |s| == 0 then pending
    else if IsOrdinary(s[0]) then PendingAtEnd(s[1..], pending + [s[0]])
    else PendingAtEnd(s[1..], "")
  }

  /** `s` with its spaces and newlines removed. */
  function Strip(s: string): string
    decreases |s|
  {
    if |s| == 0 then ""
    else if IsSeparator(s[0]) then Strip(s[1..])
    else [s[0]] + Strip(s[1..])
  }

  function Concat(ts: seq<string>): string
    decreases |ts|
  {
    if |ts| == 0 then "" else ts[0] + Concat(ts[1..])
  }

  /** `parse_token_strings`: one pass over the characters with a pending token. */
  method ParseTokenStrings(contents: string) returns (tokens: seq<string>)
    ensures tokens == SplitFrom(contents, "")
  {
    tokens := [];
    var current := "";
    for i := 0 to |contents|
      invariant tokens + SplitFrom(contents[i..], current) == SplitFrom(contents, "")
    {
      var c := contents[i];
      assert contents[i..][0] == c && contents[i..][1..] == contents[i + 1..];
      if c == ' ' || c == '\n' {
        if |current| > 0 {
          tokens := tokens + [current];
          current := "";
        }
      } else if c == '{' || c == '}' || c == '(' || c == ')' || c == ';' {
        if |current| > 0 {
          tokens := tokens + [current];
          current := "";
        }
        tokens := tokens + [[c]];
      } else {
        current := current + [c];
      }
    }
    assert contents[|contents|..] == [];
  }

  lemma ConcatAppend(a: seq<string>, b: seq<string>)
    ensures Concat(a + b) == Concat(a) + Concat(b)
    decreases |a|
  {
    if |a| == 0 {
      assert a + b == b;
    } else {
      assert (a + b)[0] == a[0];
      assert (a + b)[1..] == a[1..] + b;
      ConcatAppend(a[1..], b);
    }
  }

  lemma ConcatFlush(pending: string)
    ensures Concat(Flush(pending)) == pending
  {
    if |pending| > 0 {
      assert [pending][1..] == [];
    }
  }

  /** No empty token string is ever emitted. */
  lemma {:induction false} SplitNoEmpty(s: string, pending: string)
    ensures forall t :: t in SplitFrom(s, pending) ==> |t| > 0
    decreases |s|
  {
    if |s| > 0 {
      if IsOrdinary(s[0]) {
        SplitNoEmpty(s[1..], pending + [s[0]]);
      } else {
        SplitNoEmpty(s[1..], "");
      }
    }
  }

  /** Spaces and newlines never occur inside a token string; a punctuation character is
      always a token string of its own. */
  lemma {:induction false} SplitShape(s: string, pending: string)
    requires AllOrdinary(pending)
    ensures forall t :: t in SplitFrom(s, pending) ==>
      (|t| == 1 && IsPunctuation(t[0])) || AllOrdinary(t)
    decreases |s|
  {
    if |s| > 0 {
      if IsOrdinary(s[0]) {
        SplitShape(s[1..], pending + [s[0]]);
      } else {
        SplitShape(s[1..], "");
      }
    }
  }

  /** Every character other than a space or newline ends up in a token string or in the
      dropped pending token, in order. */
  lemma {:induction false} SplitKeepsCharacters(s: string, pending: string)
    ensures Concat(SplitFrom(s, pending)) + PendingAtEnd(s, pending) == pending + Strip(s)
    decreases |s|
  {
    if |s| == 0 {
    } else if IsSeparator(s[0]) {
      SplitKeepsCharacters(s[1..], "");
      SeparatorStep(s, pending);
    } else if IsPunctuation(s[0]) {
      SplitKeepsCharacters(s[1..], "");
      PunctuationStep(s, pending);
    } else {
      SplitKeepsCharacters(s[1..], pending + [s[0]]);
      OrdinaryStep(s, pending);
    }
  }

  lemma SeparatorStep(s: string, pending: string)
    requires |s| > 0 && IsSeparator(s[0])
    requires Concat(SplitFrom(s[1..], "")) + PendingAtEnd(s[1..], "") == Strip(s[1..])
    ensures Concat(SplitFrom(s, pending)) + PendingAtEnd(s, pending) == pending + Strip(s)
  {
    ConcatAppend(Flush(pending), SplitFrom(s[1..], ""));
    ConcatFlush(pending);
    var rest := Concat(SplitFrom(s[1..], ""));
    assert Concat(SplitFrom(s, pending)) == pending + rest;
    assert PendingAtEnd(s, pending) == PendingAtEnd(s[1..], "");
    assert (pending + rest) + PendingAtEnd(s[1..], "") == pending + (rest + PendingAtEnd(s[1..], ""));
  }

  lemma OrdinaryStep(s: string, pending: string)
    requires |s| > 0 && IsOrdinary(s[0])
    requires Concat(SplitFrom(s[1..], pending + [s[0]])) + PendingAtEnd(s[1..], pending + [s[0]])
      == (pending + [s[0]]) + Strip(s[1..])
    ensures Concat(SplitFrom(s, pending)) + PendingAtEnd(s, pending) == pending + Strip(s)
  {
    assert Strip(s) == [s[0]] + Strip(s[1..]);
    assert (pending + [s[0]]) + Strip(s[1..]) == pending + ([s[0]] + Strip(s[1..]));
  }

  lemma PunctuationStep(s: string, pending: string)
    requires |s| > 0 && IsPunctuation(s[0])
    requires Concat(SplitFrom(s[1..], "")) + PendingAtEnd(s[1..], "") == Strip(s[1..])
    ensures Concat(SplitFrom(s, pending)) + PendingAtEnd(s, pending) == pending + Strip(s)
  {
    var emitted := Flush(pending) + [[s[0]]];
    var tail := SplitFrom(s[1..], "");
    assert SplitFrom(s, pending) == emitted + tail;
    ConcatAppend(emitted, tail);
    ConcatAppend(Flush(pending), [[s[0]]]);
    ConcatFlush(pending);
    ConcatFlush([s[0]]);
    Reassociate(pending, [s[0]], Concat(tail), PendingAtEnd(s[1..], ""), Strip(s[1..]));
  }

  lemma Reassociate(p: string, c: string, rest: string, pend: string, stripped: string)
    requires rest + pend == stripped
    ensures ((p + c) + rest) + pend == p + (c + stripped)
  {
  }

  lemma {:induction false} PendingAfterSeparator(s: string, pending: string)
    requires |s| > 0 && !IsOrdinary(s[|s| - 1])
    ensures PendingAtEnd(s, pending) == ""
    decreases |s|
  {
    if |s| > 1 {
      assert s[1..][|s[1..]| - 1] == s[|s| - 1];
      if IsOrdinary(s[0]) {
        PendingAfterSeparator(s[1..], pending + [s[0]]);
      } else {
        PendingAfterSeparator(s[1..], "");
      }
    }
  }

  lemma {:induction false} PendingBeforeEnd(s: string, pending: string)
    requires |s| > 0 && IsOrdinary(s[|s| - 1])
    ensures |PendingAtEnd(s, pending)| > 0
    decreases |s|
  {
    if |s| > 1 {
      assert s[1..][|s[1..]| - 1] == s[|s| - 1];
      if IsOrdinary(s[0]) {
        PendingBeforeEnd(s[1..], pending + [s[0]]);
      } else {
        PendingBeforeEnd(s[1..], "");
      }
    }
  }

  /** When the input ends with a space, newline or punctuation, the token strings put back
      together are exactly the input without its spaces and newlines. */
  lemma SplitAfterSeparatorLosesNothing(s: string)
    requires |s| > 0 && !IsOrdinary(s[|s| - 1])
    ensures Concat(SplitFrom(s, "")) == Strip(s)
  {
    SplitKeepsCharacters(s, "");
    PendingAfterSeparator(s, "");
    assert "" + Strip(s) == Strip(s);
    assert Concat(SplitFrom(s, "")) + "" == Concat(SplitFrom(s, ""));
  }

  /** A token still pending when the input ends, with no separator after it, is dropped:
      the emitted strings then fall short of the stripped input. */
  lemma SplitDropsTrailingToken(s: string)
    requires |s| > 0 && IsOrdinary(s[|s| - 1])
    ensures |Concat(SplitFrom(s, ""))| < |Strip(s)|
  {
    SplitKeepsCharacters(s, "");
    PendingBeforeEnd(s, "");
  }

  /** The classifier of `parse_tokens`: punctuation and keywords by exact match, then an
      integer literal if the string parses as an i64, and an identifier otherwise. */
  function Classify(s: string): (t: Token)
    ensures t.Identifier? ==> t.name == s
    ensures t.IntegerLiteral? ==> ParseI64(s) == Some(t.value)
  {
    if s == "{" then OpenBrace
    else if s == "}" then CloseBrace
    else if s == "(" then OpenParen
    else if s == ")" then CloseParen
    else if s == ";" then Semicolon
    else if s == "int" then KeywordInt
    else if s == "return" then KeywordReturn
    else match ParseI64(s)
      case Some(v) => IntegerLiteral(v)
      case None => Identifier(s)
  }

  /** Every i64 the emitter prints is read back by the lexer as that same integer literal. */
  lemma ClassifyIntToString(x: i64)
    ensures Classify(IntToString(x as int)) == IntegerLiteral(x)
  {
    var s := IntToString(x as int);
    ParseI64OfIntToString(x);
    assert s[0] == '-' || IsDigit(s[0]);
    assert s != "{" && s != "}" && s != "(" && s != ")" && s != ";";
    assert s != "int" by { assert "int"[0] == 'i'; }
    assert s != "return" by { assert "return"[0] == 'r'; }
  }

  /** `parse_tokens`: exactly one token per token string, in order. */
  method ParseTokens(contents: string) returns (tokens: seq<Token>)
    ensures |tokens| == |SplitFrom(contents, "")|
    ensures forall i :: 0 <= i < |tokens| ==> tokens[i] == Classify(SplitFrom(contents, "")[i])
  {
    var tokenStrings := ParseTokenStrings(contents);
    tokens := [];
    for i := 0 to |tokenStrings|
      invariant |tokens| == i
      invariant forall j :: 0 <= j < i ==> tokens[j] == Classify(tokenStrings[j])
    {
      tokens := tokens + [Classify(tokenStrings[i])];
    }
  }
}
