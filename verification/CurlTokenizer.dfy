/**
 The cURL command tokenizer and the single-quote escaping it must undo. One character stands for one UTF-16 unit.
 The specification reads a word off the front of the remaining text; the method walks an index.
 */
module CurlTokenizer {
  import opened Wrappers

  const CURL_MAX_INPUT_BYTES: nat := 256 * 1024

  datatype CurlToken = CurlToken(value: string, offset: nat)

  datatype Failure = InputTooLarge | UnclosedSingleQuote | UnclosedDoubleQuote

  datatype Tokenized = Tokenized(tokens: seq<CurlToken>, joined: string)

  predicate IsWhitespace(c: char) {
    c == ' ' || c == '\t' || c == '\n' || c == '\r' || c == '\U{0C}'
  }

  /** How many characters the continuation at the front of `s` takes: a backslash, perhaps a CR, and an LF. */
  function ContinuationLength(s: string): (n: nat)
    ensures n <= |s|
  {
    if |s| >= 2 && s[0] == '\\' && s[1] == '\n' then 2
    else if |s| >= 3 && s[0] == '\\' && s[1] == '\r' && s[2] == '\n' then 3
    else 0
  }

  function JoinLineContinuations(s: string): string {
    if s == "" then ""
    else if ContinuationLength(s) > 0 then JoinLineContinuations(s[ContinuationLength(s)..])
    else [s[0]] + JoinLineContinuations(s[1..])
  }

  // ---- Reading one word ----

  datatype Scan = Unclosed(failure: Failure) | Scanned(value: string, rest: string)
  {
    function After(value: string): Scan {
      if Scanned? then Scanned(value + this.value, rest) else this
    }
  }

  function UntilSingle(s: string): (r: Scan)
    ensures r.Scanned? ==> |r.rest| < |s|
  {
    if s == "" then Unclosed(UnclosedSingleQuote)
    else if s[0] == '\'' then Scanned("", s[1..])
    else UntilSingle(s[1..]).After([s[0]])
  }

  /** A backslash inside double quotes escapes only these. */
  predicate EscapableInDouble(c: char) {
    c == '"' || c == '\\' || c == '$' || c == '`' || c == '\n'
  }

  function UntilDouble(s: string): (r: Scan)
    ensures r.Scanned? ==> |r.rest| < |s|
  {
    if s == "" then Unclosed(UnclosedDoubleQuote)
    else if s[0] == '"' then Scanned("", s[1..])
    else if s[0] == '\\' && |s| > 1 && EscapableInDouble(s[1]) then
      UntilDouble(s[2..]).After(if s[1] == '\n' then "" else [s[1]])
    else UntilDouble(s[1..]).After([s[0]])
  }

  /** The word at the front of `s`, up to unquoted whitespace. */
  function Word(s: string): (r: Scan)
    ensures r.Scanned? ==> |r.rest| <= |s|
    ensures r.Scanned? && s != "" && !IsWhitespace(s[0]) ==> |r.rest| < |s|
    decreases |s|, 1
  {
    if s == "" || IsWhitespace(s[0]) then Scanned("", s)
    else if s[0] == '\'' then Behind(UntilSingle(s[1..]), |s|)
    else if s[0] == '"' then Behind(UntilDouble(s[1..]), |s|)
    else if s[0] == '\\' && |s| > 1 then Word(s[2..]).After([s[1]])
    else Word(s[1..]).After([s[0]])
  }

  /** Go on with the word behind a closed quote. */
  function Behind(quoted: Scan, bound: nat): (r: Scan)
    requires quoted.Scanned? ==> |quoted.rest| < bound
    ensures r.Scanned? ==> |r.rest| < bound
    decreases bound, 0
  {
    if quoted.Scanned? then Word(quoted.rest).After(quoted.value) else quoted
  }

  // ---- Reading the whole input ----

  predicate StartsComment(s: string, i: nat)
    requires i < |s|
  {
    s[i] == '#' && (i == 0 || IsWhitespace(s[i - 1]))
  }

  function LineEnd(s: string, i: nat): (r: nat)
    requires i <= |s|
    ensures i <= r <= |s|
    ensures i < |s| && s[i] != '\n' ==> i < r
    decreases |s| - i
  {
    if i == |s| || s[i] == '\n' then i else LineEnd(s, i + 1)
  }

  function TokensFrom(s: string, i: nat): Result<seq<CurlToken>, Failure>
    requires i <= |s|
    decreases |s| - i
  {
    if i == |s| then Ok([])
    else if IsWhitespace(s[i]) then TokensFrom(s, i + 1)
    else if StartsComment(s, i) then TokensFrom(s, LineEnd(s, i))
    else
      match Word(s[i..])
      case Unclosed(failure) => Err(failure)
      case Scanned(value, rest) => Prepend([CurlToken(value, i)], TokensFrom(s, |s| - |rest|))
  }

  function Prepend(tokens: seq<CurlToken>, more: Result<seq<CurlToken>, Failure>): Result<seq<CurlToken>, Failure> {
    if more.Ok? then Ok(tokens + more.value) else more
  }

  function Tokenize(input: string): Result<Tokenized, Failure> {
    if |input| > CURL_MAX_INPUT_BYTES then Err(InputTooLarge)
    else
      var joined := JoinLineContinuations(input);
      match TokensFrom(joined, 0)
      case Ok(tokens) => Ok(Tokenized(tokens, joined))
      case Err(failure) => Err(failure)
  }

  // ---- The tokenizer ----

  lemma AfterAfter(scan: Scan, a: string, b: string)
    ensures scan.After(b).After(a) == scan.After(a + b)
  {
    if scan.Scanned? {
      assert a + (b + scan.value) == (a + b) + scan.value;
    }
  }

  method ReadSingle(s: string, from: nat, before: string) returns (closed: bool, value: string, i: nat)
    requires from <= |s|
    ensures from <= i <= |s| && (closed ==> from < i)
    ensures UntilSingle(s[from..]).After(before) ==
      if closed then Scanned(value, s[i..]) else Unclosed(UnclosedSingleQuote)
  {
    i, value := from, before;
    ghost var quoted := UntilSingle(s[from..]).After(before);
    while i < |s|
      invariant from <= i <= |s|
      invariant quoted == UntilSingle(s[i..]).After(value)
    {
      var q := s[i];
      assert s[i..][1..] == s[i + 1..];
      if q == '\'' {
        assert value + "" == value;
        return true, value, i + 1;
      }
      AfterAfter(UntilSingle(s[i + 1..]), value, [q]);
      value := value + [q];
      i := i + 1;
    }
    closed := false;
  }

  lemma DoubleStep(s: string, i: nat, value: string)
    requires i < |s| && s[i] != '"' && !(s[i] == '\\' && i + 1 < |s| && EscapableInDouble(s[i + 1]))
    ensures UntilDouble(s[i..]).After(value) == UntilDouble(s[i + 1..]).After(value + [s[i]])
  {
    assert s[i..][1..] == s[i + 1..];
    AfterAfter(UntilDouble(s[i + 1..]), value, [s[i]]);
  }

  lemma DoubleEscapeStep(s: string, i: nat, value: string, kept: string)
    requires i + 1 < |s| && s[i] == '\\' && EscapableInDouble(s[i + 1])
    requires kept == if s[i + 1] == '\n' then "" else [s[i + 1]]
    ensures UntilDouble(s[i..]).After(value) == UntilDouble(s[i + 2..]).After(value + kept)
  {
    assert s[i..][2..] == s[i + 2..];
    AfterAfter(UntilDouble(s[i + 2..]), value, kept);
  }

  lemma DoubleEnds(s: string, i: nat, value: string)
    requires i < |s| && s[i] == '"'
    ensures UntilDouble(s[i..]).After(value) == Scanned(value, s[i + 1..])
  {
    assert s[i..][1..] == s[i + 1..] && value + "" == value;
  }

  method ReadDouble(s: string, from: nat, before: string) returns (closed: bool, value: string, i: nat)
    requires from <= |s|
    ensures from <= i <= |s| && (closed ==> from < i)
    ensures UntilDouble(s[from..]).After(before) ==
      if closed then Scanned(value, s[i..]) else Unclosed(UnclosedDoubleQuote)
  {
    i, value := from, before;
    ghost var quoted := UntilDouble(s[from..]).After(before);
    while i < |s|
      invariant from <= i <= |s|
      invariant quoted == UntilDouble(s[i..]).After(value)
    {
      var q := s[i];
      if q == '"' {
        DoubleEnds(s, i, value);
        i, closed := i + 1, true;
        return;
      }
      if q == '\\' && i + 1 < |s| {
        var next := s[i + 1];
        if next == '"' || next == '\\' || next == '$' || next == '`' || next == '\n' {
          var kept := if next == '\n' then "" else [next];
          DoubleEscapeStep(s, i, value, kept);
          i, value := i + 2, value + kept;
          continue;
        }
      }
      DoubleStep(s, i, value);
      value := value + [q];
      i := i + 1;
    }
    closed := false;
  }

  lemma PlainStep(s: string, i: nat, value: string)
    requires i < |s| && !IsWhitespace(s[i]) && s[i] != '\'' && s[i] != '"' && !(s[i] == '\\' && i + 1 < |s|)
    ensures Word(s[i..]).After(value) == Word(s[i + 1..]).After(value + [s[i]])
  {
    assert s[i..][1..] == s[i + 1..];
    AfterAfter(Word(s[i + 1..]), value, [s[i]]);
  }

  lemma EscapedStep(s: string, i: nat, value: string)
    requires i + 1 < |s| && s[i] == '\\'
    ensures Word(s[i..]).After(value) == Word(s[i + 2..]).After(value + [s[i + 1]])
  {
    assert s[i..][2..] == s[i + 2..];
    AfterAfter(Word(s[i + 2..]), value, [s[i + 1]]);
  }

  /** The closing quote of the section that opens at `i`, if there is one. */
  function Section(s: string, i: nat): Scan
    requires i < |s| && (s[i] == '\'' || s[i] == '"')
  {
    if s[i] == '\'' then UntilSingle(s[i + 1..]) else UntilDouble(s[i + 1..])
  }

  lemma SectionStep(s: string, i: nat, value: string)
    requires i < |s| && (s[i] == '\'' || s[i] == '"')
    ensures var quoted := Section(s, i);
      Word(s[i..]).After(value) == if quoted.Scanned? then Word(quoted.rest).After(value + quoted.value) else quoted
  {
    assert s[i..][1..] == s[i + 1..];
    var quoted := Section(s, i);
    if quoted.Scanned? {
      AfterAfter(Word(quoted.rest), value, quoted.value);
    }
  }

  /** A quoted section of a word, from its opening quote. */
  method ReadSection(s: string, i: nat, before: string) returns (closed: bool, value: string, end: nat)
    requires i < |s| && (s[i] == '\'' || s[i] == '"')
    ensures i < end <= |s|
    ensures Word(s[i..]).After(before) ==
      if closed then Word(s[end..]).After(value)
      else Unclosed(if s[i] == '\'' then UnclosedSingleQuote else UnclosedDoubleQuote)
  {
    SectionStep(s, i, before);
    if s[i] == '\'' {
      closed, value, end := ReadSingle(s, i + 1, before);
    } else {
      closed, value, end := ReadDouble(s, i + 1, before);
    }
  }

  /** The inner loop: the word beginning at `start`. */
  method ReadWord(s: string, start: nat) returns (failure: Option<Failure>, value: string, i: nat)
    requires start < |s|
    ensures start <= i <= |s|
    ensures Word(s[start..]) == if failure.Some? then Unclosed(failure.value) else Scanned(value, s[i..])
  {
    i, value := start, "";
    ghost var word := Word(s[start..]);
    AfterNothing(word);
    while i < |s|
      invariant start <= i <= |s|
      invariant word == Word(s[i..]).After(value)
    {
      var c := s[i];
      if IsWhitespace(c) {
        break;
      }
      if c == '\'' || c == '"' {
        var closed, v, j := ReadSection(s, i, value);
        if !closed {
          return Some(if c == '\'' then UnclosedSingleQuote else UnclosedDoubleQuote), "", i;
        }
        i, value := j, v;
        continue;
      }
      if c == '\\' && i + 1 < |s| {
        EscapedStep(s, i, value);
        value := value + [s[i + 1]];
        i := i + 2;
        continue;
      }
      PlainStep(s, i, value);
      value := value + [c];
      i := i + 1;
    }
    failure := None;
    WordEnds(s, i, value);
  }

  lemma WordEnds(s: string, i: nat, value: string)
    requires i <= |s| && (i == |s| || IsWhitespace(s[i]))
    ensures Word(s[i..]).After(value) == Scanned(value, s[i..])
  {
    assert value + "" == value;
  }

  lemma AfterNothing(scan: Scan)
    ensures scan.After("") == scan
  {
    if scan.Scanned? {
      assert "" + scan.value == scan.value;
    }
  }

  lemma PrependNothing(tokens: seq<CurlToken>, more: Result<seq<CurlToken>, Failure>)
    ensures Prepend([], more) == more
    ensures Prepend(tokens, Ok([])) == Ok(tokens)
  {
    if more.Ok? {
      assert [] + more.value == more.value;
    }
    assert tokens + [] == tokens;
  }

  lemma TokenAt(s: string, i: nat, value: string, end: nat)
    requires i < |s| && !IsWhitespace(s[i]) && !StartsComment(s, i)
    requires end <= |s| && Word(s[i..]) == Scanned(value, s[end..])
    ensures TokensFrom(s, i) == Prepend([CurlToken(value, i)], TokensFrom(s, end))
  {
    assert |s| - |s[end..]| == end;
  }

  lemma PrependPrepend(a: seq<CurlToken>, b: seq<CurlToken>, more: Result<seq<CurlToken>, Failure>)
    ensures Prepend(a, Prepend(b, more)) == Prepend(a + b, more)
  {
    if more.Ok? {
      assert a + (b + more.value) == (a + b) + more.value;
    }
  }

  lemma UnclosedStep(s: string, i: nat, tokens: seq<CurlToken>)
    requires i < |s| && !IsWhitespace(s[i]) && !StartsComment(s, i) && Word(s[i..]).Unclosed?
    ensures Prepend(tokens, TokensFrom(s, i)) == Err(Word(s[i..]).failure)
  {
  }

  method SkipComment(s: string, from: nat) returns (i: nat)
    requires from <= |s|
    ensures i == LineEnd(s, from)
  {
    i := from;
    while i < |s| && s[i] != '\n'
      invariant from <= i <= |s| && LineEnd(s, from) == LineEnd(s, i)
    {
      i := i + 1;
    }
  }

  method TokenizeCurlCommand(input: string) returns (result: Result<Tokenized, Failure>)
    ensures result == Tokenize(input)
  {
    if |input| > CURL_MAX_INPUT_BYTES {
      return Err(InputTooLarge);
    }
    var joined := JoinLineContinuations(input);
    var tokens: seq<CurlToken> := [];
    var i := 0;
    ghost var all := TokensFrom(joined, 0);
    PrependNothing([], all);
    while i < |joined|
      invariant 0 <= i <= |joined|
      invariant all == Prepend(tokens, TokensFrom(joined, i))
    {
      var ch := joined[i];
      if IsWhitespace(ch) {
        i := i + 1;
        continue;
      }
      if ch == '#' && (i == 0 || IsWhitespace(joined[i - 1])) {
        i := SkipComment(joined, i);
        continue;
      }
      var failure, value, end := ReadWord(joined, i);
      if failure.Some? {
        UnclosedStep(joined, i, tokens);
        return Err(failure.value);
      }
      TokenAt(joined, i, value, end);
      PrependPrepend(tokens, [CurlToken(value, i)], TokensFrom(joined, end));
      tokens := tokens + [CurlToken(value, i)];
      i := end;
    }
    PrependNothing(tokens, all);
    result := Ok(Tokenized(tokens, joined));
  }

  // ---- What a token is ----

  ghost predicate IsWordAt(s: string, token: CurlToken) {
    && token.offset < |s| && !IsWhitespace(s[token.offset]) && !StartsComment(s, token.offset)
    && Word(s[token.offset..]).Scanned? && Word(s[token.offset..]).value == token.value
  }

  ghost predicate WordsInOrder(s: string, i: nat, tokens: seq<CurlToken>) {
    && (forall k :: 0 <= k < |tokens| ==> IsWordAt(s, tokens[k]) && i <= tokens[k].offset)
    && forall k :: 0 < k < |tokens| ==> Precedes(s, tokens[k - 1], tokens[k])
  }

  /** Every token is the word that stands at its offset, and each begins behind the end of the one before. */
  lemma {:induction false} TokensAreWords(s: string, i: nat)
    requires i <= |s| && TokensFrom(s, i).Ok?
    ensures WordsInOrder(s, i, TokensFrom(s, i).value)
    decreases |s| - i
  {
    if i < |s| {
      if IsWhitespace(s[i]) {
        TokensAreWords(s, i + 1);
      } else if StartsComment(s, i) {
        TokensAreWords(s, LineEnd(s, i));
      } else {
        var end := |s| - |Word(s[i..]).rest|;
        TokensAreWords(s, end);
        OneMoreInOrder(s, CurlToken(Word(s[i..]).value, i), end, TokensFrom(s, end).value);
      }
    }
  }

  lemma OneMoreInOrder(s: string, token: CurlToken, end: nat, more: seq<CurlToken>)
    requires IsWordAt(s, token) && end == |s| - |Word(s[token.offset..]).rest| && WordsInOrder(s, end, more)
    ensures WordsInOrder(s, token.offset, [token] + more)
  {
  }

  ghost predicate Precedes(s: string, a: CurlToken, b: CurlToken) {
    a.offset < |s| && Word(s[a.offset..]).Scanned? && |s| - |Word(s[a.offset..]).rest| <= b.offset
  }

  // ---- Quoting ----

  /** Each quote becomes end quote, escaped quote, reopened quote. */
  function EscapeQuotes(value: string): string {
    if value == "" then "" else EscapedChar(value[0]) + EscapeQuotes(value[1..])
  }

  function PosixSingleQuote(value: string): string {
    "'" + EscapeQuotes(value) + "'"
  }

  /** The quoted values, joined by spaces. */
  function CommandLine(values: seq<string>): string {
    if values == [] then ""
    else if |values| == 1 then PosixSingleQuote(values[0])
    else PosixSingleQuote(values[0]) + " " + CommandLine(values[1..])
  }

  function JoinEach(values: seq<string>): (r: seq<string>)
    ensures |r| == |values|
    ensures forall k :: 0 <= k < |r| ==> r[k] == JoinLineContinuations(values[k])
  {
    if values == [] then [] else [JoinLineContinuations(values[0])] + JoinEach(values[1..])
  }

  ghost predicate Spell(tokens: seq<CurlToken>, values: seq<string>) {
    |tokens| == |values| && forall k :: 0 <= k < |values| ==> tokens[k].value == values[k]
  }

  predicate EndsWord(rest: string) {
    rest == "" || IsWhitespace(rest[0])
  }

  lemma UntilSingleSteps(c: char, tail: string)
    ensures UntilSingle([c] + tail) == if c == '\'' then Scanned("", tail) else UntilSingle(tail).After([c])
  {
    assert ([c] + tail)[1..] == tail;
  }

  lemma WordOpensQuote(tail: string)
    ensures Word("'" + tail) == Behind(UntilSingle(tail), |tail| + 1)
  {
    assert ("'" + tail)[1..] == tail;
  }

  lemma WordEscapes(s: string)
    requires |s| > 1 && s[0] == '\\'
    ensures Word(s) == Word(s[2..]).After([s[1]])
  {
  }

  lemma EscapeSteps(value: string, rest: string)
    requires value != ""
    ensures var tail := EscapeQuotes(value[1..]) + "'" + rest;
      EscapeQuotes(value) + "'" + rest ==
        if value[0] == '\'' then "'" + ("\\" + "'" + ("'" + tail)) else [value[0]] + tail
  {
  }

  /** Behind the opening quote, the tokenizer reads the value back through every escaped quote. */
  lemma {:induction false} ReadsEscapedBack(value: string, rest: string)
    requires EndsWord(rest)
    ensures ReadsBackTo(EscapeQuotes(value) + "'" + rest, value, rest)
    decreases |value|
  {
    if value == "" {
      assert EscapeQuotes(value) + "'" + rest == "'" + rest;
      UntilSingleSteps('\'', rest);
      AfterNothing(Word(rest));
    } else {
      ReadsEscapedBack(value[1..], rest);
      EscapeSteps(value, rest);
      assert value == [value[0]] + value[1..];
      OneMoreReadsBack(value[0], EscapeQuotes(value[1..]) + "'" + rest, value[1..], rest);
    }
  }

  /** Inside single quotes, `s` spells `value` and leaves `rest`. */
  ghost predicate ReadsBackTo(s: string, value: string, rest: string) {
    var quoted := UntilSingle(s);
    quoted.Scanned? && Word(quoted.rest).After(quoted.value) == Scanned(value, rest)
  }

  lemma OneMoreReadsBack(c: char, tail: string, value: string, rest: string)
    requires ReadsBackTo(tail, value, rest)
    ensures ReadsBackTo(if c == '\'' then "'" + ("\\" + "'" + ("'" + tail)) else [c] + tail, [c] + value, rest)
  {
    var inner := UntilSingle(tail);
    if c == '\'' {
      UntilSingleSteps('\'', "\\" + "'" + ("'" + tail));
      var again := "\\" + "'" + ("'" + tail);
      WordEscapes(again);
      assert again[2..] == "'" + tail;
      WordOpensQuote(tail);
      AfterNothing(Word(again));
    } else {
      UntilSingleSteps(c, tail);
      AfterAfter(Word(inner.rest), [c], inner.value);
    }
  }

  lemma {:induction false} ReadsQuotedBack(value: string, rest: string)
    requires EndsWord(rest)
    ensures Word(PosixSingleQuote(value) + rest) == Scanned(value, rest)
  {
    var tail := EscapeQuotes(value) + "'" + rest;
    ReadsEscapedBack(value, rest);
    assert PosixSingleQuote(value) + rest == "'" + tail;
    WordOpensQuote(tail);
  }

  /** A value between double quotes, its special characters behind backslashes. */
  function EscapeInDouble(value: string): string {
    if value == "" then ""
    else DoubleChar(value[0]) + EscapeInDouble(value[1..])
  }

  function DoubleChar(c: char): string {
    if EscapableInDouble(c) && c != '\n' then ['\\', c] else [c]
  }

  /** Double quotes read back too: a backslash escapes a quote, a backslash, `$` and a backquote, and nothing else. */
  lemma {:induction false} ReadsDoubleQuotedBack(value: string, rest: string)
    requires EndsWord(rest)
    ensures Word("\"" + EscapeInDouble(value) + "\"" + rest) == Scanned(value, rest)
  {
    var tail := EscapeInDouble(value) + "\"" + rest;
    UntilDoubleReadsBack(value, rest);
    assert "\"" + EscapeInDouble(value) + "\"" + rest == ['"'] + tail;
    assert (['"'] + tail)[1..] == tail;
    assert Word(rest) == Scanned("", rest);
    assert value + "" == value;
    assert Word(['"'] + tail) == Behind(UntilDouble(tail), |tail| + 1);
  }

  lemma EscapeInDoubleSteps(value: string, rest: string)
    requires value != ""
    ensures EscapeInDouble(value) + "\"" + rest == DoubleChar(value[0]) + (EscapeInDouble(value[1..]) + "\"" + rest)
  {
  }

  lemma OneMoreDouble(c: char, tail: string, value: string, rest: string)
    requires UntilDouble(tail) == Scanned(value, rest)
    ensures UntilDouble(DoubleChar(c) + tail) == Scanned([c] + value, rest)
  {
    var s := DoubleChar(c) + tail;
    if |DoubleChar(c)| == 2 {
      assert s[0] == '\\' && s[1] == c && s[2..] == tail;
    } else {
      assert s[0] == c && s[1..] == tail;
    }
  }

  lemma {:induction false} UntilDoubleReadsBack(value: string, rest: string)
    ensures UntilDouble(EscapeInDouble(value) + "\"" + rest) == Scanned(value, rest)
    decreases |value|
  {
    if value == "" {
      var s := EscapeInDouble(value) + "\"" + rest;
      assert s[0] == '"' && s[1..] == rest;
    } else {
      UntilDoubleReadsBack(value[1..], rest);
      EscapeInDoubleSteps(value, rest);
      OneMoreDouble(value[0], EscapeInDouble(value[1..]) + "\"" + rest, value[1..], rest);
      assert [value[0]] + value[1..] == value;
    }
  }

  lemma ReadsOneBack(s: string, i: nat, value: string, rest: string, end: nat)
    requires i <= |s| && s[i..] == PosixSingleQuote(value) + rest && EndsWord(rest) && end == |s| - |rest|
    ensures s[end..] == rest
    ensures TokensFrom(s, i) == Prepend([CurlToken(value, i)], TokensFrom(s, end))
  {
    ReadsQuotedBack(value, rest);
    assert s[i] == s[i..][0] == '\'';
    assert s[end..] == s[i..][|PosixSingleQuote(value)|..];
  }

  ghost predicate ReadsAs(read: Result<seq<CurlToken>, Failure>, values: seq<string>) {
    read.Ok? && Spell(read.value, values)
  }

  lemma PrependReads(token: CurlToken, more: Result<seq<CurlToken>, Failure>, values: seq<string>)
    requires ReadsAs(more, values)
    ensures ReadsAs(Prepend([token], more), [token.value] + values)
  {
  }

  lemma {:induction false} ReadsCommandLineBack(s: string, i: nat, values: seq<string>)
    requires i <= |s| && s[i..] == CommandLine(values)
    ensures ReadsAs(TokensFrom(s, i), values)
    decreases |values|
  {
    if |values| == 1 {
      LastReadsBack(s, i, values[0]);
      assert values == [values[0]];
    } else if |values| > 1 {
      var line := CommandLine(values[1..]);
      Reassociate(PosixSingleQuote(values[0]), line);
      SuffixOfSuffix(s, i, PosixSingleQuote(values[0]) + " ", line);
      ReadsCommandLineBack(s, |s| - |line|, values[1..]);
      OneMoreReads(s, i, values[0], line, |s| - |line|);
      PrependReads(CurlToken(values[0], i), TokensFrom(s, |s| - |line|), values[1..]);
      assert values == [values[0]] + values[1..];
    }
  }

  lemma SuffixOfSuffix(s: string, i: nat, front: string, line: string)
    requires i <= |s| && s[i..] == front + line
    ensures |line| <= |s| && s[|s| - |line|..] == line
  {
    assert s[|s| - |line|..] == s[i..][|front|..];
  }

  lemma LastReadsBack(s: string, i: nat, value: string)
    requires i <= |s| && s[i..] == PosixSingleQuote(value)
    ensures TokensFrom(s, i) == Ok([CurlToken(value, i)])
  {
    assert s[i..] == PosixSingleQuote(value) + "";
    ReadsOneBack(s, i, value, "", |s|);
    PrependNothing([CurlToken(value, i)], Ok([]));
  }

  lemma OneMoreReads(s: string, i: nat, value: string, line: string, end: nat)
    requires i <= |s| && s[i..] == PosixSingleQuote(value) + ([' '] + line) && end == |s| - |line|
    ensures TokensFrom(s, i) == Prepend([CurlToken(value, i)], TokensFrom(s, end))
  {
    ReadsOneBack(s, i, value, [' '] + line, end - 1);
    SpaceStep(s, end - 1, line);
  }

  lemma SpaceStep(s: string, i: nat, line: string)
    requires i < |s| && s[i..] == [' '] + line
    ensures s[i + 1..] == line && TokensFrom(s, i) == TokensFrom(s, i + 1)
  {
    assert s[i] == s[i..][0] && s[i + 1..] == s[i..][1..];
  }

  // ---- Continuations see through the quoting ----

  lemma EscapeHead(value: string, rest: string)
    ensures var s := EscapeQuotes(value) + "'" + rest;
      s != "" && s[0] == if value == "" then '\'' else value[0]
  {
  }

  /** Quoting neither makes nor hides a continuation. */
  lemma {:induction false} ContinuationIsKept(value: string, rest: string)
    requires value != ""
    ensures ContinuationLength(EscapeQuotes(value) + "'" + rest) == ContinuationLength(value)
  {
    var s := EscapeQuotes(value) + "'" + rest;
    EscapeHead(value, rest);
    if value[0] == '\\' {
      var tail := EscapeQuotes(value[1..]) + "'" + rest;
      assert s == ['\\'] + tail && s[1..] == tail;
      EscapeHead(value[1..], rest);
      assert s[1] == tail[0];
      if |value| > 1 && value[1] == '\r' {
        var last := EscapeQuotes(value[2..]) + "'" + rest;
        assert value[1..][1..] == value[2..];
        assert tail == ['\r'] + last && tail[1..] == last;
        EscapeHead(value[2..], rest);
        assert s[2] == last[0];
      }
    }
  }

  lemma EscapeSkipsContinuation(value: string)
    requires ContinuationLength(value) > 0
    ensures var n := ContinuationLength(value);
      EscapeQuotes(value) == value[..n] + EscapeQuotes(value[n..])
  {
    assert value[1..][1..] == value[2..];
    assert EscapeQuotes(value) == [value[0]] + EscapeQuotes(value[1..]);
    assert EscapeQuotes(value[1..]) == [value[1]] + EscapeQuotes(value[2..]);
    if ContinuationLength(value) == 3 {
      assert value[2..][1..] == value[3..];
      assert EscapeQuotes(value[2..]) == [value[2]] + EscapeQuotes(value[3..]);
    }
  }

  lemma JoinSteps(c: char, tail: string)
    requires ContinuationLength([c] + tail) == 0
    ensures JoinLineContinuations([c] + tail) == [c] + JoinLineContinuations(tail)
  {
    assert ([c] + tail)[1..] == tail;
  }

  function EscapedChar(c: char): string {
    if c == '\'' then "'\\''" else [c]
  }

  lemma EscapeOfCons(c: char, value: string)
    ensures EscapeQuotes([c] + value) == EscapedChar(c) + EscapeQuotes(value)
  {
    assert ([c] + value)[1..] == value;
  }

  lemma {:induction false} JoinOfEscaped(value: string, rest: string)
    ensures JoinLineContinuations(EscapeQuotes(value) + "'" + rest)
         == EscapeQuotes(JoinLineContinuations(value)) + "'" + JoinLineContinuations(rest)
    decreases |value|
  {
    var s := EscapeQuotes(value) + "'" + rest;
    if value == "" {
      assert s == "'" + rest;
      JoinSteps('\'', rest);
    } else {
      ContinuationIsKept(value, rest);
      var n := ContinuationLength(value);
      if n > 0 {
        EscapeSkipsContinuation(value);
        assert s == value[..n] + (EscapeQuotes(value[n..]) + "'" + rest);
        assert s[n..] == EscapeQuotes(value[n..]) + "'" + rest;
        JoinOfEscaped(value[n..], rest);
      } else {
        JoinOfEscaped(value[1..], rest);
        assert value == [value[0]] + value[1..];
        JoinOfEscapedChar(value[0], value[1..], rest);
      }
    }
  }

  lemma JoinOfEscapedChar(c: char, value: string, rest: string)
    requires ContinuationLength([c] + value) == 0
    requires ContinuationLength(EscapeQuotes([c] + value) + "'" + rest) == 0
    requires JoinLineContinuations(EscapeQuotes(value) + "'" + rest)
          == EscapeQuotes(JoinLineContinuations(value)) + "'" + JoinLineContinuations(rest)
    ensures JoinLineContinuations(EscapeQuotes([c] + value) + "'" + rest)
         == EscapeQuotes(JoinLineContinuations([c] + value)) + "'" + JoinLineContinuations(rest)
  {
    EscapeOfCons(c, value);
    JoinSteps(c, value);
    EscapeOfCons(c, JoinLineContinuations(value));
    Regroup(EscapedChar(c), EscapeQuotes(value), rest);
    Regroup(EscapedChar(c), EscapeQuotes(JoinLineContinuations(value)), JoinLineContinuations(rest));
    JoinKeepsEscapedChar(c, EscapeQuotes(value) + "'" + rest);
  }

  lemma Regroup(a: string, b: string, c: string)
    ensures a + b + "'" + c == a + (b + "'" + c)
  {
  }

  lemma JoinKeepsEscapedChar(c: char, tail: string)
    requires ContinuationLength(EscapedChar(c) + tail) == 0
    ensures JoinLineContinuations(EscapedChar(c) + tail) == EscapedChar(c) + JoinLineContinuations(tail)
  {
    if c == '\'' {
      JoinKeepsEscapedQuote(tail);
    } else {
      JoinSteps(c, tail);
    }
  }

  lemma JoinKeepsEscapedQuote(tail: string)
    ensures JoinLineContinuations("'\\''" + tail) == "'\\''" + JoinLineContinuations(tail)
  {
    var s := "'\\''" + tail;
    assert s[1..] == "\\''" + tail && s[1..][1..] == "''" + tail;
    assert s[1..][1..][1..] == "'" + tail && s[1..][1..][1..][1..] == tail;
    assert ContinuationLength(s) == ContinuationLength(s[1..]) == ContinuationLength(s[1..][1..]) == 0;
    assert JoinLineContinuations(s[1..][1..]) == "'" + ("'" + JoinLineContinuations(tail));
  }

  lemma {:induction false} JoinOfQuoted(value: string, rest: string)
    ensures JoinLineContinuations(PosixSingleQuote(value) + rest)
         == PosixSingleQuote(JoinLineContinuations(value)) + JoinLineContinuations(rest)
  {
    var tail := EscapeQuotes(value) + "'" + rest;
    assert PosixSingleQuote(value) + rest == "'" + tail && ("'" + tail)[1..] == tail;
    JoinOfEscaped(value, rest);
  }

  lemma {:induction false} JoinOfCommandLine(values: seq<string>)
    ensures JoinLineContinuations(CommandLine(values)) == CommandLine(JoinEach(values))
    decreases |values|
  {
    if |values| == 1 {
      JoinOfQuoted(values[0], "");
      assert PosixSingleQuote(values[0]) + "" == PosixSingleQuote(values[0]);
    } else if |values| > 1 {
      var line := CommandLine(values[1..]);
      JoinOfCommandLine(values[1..]);
      JoinAcrossSpace(values[0], line);
      assert JoinEach(values)[1..] == JoinEach(values[1..]);
    }
  }

  lemma JoinAcrossSpace(value: string, line: string)
    ensures JoinLineContinuations(PosixSingleQuote(value) + " " + line)
         == PosixSingleQuote(JoinLineContinuations(value)) + " " + JoinLineContinuations(line)
  {
    Reassociate(PosixSingleQuote(value), line);
    JoinOfQuoted(value, [' '] + line);
    JoinSteps(' ', line);
    Reassociate(PosixSingleQuote(JoinLineContinuations(value)), JoinLineContinuations(line));
  }

  lemma Reassociate(a: string, b: string)
    ensures a + " " + b == a + ([' '] + b)
  {
  }

  ghost predicate HasContinuation(value: string) {
    exists k :: 0 <= k < |value| && ContinuationLength(value[k..]) > 0
  }

  lemma {:induction false} JoinShortens(value: string)
    ensures |JoinLineContinuations(value)| <= |value|
    ensures |JoinLineContinuations(value)| == |value| ==> JoinLineContinuations(value) == value
  {
    if value != "" {
      JoinShortens(if ContinuationLength(value) > 0 then value[ContinuationLength(value)..] else value[1..]);
    }
  }

  lemma {:induction false} JoinIsIdentityIff(value: string)
    ensures JoinLineContinuations(value) == value <==> !HasContinuation(value)
    decreases |value|
  {
    if value != "" {
      assert value[0..] == value;
      if ContinuationLength(value) > 0 {
        JoinShortens(value[ContinuationLength(value)..]);
      } else {
        var tail := value[1..];
        JoinIsIdentityIff(tail);
        assert value == [value[0]] + tail;
        assert forall k :: 0 < k < |value| ==> value[k..] == tail[k - 1..];
        if HasContinuation(tail) {
          var k :| 0 <= k < |tail| && ContinuationLength(tail[k..]) > 0;
          assert value[k + 1..] == tail[k..];
        }
        JoinShortens(tail);
      }
    }
  }

  // ---- The round trip ----

  /** Tokenizing quoted values gives them back, each with its line continuations joined. */
  lemma {:induction false} TokenizeUndoesQuoting(values: seq<string>)
    requires |CommandLine(values)| <= CURL_MAX_INPUT_BYTES
    ensures var result := Tokenize(CommandLine(values));
      result.Ok? && Spell(result.value.tokens, JoinEach(values))
  {
    JoinOfCommandLine(values);
    var joined := CommandLine(JoinEach(values));
    assert joined[0..] == joined;
    ReadsCommandLineBack(joined, 0, JoinEach(values));
  }

  /** The values come back unchanged exactly when none contains a backslash before a line break. */
  lemma {:induction false} QuotingRoundTripsIff(values: seq<string>)
    requires |CommandLine(values)| <= CURL_MAX_INPUT_BYTES
    ensures var result := Tokenize(CommandLine(values));
      && result.Ok?
      && (Spell(result.value.tokens, values) <==> forall k :: 0 <= k < |values| ==> !HasContinuation(values[k]))
  {
    TokenizeUndoesQuoting(values);
    forall k | 0 <= k < |values|
      ensures JoinEach(values)[k] == values[k] <==> !HasContinuation(values[k])
    {
      JoinIsIdentityIff(values[k]);
    }
  }

  /** A backslash before a line feed does not survive: the value comes back empty. */
  lemma ContinuationIsLost()
    ensures HasContinuation("\\\n")
    ensures var result := Tokenize(CommandLine(["\\\n"]));
      result.Ok? && Spell(result.value.tokens, [""]) && !Spell(result.value.tokens, ["\\\n"])
  {
    var value := "\\\n";
    assert value[0..] == value && ContinuationLength(value[0..]) == 2;
    assert JoinLineContinuations(value) == JoinLineContinuations(value[2..]) == "";
    assert value[1..][1..] == "" && |EscapeQuotes(value)| == 2;
    TokenizeUndoesQuoting([value]);
    QuotingRoundTripsIff([value]);
    assert JoinEach([value])[0] == "";
  }
}
