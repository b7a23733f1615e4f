/**
 What a command line means, piece by piece: the words a person writes, however they are quoted, and the gaps between
 them. The tokenizer is proved to read every such line as it is meant.
 */
module CurlLines {
  import opened Wrappers
  import opened CurlTokenizer

  const BLANKS: string := " \t\n\r\U{0C}"

  /** One step inside double quotes: a character, an escape, a backslash that escapes nothing, a broken line. */
  datatype InDouble = Plain(c: char) | Escape(c: char) | Backslash(c: char) | LineBreak

  /** A word is any sequence of these, run together. */
  datatype Piece = Bare(c: char) | Escaped(c: char) | Single(text: string) | Double(items: seq<InDouble>)

  predicate ProperItem(item: InDouble) {
    match item
    case Plain(c) => c !in "\"\\"
    case Escape(c) => c in "\"\\$`"
    case Backslash(c) => c !in "\"\\$`\n"
    case LineBreak => true
  }

  predicate ProperPiece(piece: Piece) {
    match piece
    case Bare(c) => c !in BLANKS && c !in "'\"\\"
    case Escaped(_) => true
    case Single(text) => '\'' !in text
    case Double(items) => forall i :: 0 <= i < |items| ==> ProperItem(items[i])
  }

  predicate ProperWord(pieces: seq<Piece>) {
    forall i :: 0 <= i < |pieces| ==> ProperPiece(pieces[i])
  }

  function SpellItem(item: InDouble): string {
    match item
    case Plain(c) => [c]
    case Escape(c) => ['\\', c]
    case Backslash(c) => ['\\', c]
    case LineBreak => ['\\', '\n']
  }

  function ItemMeaning(item: InDouble): string {
    match item
    case Plain(c) => [c]
    case Escape(c) => [c]
    case Backslash(c) => ['\\', c]
    case LineBreak => ""
  }

  function SpellItems(items: seq<InDouble>): string {
    if items == [] then "" else SpellItem(items[0]) + SpellItems(items[1..])
  }

  function ItemsMeaning(items: seq<InDouble>): string {
    if items == [] then "" else ItemMeaning(items[0]) + ItemsMeaning(items[1..])
  }

  function SpellPiece(piece: Piece): string {
    match piece
    case Bare(c) => [c]
    case Escaped(c) => ['\\', c]
    case Single(text) => "'" + text + "'"
    case Double(items) => "\"" + SpellItems(items) + "\""
  }

  function PieceMeaning(piece: Piece): string {
    match piece
    case Bare(c) => [c]
    case Escaped(c) => [c]
    case Single(text) => text
    case Double(items) => ItemsMeaning(items)
  }

  function SpellWord(pieces: seq<Piece>): string {
    if pieces == [] then "" else SpellPiece(pieces[0]) + SpellWord(pieces[1..])
  }

  function WordMeaning(pieces: seq<Piece>): string {
    if pieces == [] then "" else PieceMeaning(pieces[0]) + WordMeaning(pieces[1..])
  }

  // ---- Words ----

  lemma BlanksAreWhitespace(c: char)
    ensures IsWhitespace(c) <==> c in BLANKS
  {
    assert BLANKS[0] == ' ' && BLANKS[1] == '\t' && BLANKS[2] == '\n' && BLANKS[3] == '\r' && BLANKS[4] == '\U{0C}';
  }

  lemma {:induction false} SingleReads(text: string, rest: string)
    requires '\'' !in text
    ensures UntilSingle(text + "'" + rest) == Scanned(text, rest)
  {
    var s := text + "'" + rest;
    if text == "" {
      assert s[1..] == rest;
    } else {
      assert s[1..] == text[1..] + "'" + rest;
      SingleReads(text[1..], rest);
      assert [text[0]] + text[1..] == text;
    }
  }

  lemma DoubleStepReads(item: InDouble, tail: string)
    requires ProperItem(item) && tail != ""
    ensures UntilDouble(SpellItem(item) + tail) == UntilDouble(tail).After(ItemMeaning(item))
  {
    var s := SpellItem(item) + tail;
    match item
    case Plain(c) =>
      assert s[0] == c && s[1..] == tail;
      assert c in "\"\\" <==> c == '"' || c == '\\';
    case Escape(c) =>
      assert s[0] == '\\' && s[1] == c && s[2..] == tail;
    case Backslash(c) =>
      assert s[0] == '\\' && s[1..] == [c] + tail && ([c] + tail)[1..] == tail;
      EscapesNothing(c);
      AfterAfter(UntilDouble(tail), ['\\'], [c]);
    case LineBreak =>
      assert s[0] == '\\' && s[1] == '\n' && s[2..] == tail;
  }

  lemma EscapesNothing(c: char)
    requires c !in "\"\\$`\n"
    ensures !EscapableInDouble(c) && c != '"' && c != '\\'
  {
    var special := "\"\\$`\n";
    assert special[0] == '"' && special[1] == '\\' && special[2] == '$' && special[3] == '`' && special[4] == '\n';
  }

  lemma {:induction false} DoubleReads(items: seq<InDouble>, rest: string)
    requires forall i :: 0 <= i < |items| ==> ProperItem(items[i])
    ensures UntilDouble(SpellItems(items) + "\"" + rest) == Scanned(ItemsMeaning(items), rest)
  {
    if items == [] {
      var s := SpellItems(items) + "\"" + rest;
      assert s[0] == '"' && s[1..] == rest;
    } else {
      var tail := SpellItems(items[1..]) + "\"" + rest;
      assert SpellItems(items) + "\"" + rest == SpellItem(items[0]) + tail;
      DoubleReads(items[1..], rest);
      DoubleStepReads(items[0], tail);
    }
  }

  lemma PieceReads(piece: Piece, tail: string)
    requires ProperPiece(piece)
    ensures Word(SpellPiece(piece) + tail) == Word(tail).After(PieceMeaning(piece))
  {
    var s := SpellPiece(piece) + tail;
    match piece
    case Bare(c) =>
      BlanksAreWhitespace(c);
      assert s[0] == c && s[1..] == tail;
      assert "'\"\\"[0] == '\'' && "'\"\\"[1] == '"' && "'\"\\"[2] == '\\';
    case Escaped(c) =>
      assert s[0] == '\\' && s[1] == c && s[2..] == tail;
    case Single(text) =>
      assert s[0] == '\'' && s[1..] == text + "'" + tail;
      SingleReads(text, tail);
    case Double(items) =>
      assert s[0] == '"' && s[1..] == SpellItems(items) + "\"" + tail;
      DoubleReads(items, tail);
  }

  /** A word in front of anything is read as it is meant, and reading goes on behind it. */
  lemma {:induction false} WordGoesOn(pieces: seq<Piece>, tail: string)
    requires ProperWord(pieces)
    ensures Word(SpellWord(pieces) + tail) == Word(tail).After(WordMeaning(pieces))
  {
    if pieces == [] {
      assert SpellWord(pieces) + tail == tail;
      AfterNothing(Word(tail));
    } else {
      var rest := SpellWord(pieces[1..]) + tail;
      assert SpellWord(pieces) + tail == SpellPiece(pieces[0]) + rest;
      WordGoesOn(pieces[1..], tail);
      PieceReads(pieces[0], rest);
      AfterAfter(Word(tail), PieceMeaning(pieces[0]), WordMeaning(pieces[1..]));
    }
  }

  /** Every word, however its pieces are quoted, reads as it is meant, up to a blank or the end. */
  lemma {:induction false} WordReads(pieces: seq<Piece>, rest: string)
    requires ProperWord(pieces) && (rest != "" ==> rest[0] in BLANKS)
    ensures Word(SpellWord(pieces) + rest) == Scanned(WordMeaning(pieces), rest)
  {
    WordGoesOn(pieces, rest);
    if rest != "" {
      BlanksAreWhitespace(rest[0]);
    }
    assert WordMeaning(pieces) + "" == WordMeaning(pieces);
  }

  // ---- Gaps ----

  datatype GapItem = Space(c: char) | Comment(text: string)

  predicate ProperGapItem(item: GapItem) {
    match item
    case Space(c) => c in BLANKS
    case Comment(text) => '\n' !in text
  }

  function SpellGapItem(item: GapItem): string {
    match item
    case Space(c) => [c]
    case Comment(text) => "#" + text + "\n"
  }

  function SpellGap(gap: seq<GapItem>): string {
    if gap == [] then "" else SpellGapItem(gap[0]) + SpellGap(gap[1..])
  }

  /** A comment starts at the beginning or behind a blank. */
  predicate AtBreak(s: string, i: nat)
    requires i <= |s|
  {
    i == 0 || s[i - 1] in BLANKS
  }

  /** Blanks and comments; one that follows a word begins with a blank. */
  predicate ProperGap(gap: seq<GapItem>, atBreak: bool) {
    && (forall i :: 0 <= i < |gap| ==> ProperGapItem(gap[i]))
    && (gap != [] && !atBreak ==> gap[0].Space?)
  }

  lemma {:induction false} CommentEnds(s: string, i: nat, text: string, rest: string)
    requires i <= |s| && s[i..] == text + "\n" + rest && '\n' !in text
    ensures LineEnd(s, i) == i + |text|
    decreases |text|
  {
    if text != "" {
      assert s[i] == s[i..][0] == text[0];
      assert s[i + 1..] == s[i..][1..] == text[1..] + "\n" + rest;
      CommentEnds(s, i + 1, text[1..], rest);
    } else {
      assert s[i] == s[i..][0] == '\n';
    }
  }

  lemma SuffixBehind(s: string, i: nat, front: string, rest: string)
    requires i <= |s| && s[i..] == front + rest
    ensures i + |front| <= |s| && s[i + |front|..] == rest
    ensures front != "" ==> s[i] == front[0] && s[i + |front| - 1] == front[|front| - 1]
    ensures i + |front| == |s| - |rest|
  {
    assert |s[i..]| == |front| + |rest|;
    assert s[i + |front|..] == s[i..][|front|..];
    assert front != "" ==> s[i] == s[i..][0] && s[i + |front| - 1] == s[i..][|front| - 1];
  }

  /** What stands under a quantifier over this is looked into only where it is asserted. */
  predicate Look(n: int) {
    true
  }

  /** Tokenizing from `i` is tokenizing from `j`. */
  ghost predicate SkipsTo(s: string, i: nat, j: nat) {
    i <= j <= |s| && forall n {:trigger Look(n)} :: Look(n) ==> TokensFrom(s, i) == TokensFrom(s, j)
  }

  lemma SkipsOn(s: string, i: nat, j: nat, k: nat)
    requires SkipsTo(s, i, j) && SkipsTo(s, j, k)
    ensures SkipsTo(s, i, k)
  {
    assert Look(0);
  }

  lemma SpaceIsSkipped(s: string, i: nat)
    requires i < |s| && s[i] in BLANKS
    ensures SkipsTo(s, i, i + 1)
  {
    BlanksAreWhitespace(s[i]);
  }

  lemma CommentIsSkipped(s: string, i: nat, text: string, rest: string)
    requires i < |s| && s[i] == '#' && AtBreak(s, i) && '\n' !in text
    requires s[i + 1..] == text + "\n" + rest
    ensures SkipsTo(s, i, i + 1 + |text|)
  {
    CommentEnds(s, i + 1, text, rest);
    BlanksAreWhitespace('#');
    assert BLANKS[0] != '#' && BLANKS[1] != '#' && BLANKS[2] != '#' && BLANKS[3] != '#' && BLANKS[4] != '#';
    if i > 0 {
      BlanksAreWhitespace(s[i - 1]);
    }
  }

  lemma GapItemIsSkipped(s: string, i: nat, item: GapItem, rest: string, j: nat)
    requires i <= |s| && s[i..] == SpellGapItem(item) + rest && ProperGapItem(item) && j == |s| - |rest|
    requires item.Space? || AtBreak(s, i)
    ensures SkipsTo(s, i, j) && AtBreak(s, j)
  {
    SuffixBehind(s, i, SpellGapItem(item), rest);
    if item.Space? {
      SpaceIsSkipped(s, i);
    } else {
      assert s[i + 1..] == s[i..][1..] == item.text + "\n" + rest;
      CommentIsSkipped(s, i, item.text, rest);
      SpaceIsSkipped(s, j - 1);
      SkipsOn(s, i, j - 1, j);
    }
  }

  lemma {:induction false} GapIsSkipped(s: string, i: nat, gap: seq<GapItem>, rest: string, k: nat)
    requires i <= |s| && s[i..] == SpellGap(gap) + rest && ProperGap(gap, AtBreak(s, i)) && k == |s| - |rest|
    ensures SkipsTo(s, i, k) && (gap != [] ==> AtBreak(s, k))
    decreases |gap|
  {
    SuffixBehind(s, i, SpellGap(gap), rest);
    if gap != [] {
      var tail := SpellGap(gap[1..]) + rest;
      assert SpellGap(gap) + rest == SpellGapItem(gap[0]) + tail;
      SuffixBehind(s, i, SpellGapItem(gap[0]), tail);
      var j := |s| - |tail|;
      GapItemIsSkipped(s, i, gap[0], tail, j);
      GapIsSkipped(s, j, gap[1..], rest, k);
      SkipsOn(s, i, j, k);
    }
  }

  // ---- Lines ----

  /** A word and the gap before it. */
  datatype Stretch = Stretch(gap: seq<GapItem>, word: seq<Piece>)

  function SpellLine(line: seq<Stretch>, end: seq<GapItem>): string {
    if line == [] then SpellGap(end)
    else SpellGap(line[0].gap) + (SpellWord(line[0].word) + SpellLine(line[1..], end))
  }

  function LineMeaning(line: seq<Stretch>): seq<string> {
    if line == [] then [] else [WordMeaning(line[0].word)] + LineMeaning(line[1..])
  }

  /** Words stand apart, and none begins with an unquoted `#`. */
  predicate ProperLine(line: seq<Stretch>, end: seq<GapItem>, atBreak: bool) {
    if line == [] then ProperGap(end, atBreak)
    else
      && ProperGap(line[0].gap, atBreak) && (!atBreak ==> line[0].gap != [])
      && line[0].word != [] && ProperWord(line[0].word) && line[0].word[0] != Bare('#')
      && ProperLine(line[1..], end, false)
  }

  lemma SpelledWordBegins(pieces: seq<Piece>, rest: string)
    requires pieces != [] && ProperWord(pieces) && pieces[0] != Bare('#')
    ensures var s := SpellWord(pieces) + rest; |s| > |rest| && !IsWhitespace(s[0]) && s[0] != '#'
  {
    var first := SpellPiece(pieces[0]);
    assert first != "" && (SpellWord(pieces) + rest)[0] == first[0];
    BlanksAreWhitespace(first[0]);
    assert !IsWhitespace('\'') && !IsWhitespace('"') && !IsWhitespace('\\');
  }

  /** The token at `i` is `value`, and tokenizing goes on at `end`. */
  ghost predicate ReadsToken(s: string, i: nat, token: CurlToken, end: nat) {
    && i <= |s| && end <= |s|
    && forall n {:trigger Look(n)} :: Look(n) ==> TokensFrom(s, i) == Prepend([token], TokensFrom(s, end))
  }

  lemma WordIsRead(s: string, i: nat, pieces: seq<Piece>, rest: string, end: nat)
    requires i <= |s| && s[i..] == SpellWord(pieces) + rest && end == |s| - |rest|
    requires pieces != [] && ProperWord(pieces) && pieces[0] != Bare('#') && (rest != "" ==> rest[0] in BLANKS)
    ensures ReadsToken(s, i, CurlToken(WordMeaning(pieces), i), end)
  {
    SuffixBehind(s, i, SpellWord(pieces), rest);
    SpelledWordBegins(pieces, rest);
    WordReads(pieces, rest);
    assert s[i] == s[i..][0];
    TokenIsRead(s, i, WordMeaning(pieces), end);
  }

  lemma TokenIsRead(s: string, i: nat, value: string, end: nat)
    requires i < |s| && !IsWhitespace(s[i]) && s[i] != '#'
    requires end <= |s| && Word(s[i..]) == Scanned(value, s[end..])
    ensures ReadsToken(s, i, CurlToken(value, i), end)
  {
    TokenAt(s, i, value, end);
  }

  lemma RestBegins(line: seq<Stretch>, end: seq<GapItem>)
    requires ProperLine(line, end, false)
    ensures SpellLine(line, end) != "" ==> SpellLine(line, end)[0] in BLANKS
  {
    var gap := if line == [] then end else line[0].gap;
    if gap != [] {
      assert ProperGapItem(gap[0]) && SpellGap(gap)[0] == gap[0].c;
    }
  }

  lemma SkipThenRead(s: string, i: nat, j: nat, token: CurlToken, k: nat)
    requires SkipsTo(s, i, j) && ReadsToken(s, j, token, k)
    ensures ReadsToken(s, i, token, k)
  {
    assert Look(0);
  }

  /** A gap and a word are read as one token. */
  lemma StretchIsRead(
      s: string, i: nat, gap: seq<GapItem>, word: seq<Piece>, rest: string, token: CurlToken, end: nat)
    requires i <= |s| && s[i..] == SpellGap(gap) + (SpellWord(word) + rest) && ProperGap(gap, AtBreak(s, i))
    requires word != [] && ProperWord(word) && word[0] != Bare('#') && (rest != "" ==> rest[0] in BLANKS)
    requires token == CurlToken(WordMeaning(word), i + |SpellGap(gap)|) && end == |s| - |rest|
    ensures ReadsToken(s, i, token, end)
  {
    var j := token.offset;
    SuffixBehind(s, i, SpellGap(gap), SpellWord(word) + rest);
    GapIsSkipped(s, i, gap, SpellWord(word) + rest, j);
    WordIsRead(s, j, word, rest, end);
    SkipThenRead(s, i, j, token, end);
  }

  lemma {:induction false} LineFromReads(s: string, i: nat, line: seq<Stretch>, end: seq<GapItem>)
    requires i <= |s| && s[i..] == SpellLine(line, end) && ProperLine(line, end, AtBreak(s, i))
    ensures ReadsLine(s, i, LineMeaning(line))
    decreases |line|
  {
    if line == [] {
      assert s[i..] == SpellGap(end) + "";
      GapIsSkipped(s, i, end, "", |s|);
      NothingIsLeft(s, i);
    } else {
      var rest := SpellLine(line[1..], end);
      LineUnrolls(s, i, line, end);
      RestBegins(line[1..], end);
      var k, token := |s| - |rest|, CurlToken(WordMeaning(line[0].word), i + |SpellGap(line[0].gap)|);
      StretchIsRead(s, i, line[0].gap, line[0].word, rest, token, k);
      NotBehindBlank(line[1..], end, s, k);
      LineFromReads(s, k, line[1..], end);
      OneMoreWord(s, i, token, k, LineMeaning(line[1..]));
    }
  }

  lemma LineUnrolls(s: string, i: nat, line: seq<Stretch>, end: seq<GapItem>)
    requires i <= |s| && s[i..] == SpellLine(line, end) && line != []
    ensures |SpellLine(line[1..], end)| <= |s| && s[|s| - |SpellLine(line[1..], end)|..] == SpellLine(line[1..], end)
  {
    var front, rest := SpellGap(line[0].gap) + SpellWord(line[0].word), SpellLine(line[1..], end);
    assert SpellLine(line, end) == front + rest;
    SuffixBehind(s, i, front, rest);
  }

  /** Tokenizing from `i` gives these words. */
  ghost predicate ReadsLine(s: string, i: nat, values: seq<string>) {
    i <= |s| && forall n {:trigger Look(n)} :: Look(n) ==> ReadsAs(TokensFrom(s, i), values)
  }

  lemma NothingIsLeft(s: string, i: nat)
    requires SkipsTo(s, i, |s|)
    ensures ReadsLine(s, i, [])
  {
    assert Look(0);
  }

  lemma OneMoreWord(s: string, i: nat, token: CurlToken, end: nat, values: seq<string>)
    requires ReadsToken(s, i, token, end) && ReadsLine(s, end, values)
    ensures ReadsLine(s, i, [token.value] + values)
  {
    assert Look(0);
    PrependReads(token, TokensFrom(s, end), values);
  }

  /** What is proper behind a word is proper anywhere. */
  lemma NotBehindBlank(line: seq<Stretch>, end: seq<GapItem>, s: string, i: nat)
    requires i <= |s| && ProperLine(line, end, false)
    ensures ProperLine(line, end, AtBreak(s, i))
  {
  }

  /** A line of up to 262144 characters without continuations tokenizes to the words it means. */
  lemma {:induction false} LineReads(line: seq<Stretch>, end: seq<GapItem>)
    requires ProperLine(line, end, true)
    requires |SpellLine(line, end)| <= 262144 && !HasContinuation(SpellLine(line, end))
    ensures var result := Tokenize(SpellLine(line, end));
      result.Ok? && Spell(result.value.tokens, LineMeaning(line))
  {
    var s := SpellLine(line, end);
    JoinIsIdentityIff(s);
    assert s[0..] == s;
    LineFromReads(s, 0, line, end);
    assert Look(0);
  }

  // ---- Failures ----

  lemma {:induction false} SingleStaysOpen(text: string)
    requires '\'' !in text
    ensures UntilSingle(text) == Unclosed(UnclosedSingleQuote)
  {
    if text != "" {
      SingleStaysOpen(text[1..]);
    }
  }

  lemma {:induction false} DoubleStaysOpen(items: seq<InDouble>)
    requires forall i :: 0 <= i < |items| ==> ProperItem(items[i])
    ensures UntilDouble(SpellItems(items)) == Unclosed(UnclosedDoubleQuote)
  {
    if items != [] {
      DoubleStaysOpen(items[1..]);
      if SpellItems(items[1..]) == "" {
        assert SpellItems(items) == SpellItem(items[0]);
        LastItemStaysOpen(items[0]);
      } else {
        DoubleStepReads(items[0], SpellItems(items[1..]));
      }
    }
  }

  lemma LastItemStaysOpen(item: InDouble)
    requires ProperItem(item)
    ensures UntilDouble(SpellItem(item)) == Unclosed(UnclosedDoubleQuote)
  {
    var s := SpellItem(item);
    assert UntilDouble("") == Unclosed(UnclosedDoubleQuote);
    match item
    case Plain(c) => assert s[1..] == "";
    case Escape(c) => assert s[2..] == "";
    case LineBreak => assert s[2..] == "";
    case Backslash(c) =>
      EscapesNothing(c);
      assert s[1..] == [c] && [c][1..] == "";
  }

  /** A word that runs into an open quote fails with that quote's error. */
  lemma {:induction false} OpenQuoteFails(pieces: seq<Piece>, text: string, items: seq<InDouble>)
    requires ProperWord(pieces) && '\'' !in text
    requires forall i :: 0 <= i < |items| ==> ProperItem(items[i])
    ensures Word(SpellWord(pieces) + ("'" + text)) == Unclosed(UnclosedSingleQuote)
    ensures Word(SpellWord(pieces) + ("\"" + SpellItems(items))) == Unclosed(UnclosedDoubleQuote)
  {
    WordGoesOn(pieces, "'" + text);
    WordGoesOn(pieces, "\"" + SpellItems(items));
    SingleStaysOpen(text);
    DoubleStaysOpen(items);
    assert ("'" + text)[1..] == text && ("\"" + SpellItems(items))[1..] == SpellItems(items);
  }

  lemma {:induction false} QuotesNameTheirFailure(s: string)
    ensures UntilSingle(s).Unclosed? ==> UntilSingle(s).failure == UnclosedSingleQuote
    ensures UntilDouble(s).Unclosed? ==> UntilDouble(s).failure == UnclosedDoubleQuote
  {
    if s != "" {
      QuotesNameTheirFailure(s[1..]);
      if |s| > 1 {
        QuotesNameTheirFailure(s[2..]);
      }
    }
  }

  lemma {:induction false} WordsNameTheirFailure(s: string)
    ensures Word(s).Unclosed? ==> Word(s).failure != InputTooLarge
    decreases |s|
  {
    if s != "" && !IsWhitespace(s[0]) {
      QuotesNameTheirFailure(s[1..]);
      WordsNameTheirFailure(s[1..]);
      if |s| > 1 {
        WordsNameTheirFailure(s[2..]);
      }
      if s[0] == '\'' && UntilSingle(s[1..]).Scanned? {
        WordsNameTheirFailure(UntilSingle(s[1..]).rest);
      }
      if s[0] == '"' && UntilDouble(s[1..]).Scanned? {
        WordsNameTheirFailure(UntilDouble(s[1..]).rest);
      }
    }
  }

  lemma {:induction false} TokensNameTheirFailure(s: string, i: nat)
    requires i <= |s|
    ensures TokensFrom(s, i) != Err(InputTooLarge)
    decreases |s| - i
  {
    if i < |s| {
      WordsNameTheirFailure(s[i..]);
      if IsWhitespace(s[i]) {
        TokensNameTheirFailure(s, i + 1);
      } else if StartsComment(s, i) {
        TokensNameTheirFailure(s, LineEnd(s, i));
      } else if Word(s[i..]).Scanned? {
        TokensNameTheirFailure(s, |s| - |Word(s[i..]).rest|);
      }
    }
  }

  /** Input is too large exactly beyond 256 KiB, counted in characters before any joining. */
  lemma {:induction false} TooLargeIff(input: string)
    ensures Tokenize(input) == Err(InputTooLarge) <==> |input| > 262144
  {
    TokensNameTheirFailure(JoinLineContinuations(input), 0);
  }

  // ---- Continuations ----

  ghost predicate JoinsTo(s: string, joined: string) {
    forall n {:trigger Look(n)} :: Look(n) ==> JoinLineContinuations(s) == joined
  }

  /** How much of a text its first step of joining takes. */
  function Taken(s: string): nat {
    if ContinuationLength(s) > 0 then ContinuationLength(s) else 1
  }

  lemma JoinUnrolls(s: string, joined: string) returns (first: string, rest: string)
    requires s != "" && JoinsTo(s, joined)
    ensures Taken(s) <= |s| && JoinsTo(s[Taken(s)..], rest) && joined == first + rest
    ensures first == if ContinuationLength(s) > 0 then "" else [s[0]]
  {
    assert Look(0);
    first := if ContinuationLength(s) > 0 then "" else [s[0]];
    rest := JoinLineContinuations(s[Taken(s)..]);
  }

  lemma JoinRolls(before: string, tail: string, first: string, joined: string)
    requires before != "" && Taken(before) <= |before|
    requires ContinuationLength(before + tail) == ContinuationLength(before)
    requires first == if ContinuationLength(before) > 0 then "" else [before[0]]
    requires JoinsTo(before[Taken(before)..] + tail, joined)
    ensures JoinsTo(before + tail, first + joined)
  {
    assert Look(0);
    assert (before + tail)[Taken(before)..] == before[Taken(before)..] + tail;
  }

  /** No continuation reaches across a backslash into what it stands before. */
  lemma {:induction false} JoinSplits(before: string, tail: string, joined: string, behind: string)
    requires tail != "" && tail[0] == '\\' && JoinsTo(before, joined) && JoinsTo(tail, behind)
    ensures JoinsTo(before + tail, joined + behind)
    decreases |before|
  {
    if before == "" {
      assert Look(0);
      assert before + tail == tail && joined + behind == behind;
    } else {
      ContinuationIsWithin(before, tail);
      var first, rest := JoinUnrolls(before, joined);
      JoinSplits(before[Taken(before)..], tail, rest, behind);
      JoinRolls(before, tail, first, rest + behind);
      Regroup3(first, rest, behind);
    }
  }

  lemma Regroup3(a: string, b: string, c: string)
    ensures (a + b) + c == a + (b + c)
  {
  }

  lemma ContinuationIsWithin(before: string, tail: string)
    requires before != "" && tail != "" && tail[0] == '\\'
    ensures ContinuationLength(before + tail) == ContinuationLength(before)
  {
    var s := before + tail;
    assert s[|before|] == '\\';
    if |before| >= 3 {
      assert s[1] == before[1] && s[2] == before[2];
    }
  }

  /** A backslash before a line feed, or before a carriage return and a line feed, goes; all else stays in place. */
  lemma {:induction false} ContinuationGoes(before: string, lineBreak: string, after: string)
    requires lineBreak == "\\\n" || lineBreak == "\\\r\n"
    ensures JoinLineContinuations(before + (lineBreak + after))
         == JoinLineContinuations(before) + JoinLineContinuations(after)
  {
    JoinSplits(before, lineBreak + after, JoinLineContinuations(before), JoinLineContinuations(lineBreak + after));
    assert Look(0);
    assert (lineBreak + after)[|lineBreak|..] == after;
  }

  /** A backslash directly before a line feed, or before a carriage return and one. */
  predicate BreaksLineAt(value: string, k: nat) {
    || (k + 1 < |value| && value[k] == '\\' && value[k + 1] == '\n')
    || (k + 2 < |value| && value[k] == '\\' && value[k + 1] == '\r' && value[k + 2] == '\n')
  }

  /** What a continuation is. */
  lemma ContinuationMeans(value: string)
    ensures HasContinuation(value) <==> exists k :: 0 <= k < |value| && BreaksLineAt(value, k)
  {
    forall k | 0 <= k < |value|
      ensures ContinuationLength(value[k..]) > 0 <==> BreaksLineAt(value, k)
    {
    }
  }
}
