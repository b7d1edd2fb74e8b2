/** The lexer of `hasdrubal/lex/main.py`: index-driven scanners for each kind
    of lexeme, the `lex` loop, and the pushback `TokenStream`. */
module Lexer {
  import opened Wrappers
  import opened Slices
  import opened Errors
  import opened Text
  import opened Tokens

  /** The kinds `lex` drops: comments and whitespace. */
  predicate Ignored(kind: Kind) {
    kind == BlockComment || kind == LineComment || kind == Whitespace
  }

  /** The keyword a word spells, if any. */
  function KeywordKind(word: string): Option<Kind> {
    if word == "and" then Some(And)
    else if word == "else" then Some(Else)
    else if word == "end" then Some(End)
    else if word == "False" then Some(False)
    else if word == "if" then Some(If)
    else if word == "let" then Some(Let)
    else if word == "not" then Some(Not)
    else if word == "or" then Some(Or)
    else if word == "then" then Some(Then)
    else if word == "True" then Some(True)
    else None
  }

  /** The two-character symbols. */
  function DoubleCharKind(text: string): Option<Kind> {
    if text == "->" then Some(Arrow)
    else if text == ":=" then Some(ColonEqual)
    else if text == "<>" then Some(Diamond)
    else if text == "/=" then Some(FslashEqual)
    else if text == ">=" then Some(GreaterEqual)
    else if text == "<=" then Some(LessEqual)
    else None
  }

  /** The one-character symbols, the newline among them. */
  function SingleCharKind(c: char): Option<Kind> {
    match c
    case '*' => Some(Asterisk)
    case '\\' => Some(Bslash)
    case '^' => Some(Caret)
    case ':' => Some(Colon)
    case ',' => Some(Comma)
    case '-' => Some(Dash)
    case '.' => Some(Dot)
    case '=' => Some(Equal)
    case '/' => Some(Fslash)
    case '>' => Some(Greater)
    case '[' => Some(Lbracket)
    case '<' => Some(Less)
    case '(' => Some(Lparen)
    case '\n' => Some(Newline)
    case '%' => Some(Percent)
    case '+' => Some(Plus)
    case ']' => Some(Rbracket)
    case ')' => Some(Rparen)
    case _ => None
  }

  predicate IsNameChar(c: char) { IsAlnum(c) || c == '_' }

  /** The end of the run of digits that starts at `from`. */
  function DigitsEnd(s: string, from: nat): (end: nat)
    requires from <= |s|
    decreases |s| - from
    ensures from <= end <= |s|
    ensures forall j :: from <= j < end ==> IsDigit(s[j])
    ensures end == |s| || !IsDigit(s[end])
  {
    if from < |s| && IsDigit(s[from]) then DigitsEnd(s, from + 1) else from
  }

  /** The end of the run of name characters that starts at `from`. */
  function NameEnd(s: string, from: nat): (end: nat)
    requires from <= |s|
    decreases |s| - from
    ensures from <= end <= |s|
    ensures forall j :: from <= j < end ==> IsNameChar(s[j])
    ensures end == |s| || !IsNameChar(s[end])
  {
    if from < |s| && IsNameChar(s[from]) then NameEnd(s, from + 1) else from
  }

  /** The end of the run of newlines that starts at `from`. */
  function NewlinesEnd(s: string, from: nat): (end: nat)
    requires from <= |s|
    decreases |s| - from
    ensures from <= end <= |s|
    ensures forall j :: from <= j < end ==> s[j] == '\n'
    ensures end == |s| || s[end] != '\n'
  {
    if from < |s| && s[from] == '\n' then NewlinesEnd(s, from + 1) else from
  }

  /** The end of the run of whitespace that starts at `from`. */
  function SpacesEnd(s: string, from: nat): (end: nat)
    requires from <= |s|
    decreases |s| - from
    ensures from <= end <= |s|
    ensures forall j :: from <= j < end ==> IsSpace(s[j])
    ensures end == |s| || !IsSpace(s[end])
  {
    if from < |s| && IsSpace(s[from]) then SpacesEnd(s, from + 1) else from
  }

  /** A number: the longest run of digits, then, if a `.` follows, the dot
      and the run of digits after it; a float exactly when the dot was seen.
      The value is the text consumed. */
  predicate NumberLexeme(source: string, lexeme: (Kind, Option<string>, nat)) {
    var (kind, value, length) := lexeme;
    && length <= |source| && value == Some(source[..length])
    && var whole := DigitsEnd(source, 0);
       if whole < |source| && source[whole] == '.'
       then kind == FloatLit && length == DigitsEnd(source, whole + 1)
       else kind == IntegerLit && length == whole
  }

  /** `lex_number`. */
  method LexNumber(source: string) returns (kind: Kind, value: Option<string>, length: nat)
    ensures NumberLexeme(source, (kind, value, length))
  {
    var maxIndex := |source|;
    var currentIndex := 0;
    kind := IntegerLit;
    while currentIndex < maxIndex && IsDigit(source[currentIndex])
      invariant currentIndex <= maxIndex
      invariant DigitsEnd(source, currentIndex) == DigitsEnd(source, 0)
    {
      currentIndex := currentIndex + 1;
    }
    if currentIndex < maxIndex && source[currentIndex] == '.' {
      currentIndex := currentIndex + 1;
      kind := FloatLit;
      ghost var fraction := currentIndex;
      while currentIndex < maxIndex && IsDigit(source[currentIndex])
        invariant fraction <= currentIndex <= maxIndex
        invariant DigitsEnd(source, currentIndex) == DigitsEnd(source, fraction)
      {
        currentIndex := currentIndex + 1;
      }
    }
    value := Some(source[..currentIndex]);
    length := currentIndex;
  }

  /** A word: the longest run of letters, digits and underscores; a keyword
      gets its own kind and no value, any other word is a name. */
  predicate NameLexeme(source: string, lexeme: (Kind, Option<string>, nat)) {
    var (kind, value, length) := lexeme;
    && length == NameEnd(source, 0)
    && (KeywordKind(source[..length]).Some? ==>
          kind == KeywordKind(source[..length]).value && value == None)
    && (KeywordKind(source[..length]).None? ==>
          kind == NameTok && value == Some(source[..length]))
  }

  /** `lex_name`. */
  method LexName(source: string) returns (kind: Kind, value: Option<string>, length: nat)
    ensures NameLexeme(source, (kind, value, length))
  {
    var maxIndex := |source|;
    var currentIndex := 0;
    while currentIndex < maxIndex && IsNameChar(source[currentIndex])
      invariant currentIndex <= maxIndex
      invariant NameEnd(source, currentIndex) == NameEnd(source, 0)
    {
      currentIndex := currentIndex + 1;
    }
    var tokenValue := source[..currentIndex];
    length := currentIndex;
    var keyword := KeywordKind(tokenValue);
    if keyword.Some? {
      kind, value := keyword.value, None;
    } else {
      kind, value := NameTok, Some(tokenValue);
    }
  }

  /** The number of backslashes directly before index `j`, not counting the
      opening quote at index 0. */
  function BackslashesBefore(s: string, j: nat): nat
    requires 1 <= j <= |s|
  {
    if j == 1 || s[j - 1] != '\\' then 0 else BackslashesBefore(s, j - 1) + 1
  }

  /** The character at `j` is escaped: an odd number of backslashes precede it. */
  predicate Escaped(s: string, j: nat)
    requires 1 <= j <= |s|
  {
    BackslashesBefore(s, j) % 2 == 1
  }

  /** A string: from index 1 up to and including the first quote that is
      not escaped; None when the input ends first. The value keeps both
      quotes. */
  predicate StringLexeme(source: string, r: Option<(Kind, Option<string>, nat)>) {
    && (r.Some? ==> var (kind, value, length) := r.value;
          && kind == StringLit && 2 <= length <= |source| && value == Some(source[..length])
          && source[length - 1] == '"' && !Escaped(source, length - 1)
          && forall j :: 1 <= j < length - 1 && source[j] == '"' ==> Escaped(source, j))
    && (r.None? <==> forall j :: 1 <= j < |source| && source[j] == '"' ==> Escaped(source, j))
  }

  /** `lex_string`. */
  method LexString(source: string) returns (r: Option<(Kind, Option<string>, nat)>)
    ensures StringLexeme(source, r)
  {
    var currentIndex := 1;
    var inEscape := false;
    var maxIndex := |source|;
    var broke := false;
    while currentIndex < maxIndex
      invariant 1 <= currentIndex
      invariant maxIndex >= 1 ==> currentIndex <= maxIndex
      invariant currentIndex <= maxIndex ==> inEscape == Escaped(source, currentIndex)
      invariant forall j :: 1 <= j < currentIndex && j < maxIndex && source[j] == '"' ==> Escaped(source, j)
    {
      if !inEscape && source[currentIndex] == '"' {
        broke := true;
        break;
      }
      inEscape := if source[currentIndex] == '\\' then !inEscape else false;
      currentIndex := currentIndex + 1;
    }
    if !broke {
      return None;
    }
    currentIndex := currentIndex + 1;
    return Some((StringLit, Some(source[..currentIndex]), currentIndex));
  }

  /** Whitespace: a run of newlines, or else a run of whitespace, with no
      value. */
  predicate WhitespaceLexeme(source: string, lexeme: (Kind, Option<string>, nat)) {
    var (kind, value, length) := lexeme;
    && value == None
    && (NewlinesEnd(source, 0) > 0 ==> kind == Newline && length == NewlinesEnd(source, 0))
    && (NewlinesEnd(source, 0) == 0 ==> kind == Whitespace && length == SpacesEnd(source, 0))
  }

  /** `lex_whitespace`. */
  method LexWhitespace(source: string) returns (kind: Kind, value: Option<string>, length: nat)
    ensures WhitespaceLexeme(source, (kind, value, length))
  {
    var maxIndex := |source|;
    var currentIndex := 0;
    var isNewline := false;
    while currentIndex < maxIndex && source[currentIndex] == '\n'
      invariant currentIndex <= maxIndex
      invariant NewlinesEnd(source, currentIndex) == NewlinesEnd(source, 0)
      invariant isNewline <==> currentIndex > 0
    {
      isNewline := true;
      currentIndex := currentIndex + 1;
    }
    if isNewline {
      return Newline, None, currentIndex;
    }
    while currentIndex < maxIndex && IsSpace(source[currentIndex])
      invariant currentIndex <= maxIndex
      invariant SpacesEnd(source, currentIndex) == SpacesEnd(source, 0)
    {
      currentIndex := currentIndex + 1;
    }
    return Whitespace, None, currentIndex;
  }

  /** The block-comment marker starts at index `j`. */
  predicate MarkerAt(s: string, j: nat) {
    j + 3 <= |s| && s[j..j + 3] == "###"
  }

  /** `lex_block_comment`: scans from index 0 for the block-comment marker; the
      length is where the marker was found plus its three characters. */
  method LexBlockComment(source: string) returns (kind: Kind, value: Option<string>, length: nat)
    ensures kind == BlockComment && length >= 3 && value == Some(Take(source, length))
    ensures length <= |source| ==> MarkerAt(source, length - 3)
    ensures length > |source| ==> length - 3 == (if |source| >= 2 then |source| - 2 else 0)
    ensures forall j :: 0 <= j < length - 3 ==> !MarkerAt(source, j)
    ensures Take(source, 3) == "###" ==> length == 3
  {
    var start := 0;
    var section := Take(source[start..], 3);
    while |section| == 3 && section != "###"
      invariant start <= |source|
      invariant section == Take(source[start..], 3)
      invariant forall j :: 0 <= j < start ==> !MarkerAt(source, j)
      invariant start > 0 ==> start + 2 <= |source|
      decreases |source| - start
    {
      assert source[start..start + 3] == section;
      start := start + 1;
      section := Take(source[start..], 3);
    }
    length := start + 3;
    if Take(source, 3) == "###" {
      assert MarkerAt(source, 0);
    }
    return BlockComment, Some(Take(source, length)), length;
  }

  /** A line comment: up to and including the next newline, or to the end. */
  predicate LineCommentLexeme(source: string, lexeme: (Kind, Option<string>, nat)) {
    var (kind, value, length) := lexeme;
    && kind == LineComment && length <= |source| && value == Some(source[..length])
    && length == (var nl := Find(source, '\n', 0); if nl < 0 then |source| else nl + 1)
  }

  /** `lex_line_comment`. */
  method LexLineComment(source: string) returns (kind: Kind, value: Option<string>, length: nat)
    ensures LineCommentLexeme(source, (kind, value, length))
  {
    var maxIndex := |source|;
    var currentIndex := 0;
    while currentIndex < maxIndex && source[currentIndex] != '\n'
      invariant currentIndex <= maxIndex
      invariant Find(source, '\n', currentIndex) == Find(source, '\n', 0)
    {
      currentIndex := currentIndex + 1;
    }
    currentIndex := currentIndex + (if currentIndex < maxIndex then 1 else 0);
    return LineComment, Some(source[..currentIndex]), currentIndex;
  }

  /** `lex_comment`: a block comment, a line comment, or nothing. */
  method LexComment(source: string) returns (r: Option<(Kind, Option<string>, nat)>)
    requires |source| >= 1
    ensures Take(source, 3) == "###" ==> r == Some((BlockComment, Some("###"), 3))
    ensures Take(source, 3) != "###" && source[0] == '#' ==>
              r.Some? && LineCommentLexeme(source, r.value) && 1 <= r.value.2
    ensures Take(source, 3) != "###" && source[0] != '#' ==> r.None?
  {
    if Take(source, 3) == "###" {
      var kind, value, length := LexBlockComment(source);
      assert source[0..3] == "###";
      return Some((kind, value, length));
    }
    if source[0] == '#' {
      var kind, value, length := LexLineComment(source);
      return Some((kind, value, length));
    }
    return None;
  }

  /** A character no scanner accepts at the start of a lexeme. */
  predicate Illegal(c: char) {
    !IsDigit(c) && !IsAlpha(c) && c != '_' && c != '"' && SingleCharKind(c).None?
    && !IsSpace(c) && c != '#'
  }

  /** What `lex_word` answers for a source, by its first character: a
      number for a digit, a word for a letter or an underscore, a string for
      a quote, then a two-character symbol, a one-character symbol,
      whitespace, a block comment for `###`, a line comment for `#`, and
      nothing for any other character. */
  predicate Lexeme(source: string, r: Option<(Kind, Option<string>, nat)>)
    requires |source| >= 1
  {
    var c := source[0];
    if IsDigit(c) then r.Some? && NumberLexeme(source, r.value)
    else if IsAlpha(c) || c == '_' then r.Some? && NameLexeme(source, r.value)
    else if c == '"' then StringLexeme(source, r)
    else if DoubleCharKind(Take(source, 2)).Some? then r == Some((DoubleCharKind(Take(source, 2)).value, None, 2))
    else if SingleCharKind(c).Some? then r == Some((SingleCharKind(c).value, None, 1))
    else if IsSpace(c) then r.Some? && WhitespaceLexeme(source, r.value)
    else if Take(source, 3) == "###" then r == Some((BlockComment, Some("###"), 3))
    else if c == '#' then r.Some? && LineCommentLexeme(source, r.value)
    else r.None?
  }

  /** At most one answer fits a string lexeme: a shorter string would end at
      a quote that a longer one requires to be escaped. */
  lemma {:induction false} StringLexemeUnique(source: string, r1: Option<(Kind, Option<string>, nat)>, r2: Option<(Kind, Option<string>, nat)>)
    requires StringLexeme(source, r1) && StringLexeme(source, r2)
    ensures r1 == r2
  {
    if r1.Some? && r2.Some? && r1.value.2 < r2.value.2 {
      assert false;
    }
    if r1.Some? && r2.Some? && r2.value.2 < r1.value.2 {
      assert false;
    }
  }

  /** `lex_word`'s answer is fixed by the source: the lexing is
      deterministic. */
  lemma LexemeUnique(source: string, r1: Option<(Kind, Option<string>, nat)>, r2: Option<(Kind, Option<string>, nat)>)
    requires |source| >= 1 && Lexeme(source, r1) && Lexeme(source, r2)
    ensures r1 == r2
  {
    var c := source[0];
    if IsDigit(c) {
      assert r1.value.2 == r2.value.2;
    } else if IsAlpha(c) || c == '_' {
      assert r1.value.2 == r2.value.2;
    } else if c == '"' {
      StringLexemeUnique(source, r1, r2);
    } else if DoubleCharKind(Take(source, 2)).None? && SingleCharKind(c).None? && IsSpace(c) {
      assert r1.value.0 == r2.value.0 && r1.value.2 == r2.value.2;
    } else if DoubleCharKind(Take(source, 2)).None? && SingleCharKind(c).None? && !IsSpace(c) && Take(source, 3) != "###" && c == '#' {
      assert r1.value.2 == r2.value.2;
    }
  }

  /** No scanner accepts the start of the source: its first character is
      illegal, or it is a quote that no unescaped quote closes. */
  predicate NoLexeme(source: string)
    requires |source| >= 1
  {
    Illegal(source[0]) || (source[0] == '"' && forall j :: 1 <= j < |source| && source[j] == '"' ==> Escaped(source, j))
  }

  /** `lex_word` answers None exactly when no scanner accepts the start. */
  lemma NoLexemeIsNone(source: string)
    requires |source| >= 1
    ensures NoLexeme(source) <==> Lexeme(source, None)
  {
  }

  /** `lex_word`: picks the scanner by the first character, trying numbers,
      names, strings, two-character symbols, one-character symbols, whitespace
      and comments in that order. */
  method LexWord(source: string) returns (r: Option<(Kind, Option<string>, nat)>)
    requires |source| >= 1
    ensures Lexeme(source, r)
    ensures r.Some? ==> 1 <= r.value.2 <= |source|
    ensures r.None? <==> NoLexeme(source)
  {
    var first := source[0];
    if IsDigit(first) {
      var kind, value, length := LexNumber(source);
      return Some((kind, value, length));
    }
    if IsAlpha(first) || first == '_' {
      var kind, value, length := LexName(source);
      return Some((kind, value, length));
    }
    if first == '"' {
      r := LexString(source);
      return;
    }
    var double := DoubleCharKind(Take(source, 2));
    if double.Some? {
      return Some((double.value, None, 2));
    }
    var single := SingleCharKind(first);
    if single.Some? {
      return Some((single.value, None, 1));
    }
    if IsSpace(first) {
      var kind, value, length := LexWhitespace(source);
      return Some((kind, value, length));
    }
    r := LexComment(source);
  }

  /** The lexemes cover the text from 0 to `end` without gaps or overlaps. */
  predicate Tiles(lexemes: seq<Token>, end: nat) {
    && (lexemes == [] ==> end == 0)
    && (lexemes != [] ==> lexemes[0].span.0 == 0 && lexemes[|lexemes| - 1].span.1 == end)
    && (forall i :: 0 <= i < |lexemes| ==> lexemes[i].span.0 < lexemes[i].span.1)
    && (forall i :: 0 < i < |lexemes| ==> lexemes[i - 1].span.1 == lexemes[i].span.0)
  }

  /** The lexemes that are not comments or whitespace, in order. */
  function Kept(lexemes: seq<Token>): (tokens: seq<Token>)
    ensures forall i :: 0 <= i < |tokens| ==> !Ignored(tokens[i].kind)
    ensures |tokens| <= |lexemes|
  {
    if lexemes == [] then []
    else Kept(lexemes[..|lexemes| - 1])
         + (if Ignored(lexemes[|lexemes| - 1].kind) then [] else [lexemes[|lexemes| - 1]])
  }

  /** Each lexeme is what `lex_word` answers for the source from the
      lexeme's start. */
  predicate Scanned(source: string, lexemes: seq<Token>) {
    forall token :: token in lexemes ==> ScannedToken(source, token)
  }

  /** No lexeme starts at `p`. */
  predicate StuckAt(source: string, p: nat) {
    p < |source| && NoLexeme(source[p..])
  }

  /** The token is what `lex_word` answers for the source from the token's
      start. */
  predicate ScannedToken(source: string, token: Token) {
    var (start, end) := token.span;
    start < end <= |source| && Lexeme(source[start..], Some((token.kind, token.value, end - start)))
  }

  lemma ScannedExtend(source: string, lexemes: seq<Token>, token: Token)
    requires Scanned(source, lexemes)
    requires ScannedToken(source, token)
    ensures Scanned(source, lexemes + [token])
  {
  }

  lemma TilesExtend(lexemes: seq<Token>, token: Token)
    requires Tiles(lexemes, token.span.0) && token.span.0 < token.span.1
    ensures Tiles(lexemes + [token], token.span.1)
  {
  }

  lemma KeptExtend(lexemes: seq<Token>, token: Token)
    ensures Kept(lexemes + [token]) == Kept(lexemes) + (if Ignored(token.kind) then [] else [token])
  {
    assert (lexemes + [token])[..|lexemes|] == lexemes;
  }

  /** `lex_word` on the text from `start`, made into a token spanning the
      characters it consumed, which extends the lexemes scanned so far. */
  method LexAt(source: string, start: nat, ghost lexemes: seq<Token>) returns (token: Option<Token>)
    requires start < |source| && Scanned(source, lexemes)
    ensures token.Some? ==> start == token.value.span.0 < token.value.span.1 <= |source|
    ensures token.Some? ==> Scanned(source, lexemes + [token.value])
    ensures token.None? ==> StuckAt(source, start)
  {
    var rest := source[start..];
    var r := LexWord(rest);
    assert rest[0] == source[start];
    if r.None? {
      return None;
    }
    var (kind, value, length) := r.value;
    token := Some(Token((start, start + length), kind, value));
    ScannedExtend(source, lexemes, token.value);
  }

  /** `lex`: splits the whole source into lexemes, each starting where the last
      ended, and keeps those that are not comments or whitespace. A position
      where no lexeme can start is an IllegalCharError spanning that character. */
  method Lex(source: string) returns (r: Result<seq<Token>, CompilerError>, ghost lexemes: seq<Token>)
    ensures r.Ok? ==> Tiles(lexemes, |source|) && r.value == Kept(lexemes)
    ensures Scanned(source, lexemes)
    ensures r.Err? ==> r.error.IllegalChar?
    ensures r.Err? ==> var p := r.error.span.0;
      && r.error.span == (p, p + 1) && p < |source| && Tiles(lexemes, p)
      && StuckAt(source, p)
  {
    var tokens: seq<Token> := [];
    lexemes := [];
    var prevEnd := 0;
    var sourceLength := |source|;
    while prevEnd < sourceLength
      invariant prevEnd <= sourceLength
      invariant Tiles(lexemes, prevEnd) && tokens == Kept(lexemes)
      invariant Scanned(source, lexemes)
      decreases sourceLength - prevEnd
    {
      var result := LexAt(source, prevEnd, lexemes);
      if result.None? {
        r := Err(IllegalChar((prevEnd, prevEnd + 1)));
        assert r.error.span.0 == prevEnd;
        return r, lexemes;
      }
      var token := result.value;
      TilesExtend(lexemes, token);
      KeptExtend(lexemes, token);
      lexemes := lexemes + [token];
      if !Ignored(token.kind) {
        tokens := tokens + [token];
      }
      prevEnd := token.span.1;
    }
    return Ok(tokens), lexemes;
  }

  /** The reversal of a sequence, used to read a stack from its top. */
  function Reverse<T>(s: seq<T>): (r: seq<T>)
    ensures |r| == |s|
  {
    if s == [] then [] else [s[|s| - 1]] + Reverse(s[..|s| - 1])
  }

  /** The synthetic token the stream produces once its generator is exhausted. */
  const EofToken := Token((0, 0), Eof, None)

  /** `TokenStream`: a generator of tokens (here the tokens it still has to give)
      with a stack of pushed-back tokens and a flag recording whether the
      synthetic eof token has been produced. */
  class TokenStream {
    var cache: seq<Token>
    var generator: seq<Token>
    var producedEof: bool

    /** The eof token is produced only after the generator ran dry. */
    ghost predicate Valid()
      reads this
    {
      producedEof ==> generator == []
    }

    /** The tokens the stream will hand out, in order. */
    function Pending(): seq<Token>
      reads this
    {
      Reverse(cache) + generator + (if producedEof then [] else [EofToken])
    }

    constructor (tokens: seq<Token>)
      ensures Valid() && cache == [] && generator == tokens && !producedEof
      ensures Pending() == tokens + [EofToken]
    {
      cache := [];
      generator := tokens;
      producedEof := false;
    }

    /** `_advance`: the top of the cache, else the generator's next token, else
      the eof token the first time and UnexpectedEOFError after that. */
    method Advance() returns (r: Result<Token, CompilerError>)
      modifies this
      ensures old(Valid()) ==> Valid()
      ensures r.Err? <==> old(Pending()) == []
      ensures r.Err? ==> r.error == UnexpectedEOF
      ensures r.Err? ==> cache == old(cache) && generator == old(generator) && producedEof == old(producedEof)
      ensures r.Ok? ==> old(Pending()) == [r.value] + Pending()
      ensures old(cache) == [] && old(generator) == [] ==>
                (if old(producedEof) then r == Err(UnexpectedEOF) else r == Ok(EofToken) && producedEof)
    {
      if cache != [] {
        r := Ok(cache[|cache| - 1]);
        assert Reverse(cache) == [cache[|cache| - 1]] + Reverse(cache[..|cache| - 1]);
        cache := cache[..|cache| - 1];
        return;
      }
      if generator != [] {
        r := Ok(generator[0]);
        generator := generator[1..];
        return;
      }
      if producedEof {
        return Err(UnexpectedEOF);
      }
      producedEof := true;
      return Ok(EofToken);
    }

    /** `_push`: puts a token back on top of the cache. */
    method Push(token: Token)
      modifies this
      ensures old(Valid()) ==> Valid()
      ensures Pending() == [token] + old(Pending())
      ensures cache == old(cache) + [token]
      ensures generator == old(generator) && producedEof == old(producedEof)
    {
      cache := cache + [token];
      assert (cache)[..|cache| - 1] == old(cache);
    }

    /** `consume`: the next token, which must have one of the expected kinds;
      a token of another kind is lost and raises UnexpectedTokenError. */
    method Consume(expected: set<Kind>) returns (r: Result<Token, CompilerError>)
      modifies this
      ensures old(Valid()) ==> Valid()
      ensures old(Pending()) == [] ==> r == Err(UnexpectedEOF)
      ensures old(Pending()) != [] ==> Pending() == old(Pending())[1..]
      ensures old(Pending()) != [] ==>
        var head := old(Pending())[0];
        r == if head.kind in expected then Ok(head) else Err(UnexpectedToken(head.span))
    {
      var head :- Advance();
      if head.kind in expected {
        return Ok(head);
      }
      return Err(UnexpectedToken(head.span));
    }

    /** `consume_if`: consumes the next token only if its kind is expected;
      otherwise the stream is left as it was. */
    method ConsumeIf(expected: set<Kind>) returns (r: Result<bool, CompilerError>)
      modifies this
      ensures old(Valid()) ==> Valid()
      ensures old(Pending()) == [] ==> r == Err(UnexpectedEOF)
      ensures old(Pending()) != [] ==> r == Ok(old(Pending())[0].kind in expected)
      ensures old(Pending()) != [] && old(Pending())[0].kind in expected ==> Pending() == old(Pending())[1..]
      ensures old(Pending()) != [] && old(Pending())[0].kind !in expected ==> Pending() == old(Pending())
    {
      var head :- Advance();
      if head.kind in expected {
        return Ok(true);
      }
      Push(head);
      return Ok(false);
    }

    /** `preview`: the next token without consuming it, or None at the end. */
    method Preview() returns (t: Option<Token>)
      modifies this
      ensures old(Valid()) ==> Valid()
      ensures Pending() == old(Pending())
      ensures t == if Pending() == [] then None else Some(Pending()[0])
    {
      var head := Advance();
      if head.Err? {
        return None;
      }
      Push(head.value);
      return Some(head.value);
    }

    /** `peek`: whether the next token has an expected kind; never consumes. */
    method Peek(expected: set<Kind>) returns (b: bool)
      modifies this
      ensures old(Valid()) ==> Valid()
      ensures Pending() == old(Pending())
      ensures b <==> Pending() != [] && Pending()[0].kind in expected
    {
      var token := Preview();
      return token.Some? && token.value.kind in expected;
    }

    /** `__bool__`: whether any token, the eof token included, is left. */
    method NonEmpty() returns (b: bool)
      modifies this
      ensures old(Valid()) ==> Valid()
      ensures Pending() == old(Pending())
      ensures b <==> Pending() != []
    {
      if cache != [] || !producedEof {
        return true;
      }
      var head := Advance();
      if head.Err? {
        return false;
      }
      Push(head.value);
      return true;
    }
  }
}
