/** The tokens of assembly text, and how one is cut off the front of a buffer. */
module Tokens {
  import opened Words
  import opened Mnemonics

  datatype Token =
    | End
    | Sym(image: string)
    | Op(op: Opcode)
    | HexNum(num: Word)
    | Hex2Num(num: Word)
    | BinNum(num: Word)
    | IntNum(num: Word)
    | Str(chars: string)
    | CloseMacro
    | Colon
    | Rel
    | GlobalWord
    | ExternWord
    | AlignWord
    | DbWord

  datatype Error =
    | InvalidToken | InvalidHex | InvalidBin | NoSpaceAfter | IntTooLarge
    | MacroNameExpected | TooManyMacros | MacroTooLong | Unexpected(token: Token) | OddNumber

  // ---------- characters ----------

  /** The character at an index; text ends with a null character. */
  function At(b: string, i: nat): char {
    if i < |b| then b[i] else '\0'
  }

  predicate IsDigit(c: char) {
    '0' <= c <= '9'
  }

  predicate IsAlpha(c: char) {
    'a' <= c <= 'z' || 'A' <= c <= 'Z'
  }

  predicate IsSpace(c: char) {
    c == ' ' || '\t' <= c <= '\r'
  }

  /** What the tokenizer skips between tokens. */
  predicate IsBlank(c: char) {
    c == ' ' || c == '\t' || c == '\r' || c == '\n'
  }

  datatype CharClass = WordChar | HexChar | BinChar | DigitChar | StringChar | CommentChar

  predicate In(c: char, k: CharClass) {
    match k
    case WordChar => IsAlpha(c) || IsDigit(c) || c == '_'
    case HexChar => IsDigit(c) || 'a' <= c <= 'f' || 'A' <= c <= 'F'
    case BinChar => c == '0' || c == '1'
    case DigitChar => IsDigit(c)
    case StringChar => c != '\0' && c != '"'
    case CommentChar => c != '\0' && c != '\n'
  }

  /** The end of the characters of a class from i on. */
  function Span(b: string, i: nat, k: CharClass): (j: nat)
    ensures i <= j && (j <= i || j <= |b|)
    ensures forall x :: i <= x < j ==> In(At(b, x), k)
    ensures !In(At(b, j), k)
    decreases |b| - i
  {
    if In(At(b, i), k) then Span(b, i + 1, k) else i
  }

  lemma SpanIs(b: string, i: nat, j: nat, k: CharClass)
    requires i <= j && (forall x :: i <= x < j ==> In(At(b, x), k)) && !In(At(b, j), k)
    ensures Span(b, i, k) == j
  {
  }

  // ---------- numbers ----------

  function DigitValue(c: char): nat {
    if IsDigit(c) then c as int - '0' as int
    else if 'a' <= c <= 'f' then c as int - 'a' as int + 10
    else if 'A' <= c <= 'F' then c as int - 'A' as int + 10
    else 0
  }

  /** The number digits stand for in a base. */
  function ValueOf(digits: string, base: nat): nat {
    if digits == "" then 0
    else ValueOf(digits[..|digits| - 1], base) * base + DigitValue(digits[|digits| - 1])
  }

  // ---------- one token ----------

  /** A token and its length, or why there is none. */
  datatype Lexeme = Lexed(token: Token, len: nat) | Bad(error: Error)

  /** A word: an instruction, a keyword or a name. */
  function WordToken(image: string): Token {
    match OpcodeOf(image)
    case Some(op) => Op(op)
    case None =>
      if image == "GLOBAL" then GlobalWord
      else if image == "EXTERN" then ExternWord
      else if image == "ALIGN" then AlignWord
      else if image == "db" then DbWord
      else Sym(image)
  }

  function LexString(b: string): (r: Lexeme)
    ensures r.Lexed? ==> 2 <= r.len <= |b|
  {
    var end := Span(b, 1, StringChar);
    if !IsSpace(At(b, end + 1)) then Bad(NoSpaceAfter)
    else Lexed(Str(b[1..end]), end + 1)
  }

  function LexHex(b: string): (r: Lexeme)
    requires |b| >= 2
    ensures r.Lexed? ==> 0 < r.len <= |b|
  {
    var end := Span(b, 2, HexChar);
    if end != 6 && end != 4 then Bad(InvalidHex)
    else if !IsSpace(At(b, end)) && At(b, end) != '}' then Bad(NoSpaceAfter)
    else
      var num := Wrap(ValueOf(b[2..end], 16));
      Lexed(if end == 6 then Hex2Num(num) else HexNum(num), end)
  }

  function LexBin(b: string): (r: Lexeme)
    requires |b| >= 2
    ensures r.Lexed? ==> 0 < r.len <= |b|
  {
    var end := Span(b, 2, BinChar);
    if end != 10 then Bad(InvalidBin) else Lexed(BinNum(Wrap(ValueOf(b[2..end], 2))), end)
  }

  function LexInt(b: string): (r: Lexeme)
    requires |b| >= 1
    ensures r.Lexed? ==> 0 < r.len <= |b|
  {
    var end := Span(b, 1, DigitChar);
    var num := ValueOf(b[..end], 10);
    if num < 0xFFFF then Lexed(IntNum(num), end) else Bad(IntTooLarge)
  }

  function LexWord(b: string): (r: Lexeme)
    requires |b| >= 1
    ensures r.Lexed? && 0 < r.len <= |b|
  {
    var end := Span(b, 1, WordChar);
    Lexed(WordToken(b[..end]), end)
  }

  /** The token at the front of a buffer that starts with neither a blank, a comment nor a macro definition. */
  function Lex(b: string): (r: Lexeme)
    ensures r.Lexed? ==> r.len <= |b|
    ensures r.Lexed? && !r.token.End? ==> r.len > 0
  {
    var c, d := At(b, 0), At(b, 1);
    if c == '\0' then Lexed(End, 0)
    else if c == '}' then Lexed(CloseMacro, 1)
    else if c == ':' then Lexed(Colon, 1)
    else if c == '$' then Lexed(Rel, 1)
    else if c == '"' then LexString(b)
    else if (c == '-' || c == '0') && (d == 'x' || d == 'X') then LexHex(b)
    else if (c == '-' || c == '0') && (d == 'b' || d == 'B') then LexBin(b)
    else if IsAlpha(c) || c == '_' then LexWord(b)
    else if IsDigit(c) then LexInt(b)
    else Bad(InvalidToken)
  }
}
