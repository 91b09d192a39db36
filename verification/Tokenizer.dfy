/** The tokenizer itself, advancing through its buffer and its macros. */
module Tokenizer {
  import opened Tokens
  import opened Tokenizing
  import opened Words

  datatype Reply = Ready(token: Token) | Failed(error: Error)

  class Tokenizer {
    var buffer: string
    var macros: seq<Macro>
    var current: int
    var index: nat

    function Now(): State
      reads this
    {
      State(buffer, macros, current, index)
    }

    constructor (text: string)
      ensures Now() == Start(text)
    {
      buffer, macros, current, index := text, [], -1, 0;
    }

    /** The buffer index behind the characters of a class. */
    method Scan(i: nat, k: CharClass) returns (j: nat)
      ensures j == Span(buffer, i, k)
    {
      j := i;
      while In(At(buffer, j), k)
        invariant i <= j && Span(buffer, i, k) == Span(buffer, j, k)
        decreases |buffer| - j
      {
        j := j + 1;
      }
    }

    /** The replayed macro's token, or the next one cut off the buffer. */
    method TokenNext() returns (r: Reply)
      requires Valid(Now())
      modifies this
      ensures Next(old(Now())).Got? ==> r == Ready(Next(old(Now())).token) && Now() == Next(old(Now())).st
      ensures Next(old(Now())).Fail? ==> r == Failed(Next(old(Now())).error)
      decreases |buffer|, if current >= 0 then 1 else 0
    {
      if current >= 0 {
        if index >= |macros[current].tokens| {
          current := -1;
          r := TokenNext();
          return;
        }
        index := index + 1;
        return Ready(macros[current].tokens[index - 1]);
      }
      var c, d := At(buffer, 0), At(buffer, 1);
      if IsBlank(c) {
        buffer := buffer[1..];
        r := TokenNext();
      } else if c == '-' && d == '-' {
        var end := Scan(1, CommentChar);
        buffer := buffer[end..];
        r := TokenNext();
      } else if c == '{' {
        buffer := buffer[1..];
        r := DefineMacro();
      } else {
        r := CutToken(c, d);
        if r.Ready? && r.token.Sym? {
          var j := Lookup(r.token.image);
          if j < |macros| {
            current, index := j, 0;
            r := TokenNext();
          }
        }
      }
    }

    /** The first macro of that name. */
    method Lookup(name: string) returns (j: nat)
      ensures j == FindMacro(macros, name)
    {
      j := 0;
      while j < |macros| && macros[j].name != name
        invariant j <= |macros| && FindMacro(macros, name) == j + FindMacro(macros[j..], name)
      {
        j := j + 1;
      }
    }

    /** A token that is no macro's. */
    method CutToken(c: char, d: char) returns (r: Reply)
      requires c == At(buffer, 0) && d == At(buffer, 1)
      modifies this`buffer
      ensures match Lex(old(buffer))
              case Lexed(t, n) => r == Ready(t) && buffer == old(buffer)[n..]
              case Bad(e) => r == Failed(e) && buffer == old(buffer)
    {
      hide Wrap, ValueOf;
      if c == '\0' {
        return Ready(End);
      } else if c == '}' || c == ':' || c == '$' {
        buffer := buffer[1..];
        return Ready(if c == '}' then CloseMacro else if c == ':' then Colon else Rel);
      } else if c == '"' {
        var i := Scan(1, StringChar);
        i := i + 1;
        if !IsSpace(At(buffer, i)) {
          return Failed(NoSpaceAfter);
        }
        r := Ready(Str(buffer[1..i - 1]));
        buffer := buffer[i..];
      } else if (c == '-' || c == '0') && (d == 'x' || d == 'X') {
        var i := Scan(2, HexChar);
        if i != 6 && i != 4 {
          return Failed(InvalidHex);
        }
        if !IsSpace(At(buffer, i)) && At(buffer, i) != '}' {
          return Failed(NoSpaceAfter);
        }
        var num := Number(2, i, 16);
        r := Ready(if i == 6 then Hex2Num(Wrap(num)) else HexNum(Wrap(num)));
        buffer := buffer[i..];
      } else if (c == '-' || c == '0') && (d == 'b' || d == 'B') {
        var i := Scan(2, BinChar);
        if i != 10 {
          return Failed(InvalidBin);
        }
        var num := Number(2, i, 2);
        r := Ready(BinNum(Wrap(num)));
        buffer := buffer[i..];
      } else if IsAlpha(c) || c == '_' {
        var i := Scan(1, WordChar);
        r := Ready(WordToken(buffer[..i]));
        buffer := buffer[i..];
      } else if IsDigit(c) {
        var i := Scan(1, DigitChar);
        var num := Number(0, i, 10);
        if num >= 0xFFFF {
          return Failed(IntTooLarge);
        }
        r := Ready(IntNum(num));
        buffer := buffer[i..];
      } else {
        return Failed(InvalidToken);
      }
    }

    /** What the library's number conversions return for digits of the base. */
    method Number(from: nat, to: nat, base: nat) returns (num: nat)
      requires from <= to <= |buffer|
      ensures num == ValueOf(buffer[from..to], base)
    {
      num := 0;
      for i := from to to
        invariant num == ValueOf(buffer[from..i], base)
      {
        assert buffer[from..i + 1][..i - from] == buffer[from..i];
        num := num * base + DigitValue(buffer[i]);
      }
    }

    method DefineMacro() returns (r: Reply)
      requires Valid(Now())
      modifies this
      ensures Define(old(Now())).Got? ==> r == Ready(Define(old(Now())).token) && Now() == Define(old(Now())).st
      ensures Define(old(Now())).Fail? ==> r == Failed(Define(old(Now())).error)
      decreases |buffer|, 2 + MACRO_TOKENS_MAX
    {
      ghost var meant := Define(Now());
      r := TokenNext();
      if r.Failed? { return; }
      if !r.token.Sym? { return Failed(MacroNameExpected); }
      if |macros| + 1 >= MACROS_MAX { return Failed(TooManyMacros); }
      var m := |macros|;
      macros := macros + [Macro(r.token.image, [])];
      while true
        invariant Valid(Now()) && |buffer| <= |old(buffer)|
        invariant m < |macros| && |macros[m].tokens| < MACRO_TOKENS_MAX
        invariant meant == Collect(Now(), m)
        decreases |buffer|, 1 + MACRO_TOKENS_MAX - |macros[m].tokens|
      {
        r := TokenNext();
        if r.Failed? { return; }
        if r.token.CloseMacro? { break; }
        var tokens := macros[m].tokens;
        if |tokens| + 1 >= MACRO_TOKENS_MAX { return Failed(MacroTooLong); }
        macros := macros[m := Macro(macros[m].name, tokens + [r.token])];
      }
      r := TokenNext();
    }
  }
}
