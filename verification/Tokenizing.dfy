/** The token stream of assembly text: blanks, comments, macro definitions and macro calls. */
module Tokenizing {
  import opened Tokens

  const MACROS_MAX := 32
  const MACRO_TOKENS_MAX := 32

  datatype Macro = Macro(name: string, tokens: seq<Token>)

  /** The rest of the text, the macros so far, and the macro being replayed (-1 for none) with the next token in it. */
  datatype State = State(buffer: string, macros: seq<Macro>, current: int, index: nat)

  datatype Outcome = Got(token: Token, st: State) | Fail(error: Error)

  function Start(text: string): State {
    State(text, [], -1, 0)
  }

  predicate Valid(st: State) {
    -1 <= st.current < |st.macros|
  }

  /** Tokens left in the macro being replayed. */
  function Replaying(st: State): nat
    requires Valid(st)
  {
    if st.current >= 0 && st.index <= |st.macros[st.current].tokens| then |st.macros[st.current].tokens| - st.index else 0
  }

  /** The first macro of a name; their number if there is none. */
  function FindMacro(macros: seq<Macro>, name: string): (j: nat)
    ensures j <= |macros| && (j < |macros| ==> macros[j].name == name)
    ensures forall x :: 0 <= x < j ==> macros[x].name != name
  {
    if macros == [] then 0
    else if macros[0].name == name then 0
    else FindMacro(macros[1..], name) + 1
  }

  /** The next token and what is left; a macro's tokens come in place of its name. */
  function Next(st: State): (o: Outcome)
    requires Valid(st)
    ensures o.Got? ==> Valid(o.st) && |o.st.buffer| <= |st.buffer| && st.macros <= o.st.macros
    ensures o.Got? && !o.token.End? ==>
              |o.st.buffer| < |st.buffer| || (o.st.buffer == st.buffer && Replaying(o.st) < Replaying(st))
    decreases |st.buffer|, if st.current >= 0 then 1 else 0
  {
    var b := st.buffer;
    if st.current >= 0 then
      if st.index < |st.macros[st.current].tokens| then
        Got(st.macros[st.current].tokens[st.index], st.(index := st.index + 1))
      else
        Next(st.(current := -1))
    else if IsBlank(At(b, 0)) then Next(st.(buffer := b[1..]))
    else if At(b, 0) == '-' && At(b, 1) == '-' then Next(st.(buffer := b[Span(b, 1, CommentChar)..]))
    else if At(b, 0) == '{' then Define(st.(buffer := b[1..]))
    else
      match Lex(b)
      case Bad(e) => Fail(e)
      case Lexed(t, n) =>
        var after := st.(buffer := b[n..]);
        if t.Sym? && FindMacro(st.macros, t.image) < |st.macros| then
          Next(after.(current := FindMacro(st.macros, t.image), index := 0))
        else Got(t, after)
  }

  /** A macro definition behind its opening brace: a name, then the tokens up to the closing brace. */
  function Define(st: State): (o: Outcome)
    requires Valid(st)
    ensures o.Got? ==> Valid(o.st) && |o.st.buffer| <= |st.buffer| && st.macros <= o.st.macros
    decreases |st.buffer|, 2 + MACRO_TOKENS_MAX
  {
    var o := Next(st);
    if o.Fail? then o
    else if !o.token.Sym? then Fail(MacroNameExpected)
    else if |o.st.macros| + 1 >= MACROS_MAX then Fail(TooManyMacros)
    else Collect(o.st.(macros := o.st.macros + [Macro(o.token.image, [])]), |o.st.macros|)
  }

  /** The tokens of macro m, each appended as it is read. */
  function Collect(st: State, m: nat): (o: Outcome)
    requires Valid(st) && m < |st.macros| && |st.macros[m].tokens| < MACRO_TOKENS_MAX
    ensures o.Got? ==> Valid(o.st) && |o.st.buffer| <= |st.buffer| && st.macros[..m] <= o.st.macros
    decreases |st.buffer|, 1 + MACRO_TOKENS_MAX - |st.macros[m].tokens|
  {
    var o := Next(st);
    if o.Fail? then o
    else if o.token.CloseMacro? then Next(o.st)
    else
      var tokens := o.st.macros[m].tokens;
      if |tokens| + 1 >= MACRO_TOKENS_MAX then Fail(MacroTooLong)
      else Collect(o.st.(macros := o.st.macros[m := Macro(o.st.macros[m].name, tokens + [o.token])]), m)
  }
}
