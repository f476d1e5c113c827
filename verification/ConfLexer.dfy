/** The tokens of a configuration text, as src/core/ngx_conf_file.c reads them character by
    character: the reference that the buffered reader is compared with. */
module ConfLexer {

  datatype Result = Ok | BlockStart | BlockDone | FileDone
                  | UnexpectedEnd | Unexpected(ch: char) | TooLong

  // The flags of ngx_conf_read_token.
  datatype Flags = Flags(needSpace: bool, lastSpace: bool, sharp: bool, variable: bool, quoted: bool, sQuoted: bool, dQuoted: bool)

  // What a character does: nothing but to the flags; it begins a word, itself left out or not;
  // it ends one; or it ends the token.
  datatype Effect = Keep(f: Flags) | Mark(f: Flags, skip: bool) | Word(f: Flags) | WordHalt(f: Flags, r: Result) | Halt(f: Flags, r: Result)

  // The other variables; "start" is an offset into the text.
  datatype State = State(f: Flags, args: seq<string>, start: int, line: int, startLine: int)

  datatype Step = More(st: State) | Stop(result: Result, st: State)

  function Begin(start: int, line: int): State {
    State(Flags(false, true, false, false, false, false, false), [], start, line, line)
  }

  predicate Blank(ch: char) { ch == ' ' || ch == '\t' || ch == '\r' || ch == '\n' }

  // A word with its escapes undone: s is the word followed by the character that ends it.
  function Unescape(s: string): (w: string)
    decreases |s|
  {
    if |s| <= 1 then ""
    else if s[0] == '\\' && (s[1] == '"' || s[1] == '\'' || s[1] == '\\') then [s[1]] + Unescape(s[2..])
    else if s[0] == '\\' && s[1] == 't' then ['\t'] + Unescape(s[2..])
    else if s[0] == '\\' && s[1] == 'r' then ['\r'] + Unescape(s[2..])
    else if s[0] == '\\' && s[1] == 'n' then ['\n'] + Unescape(s[2..])
    else [s[0]] + Unescape(s[1..])
  }

  // A character inside a word.
  function InWord(f0: Flags, ch: char): Effect {
    if ch == '{' && f0.variable then Keep(f0)
    else
      var f := f0.(variable := false);
      if ch == '\\' then Keep(f.(quoted := true))
      else if ch == '$' then Keep(f.(variable := true))
      else if f.dQuoted then (if ch == '"' then Word(f.(dQuoted := false, needSpace := true)) else Keep(f))
      else if f.sQuoted then (if ch == '\'' then Word(f.(sQuoted := false, needSpace := true)) else Keep(f))
      else if ch == ';' then WordHalt(f.(lastSpace := true), Ok)
      else if ch == '{' then WordHalt(f.(lastSpace := true), BlockStart)
      else if Blank(ch) then Word(f.(lastSpace := true))
      else Keep(f)
  }

  // A character after white space; "first" says that there is no word yet.
  function BetweenWords(f: Flags, ch: char, first: bool): Effect {
    if Blank(ch) then Keep(f)
    else if ch == ';' || ch == '{' then Halt(f, if first then Unexpected(ch) else if ch == '{' then BlockStart else Ok)
    else if ch == '}' then Halt(f, if first then BlockDone else Unexpected(ch))
    else if ch == '#' then Mark(f.(sharp := true), false)
    else if ch == '\\' then Mark(f.(quoted := true, lastSpace := false), false)
    else if ch == '"' then Mark(f.(dQuoted := true, lastSpace := false), true)
    else if ch == '\'' then Mark(f.(sQuoted := true, lastSpace := false), true)
    else Mark(f.(lastSpace := false), false)
  }

  function Scan(f0: Flags, ch: char, first: bool): Effect {
    var f := if ch == '\n' then f0.(sharp := false) else f0;
    if f.sharp then Keep(f)
    else if f.quoted then Keep(f.(quoted := false))
    else if f.needSpace && Blank(ch) then Keep(f.(lastSpace := true, needSpace := false))
    else if f.needSpace && ch == ';' then Halt(f, Ok)
    else if f.needSpace && ch == '{' then Halt(f, BlockStart)
    else if f.needSpace && ch != ')' then Halt(f, Unexpected(ch))
    else
      var g := if f.needSpace then f.(lastSpace := true, needSpace := false) else f;
      if g.lastSpace then BetweenWords(g, ch, first) else InWord(g, ch)
  }

  // The effect of a character at offset p; "word" is the word that it may end.
  function Apply(st: State, e: Effect, ch: char, p: int, word: string): Step {
    var line := if ch == '\n' then st.line + 1 else st.line;
    match e
    case Keep(f) => More(State(f, st.args, st.start, line, st.startLine))
    case Mark(f, skip) => More(State(f, st.args, if skip then p + 1 else p, line, line))
    case Word(f) => More(State(f, st.args + [word], st.start, line, st.startLine))
    case WordHalt(f, r) => Stop(r, State(f, st.args + [word], st.start, line, st.startLine))
    case Halt(f, r) => Stop(r, State(f, st.args, st.start, line, st.startLine))
  }

  // What the characters do and how the text of a word becomes the word. How a text is read does not
  // depend on which language it is.
  datatype Language = Language(scan: (Flags, char, bool) -> Effect, decode: string -> string)

  function Conf(): Language { Language(Scan, Unescape) }

  // One character; span is the text from st.start up to and with it.
  function Advance(lang: Language, st: State, ch: char, p: int, span: string): Step {
    Apply(st, lang.scan(st.f, ch, st.args == []), ch, p, lang.decode(span))
  }

  datatype Outcome = Outcome(result: Result, args: seq<string>, pos: int, line: int)

  function AtEnd(st: State): Result { if st.args != [] || !st.f.lastSpace then UnexpectedEnd else FileDone }

  // The token that begins at offset p of a whole text.
  function Whole(lang: Language, text: string, p: int, st: State): (r: Outcome)
    requires 0 <= st.start <= p <= |text|
    decreases |text| - p
  {
    if p == |text| then Outcome(AtEnd(st), st.args, p, st.line)
    else
      match Advance(lang, st, text[p], p, text[st.start..p + 1])
      case Stop(result, s) => Outcome(result, s.args, p + 1, s.line)
      case More(s) => StartMoves(lang, st, text[p], p, text[st.start..p + 1]); Whole(lang, text, p + 1, s)
  }

  // The same for a reader that cannot look back more than "limit" characters.
  function Limited(lang: Language, text: string, p: int, st: State, limit: int): (r: Outcome)
    requires 0 <= st.start <= p <= |text|
    decreases |text| - p
  {
    if p == |text| then Outcome(AtEnd(st), st.args, p, st.line)
    else if p - st.start == limit then Outcome(TooLong, st.args, p, st.startLine)
    else
      match Advance(lang, st, text[p], p, text[st.start..p + 1])
      case Stop(result, s) => Outcome(result, s.args, p + 1, s.line)
      case More(s) => StartMoves(lang, st, text[p], p, text[st.start..p + 1]); Limited(lang, text, p + 1, s, limit)
  }

  lemma StartMoves(lang: Language, st: State, ch: char, p: int, span: string)
    requires 0 <= st.start <= p
    ensures Advance(lang, st, ch, p, span).More? ==> 0 <= Advance(lang, st, ch, p, span).st.start <= p + 1
  {
  }

  // Short of a parameter over the limit, the limit makes no difference.
  lemma {:induction false} LimitedIsWhole(lang: Language, text: string, p: int, st: State, limit: int)
    requires 0 <= st.start <= p <= |text|
    ensures Limited(lang, text, p, st, limit).result == TooLong || Limited(lang, text, p, st, limit) == Whole(lang, text, p, st)
    decreases |text| - p
  {
    if p < |text| && p - st.start != limit {
      match Advance(lang, st, text[p], p, text[st.start..p + 1])
      case Stop(result, s) =>
      case More(s) =>
        StartMoves(lang, st, text[p], p, text[st.start..p + 1]);
        LimitedIsWhole(lang, text, p + 1, s, limit);
    }
  }

  // A token within the limit is that of the whole text.
  lemma {:induction false} ShortIsWhole(lang: Language, text: string, p: int, st: State, limit: int)
    requires 0 <= st.start <= p <= |text| && Whole(lang, text, p, st).pos - st.start <= limit
    ensures Limited(lang, text, p, st, limit) == Whole(lang, text, p, st) && p <= Whole(lang, text, p, st).pos
    decreases |text| - p
  {
    if p < |text| {
      match Advance(lang, st, text[p], p, text[st.start..p + 1])
      case Stop(result, s) =>
      case More(s) =>
        StartMoves(lang, st, text[p], p, text[st.start..p + 1]);
        assert s.start >= st.start;
        ShortIsWhole(lang, text, p + 1, s, limit);
    }
  }
}
