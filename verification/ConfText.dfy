/** Configuration texts as they are written, for src/core/ngx_conf_file.c to read: words, bare or in
    quotes, with blanks and comments between them. */
module ConfText {
  import opened ConfLexer

  // The sequences that a function gives of the elements, one after the other.
  function Joined<T, U>(f: T -> seq<U>, xs: seq<T>): seq<U> { if xs == [] then [] else f(xs[0]) + Joined(f, xs[1..]) }

  // Things that may each stand where those before it lead to, from a place on.
  predicate Chained<P, T>(ok: (P, T) -> bool, after: (P, T) -> P, at: P, xs: seq<T>)
    decreases |xs|
  {
    xs != [] ==> ok(at, xs[0]) && Chained(ok, after, after(at, xs[0]), xs[1..])
  }

  // Where they lead.
  function Leads<P, T>(after: (P, T) -> P, at: P, xs: seq<T>): P
    decreases |xs|
  {
    if xs == [] then at else Leads(after, after(at, xs[0]), xs[1..])
  }

  // A piece of a word: a character as it is; one written as an escape; or a backslash that stands
  // for itself, with the character behind it.
  datatype Piece = Lit(c: char) | Esc(c: char) | Kept(c: char)

  predicate PieceOk(x: Piece) {
    match x
    case Lit(c) => c != '\\'
    case Esc(c) => c in "\"'\\\t\r\n"
    case Kept(c) => c !in "\"'\\trn"
  }

  // The letter of an escape.
  function Letter(c: char): char {
    if c == '\t' then 't' else if c == '\r' then 'r' else if c == '\n' then 'n' else c
  }

  function PieceText(x: Piece): string {
    match x
    case Lit(c) => [c]
    case Esc(c) => ['\\', Letter(c)]
    case Kept(c) => ['\\', c]
  }

  // What the piece stands for.
  function PieceMeaning(x: Piece): string { if x.Kept? then ['\\', x.c] else [x.c] }

  function Text(xs: seq<Piece>): string { Joined(PieceText, xs) }

  // The word that the pieces spell.
  function Spelled(xs: seq<Piece>): string { Joined(PieceMeaning, xs) }

  // A dollar sign inside a word begins a variable, in which an opening brace is a character like others.
  predicate Opens(v: bool, x: Piece) { x == Lit('$') || (v && x == Lit('{')) }

  // The pieces of a bare word: what it may begin with, and what may follow.
  predicate HeadOk(x: Piece) {
    PieceOk(x) && (x.Lit? ==> !Blank(x.c) && x.c !in ";{}#\"'")
  }

  predicate TailOk(v: bool, x: Piece) {
    PieceOk(x) && (x.Lit? ==> !Blank(x.c) && x.c != ';' && (x.c == '{' ==> v))
  }

  predicate BareOk(xs: seq<Piece>) { xs != [] && HeadOk(xs[0]) && Chained(TailOk, Opens, false, xs[1..]) }

  predicate EndsOpen(xs: seq<Piece>) { xs != [] && Leads(Opens, false, xs[1..]) }

  // The pieces of a word in quotes.
  predicate QuotedOk(q: char, xs: seq<Piece>) { (q == '"' || q == '\'') && forall x :: x in xs ==> PieceOk(x) && x != Lit(q) }

  // What a text consists of: blanks, comments, bare words and words in quotes.
  datatype Part = Space(c: char) | Comment(s: string) | Bare(xs: seq<Piece>) | Quoted(q: char, xs: seq<Piece>)

  // Where a part leaves off: between words; behind a bare word, perhaps inside a variable; or behind
  // a quote.
  datatype Place = Between | BehindBare(open: bool) | BehindQuote

  predicate PartOk(at: Place, x: Part) {
    match x
    case Space(c) => Blank(c)
    case Comment(s) => at == Between && '\n' !in s
    case Bare(xs) => BareOk(xs) && (at == Between || (at == BehindQuote && xs[0] == Lit(')')))
    case Quoted(q, xs) => at == Between && QuotedOk(q, xs)
  }

  function PartText(x: Part): string {
    match x
    case Space(c) => [c]
    case Comment(s) => "#" + s + "\n"
    case Bare(xs) => Text(xs)
    case Quoted(q, xs) => [q] + Text(xs) + [q]
  }

  function PartWords(x: Part): seq<string> { if x.Bare? || x.Quoted? then [Spelled(x.xs)] else [] }

  function After(at: Place, x: Part): Place {
    match x
    case Space(_) => Between
    case Comment(_) => Between
    case Bare(xs) => BehindBare(EndsOpen(xs))
    case Quoted(_, _) => BehindQuote
  }

  predicate Fine(at: Place, xs: seq<Part>) { Chained(PartOk, After, at, xs) }

  function Written(xs: seq<Part>): string { Joined(PartText, xs) }

  function Words(xs: seq<Part>): seq<string> { Joined(PartWords, xs) }

  function End(at: Place, xs: seq<Part>): Place { Leads(After, at, xs) }
}
