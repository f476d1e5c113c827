/** How the reader of src/core/ngx_conf_file.c takes a written text: part by part. */
module ConfRun {
  import opened ConfLexer
  import opened ConfSpan
  import opened ConfText

  // ---- sequences ----

  lemma JoinedCons<T, U>(f: T -> seq<U>, x: T, rest: seq<T>)
    ensures Joined(f, [x] + rest) == f(x) + Joined(f, rest)
  {
    assert ([x] + rest)[1..] == rest;
  }

  lemma ChainedCons<P, T>(ok: (P, T) -> bool, after: (P, T) -> P, at: P, x: T, rest: seq<T>)
    requires ok(at, x) && Chained(ok, after, after(at, x), rest)
    ensures Chained(ok, after, at, [x] + rest) && Leads(after, at, [x] + rest) == Leads(after, after(at, x), rest)
  {
    assert ([x] + rest)[1..] == rest;
  }

  lemma {:induction false} Decoded(xs: seq<Piece>, c: char)
    requires forall y :: y in xs ==> PieceOk(y)
    ensures Unescape(Text(xs) + [c]) == Spelled(xs)
  {
    if xs != [] {
      var x, rest := xs[0], Text(xs[1..]) + [c];
      assert x in xs;
      Decoded(xs[1..], c);
      assert Text(xs) + [c] == PieceText(x) + rest;
      match x
      case Lit(_) => DecodedLit(x.c, rest);
      case Esc(_) => DecodedEsc(x.c, Letter(x.c), rest);
      case Kept(_) => DecodedKept(x.c, rest);
    }
  }

  // ---- what the reader does with a character, lines aside ----

  datatype Core = Core(f: Flags, args: seq<string>, start: int)

  datatype Seen = Seen(result: Result, args: seq<string>, pos: int)

  // What reading from there on gives.
  type Run = (int, Core) -> Seen

  function Moved(run: Run, st: Core, e: Effect, p: int, word: string): Seen {
    match e
    case Keep(f) => run(p + 1, st.(f := f))
    case Mark(f, skip) => run(p + 1, Core(f, st.args, if skip then p + 1 else p))
    case Word(f) => run(p + 1, Core(f, st.args + [word], st.start))
    case WordHalt(f, r) => Seen(r, st.args + [word], p + 1)
    case Halt(f, r) => Seen(r, st.args, p + 1)
  }

  ghost predicate StepAt(run: Run, text: string, p: int, st: Core)
    requires 0 <= st.start <= p < |text|
  {
    run(p, st) == Moved(run, st, Scan(st.f, text[p], st.args == []), p, Unescape(text[st.start..p + 1]))
  }

  function Final(st: Core): Result { if st.args != [] || !st.f.lastSpace then UnexpectedEnd else FileDone }

  ghost predicate IsRun(run: Run, text: string) {
    && (forall p: int, st: Core {:trigger StepAt(run, text, p, st)} :: 0 <= st.start <= p < |text| ==> StepAt(run, text, p, st))
    && (forall st: Core {:trigger run(|text|, st)} :: 0 <= st.start <= |text| ==> run(|text|, st) == Seen(Final(st), st.args, |text|))
  }

  const PLAIN := Flags(false, false, false, false, false, false, false)
  const APART := PLAIN.(lastSpace := true)
  const CLOSED := PLAIN.(needSpace := true)

  function InQuotes(q: char, v: bool): Flags {
    if q == '"' then PLAIN.(dQuoted := true, variable := v) else PLAIN.(sQuoted := true, variable := v)
  }

  // A character that only changes the flags.
  lemma Passes(run: Run, text: string, p: int, st: Core, f: Flags)
    requires IsRun(run, text) && 0 <= st.start <= p < |text| && Scan(st.f, text[p], st.args == []) == Keep(f)
    ensures run(p, st) == run(p + 1, st.(f := f))
  {
    assert StepAt(run, text, p, st);
  }

  // A character that begins a word or a comment.
  lemma Marks(run: Run, text: string, p: int, st: Core, f: Flags, skip: bool)
    requires IsRun(run, text) && 0 <= st.start <= p < |text| && Scan(st.f, text[p], st.args == []) == Mark(f, skip)
    ensures run(p, st) == run(p + 1, Core(f, st.args, if skip then p + 1 else p))
  {
    assert StepAt(run, text, p, st);
  }

  // Whatever character comes next, the word before it is w.
  ghost predicate Pending(s: string, w: string) { forall c {:trigger s + [c]} :: Unescape(s + [c]) == w }

  // A character that ends a word.
  lemma EndsWord(run: Run, text: string, p: int, st: Core, f: Flags, w: string)
    requires IsRun(run, text) && 0 <= st.start <= p < |text| && Scan(st.f, text[p], st.args == []) == Word(f)
    requires Unescape(text[st.start..p] + [text[p]]) == w
    ensures run(p, st) == run(p + 1, Core(f, st.args + [w], st.start))
  {
    assert StepAt(run, text, p, st);
    assert text[st.start..p + 1] == text[st.start..p] + [text[p]];
  }

  // A character that ends a word and the token.
  lemma WordStops(run: Run, text: string, p: int, st: Core, f: Flags, r: Result, w: string)
    requires IsRun(run, text) && 0 <= st.start <= p < |text| && Scan(st.f, text[p], st.args == []) == WordHalt(f, r)
    requires Unescape(text[st.start..p] + [text[p]]) == w
    ensures run(p, st) == Seen(r, st.args + [w], p + 1)
  {
    assert StepAt(run, text, p, st);
    assert text[st.start..p + 1] == text[st.start..p] + [text[p]];
  }

  // A character that ends the token.
  lemma Stops(run: Run, text: string, p: int, st: Core, f: Flags, r: Result)
    requires IsRun(run, text) && 0 <= st.start <= p < |text| && Scan(st.f, text[p], st.args == []) == Halt(f, r)
    ensures run(p, st) == Seen(r, st.args, p + 1)
  {
    assert StepAt(run, text, p, st);
  }

  // ---- a walk over a text ----

  // The reader comes to that place, at that offset of the text, with those words.
  type Reach<!P> = (P, int, seq<string>) -> bool

  // From there it goes on over n characters to another place, with more words.
  ghost predicate Goes<P>(reach: Reach<P>, at: P, p: int, words: seq<string>, at': P, n: int, more: seq<string>) {
    reach(at, p, words) ==> reach(at', p + n, words + more)
  }

  // It goes on so over each of the things that a text is made of.
  ghost predicate GoesOn<P(!new), T(!new)>(ok: (P, T) -> bool, after: (P, T) -> P, show: T -> string, tell: T -> seq<string>, reach: Reach<P>, text: string) {
    forall at, p, words, x {:trigger Goes(reach, at, p, words, after(at, x), |show(x)|, tell(x))} ::
      ok(at, x) && Holds(text, p, show(x)) ==> Goes(reach, at, p, words, after(at, x), |show(x)|, tell(x))
  }

  lemma {:induction false} Walk<P(!new), T(!new)>(ok: (P, T) -> bool, after: (P, T) -> P, show: T -> string, tell: T -> seq<string>,
                                                  reach: Reach<P>, text: string, at: P, p: int, words: seq<string>, xs: seq<T>)
    requires GoesOn(ok, after, show, tell, reach, text) && reach(at, p, words)
    requires Chained(ok, after, at, xs) && Holds(text, p, Joined(show, xs))
    ensures Goes(reach, at, p, words, Leads(after, at, xs), |Joined(show, xs)|, Joined(tell, xs))
    decreases |xs|
  {
    if xs == [] {
      assert words + [] == words;
    } else {
      var x, rest := xs[0], xs[1..];
      HoldsBoth(text, p, show(x), Joined(show, rest));
      assert Goes(reach, at, p, words, after(at, x), |show(x)|, tell(x));
      Walk(ok, after, show, tell, reach, text, after(at, x), p + |show(x)|, words + tell(x), rest);
      assert words + tell(x) + Joined(tell, rest) == words + Joined(tell, xs);
    }
  }

  lemma WalkAll<P(!new), T(!new)>(ok: (P, T) -> bool, after: (P, T) -> P, show: T -> string, tell: T -> seq<string>,
                                  reach: Reach<P>, text: string, at: P, p: int, xs: seq<T>)
    requires GoesOn(ok, after, show, tell, reach, text) && reach(at, p, [])
    requires Chained(ok, after, at, xs) && Holds(text, p, Joined(show, xs))
    ensures reach(Leads(after, at, xs), p + |Joined(show, xs)|, Joined(tell, xs))
  {
    Walk(ok, after, show, tell, reach, text, at, p, [], xs);
    assert [] + Joined(tell, xs) == Joined(tell, xs);
  }

  // ---- the pieces of a word ----

  // A piece takes the one set of flags to the other.
  ghost predicate Takes(f: Flags, g: Flags, x: Piece, first: bool) {
    if x.Lit? then Scan(f, x.c, first) == Keep(g) else Scan(f, '\\', first) == Keep(g.(quoted := true)) && !g.quoted && !g.sharp
  }

  lemma BareTakes(v: bool, x: Piece, first: bool)
    requires TailOk(v, x)
    ensures Takes(PLAIN.(variable := v), PLAIN.(variable := Opens(v, x)), x, first)
  {
  }

  lemma QuoteTakes(q: char, v: bool, x: Piece, first: bool)
    requires QuotedOk(q, [x])
    ensures PieceOk(x) && Takes(InQuotes(q, v), InQuotes(q, Opens(v, x)), x, first)
  {
    assert x in [x];
  }

  lemma PieceRun(run: Run, text: string, p: int, st: Core, f: Flags, x: Piece)
    requires IsRun(run, text) && 0 <= st.start <= p && Holds(text, p, PieceText(x)) && Takes(st.f, f, x, st.args == [])
    ensures run(p, st) == run(p + |PieceText(x)|, st.(f := f))
  {
    HoldsAt(text, p, PieceText(x), 0);
    if x.Lit? {
      Passes(run, text, p, st, f);
    } else {
      HoldsAt(text, p, PieceText(x), 1);
      var g := f.(quoted := true);
      Passes(run, text, p, st, g);
      Passes(run, text, p + 1, st.(f := g), f);
    }
  }

  ghost function InPieces(run: Run, goal: Seen, st: Core, flags: bool -> Flags): Reach<bool> {
    (v: bool, p: int, words: seq<string>) => st.start <= p && run(p, st.(f := flags(v))) == goal
  }

  // Every piece that is allowed takes the flags on.
  ghost predicate Taken(ok: (bool, Piece) -> bool, flags: bool -> Flags, first: bool) {
    forall v, x {:trigger ok(v, x)} :: ok(v, x) ==> Takes(flags(v), flags(Opens(v, x)), x, first)
  }

  function Nothing(x: Piece): seq<string> { [] }

  lemma PieceGoes(run: Run, goal: Seen, text: string, st: Core, flags: bool -> Flags, v: bool, p: int, words: seq<string>, x: Piece)
    requires IsRun(run, text) && 0 <= st.start && Takes(flags(v), flags(Opens(v, x)), x, st.args == []) && Holds(text, p, PieceText(x))
    ensures Goes(InPieces(run, goal, st, flags), v, p, words, Opens(v, x), |PieceText(x)|, Nothing(x))
  {
    if InPieces(run, goal, st, flags)(v, p, words) {
      PieceRun(run, text, p, st.(f := flags(v)), flags(Opens(v, x)), x);
    }
  }

  lemma PiecesGo(run: Run, goal: Seen, text: string, st: Core, ok: (bool, Piece) -> bool, flags: bool -> Flags)
    requires IsRun(run, text) && 0 <= st.start && Taken(ok, flags, st.args == [])
    ensures GoesOn(ok, Opens, PieceText, Nothing, InPieces(run, goal, st, flags), text)
  {
    var reach, after: (bool, Piece) -> bool, show: Piece -> string, tell: Piece -> seq<string> := InPieces(run, goal, st, flags), Opens, PieceText, Nothing;
    forall v, p, words, x | ok(v, x) && Holds(text, p, PieceText(x))
      ensures Goes(reach, v, p, words, after(v, x), |show(x)|, tell(x))
    {
      PieceGoes(run, goal, text, st, flags, v, p, words, x);
    }
  }

  lemma PiecesRun(run: Run, text: string, p: int, st: Core, ok: (bool, Piece) -> bool, flags: bool -> Flags, v: bool, xs: seq<Piece>)
    requires IsRun(run, text) && 0 <= st.start <= p && Holds(text, p, Text(xs)) && Taken(ok, flags, st.args == [])
    requires Chained(ok, Opens, v, xs) && st.f == flags(v)
    ensures run(p, st) == run(p + |Text(xs)|, st.(f := flags(Leads(Opens, v, xs))))
  {
    var reach := InPieces(run, run(p, st), st, flags);
    PiecesGo(run, run(p, st), text, st, ok, flags);
    assert st.(f := flags(v)) == st;
    WalkAll(ok, Opens, PieceText, Nothing, reach, text, v, p, xs);
  }

  lemma BareRun(run: Run, text: string, p: int, st: Core, xs: seq<Piece>)
    requires IsRun(run, text) && 0 <= st.start <= p && Holds(text, p, Text(xs)) && Chained(TailOk, Opens, false, xs) && st.f == PLAIN
    ensures run(p, st) == run(p + |Text(xs)|, st.(f := PLAIN.(variable := Leads(Opens, false, xs))))
  {
    var flags, ok: (bool, Piece) -> bool := v => PLAIN.(variable := v), TailOk;
    forall v, x | ok(v, x) ensures Takes(flags(v), flags(Opens(v, x)), x, st.args == []) { BareTakes(v, x, st.args == []); }
    PiecesRun(run, text, p, st, ok, flags, false, xs);
  }

  lemma QuotedRun(run: Run, text: string, p: int, st: Core, q: char, xs: seq<Piece>)
    requires IsRun(run, text) && 0 <= st.start <= p && Holds(text, p, Text(xs)) && QuotedOk(q, xs) && st.f == InQuotes(q, false)
    ensures run(p, st) == run(p + |Text(xs)|, st.(f := InQuotes(q, Leads(Opens, false, xs))))
  {
    var ok, flags := (v: bool, x: Piece) => QuotedOk(q, [x]), v => InQuotes(q, v);
    forall v, x | ok(v, x) ensures Takes(flags(v), flags(Opens(v, x)), x, st.args == []) { QuoteTakes(q, v, x, st.args == []); }
    QuotedChained(q, ok, false, xs);
    PiecesRun(run, text, p, st, ok, flags, false, xs);
  }

  lemma {:induction false} QuotedChained(q: char, ok: (bool, Piece) -> bool, v: bool, xs: seq<Piece>)
    requires QuotedOk(q, xs) && forall v, x {:trigger ok(v, x)} :: ok(v, x) <==> QuotedOk(q, [x])
    ensures Chained(ok, Opens, v, xs)
    decreases |xs|
  {
    if xs != [] {
      assert QuotedOk(q, [xs[0]]);
      assert ok(v, xs[0]);
      QuotedChained(q, ok, Opens(v, xs[0]), xs[1..]);
    }
  }

  // ---- parts ----

  // The first piece of a bare word.
  lemma HeadRun(run: Run, text: string, p: int, st: Core, x: Piece)
    requires IsRun(run, text) && 0 <= st.start <= p && Holds(text, p, PieceText(x)) && HeadOk(x)
    requires st.f == APART || (st.f == CLOSED && x == Lit(')'))
    ensures run(p, st) == run(p + |PieceText(x)|, Core(PLAIN, st.args, p))
  {
    HoldsAt(text, p, PieceText(x), 0);
    if x.Lit? {
      Marks(run, text, p, st, PLAIN, false);
    } else {
      var f := PLAIN.(quoted := true);
      Marks(run, text, p, st, f, false);
      Passes(run, text, p + 1, Core(f, st.args, p), PLAIN);
    }
  }

  lemma BareMoves(run: Run, text: string, p: int, st: Core, xs: seq<Piece>)
    requires IsRun(run, text) && 0 <= st.start <= p && BareOk(xs) && Holds(text, p, Text(xs))
    requires st.f == APART || (st.f == CLOSED && xs[0] == Lit(')'))
    ensures run(p, st) == run(p + |Text(xs)|, Core(PLAIN.(variable := EndsOpen(xs)), st.args, p))
  {
    var a, b := PieceText(xs[0]), Text(xs[1..]);
    assert Text(xs) == a + b;
    HoldsBoth(text, p, a, b);
    HeadRun(run, text, p, st, xs[0]);
    BareRun(run, text, p + |a|, Core(PLAIN, st.args, p), xs[1..]);
  }

  lemma BarePending(xs: seq<Piece>)
    requires BareOk(xs)
    ensures Pending(Text(xs), Spelled(xs))
  {
    TailPieces(false, xs[1..]);
    forall c {:trigger Text(xs) + [c]} ensures Unescape(Text(xs) + [c]) == Spelled(xs) { Decoded(xs, c); }
  }

  lemma {:induction false} TailPieces(v: bool, xs: seq<Piece>)
    requires Chained(TailOk, Opens, v, xs)
    ensures forall x :: x in xs ==> PieceOk(x)
    decreases |xs|
  {
    if xs != [] {
      TailPieces(Opens(v, xs[0]), xs[1..]);
      assert TailOk(v, xs[0]);
    }
  }

  // Up to the closing quote.
  lemma InsideQuotes(run: Run, text: string, p: int, st: Core, q: char, xs: seq<Piece>)
    requires IsRun(run, text) && 0 <= st.start <= p && st.f == APART && QuotedOk(q, xs) && Holds(text, p, [q] + Text(xs))
    ensures run(p, st) == run(p + 1 + |Text(xs)|, Core(InQuotes(q, Leads(Opens, false, xs)), st.args, p + 1))
  {
    HoldsBoth(text, p, [q], Text(xs));
    HoldsAt(text, p, [q], 0);
    Marks(run, text, p, st, InQuotes(q, false), true);
    QuotedRun(run, text, p + 1, Core(InQuotes(q, false), st.args, p + 1), q, xs);
  }

  lemma ClosesQuote(run: Run, text: string, p: int, st: Core, q: char, v: bool, w: string)
    requires IsRun(run, text) && 0 <= st.start <= p && st.f == InQuotes(q, v) && (q == '"' || q == '\'') && Holds(text, p, [q])
    requires Unescape(text[st.start..p] + [q]) == w
    ensures run(p, st) == run(p + 1, Core(CLOSED, st.args + [w], st.start))
  {
    HoldsAt(text, p, [q], 0);
    EndsWord(run, text, p, st, CLOSED, w);
  }

  lemma QuoteMoves(run: Run, text: string, p: int, st: Core, q: char, xs: seq<Piece>)
    requires IsRun(run, text) && 0 <= st.start <= p && st.f == APART && QuotedOk(q, xs) && Holds(text, p, [q] + Text(xs) + [q])
    ensures run(p, st) == run(p + |Text(xs)| + 2, Core(CLOSED, st.args + [Spelled(xs)], p + 1))
  {
    var b, v := Text(xs), Leads(Opens, false, xs);
    HoldsBoth(text, p, [q] + b, [q]);
    InsideQuotes(run, text, p, st, q, xs);
    assert text[p + 1..p + 1 + |b|] == b by { HoldsBoth(text, p, [q], b); }
    Decoded(xs, q);
    ClosesQuote(run, text, p + 1 + |b|, Core(InQuotes(q, v), st.args, p + 1), q, v, Spelled(xs));
  }

  lemma {:induction false} CommentRun(run: Run, text: string, p: int, st: Core, s: string)
    requires IsRun(run, text) && 0 <= st.start <= p && Holds(text, p, s) && '\n' !in s && st.f == APART.(sharp := true)
    ensures run(p, st) == run(p + |s|, st)
    decreases |s|
  {
    if s != [] {
      assert s == [s[0]] + s[1..];
      HoldsBoth(text, p, [s[0]], s[1..]);
      HoldsAt(text, p, s, 0);
      Passes(run, text, p, st, st.f);
      CommentRun(run, text, p + 1, st, s[1..]);
    }
  }

  // Up to the end of the line.
  lemma InsideComment(run: Run, text: string, p: int, st: Core, s: string)
    requires IsRun(run, text) && 0 <= st.start <= p && st.f == APART && '\n' !in s && Holds(text, p, "#" + s)
    ensures run(p, st) == run(p + 1 + |s|, Core(APART.(sharp := true), st.args, p))
  {
    HoldsBoth(text, p, "#", s);
    HoldsAt(text, p, "#", 0);
    Marks(run, text, p, st, APART.(sharp := true), false);
    CommentRun(run, text, p + 1, Core(APART.(sharp := true), st.args, p), s);
  }

  lemma CommentMoves(run: Run, text: string, p: int, st: Core, s: string)
    requires IsRun(run, text) && 0 <= st.start <= p && st.f == APART && '\n' !in s && Holds(text, p, "#" + s + "\n")
    ensures run(p, st) == run(p + |s| + 2, Core(APART, st.args, p))
  {
    HoldsBoth(text, p, "#" + s, "\n");
    InsideComment(run, text, p, st, s);
    HoldsAt(text, p + 1 + |s|, "\n", 0);
    Passes(run, text, p + 1 + |s|, Core(APART.(sharp := true), st.args, p), APART);
  }

  // The reader at a place of the text, with those words read or, behind a bare word, about to be.
  ghost predicate Reads(at: Place, text: string, p: int, st: Core, words: seq<string>) {
    && 0 <= st.start <= p <= |text|
    && match at
       case Between => st.f == APART && st.args == words
       case BehindQuote => st.f == CLOSED && st.args == words && words != []
       case BehindBare(open) => st.f == PLAIN.(variable := open) && words != [] && st.args == words[..|words| - 1] && Pending(text[st.start..p], words[|words| - 1])
  }

  // The reader goes over a part.
  ghost predicate Runs(run: Run, text: string, p: int, st: Core, at: Place, words: seq<string>, x: Part, t: Core) {
    run(p, st) == run(p + |PartText(x)|, t) && Reads(After(at, x), text, p + |PartText(x)|, t, words + PartWords(x))
  }

  lemma SpaceRuns(run: Run, text: string, p: int, st: Core, at: Place, words: seq<string>, c: char) returns (t: Core)
    requires IsRun(run, text) && Reads(at, text, p, st, words) && Blank(c) && Holds(text, p, [c])
    ensures Runs(run, text, p, st, at, words, Space(c), t)
  {
    HoldsAt(text, p, [c], 0);
    assert words + [] == words;
    if at.BehindBare? {
      var w := words[|words| - 1];
      assert words == st.args + [w];
      EndsWord(run, text, p, st, APART, w);
      t := Core(APART, st.args + [w], st.start);
    } else {
      Passes(run, text, p, st, APART);
      t := st.(f := APART);
    }
  }

  lemma CommentRuns(run: Run, text: string, p: int, st: Core, words: seq<string>, s: string) returns (t: Core)
    requires IsRun(run, text) && Reads(Between, text, p, st, words) && '\n' !in s && Holds(text, p, "#" + s + "\n")
    ensures Runs(run, text, p, st, Between, words, Comment(s), t)
  {
    CommentMoves(run, text, p, st, s);
    assert words + [] == words;
    t := Core(APART, st.args, p);
  }

  lemma BareRuns(run: Run, text: string, p: int, st: Core, at: Place, words: seq<string>, xs: seq<Piece>) returns (t: Core)
    requires IsRun(run, text) && Reads(at, text, p, st, words) && PartOk(at, Bare(xs)) && Holds(text, p, Text(xs))
    ensures Runs(run, text, p, st, at, words, Bare(xs), t)
  {
    BareMoves(run, text, p, st, xs);
    t := Core(PLAIN.(variable := EndsOpen(xs)), st.args, p);
    BarePending(xs);
    BareReads(text, p, t, words, Text(xs), Spelled(xs), EndsOpen(xs));
  }

  lemma BareReads(text: string, p: int, st: Core, words: seq<string>, s: string, w: string, open: bool)
    requires st.start == p && Holds(text, p, s) && Pending(s, w) && st.f == PLAIN.(variable := open) && st.args == words
    ensures Reads(BehindBare(open), text, p + |s|, st, words + [w])
  {
    assert (words + [w])[..|words|] == words;
  }

  lemma QuotedRuns(run: Run, text: string, p: int, st: Core, words: seq<string>, q: char, xs: seq<Piece>) returns (t: Core)
    requires IsRun(run, text) && Reads(Between, text, p, st, words) && QuotedOk(q, xs) && Holds(text, p, [q] + Text(xs) + [q])
    ensures Runs(run, text, p, st, Between, words, Quoted(q, xs), t)
  {
    QuoteMoves(run, text, p, st, q, xs);
    t := Core(CLOSED, st.args + [Spelled(xs)], p + 1);
  }

  lemma PartRun(run: Run, text: string, p: int, st: Core, at: Place, words: seq<string>, x: Part) returns (t: Core)
    requires IsRun(run, text) && Reads(at, text, p, st, words) && PartOk(at, x) && Holds(text, p, PartText(x))
    ensures Runs(run, text, p, st, at, words, x, t)
  {
    match x
    case Space(c) => t := SpaceRuns(run, text, p, st, at, words, c);
    case Comment(s) => t := CommentRuns(run, text, p, st, words, s);
    case Bare(xs) => t := BareRuns(run, text, p, st, at, words, xs);
    case Quoted(q, xs) => t := QuotedRuns(run, text, p, st, words, q, xs);
  }

  ghost predicate Arrives(run: Run, text: string, goal: Seen, at: Place, p: int, words: seq<string>, st: Core) {
    Reads(at, text, p, st, words) && run(p, st) == goal
  }

  ghost predicate Reached(run: Run, text: string, goal: Seen, at: Place, p: int, words: seq<string>) {
    exists st: Core :: Arrives(run, text, goal, at, p, words, st)
  }

  ghost function Reaching(run: Run, text: string, goal: Seen): Reach<Place> {
    (at: Place, p: int, words: seq<string>) => Reached(run, text, goal, at, p, words)
  }

  lemma PartGoes(run: Run, text: string, goal: Seen, at: Place, p: int, words: seq<string>, x: Part)
    requires IsRun(run, text) && PartOk(at, x) && Holds(text, p, PartText(x))
    ensures Goes(Reaching(run, text, goal), at, p, words, After(at, x), |PartText(x)|, PartWords(x))
  {
    if Reached(run, text, goal, at, p, words) {
      var st :| Arrives(run, text, goal, at, p, words, st);
      var t := PartRun(run, text, p, st, at, words, x);
      assert Arrives(run, text, goal, After(at, x), p + |PartText(x)|, words + PartWords(x), t);
    }
  }

  lemma PartsGo(run: Run, text: string, goal: Seen)
    requires IsRun(run, text)
    ensures GoesOn(PartOk, After, PartText, PartWords, Reaching(run, text, goal), text)
  {
    var reach, after: (Place, Part) -> Place, show: Part -> string, tell: Part -> seq<string> := Reaching(run, text, goal), After, PartText, PartWords;
    forall at, p, words, x | PartOk(at, x) && Holds(text, p, PartText(x))
      ensures Goes(reach, at, p, words, after(at, x), |show(x)|, tell(x))
    {
      PartGoes(run, text, goal, at, p, words, x);
    }
  }

  lemma WalkParts(reach: Reach<Place>, text: string, p: int, xs: seq<Part>)
    requires GoesOn(PartOk, After, PartText, PartWords, reach, text) && reach(Between, p, [])
    requires Fine(Between, xs) && Holds(text, p, Written(xs))
    ensures reach(End(Between, xs), p + |Written(xs)|, Words(xs))
  {
    WalkAll(PartOk, After, PartText, PartWords, reach, text, Between, p, xs);
  }

  // Where the reader is when it has read the parts.
  lemma Arrive(run: Run, text: string, p: int, xs: seq<Part>) returns (st: Core)
    requires IsRun(run, text) && Fine(Between, xs) && Holds(text, p, Written(xs))
    ensures Reads(End(Between, xs), text, p + |Written(xs)|, st, Words(xs))
    ensures run(p, Core(APART, [], p)) == run(p + |Written(xs)|, st)
  {
    var goal := run(p, Core(APART, [], p));
    assert Arrives(run, text, goal, Between, p, [], Core(APART, [], p));
    PartsGo(run, text, goal);
    WalkParts(Reaching(run, text, goal), text, p, xs);
    assert Reached(run, text, goal, End(Between, xs), p + |Written(xs)|, Words(xs));
    st :| Arrives(run, text, goal, End(Between, xs), p + |Written(xs)|, Words(xs), st);
  }

  // ---- the reader itself ----

  ghost function Sight(o: Outcome): Seen { Seen(o.result, o.args, o.pos) }

  ghost function Reading(lang: Language, text: string): Run {
    (p: int, st: Core) => if 0 <= st.start <= p <= |text| then Sight(Whole(lang, text, p, State(st.f, st.args, st.start, 0, 0))) else Seen(Ok, [], 0)
  }

  // The lines make no difference to anything else.
  lemma {:induction false} LinesApart(lang: Language, text: string, p: int, a: State, b: State)
    requires 0 <= a.start <= p <= |text| && b.f == a.f && b.args == a.args && b.start == a.start
    ensures Sight(Whole(lang, text, p, a)) == Sight(Whole(lang, text, p, b))
    decreases |text| - p
  {
    if p < |text| {
      var span := text[a.start..p + 1];
      match Advance(lang, a, text[p], p, span)
      case Stop(_, _) =>
      case More(s) =>
        StartMoves(lang, a, text[p], p, span);
        LinesApart(lang, text, p + 1, s, Advance(lang, b, text[p], p, span).st);
    }
  }

  lemma OneStep(lang: Language, text: string, p: int, st: Core)
    requires 0 <= st.start <= p < |text|
    ensures var run := Reading(lang, text); run(p, st) == Moved(run, st, lang.scan(st.f, text[p], st.args == []), p, lang.decode(text[st.start..p + 1]))
  {
    var span, a := text[st.start..p + 1], State(st.f, st.args, st.start, 0, 0);
    match Advance(lang, a, text[p], p, span)
    case Stop(_, _) =>
    case More(s) =>
      StartMoves(lang, a, text[p], p, span);
      LinesApart(lang, text, p + 1, s, s.(line := 0, startLine := 0));
  }

  // To read a text is to run over it.
  lemma ReadingRuns(text: string)
    ensures IsRun(Reading(Conf(), text), text)
  {
    var run := Reading(Conf(), text);
    forall p: int, st: Core | 0 <= st.start <= p < |text| ensures StepAt(run, text, p, st) { OneStep(Conf(), text, p, st); }
  }
}
