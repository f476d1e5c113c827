/** What ngx_conf_read_token of src/core/ngx_conf_file.c makes of a written text: of any text that holds
    those parts from offset p on. */
module ConfLaws {
  import opened ConfLexer
  import opened ConfSpan
  import opened ConfText
  import opened ConfRun

  // Words and their end: a simple directive, or the beginning of a block.
  lemma Directive(text: string, p: int, line: int, xs: seq<Part>, t: char)
    requires Fine(Between, xs) && Words(xs) != [] && (t == ';' || t == '{') && Holds(text, p, Written(xs) + [t])
    requires t == '{' ==> End(Between, xs) != BehindBare(true)
    ensures Whole(Conf(), text, p, Begin(p, line)) ==
      Outcome(if t == ';' then Ok else BlockStart, Words(xs), p + |Written(xs)| + 1, line + Lines(Written(xs)))
  {
    ReadingRuns(text);
    Closed(Reading(Conf(), text), text, p, xs, t);
    ThenOne(text, p, line, Written(xs), t);
  }

  // The end of a directive without a word before it.
  lemma NoWords(text: string, p: int, line: int, xs: seq<Part>, t: char)
    requires Fine(Between, xs) && Words(xs) == [] && (t == ';' || t == '{') && Holds(text, p, Written(xs) + [t])
    ensures Whole(Conf(), text, p, Begin(p, line)) == Outcome(Unexpected(t), [], p + |Written(xs)| + 1, line + Lines(Written(xs)))
  {
    ReadingRuns(text);
    Refused(Reading(Conf(), text), text, p, xs, t);
    ThenOne(text, p, line, Written(xs), t);
  }

  // A closing brace that is no part of a bare word ends a block if no word comes before it.
  lemma BlockEnd(text: string, p: int, line: int, xs: seq<Part>)
    requires Fine(Between, xs) && !End(Between, xs).BehindBare? && Holds(text, p, Written(xs) + ['}'])
    ensures Whole(Conf(), text, p, Begin(p, line)) ==
      Outcome(if Words(xs) == [] then BlockDone else Unexpected('}'), Words(xs), p + |Written(xs)| + 1, line + Lines(Written(xs)))
  {
    ReadingRuns(text);
    Braced(Reading(Conf(), text), text, p, xs);
    ThenOne(text, p, line, Written(xs), '}');
  }

  // What may not follow a quote.
  lemma QuoteEnd(text: string, p: int, line: int, xs: seq<Part>, c: char)
    requires Fine(Between, xs) && End(Between, xs) == BehindQuote && !Blank(c) && c !in ";{)" && Holds(text, p, Written(xs) + [c])
    ensures Whole(Conf(), text, p, Begin(p, line)) == Outcome(Unexpected(c), Words(xs), p + |Written(xs)| + 1, line + Lines(Written(xs)))
  {
    ReadingRuns(text);
    Stuck(Reading(Conf(), text), text, p, xs, c);
    ThenOne(text, p, line, Written(xs), c);
  }

  // The words that are complete where the text ends: all but a bare one just before the end.
  function Complete(at: Place, words: seq<string>): seq<string> {
    if at.BehindBare? && words != [] then words[..|words| - 1] else words
  }

  // The end of the text.
  lemma TextEnd(text: string, p: int, line: int, xs: seq<Part>)
    requires Fine(Between, xs) && Holds(text, p, Written(xs)) && p + |Written(xs)| == |text|
    ensures Whole(Conf(), text, p, Begin(p, line)) ==
      Outcome(if Words(xs) == [] then FileDone else UnexpectedEnd, Complete(End(Between, xs), Words(xs)), |text|, line + Lines(Written(xs)))
  {
    ReadingRuns(text);
    Ended(Reading(Conf(), text), text, p, xs);
    AllOf(text, p, line, Written(xs));
  }

  // The end of the text inside a comment.
  lemma CommentEnd(text: string, p: int, line: int, xs: seq<Part>, s: string)
    requires Fine(Between, xs) && End(Between, xs) == Between && '\n' !in s
    requires Holds(text, p, Written(xs) + ("#" + s)) && p + |Written(xs)| + 1 + |s| == |text|
    ensures Whole(Conf(), text, p, Begin(p, line)) ==
      Outcome(if Words(xs) == [] then FileDone else UnexpectedEnd, Words(xs), |text|, line + Lines(Written(xs)))
  {
    ReadingRuns(text);
    EndedInComment(Reading(Conf(), text), text, p, xs, s);
    AllOf(text, p, line, Written(xs) + ("#" + s));
    LinesSum(Written(xs), "#" + s);
    NoLines("#" + s);
  }

  // The end of the text inside quotes.
  lemma OpenEnd(text: string, p: int, line: int, xs: seq<Part>, q: char, ys: seq<Piece>)
    requires Fine(Between, xs) && End(Between, xs) == Between && QuotedOk(q, ys)
    requires Holds(text, p, Written(xs) + ([q] + Text(ys))) && p + |Written(xs)| + 1 + |Text(ys)| == |text|
    ensures Whole(Conf(), text, p, Begin(p, line)) == Outcome(UnexpectedEnd, Words(xs), |text|, line + Lines(Written(xs)) + Lines(Text(ys)))
  {
    ReadingRuns(text);
    EndedInQuotes(Reading(Conf(), text), text, p, xs, q, ys);
    AllOf(text, p, line, Written(xs) + ([q] + Text(ys)));
    LinesSum(Written(xs), [q] + Text(ys));
    LinesSum([q], Text(ys));
    NoLines([q]);
  }

  // ---- the lines ----

  lemma AllOf(text: string, p: int, line: int, s: string)
    requires Holds(text, p, s)
    ensures var o := Whole(Conf(), text, p, Begin(p, line)); o.pos == p + |s| ==> o.line == line + Lines(s)
    ensures Reading(Conf(), text)(p, Core(APART, [], p)) == Sight(Whole(Conf(), text, p, Begin(p, line)))
  {
    WholeLine(Conf(), text, p, Begin(p, line));
    LinesApart(Conf(), text, p, Begin(p, line), Begin(p, 0));
  }

  lemma ThenOne(text: string, p: int, line: int, s: string, t: char)
    requires Holds(text, p, s + [t]) && t != '\n'
    ensures var o := Whole(Conf(), text, p, Begin(p, line)); o.pos == p + |s| + 1 ==> o.line == line + Lines(s)
    ensures Reading(Conf(), text)(p, Core(APART, [], p)) == Sight(Whole(Conf(), text, p, Begin(p, line)))
  {
    AllOf(text, p, line, s + [t]);
    LinesSum(s, [t]);
    NoLines([t]);
  }

  // ---- every run over the text ----

  lemma Closed(run: Run, text: string, p: int, xs: seq<Part>, t: char)
    requires IsRun(run, text) && Fine(Between, xs) && Words(xs) != [] && (t == ';' || t == '{') && Holds(text, p, Written(xs) + [t])
    requires t == '{' ==> End(Between, xs) != BehindBare(true)
    ensures run(p, Core(APART, [], p)) == Seen(if t == ';' then Ok else BlockStart, Words(xs), p + |Written(xs)| + 1)
  {
    HoldsThen(text, p, Written(xs), t);
    var st := Arrive(run, text, p, xs);
    AtClose(run, text, p + |Written(xs)|, st, End(Between, xs), Words(xs), t);
  }

  lemma Refused(run: Run, text: string, p: int, xs: seq<Part>, t: char)
    requires IsRun(run, text) && Fine(Between, xs) && Words(xs) == [] && (t == ';' || t == '{') && Holds(text, p, Written(xs) + [t])
    ensures run(p, Core(APART, [], p)) == Seen(Unexpected(t), [], p + |Written(xs)| + 1)
  {
    HoldsThen(text, p, Written(xs), t);
    var st := Arrive(run, text, p, xs);
    AtEmpty(run, text, p + |Written(xs)|, st, End(Between, xs), Words(xs), t);
  }

  lemma Braced(run: Run, text: string, p: int, xs: seq<Part>)
    requires IsRun(run, text) && Fine(Between, xs) && !End(Between, xs).BehindBare? && Holds(text, p, Written(xs) + ['}'])
    ensures run(p, Core(APART, [], p)) == Seen(if Words(xs) == [] then BlockDone else Unexpected('}'), Words(xs), p + |Written(xs)| + 1)
  {
    HoldsThen(text, p, Written(xs), '}');
    var st := Arrive(run, text, p, xs);
    AtBrace(run, text, p + |Written(xs)|, st, End(Between, xs), Words(xs));
  }

  lemma Stuck(run: Run, text: string, p: int, xs: seq<Part>, c: char)
    requires IsRun(run, text) && Fine(Between, xs) && End(Between, xs) == BehindQuote && !Blank(c) && c !in ";{)" && Holds(text, p, Written(xs) + [c])
    ensures run(p, Core(APART, [], p)) == Seen(Unexpected(c), Words(xs), p + |Written(xs)| + 1)
  {
    HoldsThen(text, p, Written(xs), c);
    var st := Arrive(run, text, p, xs);
    AtQuote(run, text, p + |Written(xs)|, st, Words(xs), c);
  }

  lemma Ended(run: Run, text: string, p: int, xs: seq<Part>)
    requires IsRun(run, text) && Fine(Between, xs) && Holds(text, p, Written(xs)) && p + |Written(xs)| == |text|
    ensures run(p, Core(APART, [], p)) == Seen(if Words(xs) == [] then FileDone else UnexpectedEnd, Complete(End(Between, xs), Words(xs)), |text|)
  {
    var st := Arrive(run, text, p, xs);
    AtTextEnd(run, text, st, End(Between, xs), Words(xs));
  }

  lemma EndedInComment(run: Run, text: string, p: int, xs: seq<Part>, s: string)
    requires IsRun(run, text) && Fine(Between, xs) && End(Between, xs) == Between && '\n' !in s
    requires Holds(text, p, Written(xs) + ("#" + s)) && p + |Written(xs)| + 1 + |s| == |text|
    ensures run(p, Core(APART, [], p)) == Seen(if Words(xs) == [] then FileDone else UnexpectedEnd, Words(xs), |text|)
  {
    HoldsBoth(text, p, Written(xs), "#" + s);
    var st := Arrive(run, text, p, xs);
    InsideComment(run, text, p + |Written(xs)|, st, s);
  }

  lemma EndedInQuotes(run: Run, text: string, p: int, xs: seq<Part>, q: char, ys: seq<Piece>)
    requires IsRun(run, text) && Fine(Between, xs) && End(Between, xs) == Between && QuotedOk(q, ys)
    requires Holds(text, p, Written(xs) + ([q] + Text(ys))) && p + |Written(xs)| + 1 + |Text(ys)| == |text|
    ensures run(p, Core(APART, [], p)) == Seen(UnexpectedEnd, Words(xs), |text|)
  {
    HoldsBoth(text, p, Written(xs), [q] + Text(ys));
    var st := Arrive(run, text, p, xs);
    InsideQuotes(run, text, p + |Written(xs)|, st, q, ys);
  }

  // ---- the last character ----

  lemma HoldsThen(text: string, p: int, s: string, t: char)
    requires Holds(text, p, s + [t])
    ensures Holds(text, p, s) && p + |s| < |text| && text[p + |s|] == t
  {
    HoldsBoth(text, p, s, [t]);
    HoldsAt(text, p, s + [t], |s|);
  }

  lemma AtClose(run: Run, text: string, p: int, st: Core, at: Place, words: seq<string>, t: char)
    requires IsRun(run, text) && Reads(at, text, p, st, words) && p < |text| && text[p] == t && words != []
    requires (t == ';' || t == '{') && (t == '{' ==> at != BehindBare(true))
    ensures run(p, st) == Seen(if t == ';' then Ok else BlockStart, words, p + 1)
  {
    var r := if t == ';' then Ok else BlockStart;
    if at.BehindBare? {
      var w := words[|words| - 1];
      WordStops(run, text, p, st, APART, r, w);
      assert words == st.args + [w];
    } else {
      Stops(run, text, p, st, st.f, r);
    }
  }

  lemma AtEmpty(run: Run, text: string, p: int, st: Core, at: Place, words: seq<string>, t: char)
    requires IsRun(run, text) && Reads(at, text, p, st, words) && p < |text| && text[p] == t && words == [] && (t == ';' || t == '{')
    ensures run(p, st) == Seen(Unexpected(t), [], p + 1)
  {
    Stops(run, text, p, st, st.f, Unexpected(t));
  }

  lemma AtBrace(run: Run, text: string, p: int, st: Core, at: Place, words: seq<string>)
    requires IsRun(run, text) && Reads(at, text, p, st, words) && p < |text| && text[p] == '}' && !at.BehindBare?
    ensures run(p, st) == Seen(if words == [] then BlockDone else Unexpected('}'), words, p + 1)
  {
    Stops(run, text, p, st, st.f, if words == [] then BlockDone else Unexpected('}'));
  }

  lemma AtQuote(run: Run, text: string, p: int, st: Core, words: seq<string>, c: char)
    requires IsRun(run, text) && Reads(BehindQuote, text, p, st, words) && p < |text| && text[p] == c && !Blank(c) && c !in ";{)"
    ensures run(p, st) == Seen(Unexpected(c), words, p + 1)
  {
    Stops(run, text, p, st, st.f, Unexpected(c));
  }

  lemma AtTextEnd(run: Run, text: string, st: Core, at: Place, words: seq<string>)
    requires IsRun(run, text) && Reads(at, text, |text|, st, words)
    ensures run(|text|, st) == Seen(if words == [] then FileDone else UnexpectedEnd, Complete(at, words), |text|)
  {
  }

  // ---- any words can be written ----

  // A word with a backslash before each double quote and each backslash.
  function Escaped(w: string): seq<Piece> {
    if w == "" then [] else [if w[0] == '"' || w[0] == '\\' then Esc(w[0]) else Lit(w[0])] + Escaped(w[1..])
  }

  lemma {:induction false} EscapedSpells(w: string)
    ensures Spelled(Escaped(w)) == w && PartOk(Between, Quoted('"', Escaped(w)))
  {
    if w != "" {
      EscapedSpells(w[1..]);
      assert Escaped(w)[1..] == Escaped(w[1..]);
    }
  }

  // Words in double quotes, a blank before each.
  function Listed(words: seq<string>): seq<Part> {
    if words == [] then [] else [Space(' '), Quoted('"', Escaped(words[0]))] + Listed(words[1..])
  }

  lemma TwoMore(at: Place, x: Part, y: Part, rest: seq<Part>)
    requires PartOk(at, x) && PartOk(After(at, x), y) && Fine(After(After(at, x), y), rest)
    ensures var xs := [x, y] + rest;
      Fine(at, xs) && Words(xs) == PartWords(x) + PartWords(y) + Words(rest) && End(at, xs) == End(After(After(at, x), y), rest)
  {
    ChainedCons(PartOk, After, After(at, x), y, rest);
    JoinedCons(PartWords, y, rest);
    ChainedCons(PartOk, After, at, x, [y] + rest);
    JoinedCons(PartWords, x, [y] + rest);
    assert [x] + ([y] + rest) == [x, y] + rest;
    assert PartWords(x) + (PartWords(y) + Words(rest)) == PartWords(x) + PartWords(y) + Words(rest);
  }

  lemma {:induction false} AnyWords(words: seq<string>, at: Place)
    ensures Fine(at, Listed(words)) && Words(Listed(words)) == words && (words != [] ==> End(at, Listed(words)) == BehindQuote)
    decreases |words|
  {
    if words != [] {
      var xs, x, rest := Listed(words), Quoted('"', Escaped(words[0])), Listed(words[1..]);
      AnyWords(words[1..], BehindQuote);
      EscapedSpells(words[0]);
      TwoMore(at, Space(' '), x, rest);
      assert xs == [Space(' '), x] + rest;
    }
  }
}
