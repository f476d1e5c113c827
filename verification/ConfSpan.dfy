/** Stretches of a text, and what src/core/ngx_conf_file.c counts and decodes in them. */
module ConfSpan {
  import opened ConfLexer

  // The text holds s from offset p on.
  ghost predicate Holds(text: string, p: int, s: string) { 0 <= p && p + |s| <= |text| && text[p..p + |s|] == s }

  lemma HoldsAt(text: string, p: int, s: string, i: int)
    requires Holds(text, p, s) && 0 <= i < |s|
    ensures text[p + i] == s[i]
  {
    assert text[p..p + |s|][i] == text[p + i];
  }

  lemma HoldsBoth(text: string, p: int, a: string, b: string)
    requires Holds(text, p, a + b)
    ensures Holds(text, p, a) && Holds(text, p + |a|, b)
  {
    assert text[p..p + |a|] == (a + b)[..|a|];
    assert text[p + |a|..p + |a| + |b|] == (a + b)[|a|..];
  }

  // ---- lines ----

  // The newlines of a text.
  function Lines(s: string): nat { if s == [] then 0 else (if s[0] == '\n' then 1 else 0) + Lines(s[1..]) }

  lemma {:induction false} LinesSum(a: string, b: string)
    ensures Lines(a + b) == Lines(a) + Lines(b)
  {
    if a == [] {
      assert a + b == b;
    } else {
      LinesSum(a[1..], b);
      assert (a + b)[1..] == a[1..] + b;
    }
  }

  lemma {:induction false} NoLines(s: string)
    requires '\n' !in s
    ensures Lines(s) == 0
  {
    if s != [] {
      NoLines(s[1..]);
    }
  }

  // The line of a token is the one it begins in, and the newlines passed.
  lemma {:induction false} WholeLine(lang: Language, text: string, p: int, st: State)
    requires 0 <= st.start <= p <= |text|
    ensures var o := Whole(lang, text, p, st); p <= o.pos <= |text| && o.line == st.line + Lines(text[p..o.pos])
    decreases |text| - p
  {
    if p < |text| {
      var o := Whole(lang, text, p, st);
      match Advance(lang, st, text[p], p, text[st.start..p + 1])
      case Stop(_, s) =>
        OneLine(text, p);
      case More(s) =>
        StartMoves(lang, st, text[p], p, text[st.start..p + 1]);
        WholeLine(lang, text, p + 1, s);
        OneLine(text, p);
        LinesSum(text[p..p + 1], text[p + 1..o.pos]);
        assert text[p..o.pos] == text[p..p + 1] + text[p + 1..o.pos];
    }
  }

  lemma OneLine(text: string, p: int)
    requires 0 <= p < |text|
    ensures Lines(text[p..p + 1]) == if text[p] == '\n' then 1 else 0
  {
    assert text[p..p + 1] == [text[p]] && [text[p]][1..] == [];
  }

  // ---- escapes ----

  lemma DecodedLit(c: char, rest: string)
    requires c != '\\' && rest != []
    ensures Unescape([c] + rest) == [c] + Unescape(rest)
  {
    assert ([c] + rest)[1..] == rest;
  }

  lemma DecodedEsc(c: char, e: char, rest: string)
    requires (e == c && c in "\"'\\") || (e == 't' && c == '\t') || (e == 'r' && c == '\r') || (e == 'n' && c == '\n')
    requires rest != []
    ensures Unescape(['\\', e] + rest) == [c] + Unescape(rest)
  {
    assert (['\\', e] + rest)[2..] == rest;
  }

  lemma DecodedKept(c: char, rest: string)
    requires c !in "\"'\\trn" && rest != []
    ensures Unescape(['\\', c] + rest) == ['\\', c] + Unescape(rest)
  {
    var s := ['\\', c] + rest;
    assert s[1..] == [c] + rest;
    DecodedLit(c, rest);
    assert s[0] == '\\' && s[1] == c;
    assert Unescape(s) == ['\\'] + Unescape(s[1..]);
    assert ['\\'] + ([c] + Unescape(rest)) == ['\\', c] + Unescape(rest);
  }
}
