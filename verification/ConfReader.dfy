/** ngx_conf_read_token of src/core/ngx_conf_file.c: a text read through a buffer of 4096 characters
    that slides over it. */
module ConfReader {
  import opened ConfLexer

  const BUFFER := 4096

  class ConfFile {
    const text: string
    const buffer: array<char>
    var pos: int
    var last: int
    var offset: int
    var line: int

    // The buffer holds the text up to "offset", which is its position "last".
    ghost predicate Valid() reads this, buffer {
      && buffer.Length == BUFFER && 0 <= pos <= last <= BUFFER && last <= offset <= |text|
      && buffer[..last] == text[offset - last..offset]
    }

    // The offset of the next character.
    ghost function At(): int reads this { offset - last + pos }

    constructor (text: string)
      ensures Valid() && At() == 0 && line == 1 && this.text == text && fresh(buffer)
    {
      this.text := text;
      buffer := new char[BUFFER];
      pos, last, offset, line := 0, 0, 0, 1;
    }

    // The buffer keeps what lies between start and pos, and is filled up behind it.
    method Refill(start: int)
      requires Valid() && 0 <= start <= pos == last && pos - start < BUFFER && offset < |text|
      modifies this`pos, this`last, this`offset, buffer
      ensures Valid() && At() == old(At()) && pos == old(pos) - start && pos < last
    {
      var len := pos - start;
      var size := if |text| - offset > BUFFER - len then BUFFER - len else |text| - offset;
      Slide(text, offset, last, start, size);
      MoveDown(start, last);
      Read(len, size);
      pos := len;
      last := pos + size;
      offset := offset + size;
    }

    // ngx_memmove(b->start, start, len)
    method MoveDown(start: int, end: int)
      requires 0 <= start <= end <= buffer.Length
      modifies buffer
      ensures buffer[..end - start] == old(buffer[..end])[start..]
    {
      forall i | 0 <= i < end - start { buffer[i] := buffer[start + i]; }
    }

    // ngx_read_file into the buffer from position len on
    method Read(len: int, size: int)
      requires 0 <= len && 0 <= size && len + size <= buffer.Length && 0 <= offset && offset + size <= |text|
      modifies buffer
      ensures buffer[..len + size] == old(buffer[..len]) + text[offset..offset + size]
    {
      forall i | len <= i < len + size { buffer[i] := text[offset + i - len]; }
      assert buffer[..len] == old(buffer[..len]);
      assert buffer[len..len + size] == text[offset..offset + size];
      assert buffer[..len + size] == buffer[..len] + buffer[len..len + size];
    }

    method Peek(start: int) returns (ch: char, span: string)
      requires 0 <= start <= pos < last <= buffer.Length
      ensures ch == buffer[..last][pos] && span == buffer[..last][start..pos + 1]
    {
      ch := buffer[pos];
      span := buffer[start..pos + 1];
    }

    // The next character of the buffer.
    method Take(lang: Language, st: State, ghost goal: Goal, ghost whole: Outcome) returns (step: Step)
      requires Valid() && 0 <= st.start <= pos < last && goal(At(), Shifted(st, offset - last)) && IsGoal(goal, lang, text, whole)
      modifies this`pos
      ensures Valid() && pos == old(pos) + 1
      ensures step.More? ==> 0 <= step.st.start <= pos && goal(At(), Shifted(step.st, offset - last))
      ensures step.Stop? ==> whole == Outcome(step.result, step.st.args, At(), step.st.line)
    {
      var ch, span := Peek(st.start);
      TakeStep(goal, lang, text, whole, buffer[..last], offset, st, pos);
      step := Advance(lang, st, ch, pos, span);
      pos := pos + 1;
    }

    // More text for a word that the buffer does not hold to its end, unless it fills the buffer.
    method More(ghost lang: Language, st: State, ghost goal: Goal, ghost whole: Outcome) returns (r: Result, st': State)
      requires Valid() && 0 <= st.start <= pos == last && goal(At(), Shifted(st, offset - last)) && IsGoal(goal, lang, text, whole)
      modifies this`pos, this`last, this`offset, buffer
      ensures Valid() && At() == old(At())
      ensures r == Ok ==> 0 <= st'.start <= pos < last && goal(At(), Shifted(st', offset - last))
      ensures r != Ok ==> whole == Outcome(r, st.args, At(), if r == TooLong then st.startLine else st.line)
    {
      assert GoalAt(goal, lang, text, whole, At(), Shifted(st, offset - last));
      if offset >= |text| {
        return AtEnd(st), st;
      }
      if pos - st.start == BUFFER {
        return TooLong, st;
      }
      Refill(st.start);
      return Ok, st.(start := 0);
    }

    // One round of the loop.
    method Next(lang: Language, st: State, ghost goal: Goal, ghost whole: Outcome) returns (step: Step)
      requires Valid() && 0 <= st.start <= pos && goal(At(), Shifted(st, offset - last)) && IsGoal(goal, lang, text, whole)
      modifies this`pos, this`last, this`offset, this`line, buffer
      ensures Valid() && At() >= old(At())
      ensures step.More? ==> At() == old(At()) + 1 && 0 <= step.st.start <= pos && goal(At(), Shifted(step.st, offset - last))
      ensures step.Stop? ==> whole == Outcome(step.result, step.st.args, At(), line)
    {
      var s := st;
      if pos >= last {
        var r;
        r, s := More(lang, st, goal, whole);
        if r != Ok {
          line := if r == TooLong then st.startLine else st.line;
          return Stop(r, st);
        }
      }
      step := Take(lang, s, goal, whole);
      line := if step.Stop? then step.st.line else line;
    }

    // The next token; args are its words.
    method ReadToken(lang: Language) returns (result: Result, args: seq<string>)
      requires Valid()
      modifies this`pos, this`last, this`offset, this`line, buffer
      ensures Valid() && Outcome(result, args, At(), line) == Limited(lang, text, old(At()), Begin(old(At()), old(line)), BUFFER)
    {
      var st := Begin(pos, line);
      ghost var whole := Limited(lang, text, At(), Begin(At(), line), BUFFER);
      ghost var goal: Goal := (p: int, s: State) => 0 <= s.start <= p <= |text| && Limited(lang, text, p, s, BUFFER) == whole;
      assert Shifted(st, offset - last) == Begin(At(), line);
      LimitedIsGoal(goal, lang, text, whole);
      while true
        invariant Valid() && 0 <= st.start <= pos && goal(At(), Shifted(st, offset - last))
        decreases |text| - At()
      {
        var step := Next(lang, st, goal, whole);
        if step.Stop? {
          return step.result, step.st.args;
        }
        st := step.st;
      }
    }

    // The tokens of the configuration language: those of the whole text, unless a parameter is too
    // long, which none is in a token that fits the buffer.
    method ReadConf() returns (result: Result, args: seq<string>)
      requires Valid()
      modifies this`pos, this`last, this`offset, this`line, buffer
      ensures Valid() && (result == TooLong || Outcome(result, args, At(), line) == Whole(Conf(), text, old(At()), Begin(old(At()), old(line))))
      ensures var whole := Whole(Conf(), text, old(At()), Begin(old(At()), old(line)));
        whole.pos - old(At()) <= BUFFER ==> Outcome(result, args, At(), line) == whole
    {
      LimitedIsWhole(Conf(), text, At(), Begin(At(), line), BUFFER);
      if Whole(Conf(), text, At(), Begin(At(), line)).pos - At() <= BUFFER {
        ShortIsWhole(Conf(), text, At(), Begin(At(), line), BUFFER);
      }
      result, args := ReadToken(Conf());
    }
  }

  // Whether the token whose reading has come to offset p in state st is the one wanted.
  type Goal = (int, State) -> bool

  // A goal that a step keeps, and that ends with the token "whole".
  ghost predicate GoalAt(goal: Goal, lang: Language, text: string, whole: Outcome, p: int, st: State) {
    goal(p, st) ==>
      && 0 <= st.start <= p <= |text|
      && (p == |text| ==> whole == Outcome(AtEnd(st), st.args, p, st.line))
      && (p < |text| && p - st.start == BUFFER ==> whole == Outcome(TooLong, st.args, p, st.startLine))
      && (p < |text| && p - st.start != BUFFER ==>
        Leads(goal, whole, p + 1, Advance(lang, st, text[p], p, text[st.start..p + 1])))
  }

  ghost predicate Leads(goal: Goal, whole: Outcome, p: int, step: Step) {
    match step
    case Stop(result, s) => whole == Outcome(result, s.args, p, s.line)
    case More(s) => 0 <= s.start <= p && goal(p, s)
  }

  ghost predicate IsGoal(goal: Goal, lang: Language, text: string, whole: Outcome) {
    forall p, st {:trigger GoalAt(goal, lang, text, whole, p, st)} :: GoalAt(goal, lang, text, whole, p, st)
  }

  // To read the token of the text is such a goal.
  lemma LimitedIsGoal(goal: Goal, lang: Language, text: string, whole: Outcome)
    requires forall p, s {:trigger goal(p, s)} :: goal(p, s) <==> 0 <= s.start <= p <= |text| && Limited(lang, text, p, s, BUFFER) == whole
    ensures IsGoal(goal, lang, text, whole)
  {
    forall p, st ensures GoalAt(goal, lang, text, whole, p, st) {
      if goal(p, st) && p < |text| { StartMoves(lang, st, text[p], p, text[st.start..p + 1]); }
    }
  }

  lemma TakeStep(goal: Goal, lang: Language, text: string, whole: Outcome, filled: string, offset: int, st: State, pos: int)
    requires |filled| <= offset <= |text| && filled == text[offset - |filled|..offset] && 0 <= st.start <= pos < |filled| <= BUFFER
    requires IsGoal(goal, lang, text, whole) && goal(offset - |filled| + pos, Shifted(st, offset - |filled|))
    ensures var base, step := offset - |filled|, Advance(lang, st, filled[pos], pos, filled[st.start..pos + 1]);
      && (step.More? ==> 0 <= step.st.start <= pos + 1) && Leads(goal, whole, base + pos + 1, Shift(step, base))
  {
    var base := offset - |filled|;
    SameSpan(text, filled, offset, st.start, pos);
    ShiftedStep(lang, st, filled[pos], pos, filled[st.start..pos + 1], base);
    StartMoves(lang, st, filled[pos], pos, filled[st.start..pos + 1]);
    assert GoalAt(goal, lang, text, whole, base + pos, Shifted(st, base));
  }

  // A state whose start is an offset into the buffer, as one into the text.
  function Shifted(st: State, base: int): State { st.(start := st.start + base) }

  function Shift(step: Step, base: int): Step {
    match step
    case More(s) => More(Shifted(s, base))
    case Stop(r, s) => Stop(r, Shifted(s, base))
  }

  lemma ShiftedApply(st: State, e: Effect, ch: char, p: int, word: string, base: int)
    ensures Apply(Shifted(st, base), e, ch, p + base, word) == Shift(Apply(st, e, ch, p, word), base)
  {
  }

  lemma ShiftedStep(lang: Language, st: State, ch: char, p: int, span: string, base: int)
    ensures Advance(lang, Shifted(st, base), ch, p + base, span) == Shift(Advance(lang, st, ch, p, span), base)
  {
    ShiftedApply(st, lang.scan(st.f, ch, st.args == []), ch, p, lang.decode(span), base);
  }

  lemma SameSpan(text: string, filled: string, offset: int, start: int, pos: int)
    requires |filled| <= offset <= |text| && filled == text[offset - |filled|..offset] && 0 <= start <= pos < |filled|
    ensures var base := offset - |filled|; filled[start..pos + 1] == text[base + start..base + pos + 1] && filled[pos] == text[base + pos]
  {
    var base := offset - |filled|;
    assert text[base..offset][pos] == text[base + pos];
  }

  lemma Slide(text: string, offset: int, last: int, start: int, size: int)
    requires 0 <= start <= last <= offset && 0 <= size && offset + size <= |text|
    ensures text[offset - last..offset][start..] + text[offset..offset + size] == text[offset - (last - start)..offset + size]
  {
    assert text[offset - last..offset][start..] == text[offset - (last - start)..offset];
  }
}
