/** ngx_inet6_addr of src/core/ngx_inet.c. */
module Inet6Parse {
  import opened Basics
  import opened InetText

  datatype Result = Bad | Good(addr: seq<byte>)
  datatype Option = Nothing | Just(text: string)

  // The bytes written, where the zeros go (or -1), the hexadecimal digits of the current word and
  // its value, and the text behind the last colon.
  datatype State = State(out: seq<byte>, zero: int, nibbles: int, word: nat, digit: Option)

  function Words(st: State): int { 8 - |st.out| / 2 }

  function Pushed(st: State): seq<byte> { st.out + [st.word / 256 % 256, st.word % 256] }

  function Zeros(n: int): (z: seq<byte>)
    requires n >= 0
    ensures |z| == n && forall i :: 0 <= i < n ==> z[i] == 0
  {
    seq(n, i => 0)
  }

  // The zeros in their place.
  function Finish(st: State): (r: Result) {
    if st.nibbles == 0 && st.zero < 0 then Bad
    else
      var out := Pushed(st);
      var n := 8 - |out| / 2;
      if n > 0 && 0 <= st.zero <= |out| then Good(out[..st.zero] + Zeros(2 * n) + out[st.zero..])
      else if n == 0 && st.zero < 0 then Good(out)
      else Bad
  }

  // What a character does before the rest of the text.
  datatype Move = Go(st: State) | Done(r: Result)

  function Step(st: State, c: char, rest: string): Move {
    if c == ':' then
      if st.nibbles > 0 then
        var out := Pushed(st);
        if 8 - |out| / 2 > 0 then Go(State(out, st.zero, 0, 0, Just(rest))) else Done(Bad)
      else if st.zero < 0 then Go(st.(zero := |st.out|, digit := Just(rest)))
      else Done(Bad)
    else if c == '.' && st.nibbles > 0 then
      if Words(st) < 2 || st.digit == Nothing then Done(Bad)
      else
        var v := Scan(st.digit.text, 0, 0, 0);
        if v == NONE then Done(Bad)
        else Done(Finish(st.(out := st.out + [v / 0x100_0000 % 256, v / 0x1_0000 % 256], word := v)))
    else if st.nibbles >= 4 || Hex(c as int) < 0 then Done(Bad)
    else Go(st.(nibbles := st.nibbles + 1, word := st.word * 16 + Hex(c as int)))
  }

  function Run(st: State, text: string): (r: Result)
    decreases |text|
  {
    if text == "" then Finish(st)
    else
      match Step(st, text[0], text[1..])
      case Go(s) => Run(s, text[1..])
      case Done(r) => r
  }

  function Begin(): State { State([], -1, 0, 0, Nothing) }

  // The meaning of an address text.
  function Parse(text: string): (r: Result) {
    if text == "" then Bad
    else if text[0] == ':' then Run(Begin(), text[1..])
    else Run(Begin(), text)
  }

  // ---- what the loop needs to know of Run ----

  type Reader = (State, string) -> Result

  // A reader that goes on as Step says, and ends with Finish.
  ghost predicate LawAt(run: Reader, st: State, c: char, rest: string) {
    run(st, [c] + rest) == match Step(st, c, rest) case Go(s) => run(s, rest) case Done(r) => r
  }

  ghost predicate EndAt(run: Reader, st: State) { run(st, "") == Finish(st) }

  ghost predicate Law(run: Reader) {
    && (forall st {:trigger EndAt(run, st)} :: EndAt(run, st))
    && (forall st, c, rest {:trigger LawAt(run, st, c, rest)} :: LawAt(run, st, c, rest))
  }

  lemma RunLaw()
    ensures Law(Run)
  {
    forall st, c, rest ensures LawAt(Run, st, c, rest) {
      var t := [c] + rest;
      assert t[0] == c && t[1..] == rest;
    }
    assert forall st {:trigger EndAt(Run, st)} :: EndAt(Run, st);
  }

  // ---- the loops ----

  method Inet6Addr(text: string, addr: array<byte>) returns (ok: bool)
    requires addr.Length == 16
    modifies addr
    ensures ok == Parse(text).Good? && (ok ==> addr[..] == Parse(text).addr)
  {
    if |text| == 0 {
      return false;
    }
    RunLaw();
    assert text[0..] == text;
    ok := Loop(Run, text, if text[0] == ':' then 1 else 0, addr);
  }

  method Loop(ghost run: Reader, text: string, from: nat, addr: array<byte>) returns (ok: bool)
    requires addr.Length == 16 && from <= |text| && Law(run)
    modifies addr
    ensures var r := run(Begin(), text[from..]); ok == r.Good? && (ok ==> addr[..] == r.addr)
  {
    var p, k, zero, nibbles, word := from, 0, -1, 0, 0;
    var digit := Nothing;
    assert addr[..0] == [];
    while p < |text|
      invariant 0 <= p <= |text| && 0 <= k <= 14 && k % 2 == 0 && -1 <= zero <= k && 0 <= nibbles <= 4 && 0 <= word
      invariant run(State(addr[..k], zero, nibbles, word, digit), text[p..]) == run(Begin(), text[from..])
    {
      var c := text[p];
      assert text[p..] == [c] + text[p + 1..];
      assert LawAt(run, State(addr[..k], zero, nibbles, word, digit), c, text[p + 1..]);
      p := p + 1;
      if c == ':' {
        if nibbles > 0 {
          digit := Just(text[p..]);
          Write2(addr, k, word / 256 % 256, word % 256);
          k := k + 2;
          if k < 16 {
            nibbles := 0;
            word := 0;
            continue;
          }
        } else if zero == -1 {
          digit := Just(text[p..]);
          zero := k;
          continue;
        }
        return false;
      }
      if c == '.' && nibbles > 0 {
        if k > 12 || digit == Nothing {
          return false;
        }
        word := Tail(digit.text);
        if word == NONE {
          return false;
        }
        Write2(addr, k, word / 0x100_0000 % 256, word / 0x1_0000 % 256);
        k := k + 2;
        ok := Place(addr, k, zero, nibbles, word, digit);
        return;
      }
      if nibbles == 4 {
        return false;
      }
      nibbles := nibbles + 1;
      var h := Hex(c as int);
      if h < 0 {
        return false;
      }
      word := word * 16 + h;
    }
    assert text[p..] == "";
    assert EndAt(run, State(addr[..k], zero, nibbles, word, digit));
    ok := Place(addr, k, zero, nibbles, word, digit);
  }

  // The IPv4 address at the end of the text.
  method Tail(text: string) returns (r: nat)
    ensures r == Scan(text, 0, 0, 0)
  {
    r := InetAddr(text);
  }

  // Behind the loop: the last word, and the bytes behind "zero" move up.
  method Place(addr: array<byte>, k: int, zero: int, nibbles: int, word: nat, ghost digit: Option) returns (ok: bool)
    requires addr.Length == 16 && 0 <= k <= 14 && k % 2 == 0 && -1 <= zero <= k && 0 <= nibbles
    modifies addr
    ensures var r := Finish(State(old(addr[..k]), zero, nibbles, word, digit)); ok == r.Good? && (ok ==> addr[..] == r.addr)
  {
    if nibbles == 0 && zero == -1 {
      return false;
    }
    ghost var out := addr[..k] + [word / 256 % 256, word % 256];
    FinishCases(State(addr[..k], zero, nibbles, word, digit), out);
    Write2(addr, k, word / 256 % 256, word % 256);
    var n := 14 - k;
    if n > 0 && zero >= 0 {
      Slices(addr[..], out, zero);
      Spread(addr, k + 2, zero, n);
      return true;
    }
    if n == 0 && zero == -1 {
      assert addr[..] == addr[..16];
      return true;
    }
    return false;
  }

  lemma Slices(a: seq<byte>, out: seq<byte>, zero: int)
    requires |out| <= |a| && a[..|out|] == out && 0 <= zero <= |out|
    ensures a[..zero] == out[..zero] && a[zero..|out|] == out[zero..]
  {
  }

  lemma FinishCases(st: State, out: seq<byte>)
    requires out == Pushed(st) && |st.out| <= 14 && |st.out| % 2 == 0 && -1 <= st.zero <= |st.out|
    requires st.nibbles != 0 || st.zero >= 0
    ensures var n := 14 - |st.out|;
      Finish(st) == if n > 0 && st.zero >= 0 then Good(out[..st.zero] + Zeros(n) + out[st.zero..])
        else if n == 0 && st.zero == -1 then Good(out)
        else Bad
  {
    assert 2 * (8 - |out| / 2) == 14 - |st.out|;
  }

  method Write2(addr: array<byte>, k: int, a: byte, b: byte)
    requires 0 <= k && k + 2 <= addr.Length
    modifies addr
    ensures addr[..k + 2] == old(addr[..k]) + [a, b]
  {
    addr[k], addr[k + 1] := a, b;
  }

  // The bytes from zero to end move n places up, from the last to the first; zeros take their place.
  method Spread(addr: array<byte>, end: int, zero: int, n: int)
    requires addr.Length == 16 && 0 <= zero <= end && 0 < n && end + n == 16
    modifies addr
    ensures addr[..] == old(addr[..zero]) + Zeros(n) + old(addr[zero..end])
  {
    ghost var a := addr[..];
    var s := end - 1;
    while s >= zero
      invariant zero - 1 <= s < end
      invariant forall i :: 0 <= i <= s ==> addr[i] == a[i]
      invariant forall i :: s + n < i < 16 ==> addr[i] == a[i - n]
      decreases s
    {
      addr[s + n] := addr[s];
      s := s - 1;
    }
    forall i | zero <= i < zero + n { addr[i] := 0; }
    assert addr[..zero] == old(addr[..zero]);
    assert addr[zero..zero + n] == Zeros(n);
    assert addr[zero + n..] == old(addr[zero..end]);
    assert addr[..] == addr[..zero] + addr[zero..zero + n] + addr[zero + n..];
  }
}
