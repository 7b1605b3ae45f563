/** The hex stream splitter of the vom dump command, against an automaton that takes one character at a time.

    Input is ASCII. Writing no bytes is the same as not writing. */
module HexStream {
  import opened Common

  datatype Out = Byte(value: nat) | Status | Flush

  // ---------------------------------------------------------------- the automaton

  function HexValue(c: char): Option<nat> {
    if '0' <= c <= '9' then Some((c - '0') as nat)
    else if 'a' <= c <= 'f' then Some((c - 'a') as nat + 10)
    else if 'A' <= c <= 'F' then Some((c - 'A') as nat + 10)
    else None
  }

  /** The byte that two characters stand for. */
  function Pair(c: char, d: char): Option<Out> {
    if HexValue(c).Some? && HexValue(d).Some? then Some(Byte(16 * HexValue(c).value + HexValue(d).value)) else None
  }

  predicate IsSpace(c: char) {
    c == '\t' || c == '\n' || c == 11 as char || c == 12 as char || c == '\r' || c == ' '
  }

  predicate IsCommand(c: char) {
    c == '.' || c == ';'
  }

  function Command(c: char): Out {
    if c == '.' then Status else Flush
  }

  /** `pending` is half a byte; a pair that is not hex stops everything. */
  datatype Scan = Scan(pending: Option<char>, out: seq<Out>, failed: bool)

  const START := Scan(None, [], false)

  function Feed(s: Scan, c: char): Scan {
    if s.failed || IsSpace(c) then s
    else if IsCommand(c) then s.(out := s.out + [Command(c)])
    else if s.pending.None? then s.(pending := Some(c))
    else
      match Pair(s.pending.value, c)
      case Some(b) => Scan(None, s.out + [b], false)
      case None => s.(failed := true)
  }

  function FeedAll(s: Scan, cs: seq<char>): Scan
    decreases |cs|
  {
    if cs == [] then s else FeedAll(Feed(s, cs[0]), cs[1..])
  }

  lemma {:induction false} FeedConcat(s: Scan, cs: seq<char>, ds: seq<char>)
    ensures FeedAll(s, cs + ds) == FeedAll(FeedAll(s, cs), ds)
    decreases |cs|
  {
    if cs == [] {
      assert cs + ds == ds;
    } else {
      assert (cs + ds)[1..] == cs[1..] + ds;
      FeedConcat(Feed(s, cs[0]), cs[1..], ds);
    }
  }

  lemma {:induction false} Failed(s: Scan, cs: seq<char>)
    requires s.failed
    ensures FeedAll(s, cs) == s
    decreases |cs|
  {
    if cs != [] {
      Failed(s, cs[1..]);
    }
  }

  /** Output only grows, and does not depend on what was put out before. */
  lemma {:induction false} FeedFrom(s: Scan, before: seq<Out>, cs: seq<char>)
    ensures var r := FeedAll(s, cs);
            FeedAll(s.(out := before + s.out), cs) == r.(out := before + r.out)
    decreases |cs|
  {
    if cs != [] {
      var t := Feed(s, cs[0]);
      assert Feed(s.(out := before + s.out), cs[0]).out == before + t.out;
      FeedFrom(t, before, cs[1..]);
    }
  }

  // ---------------------------------------------------------------- whitespace, pairs, commands

  function Stripped(cs: seq<char>): seq<char>
    decreases |cs|
  {
    if cs == [] then [] else (if IsSpace(cs[0]) then [] else [cs[0]]) + Stripped(cs[1..])
  }

  lemma {:induction false} StrippedSame(s: Scan, cs: seq<char>)
    ensures FeedAll(s, Stripped(cs)) == FeedAll(s, cs)
    decreases |cs|
  {
    if cs != [] {
      StrippedSame(Feed(s, cs[0]), cs[1..]);
      if IsSpace(cs[0]) {
        assert Stripped(cs) == Stripped(cs[1..]);
      } else {
        assert Stripped(cs)[0] == cs[0] && Stripped(cs)[1..] == Stripped(cs[1..]);
      }
    }
  }

  ghost predicate Plain(cs: seq<char>) {
    forall i :: 0 <= i < |cs| ==> !IsSpace(cs[i]) && !IsCommand(cs[i])
  }

  ghost predicate NoSpace(cs: seq<char>) {
    forall i :: 0 <= i < |cs| ==> !IsSpace(cs[i])
  }

  lemma {:induction false} StrippedNoSpace(cs: seq<char>)
    ensures NoSpace(Stripped(cs)) && |Stripped(cs)| <= |cs|
    decreases |cs|
  {
    if cs != [] {
      StrippedNoSpace(cs[1..]);
    }
  }

  /** hex.DecodeString on an even number of characters. */
  function Decode(cs: seq<char>): Option<seq<Out>>
    requires |cs| % 2 == 0
    decreases |cs|
  {
    if cs == [] then Some([])
    else
      match Pair(cs[0], cs[1])
      case None => None
      case Some(b) =>
        match Decode(cs[2..])
        case None => None
        case Some(bs) => Some([b] + bs)
  }

  /** Whole pairs leave nothing pending; they fail just when decoding them does. */
  lemma {:induction false} FeedPairs(cs: seq<char>, before: seq<Out>)
    requires |cs| % 2 == 0 && Plain(cs)
    ensures var r := FeedAll(Scan(None, before, false), cs);
            && (r.failed <==> Decode(cs).None?)
            && (Decode(cs).Some? ==> r == Scan(None, before + Decode(cs).value, false))
            && before <= r.out
    decreases |cs|
  {
    if cs != [] {
      var s := Scan(None, before, false);
      assert cs[1..][1..] == cs[2..] && cs[1..][0] == cs[1];
      assert Feed(s, cs[0]) == s.(pending := Some(cs[0]));
      assert FeedAll(s, cs) == FeedAll(Feed(Feed(s, cs[0]), cs[1]), cs[2..]);
      match Pair(cs[0], cs[1])
      case None => Failed(Feed(Feed(s, cs[0]), cs[1]), cs[2..]);
      case Some(b) =>
        FeedPairs(cs[2..], before + [b]);
        if Decode(cs[2..]).Some? {
          assert (before + [b]) + Decode(cs[2..]).value == before + ([b] + Decode(cs[2..]).value);
        }
    }
  }

  /** A command between the halves of a byte goes first. */
  lemma SwapCommand(half: seq<char>, c: char, rest: seq<char>, before: seq<Out>)
    requires |half| <= 1 && Plain(half) && IsCommand(c) && !IsSpace(c)
    ensures FeedAll(Scan(None, before, false), half + ([c] + rest))
            == FeedAll(Scan(None, before + [Command(c)], false), half + rest)
  {
    var t, u := Scan(None, before, false), Scan(None, before + [Command(c)], false);
    assert ([c] + rest)[1..] == rest;
    if half == [] {
      assert half + ([c] + rest) == [c] + rest && half + rest == rest;
    } else {
      var p := half[0];
      assert (half + ([c] + rest))[1..] == [c] + rest && (half + rest)[1..] == rest;
      assert Feed(Feed(t, p), c) == Feed(u, p);
      assert FeedAll(t, half + ([c] + rest)) == FeedAll(Feed(t, p), [c] + rest) == FeedAll(Feed(u, p), rest);
    }
  }

  /** Writing the whole pairs before a command and then the command changes nothing. */
  lemma PullCommand(pairs: seq<char>, half: seq<char>, c: char, rest: seq<char>, before: seq<Out>)
    requires |pairs| % 2 == 0 && |half| <= 1 && Plain(pairs) && Plain(half) && IsCommand(c) && Decode(pairs).Some?
    ensures FeedAll(Scan(None, before, false), pairs + half + [c] + rest)
            == FeedAll(Scan(None, before + Decode(pairs).value + [Command(c)], false), half + rest)
  {
    FeedPairs(pairs, before);
    assert pairs + half + [c] + rest == pairs + (half + ([c] + rest));
    FeedConcat(Scan(None, before, false), pairs, half + ([c] + rest));
    SwapCommand(half, c, rest, before + Decode(pairs).value);
  }

  /** A pair that cannot be decoded fails the rest, whatever follows it. */
  lemma BadPairs(pairs: seq<char>, rest: seq<char>, before: seq<Out>)
    requires |pairs| % 2 == 0 && Plain(pairs) && Decode(pairs).None?
    ensures var r := FeedAll(Scan(None, before, false), pairs + rest); r.failed && before <= r.out
  {
    FeedPairs(pairs, before);
    FeedConcat(Scan(None, before, false), pairs, rest);
    Failed(FeedAll(Scan(None, before, false), pairs), rest);
  }

  // ---------------------------------------------------------------- what the automaton computes

  function DigitOf(c: char): seq<char> {
    if IsSpace(c) || IsCommand(c) then [] else [c]
  }

  function CommandOf(c: char): seq<Out> {
    if IsCommand(c) then [Command(c)] else []
  }

  function Digits(cs: seq<char>): seq<char>
    decreases |cs|
  {
    if cs == [] then [] else DigitOf(cs[0]) + Digits(cs[1..])
  }

  function Commands(cs: seq<char>): seq<Out>
    decreases |cs|
  {
    if cs == [] then [] else CommandOf(cs[0]) + Commands(cs[1..])
  }

  function BytesOf(out: seq<Out>): seq<Out> {
    if out == [] then []
    else BytesOf(out[..|out| - 1]) + if out[|out| - 1].Byte? then [out[|out| - 1]] else []
  }

  function CommandsOf(out: seq<Out>): seq<Out> {
    if out == [] then []
    else CommandsOf(out[..|out| - 1]) + if out[|out| - 1].Byte? then [] else [out[|out| - 1]]
  }

  function Half(s: Scan): seq<char> {
    if s.pending.Some? then [s.pending.value] else []
  }

  function Even(cs: seq<char>): seq<char> {
    cs[..|cs| / 2 * 2]
  }

  lemma DecodeMore(c: char, d: char, cs: seq<char>)
    requires Pair(c, d).Some?
    ensures Even([c, d] + cs) == [c, d] + Even(cs)
    ensures Decode(Even([c, d] + cs)).Some? <==> Decode(Even(cs)).Some?
    ensures Decode(Even(cs)).Some? ==> Decode(Even([c, d] + cs)).value == [Pair(c, d).value] + Decode(Even(cs)).value
  {
    assert ([c, d] + Even(cs))[2..] == Even(cs);
  }

  lemma EvenTail(c: char, d: char, cs: seq<char>)
    ensures ([c, d] + cs)[|[c, d] + cs| / 2 * 2..] == cs[|cs| / 2 * 2..]
  {
  }

  lemma FeedOne(s: Scan, c: char)
    requires !s.failed
    ensures var t := Feed(s, c);
            && (IsCommand(c) ==>
                  BytesOf(t.out) == BytesOf(s.out) && CommandsOf(t.out) == CommandsOf(s.out) + [Command(c)])
            && (!IsCommand(c) ==> CommandsOf(t.out) == CommandsOf(s.out))
            && (!IsCommand(c) && Half(t) != [] ==> t.out == s.out)
  {
    var t := Feed(s, c);
    if t.out != s.out {
      assert t.out[..|t.out| - 1] == s.out;
    }
  }

  /** From `s` on, these digits and commands account for what `r` has. */
  ghost predicate Accounts(s: Scan, digits: seq<char>, commands: seq<Out>, r: Scan) {
    && Decode(Even(digits)).Some?
    && BytesOf(r.out) == BytesOf(s.out) + Decode(Even(digits)).value
    && CommandsOf(r.out) == CommandsOf(s.out) + commands
    && Half(r) == digits[|digits| / 2 * 2..]
  }

  lemma CommandAccounts(s: Scan, c: char, digits: seq<char>, commands: seq<Out>, r: Scan)
    requires !s.failed && IsCommand(c) && !IsSpace(c) && Accounts(Feed(s, c), digits, commands, r)
    ensures Accounts(s, digits, [Command(c)] + commands, r)
  {
    FeedOne(s, c);
    assert (CommandsOf(s.out) + [Command(c)]) + commands == CommandsOf(s.out) + ([Command(c)] + commands);
  }

  lemma PairAccounts(s: Scan, c: char, digits: seq<char>, commands: seq<Out>, r: Scan)
    requires !s.failed && !IsCommand(c) && !IsSpace(c) && s.pending.Some? && !Feed(s, c).failed
    requires Accounts(Feed(s, c), digits, commands, r)
    ensures Accounts(s, [s.pending.value, c] + digits, commands, r)
  {
    var p, t := s.pending.value, Feed(s, c);
    FeedOne(s, c);
    DecodeMore(p, c, digits);
    EvenTail(p, c, digits);
    var b, bytes := Pair(p, c).value, Decode(Even(digits)).value;
    assert BytesOf(t.out) == BytesOf(s.out) + [b] by { assert t.out[..|s.out|] == s.out; }
    assert (BytesOf(s.out) + [b]) + bytes == BytesOf(s.out) + ([b] + bytes);
  }

  lemma StepAccounts(s: Scan, c: char, digits: seq<char>, commands: seq<Out>, r: Scan)
    requires !s.failed && !Feed(s, c).failed && Accounts(Feed(s, c), Half(Feed(s, c)) + digits, commands, r)
    ensures Accounts(s, Half(s) + (DigitOf(c) + digits), CommandOf(c) + commands, r)
  {
    var t := Feed(s, c);
    if IsCommand(c) {
      assert Half(s) + (DigitOf(c) + digits) == Half(t) + digits;
      CommandAccounts(s, c, Half(s) + digits, commands, r);
    } else {
      assert CommandOf(c) + commands == commands;
      if !IsSpace(c) && s.pending.Some? {
        assert Half(t) + digits == digits;
        assert Half(s) + (DigitOf(c) + digits) == [s.pending.value, c] + digits;
        PairAccounts(s, c, digits, commands, r);
      } else {
        assert Half(s) + (DigitOf(c) + digits) == Half(t) + digits;
      }
    }
  }

  /** The bytes are the digits paired up and decoded, whatever stands between them; the commands are in order; an
      odd digit stays pending. */
  lemma {:induction false} FeedComputes(s: Scan, cs: seq<char>)
    requires !FeedAll(s, cs).failed
    ensures Accounts(s, Half(s) + Digits(cs), Commands(cs), FeedAll(s, cs))
    decreases |cs|
  {
    if cs == [] {
      assert Half(s) + [] == Half(s) && Even(Half(s)) == [];
    } else {
      var t := Feed(s, cs[0]);
      if s.failed { Failed(s, cs); }
      if t.failed { Failed(t, cs[1..]); }
      FeedComputes(t, cs[1..]);
      StepAccounts(s, cs[0], Digits(cs[1..]), Commands(cs[1..]), FeedAll(s, cs));
    }
  }

  const LOWER := "0123456789abcdef"
  const UPPER := "0123456789ABCDEF"

  /** The hex digit for `n`, in either case. */
  ghost predicate Digit(c: char, n: nat) {
    n < 16 && (c == LOWER[n] || c == UPPER[n])
  }

  /** The hex digits are these and no others. */
  lemma HexValueIff(c: char, n: nat)
    ensures HexValue(c) == Some(n) <==> Digit(c, n)
  {
  }

  /** Wherever it stands, a dot asks for the status once and a semicolon flushes once; nothing else gives a command. */
  lemma {:induction false} CommandAt(before: seq<char>, c: char, after: seq<char>)
    ensures Commands(before + [c] + after) ==
            Commands(before) + (if c == '.' then [Status] else if c == ';' then [Flush] else []) + Commands(after)
    decreases |before|
  {
    var cs := before + [c] + after;
    if before == [] {
      assert cs[0] == c && cs[1..] == after;
    } else {
      assert cs[0] == before[0] && cs[1..] == before[1..] + [c] + after;
      CommandAt(before[1..], c, after);
    }
  }

  /** Wherever it stands, a character other than a command and white space counts as a digit. */
  lemma {:induction false} DigitAt(before: seq<char>, c: char, after: seq<char>)
    ensures Digits(before + [c] + after) ==
            Digits(before) + (if c in ".; \t\n\r" || c == '\U{0B}' || c == '\U{0C}' then [] else [c]) + Digits(after)
    decreases |before|
  {
    var cs := before + [c] + after;
    if before == [] {
      assert cs[0] == c && cs[1..] == after;
    } else {
      assert cs[0] == before[0] && cs[1..] == before[1..] + [c] + after;
      DigitAt(before[1..], c, after);
    }
  }

  /** Two characters for each byte, the high half first, each in either case. */
  ghost predicate Spells(cs: seq<char>, bytes: seq<nat>) {
    && |cs| == 2 * |bytes|
    && forall i :: 0 <= i < |bytes| ==>
         bytes[i] < 256 && Digit(cs[2 * i], bytes[i] / 16) && Digit(cs[2 * i + 1], bytes[i] % 16)
  }

  function AsOutput(bytes: seq<nat>): seq<Out> {
    if bytes == [] then [] else [Byte(bytes[0])] + AsOutput(bytes[1..])
  }

  lemma HexPair(c: char, d: char, n: nat)
    requires HexValue(c) == Some(n / 16) && HexValue(d) == Some(n % 16)
    ensures Pair(c, d) == Some(Byte(n))
    ensures !IsSpace(c) && !IsCommand(c) && !IsSpace(d) && !IsCommand(d)
  {
  }

  lemma SpellsRest(cs: seq<char>, bytes: seq<nat>)
    requires Spells(cs, bytes) && bytes != []
    ensures Spells(cs[2..], bytes[1..])
  {
    forall i | 0 <= i < |bytes| - 1
      ensures bytes[1..][i] == bytes[i + 1] && cs[2..][2 * i] == cs[2 * (i + 1)]
              && cs[2..][2 * i + 1] == cs[2 * (i + 1) + 1]
    {
    }
  }

  /** Bytes written in hex, in either case, come back when fed. */
  lemma {:induction false} HexRoundTrip(cs: seq<char>, bytes: seq<nat>, before: seq<Out>)
    requires Spells(cs, bytes)
    ensures FeedAll(Scan(None, before, false), cs) == Scan(None, before + AsOutput(bytes), false)
    decreases |bytes|
  {
    var s := Scan(None, before, false);
    if bytes == [] {
      assert before + [] == before;
    } else {
      var c, d, n := cs[2 * 0], cs[2 * 0 + 1], bytes[0];
      HexValueIff(c, n / 16);
      HexValueIff(d, n % 16);
      HexPair(c, d, n);
      assert Feed(Feed(s, c), d) == Scan(None, before + [Byte(n)], false);
      assert cs[1..][1..] == cs[2..];
      SpellsRest(cs, bytes);
      HexRoundTrip(cs[2..], bytes[1..], before + [Byte(n)]);
      assert before + [Byte(n)] + AsOutput(bytes[1..]) == before + ([Byte(n)] + AsOutput(bytes[1..]));
    }
  }

  // ---------------------------------------------------------------- the splitter

  /** bytes.IndexAny(h[..len], ".;"), with `len` for none. */
  method IndexCommand(h: array<char>, len: nat) returns (k: nat)
    requires len <= h.Length
    ensures k <= len
    ensures forall i :: 0 <= i < k ==> !IsCommand(h[i])
    ensures k < len ==> IsCommand(h[k])
  {
    k := 0;
    while k < len
      invariant 0 <= k <= len
      invariant forall i :: 0 <= i < k ==> !IsCommand(h[i])
    {
      if IsCommand(h[k]) {
        return;
      }
      k := k + 1;
    }
  }

  /** copy(h[to:], h[from:len]), with `to` before `from`. */
  method MoveDown(h: array<char>, to: nat, from: nat, len: nat)
    requires to <= from <= len <= h.Length
    modifies h
    ensures h[..to + (len - from)] == old(h[..to]) + old(h[from..len])
  {
    ghost var was := h[..];
    var i := 0;
    while i < len - from
      invariant 0 <= i <= len - from
      invariant h[..to + i] == was[..to] + was[from..from + i]
      invariant h[from + i..len] == was[from + i..len]
    {
      assert h[from + i] == h[from + i..len][0] == was[from + i..len][0] == was[from + i];
      ghost var rest := h[from + i + 1..len];
      assert rest == h[from + i..len][1..] == was[from + i..len][1..];
      h[to + i] := h[from + i];
      assert h[from + i + 1..len] == rest;
      assert h[..to + i + 1] == h[..to + i] + [was[from + i]];
      i := i + 1;
    }
  }

  function Joined(bytes: seq<Out>, r: Option<seq<Out>>): Option<seq<Out>> {
    match r
    case None => None
    case Some(more) => Some(bytes + more)
  }

  lemma DecodeNext(cs: seq<char>, bytes: seq<Out>)
    requires |cs| >= 2 && |cs| % 2 == 0 && Pair(cs[0], cs[1]).Some?
    ensures Joined(bytes, Decode(cs)) == Joined(bytes + [Pair(cs[0], cs[1]).value], Decode(cs[2..]))
  {
    if Decode(cs[2..]).Some? {
      var b, more := Pair(cs[0], cs[1]).value, Decode(cs[2..]).value;
      assert bytes + ([b] + more) == (bytes + [b]) + more;
    }
  }

  /** hex.DecodeString. */
  method DecodeString(cs: seq<char>) returns (r: Option<seq<Out>>)
    requires |cs| % 2 == 0
    ensures r == Decode(cs)
  {
    var i, bytes := 0, [];
    assert cs[0..] == cs;
    if Decode(cs).Some? { assert [] + Decode(cs).value == Decode(cs).value; }
    while i < |cs|
      invariant 0 <= i <= |cs| && i % 2 == 0
      invariant Decode(cs) == Joined(bytes, Decode(cs[i..]))
    {
      ghost var rest := cs[i..];
      assert rest[0] == cs[i] && rest[1] == cs[i + 1] && rest[2..] == cs[i + 2..];
      var b := Pair(cs[i], cs[i + 1]);
      if b.None? {
        return None;
      }
      DecodeNext(rest, bytes);
      bytes, i := bytes + [b.value], i + 2;
    }
    assert cs[i..] == [] && bytes + [] == bytes;
    return Some(bytes);
  }

  lemma SplitAt(cs: seq<char>, k: nat, end: nat)
    requires end <= k < |cs|
    ensures cs == cs[..end] + cs[end..k] + [cs[k]] + cs[k + 1..]
  {
  }

  lemma PlainParts(cs: seq<char>, k: nat, end: nat)
    requires end <= k <= |cs| && Plain(cs[..k])
    ensures Plain(cs[..end]) && Plain(cs[end..k])
  {
    assert cs[..k][..end] == cs[..end] && cs[..k][end..] == cs[end..k];
  }

  lemma CommandRound(cs: seq<char>, k: nat, end: nat, before: seq<Out>)
    requires k < |cs| && Plain(cs[..k]) && IsCommand(cs[k]) && end <= k <= end + 1 && end % 2 == 0
    requires Decode(cs[..end]).Some?
    ensures FeedAll(Scan(None, before, false), cs)
            == FeedAll(Scan(None, before + Decode(cs[..end]).value + [Command(cs[k])], false), cs[end..k] + cs[k + 1..])
  {
    var pairs, half, c, rest := cs[..end], cs[end..k], cs[k], cs[k + 1..];
    SplitAt(cs, k, end);
    PlainParts(cs, k, end);
    PullCommand(pairs, half, c, rest, before);
  }

  lemma PlainRound(cs: seq<char>, end: nat, before: seq<Out>)
    requires Plain(cs) && end <= |cs| && end % 2 == 0 && Decode(cs[..end]).Some?
    ensures FeedAll(Scan(None, before, false), cs)
            == FeedAll(Scan(None, before + Decode(cs[..end]).value, false), cs[end..])
  {
    var pairs, rest := cs[..end], cs[end..];
    assert cs == pairs + rest;
    FeedPairs(pairs, before);
    FeedConcat(Scan(None, before, false), pairs, rest);
  }

  lemma DropFront(a: seq<char>, b: seq<char>, n: nat)
    requires n <= |a|
    ensures (a + b)[n..] == a[n..] + b
  {
  }

  /** The command at `k` and the pairs before `end` are taken out. */
  method CloseUp(h: array<char>, k: nat, end: nat, len: nat) returns (len': nat)
    requires end <= k < len <= h.Length
    modifies h
    ensures len' == len - 1 - end
    ensures h[..len'] == old(h[..len])[end..k] + old(h[..len])[k + 1..]
  {
    ghost var cs := h[..len];
    ghost var a, b := cs[..k], cs[k + 1..];
    assert h[..k] == a && h[k + 1..len] == b;
    MoveDown(h, k, k + 1, len);
    len' := len - 1;
    assert h[..len'] == a + b;
    DropFront(a, b, end);
    assert a[end..] == cs[end..k];
    assert h[end..len'] == h[..len'][end..];
    MoveDown(h, 0, end, len');
    len' := len' - end;
  }

  /** One turn of the inner loop: the whole pairs up to the first command or the end, and the command. */
  method Round(h: array<char>, len: nat, before: seq<Out>) returns (len': nat, out: seq<Out>, failed: bool)
    requires 0 < len <= h.Length && NoSpace(h[..len]) && (len == 1 ==> IsCommand(h[0]))
    modifies h
    ensures var r := FeedAll(Scan(None, before, false), old(h[..len]));
            && before <= out
            && (failed ==> r.failed && out == before && before <= r.out)
            && (!failed ==> len' < len && NoSpace(h[..len']) && FeedAll(Scan(None, out, false), h[..len']) == r)
  {
    ghost var cs := h[..len];
    var cmdIndex := IndexCommand(h, len);
    var end := if cmdIndex % 2 == 1 then cmdIndex - 1 else cmdIndex;
    assert Plain(cs[..cmdIndex]);
    PlainParts(cs, cmdIndex, end);
    assert h[..end] == cs[..end];
    var bytes := DecodeString(h[..end]);
    if bytes.None? {
      assert cs == cs[..end] + cs[end..];
      BadPairs(cs[..end], cs[end..], before);
      return 0, before, true;
    }
    failed := false;
    if cmdIndex < len {
      CommandRound(cs, cmdIndex, end, before);
      out := before + bytes.value + [Command(h[cmdIndex])];
      len' := CloseUp(h, cmdIndex, end, len);
    } else {
      assert cs[..cmdIndex] == cs;
      PlainRound(cs, end, before);
      out := before + bytes.value;
      assert h[end..len] == cs[end..];
      MoveDown(h, 0, end, len);
      len' := len - end;
      assert h[..len'] == cs[end..];
    }
  }

  /** The inner loop: everything in `h` is written or obeyed, but for one character that may be left. */
  method Drain(h: array<char>, before: seq<Out>) returns (out: seq<Out>, left: Option<char>, failed: bool)
    requires NoSpace(h[..])
    modifies h
    ensures var r := FeedAll(Scan(None, before, false), old(h[..]));
            && failed == r.failed
            && (failed ==> before <= out <= r.out)
            && (!failed ==> out == r.out && left == r.pending)
  {
    var len := h.Length;
    out, left, failed := before, None, false;
    ghost var goal := FeedAll(Scan(None, before, false), h[..]);
    assert h[..len] == h[..];
    while len > 0
      invariant 0 <= len <= h.Length && NoSpace(h[..len]) && before <= out
      invariant FeedAll(Scan(None, out, false), h[..len]) == goal && !failed && left == None
      decreases len
    {
      if len == 1 && !IsCommand(h[0]) {
        assert h[..1] == [h[0]] && h[..1][1..] == [];
        return out, Some(h[0]), false;
      }
      len, out, failed := Round(h, len, out);
      if failed {
        return;
      }
    }
    assert h[..len] == [];
  }

  ghost predicate PendingPlain(s: Scan) {
    s.pending.Some? ==> !IsSpace(s.pending.value) && !IsCommand(s.pending.value)
  }

  lemma {:induction false} PendingStaysPlain(s: Scan, cs: seq<char>)
    requires PendingPlain(s)
    ensures PendingPlain(FeedAll(s, cs))
    decreases |cs|
  {
    if cs != [] {
      PendingStaysPlain(Feed(s, cs[0]), cs[1..]);
    }
  }

  /** bytes.Map(dropWhitespace, cs) into a new slice. */
  method Strip(cs: seq<char>) returns (h: array<char>)
    ensures fresh(h) && h[..] == Stripped(cs)
  {
    var kept, i := [], 0;
    assert cs[0..] == cs;
    while i < |cs|
      invariant 0 <= i <= |cs|
      invariant kept + Stripped(cs[i..]) == Stripped(cs)
    {
      assert cs[i..][1..] == cs[i + 1..];
      if !IsSpace(cs[i]) {
        kept := kept + [cs[i]];
      }
      i := i + 1;
    }
    h := new char[|kept|](j requires 0 <= j < |kept| => kept[j]);
  }

  const BUFFER := 1024

  /** What is left from the last read and what this one brings, as the automaton takes them. */
  lemma Resumes(s: Scan, left: seq<char>, read: seq<char>)
    requires !s.failed && PendingPlain(s) && left == if s.pending.Some? then [s.pending.value] else []
    ensures FeedAll(Scan(None, s.out, false), Stripped(left + read)) == FeedAll(s, read)
  {
    var t := Scan(None, s.out, false);
    StrippedSame(t, left + read);
    FeedConcat(t, left, read);
    if s.pending.Some? {
      assert left[1..] == [];
      assert Feed(t, left[0]) == s;
    }
  }

  /** One read and what is done with it. `left` says whether the first place of `buf` holds a character. */
  method ReadOnce(buf: array<char>, left: bool, read: seq<char>, ghost s: Scan)
    returns (out: seq<Out>, left': bool, failed: bool)
    requires buf.Length == BUFFER && |read| + (if left then 1 else 0) <= BUFFER
    requires !s.failed && PendingPlain(s) && s.pending == if left then Some(buf[0]) else None
    modifies buf
    ensures var r := FeedAll(s, read);
            && failed == r.failed
            && (failed ==> s.out <= s.out + out <= r.out)
            && (!failed ==> s.out + out == r.out && r.pending == if left' then Some(buf[0]) else None)
  {
    var bufStart := if left then 1 else 0;
    ghost var held := buf[..bufStart];
    var i := 0;
    while i < |read|
      invariant 0 <= i <= |read|
      invariant buf[..bufStart + i] == held + read[..i]
    {
      buf[bufStart + i] := read[i];
      assert buf[..bufStart + i + 1] == buf[..bufStart + i] + [read[i]];
      i := i + 1;
    }
    assert read[..i] == read;
    var h := Strip(buf[..bufStart + |read|]);
    StrippedNoSpace(held + read);
    Resumes(s, held, read);
    FeedFrom(START, s.out, h[..]);
    assert START.(out := s.out + START.out) == Scan(None, s.out, false);
    var c;
    out, c, failed := Drain(h, []);
    left' := c.Some?;
    if left' {
      buf[0] := c.value;
    }
  }

  /** How many reads bring something, as long as there is something. */
  function Positive(sizes: seq<nat>): nat {
    if sizes == [] then 0
    else Positive(sizes[..|sizes| - 1]) + if sizes[|sizes| - 1] > 0 then 1 else 0
  }

  /** However the input is split into reads, what was read so far gives what the automaton gives: the same bytes and
      commands in the same order, and an error in the same cases. */
  method RunDumpHexStream(input: seq<char>, sizes: seq<nat>) returns (out: seq<Out>, failed: bool, consumed: nat)
    ensures consumed <= |input|
    ensures var r := FeedAll(START, input[..consumed]);
            failed == r.failed && (if failed then out <= r.out else out == r.out)
    ensures !failed && |input| <= Positive(sizes) ==> consumed == |input|
  {
    var buf := new char[BUFFER];
    var left := false;
    out, failed, consumed := [], false, 0;
    ghost var s := START;
    assert input[..0] == [];
    var k := 0;
    while k < |sizes|
      invariant 0 <= k <= |sizes| && consumed <= |input| && !failed
      invariant s == FeedAll(START, input[..consumed]) && !s.failed && s.out == out && PendingPlain(s)
      invariant s.pending == if left then Some(buf[0]) else None
      invariant consumed == |input| || consumed >= Positive(sizes[..k])
    {
      assert sizes[..k + 1][..k] == sizes[..k];
      var room := if left then BUFFER - 1 else BUFFER;
      var n := if sizes[k] < room then sizes[k] else room;
      n := if n < |input| - consumed then n else |input| - consumed;
      var read := input[consumed..consumed + n];
      assert input[..consumed + n] == input[..consumed] + read;
      FeedConcat(START, input[..consumed], read);
      PendingStaysPlain(s, read);
      var more;
      more, left, failed := ReadOnce(buf, left, read, s);
      s := FeedAll(s, read);
      out, consumed := out + more, consumed + n;
      if failed {
        return;
      }
      k := k + 1;
    }
    assert sizes[..k] == sizes;
  }
}
