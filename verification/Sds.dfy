/** sds.c: quoting a byte string, and splitting a line of quoted arguments. */
module Sds {
  import opened Common
  import opened Bytes

  const BELL: Byte := 7
  const BACKSPACE: Byte := 8
  const TAB: Byte := 9
  const NEWLINE: Byte := 10
  const RETURN: Byte := 13
  const SPACE: Byte := 32
  const QUOTE: Byte := 34
  const APOSTROPHE: Byte := 39
  const BACKSLASH: Byte := 92
  const LOWER_A: Byte := 97
  const LOWER_B: Byte := 98
  const LOWER_N: Byte := 110
  const LOWER_R: Byte := 114
  const LOWER_T: Byte := 116
  const LOWER_X: Byte := 120

  /** isprint and isspace in the C locale. */
  predicate IsPrint(c: Byte) { 32 <= c <= 126 }

  predicate IsSpace(c: Byte) { c == SPACE || 9 <= c <= 13 }

  /** One digit of printf's %x. */
  function HexDigit(n: nat): Byte
    requires n < 16
  {
    if n < 10 then 48 + n else 87 + n
  }

  predicate IsHexDigit(c: Byte) {
    48 <= c <= 57 || 97 <= c <= 102 || 65 <= c <= 70
  }

  function HexDigitToInt(c: Byte): (n: nat)
    ensures n < 16
  {
    if 48 <= c <= 57 then c - 48
    else if 97 <= c <= 102 then c - 87
    else if 65 <= c <= 70 then c - 55
    else 0
  }

  // ---- quoting

  /** What sdscatrepr appends for one byte. */
  function Escape(c: Byte): Text {
    if c == BACKSLASH || c == QUOTE then [BACKSLASH, c]
    else if c == NEWLINE then [BACKSLASH, LOWER_N]
    else if c == RETURN then [BACKSLASH, LOWER_R]
    else if c == TAB then [BACKSLASH, LOWER_T]
    else if c == BELL then [BACKSLASH, LOWER_A]
    else if c == BACKSPACE then [BACKSLASH, LOWER_B]
    else if IsPrint(c) then [c]
    else [BACKSLASH, LOWER_X, HexDigit(c / 16), HexDigit(c % 16)]
  }

  function Escaped(s: Text): Text {
    if s == [] then [] else Escape(s[0]) + Escaped(s[1..])
  }

  function Repr(s: Text): Text {
    [QUOTE] + Escaped(s) + [QUOTE]
  }

  method CatRepr(s: Text, p: Text) returns (r: Text)
    ensures r == s + Repr(p)
  {
    r := s + [QUOTE];
    var i := 0;
    while i < |p|
      invariant 0 <= i <= |p|
      invariant r + Escaped(p[i..]) == s + [QUOTE] + Escaped(p)
    {
      EscapedFrom(r, p, i);
      r := r + Escape(p[i]);
      i := i + 1;
    }
    assert r + [] == r;
    r := r + [QUOTE];
    assert r == s + Repr(p);
  }

  /** The quoted form is printable, and what is printable stands for itself, but for quotes and backslashes. */
  lemma {:induction false} ReprIsReadable(s: Text)
    ensures forall i :: 0 <= i < |Repr(s)| ==> IsPrint(Repr(s)[i])
    ensures (forall i :: 0 <= i < |s| ==> IsPrint(s[i]) && s[i] != QUOTE && s[i] != BACKSLASH) ==>
      Repr(s) == [QUOTE] + s + [QUOTE]
  {
    EscapedIsReadable(s);
  }

  lemma {:induction false} EscapedIsReadable(s: Text)
    ensures forall i :: 0 <= i < |Escaped(s)| ==> IsPrint(Escaped(s)[i])
    ensures (forall i :: 0 <= i < |s| ==> IsPrint(s[i]) && s[i] != QUOTE && s[i] != BACKSLASH) ==> Escaped(s) == s
  {
    if s != [] {
      EscapedIsReadable(s[1..]);
      OneIsReadable(s[0]);
      assert s == [s[0]] + s[1..];
    }
  }

  lemma OneIsReadable(c: Byte)
    ensures forall i :: 0 <= i < |Escape(c)| ==> IsPrint(Escape(c)[i])
    ensures IsPrint(c) && c != QUOTE && c != BACKSLASH ==> Escape(c) == [c]
  {}

  lemma EscapedFrom(r: Text, p: Text, i: nat)
    requires i < |p|
    ensures r + Escaped(p[i..]) == (r + Escape(p[i])) + Escaped(p[i + 1..])
  {
    assert p[i..][0] == p[i] && p[i..][1..] == p[i + 1..];
  }

  // ---- splitting

  /** The byte at offset i of what is left of the line; a C string ends in a zero byte. */
  function At(rest: Text, i: nat): Byte {
    if i < |rest| then rest[i] else 0
  }

  function Drop(rest: Text, n: nat): (r: Text)
    ensures n > 0 && rest != [] ==> |r| < |rest|
  {
    if n <= |rest| then rest[n..] else []
  }

  function Unescape(c: Byte): Byte {
    if c == LOWER_N then NEWLINE
    else if c == LOWER_R then RETURN
    else if c == LOWER_T then TAB
    else if c == LOWER_B then BACKSPACE
    else if c == LOWER_A then BELL
    else c
  }

  datatype Mode = Plain | Quoted | Single

  /** One token, with what is left of the line after it; None is the error exit. */
  function Token(rest: Text, current: Text, mode: Mode): (r: Option<(Text, Text)>)
    ensures r.Some? ==> |r.value.1| <= |rest|
    decreases |rest|
  {
    var c := At(rest, 0);
    match mode
    case Quoted =>
      if c == 0 then None
      else if c == BACKSLASH && At(rest, 1) == LOWER_X && IsHexDigit(At(rest, 2)) && IsHexDigit(At(rest, 3)) then
        Token(Drop(rest, 4), current + [HexDigitToInt(rest[2]) * 16 + HexDigitToInt(rest[3])], Quoted)
      else if c == BACKSLASH && At(rest, 1) != 0 then
        Token(Drop(rest, 2), current + [Unescape(rest[1])], Quoted)
      else if c == QUOTE then
        if At(rest, 1) != 0 && !IsSpace(At(rest, 1)) then None else Some((current, Drop(rest, 1)))
      else Token(Drop(rest, 1), current + [c], Quoted)
    case Single =>
      if c == 0 then None
      else if c == BACKSLASH && At(rest, 1) == APOSTROPHE then Token(Drop(rest, 2), current + [APOSTROPHE], Single)
      else if c == APOSTROPHE then
        if At(rest, 1) != 0 && !IsSpace(At(rest, 1)) then None else Some((current, Drop(rest, 1)))
      else Token(Drop(rest, 1), current + [c], Single)
    case Plain =>
      if c == 0 then Some((current, rest))
      else if c == SPACE || c == NEWLINE || c == RETURN || c == TAB then Some((current, Drop(rest, 1)))
      else if c == QUOTE then Token(Drop(rest, 1), current, Quoted)
      else if c == APOSTROPHE then Token(Drop(rest, 1), current, Single)
      else Token(Drop(rest, 1), current + [c], Plain)
  }

  function SkipBlanks(rest: Text): (r: Text)
    ensures |r| <= |rest| && (r != [] ==> !IsSpace(r[0]))
  {
    if rest != [] && IsSpace(rest[0]) then SkipBlanks(rest[1..]) else rest
  }

  /** A token that starts at something consumes it. */
  lemma {:induction false} TokenAdvances(rest: Text, current: Text)
    requires At(rest, 0) != 0 && !IsSpace(At(rest, 0))
    ensures var r := Token(rest, current, Plain); r.Some? ==> |r.value.1| < |rest|
  {}

  /** All arguments of the line. */
  function Args(rest: Text): Option<seq<Text>>
    decreases |rest|
  {
    var start := SkipBlanks(rest);
    if At(start, 0) == 0 then Some([])
    else
      var token := Token(start, [], Plain);
      TokenAdvances(start, []);
      if token.None? then None
      else
        var more := Args(token.value.1);
        if more.None? then None else Some([token.value.0] + more.value)
  }

  function ModeOf(inq: bool, insq: bool): Mode {
    if inq then Quoted else if insq then Single else Plain
  }

  /** One turn of the token loop: None is a jump to err. */
  method TokenTurn(line: Text, p: nat, current: Text, inq: bool, insq: bool)
    returns (r: Option<(nat, Text, bool, bool, bool)>)
    requires p <= |line| && !(inq && insq)
    ensures r.None? ==> Token(line[p..], current, ModeOf(inq, insq)) == None
    ensures r.Some? ==>
      var (p', current', inq', insq', done) := r.value;
      p <= p' <= |line| && !(inq' && insq') && (p == p' ==> done)
      && Token(line[p..], current, ModeOf(inq, insq))
         == if done then Some((current', line[p'..])) else Token(line[p'..], current', ModeOf(inq', insq'))
  {
    var rest := line[p..];
    var c, next := At(rest, 0), At(rest, 1);
    assert forall n :: 0 <= n <= |rest| ==> Drop(rest, n) == line[p + n..];
    if inq {
      if c == BACKSLASH && next == LOWER_X && IsHexDigit(At(rest, 2)) && IsHexDigit(At(rest, 3)) {
        var byte := HexDigitToInt(rest[2]) * 16 + HexDigitToInt(rest[3]);
        r := Some((p + 4, current + [byte], true, false, false));
      } else if c == BACKSLASH && next != 0 {
        r := Some((p + 2, current + [Unescape(next)], true, false, false));
      } else if c == QUOTE {
        if next != 0 && !IsSpace(next) { return None; }
        r := Some((p + 1, current, true, false, true));
      } else if c == 0 {
        r := None;
      } else {
        r := Some((p + 1, current + [c], true, false, false));
      }
    } else if insq {
      if c == BACKSLASH && next == APOSTROPHE {
        r := Some((p + 2, current + [APOSTROPHE], false, true, false));
      } else if c == APOSTROPHE {
        if next != 0 && !IsSpace(next) { return None; }
        r := Some((p + 1, current, false, true, true));
      } else if c == 0 {
        r := None;
      } else {
        r := Some((p + 1, current + [c], false, true, false));
      }
    } else {
      if c == 0 {
        r := Some((p, current, false, false, true));
      } else if c == SPACE || c == NEWLINE || c == RETURN || c == TAB {
        r := Some((p + 1, current, false, false, true));
      } else if c == QUOTE {
        r := Some((p + 1, current, true, false, false));
      } else if c == APOSTROPHE {
        r := Some((p + 1, current, false, true, false));
      } else {
        r := Some((p + 1, current + [c], false, false, false));
      }
    }
  }

  function PutBefore(args: seq<Text>, more: Option<seq<Text>>): Option<seq<Text>> {
    if more.None? then None else Some(args + more.value)
  }

  lemma PutNothing(more: Option<seq<Text>>)
    ensures PutBefore([], more) == more
  {
    if more.Some? { assert [] + more.value == more.value; }
  }

  lemma PutOne(args: seq<Text>, arg: Text, more: Option<seq<Text>>)
    ensures PutBefore(args, PutBefore([arg], more)) == PutBefore(args + [arg], more)
  {
    if more.Some? { Regroup(args, [arg], more.value); }
  }

  /** sdssplitargs. */
  method SplitArgs(line: Text) returns (vector: Option<seq<Text>>)
    ensures vector == Args(line)
  {
    var p, args: seq<Text> := 0, [];
    assert line[0..] == line;
    PutNothing(Args(line));
    while true
      invariant 0 <= p <= |line|
      invariant Args(line) == PutBefore(args, Args(line[p..]))
      decreases |line| - p
    {
      ghost var p0 := p;
      while p < |line| && IsSpace(line[p])
        invariant p0 <= p <= |line| && SkipBlanks(line[p0..]) == SkipBlanks(line[p..])
      {
        assert line[p..][1..] == line[p + 1..];
        p := p + 1;
      }
      if At(line[p..], 0) == 0 {
        assert args + [] == args;
        return Some(args);
      }
      ghost var start := line[p..];
      TokenAdvances(start, []);
      var current: Text, inq, insq, done := [], false, false, false;
      ghost var p1 := p;
      while !done
        invariant p1 <= p <= |line| && !(inq && insq)
        invariant Token(start, [], Plain)
          == if done then Some((current, line[p..])) else Token(line[p..], current, ModeOf(inq, insq))
        decreases |line| - p, !done
      {
        var turn := TokenTurn(line, p, current, inq, insq);
        if turn.None? { return None; }
        p, current, inq, insq, done := turn.value.0, turn.value.1, turn.value.2, turn.value.3, turn.value.4;
      }
      PutOne(args, current, Args(line[p..]));
      args := args + [current];
    }
  }

  // ---- the round trip

  /** The arguments, quoted and joined by spaces. */
  function Joined(args: seq<Text>): Text {
    if args == [] then []
    else if |args| == 1 then Repr(args[0])
    else Repr(args[0]) + ([SPACE] + Joined(args[1..]))
  }

  lemma TwoBytes(c: Byte, e: Byte, tail: Text, current: Text)
    requires e != 0 && e != LOWER_X && Unescape(e) == c
    ensures Token([BACKSLASH, e] + tail, current, Quoted) == Token(tail, current + [c], Quoted)
  {
    assert ([BACKSLASH, e] + tail)[2..] == tail;
  }

  lemma FourBytes(c: Byte, tail: Text, current: Text)
    ensures Token([BACKSLASH, LOWER_X, HexDigit(c / 16), HexDigit(c % 16)] + tail, current, Quoted)
      == Token(tail, current + [c], Quoted)
  {
    assert ([BACKSLASH, LOWER_X, HexDigit(c / 16), HexDigit(c % 16)] + tail)[4..] == tail;
    assert HexDigitToInt(HexDigit(c / 16)) == c / 16 && HexDigitToInt(HexDigit(c % 16)) == c % 16;
    assert c / 16 * 16 + c % 16 == c;
  }

  /** Parsing back one escaped byte, whatever follows. */
  lemma OneByte(c: Byte, tail: Text, current: Text)
    ensures Token(Escape(c) + tail, current, Quoted) == Token(tail, current + [c], Quoted)
  {
    if |Escape(c)| == 2 {
      TwoBytes(c, Escape(c)[1], tail, current);
      assert Escape(c) == [BACKSLASH, Escape(c)[1]];
    } else if |Escape(c)| == 4 {
      FourBytes(c, tail, current);
    } else {
      assert ([c] + tail)[1..] == tail;
    }
  }

  lemma {:induction false} QuotedReadsBack(s: Text, tail: Text, current: Text)
    requires tail == [] || tail[0] == SPACE
    ensures Token(Escaped(s) + [QUOTE] + tail, current, Quoted) == Some((current + s, tail))
  {
    if s == [] {
      ClosingQuote(tail, current);
      assert Escaped(s) + [QUOTE] + tail == [QUOTE] + tail && current + s == current;
    } else {
      var rest := Escaped(s[1..]) + [QUOTE] + tail;
      Requoted(Escape(s[0]), Escaped(s[1..]), tail);
      OneByte(s[0], rest, current);
      QuotedReadsBack(s[1..], tail, current + [s[0]]);
      assert current + [s[0]] + s[1..] == current + s;
    }
  }

  lemma ClosingQuote(tail: Text, current: Text)
    requires tail == [] || tail[0] == SPACE
    ensures Token([QUOTE] + tail, current, Quoted) == Some((current, tail))
  {
    assert ([QUOTE] + tail)[1..] == tail;
  }

  lemma Requoted(a: Text, b: Text, tail: Text)
    ensures a + b + [QUOTE] + tail == a + (b + [QUOTE] + tail)
  {}

  /** For every list of byte strings, splitting the quoted and joined strings gives back the list. */
  lemma {:induction false} SplitsBack(args: seq<Text>)
    ensures Args(Joined(args)) == Some(args)
  {
    if args != [] {
      var tail := if |args| == 1 then [] else [SPACE] + Joined(args[1..]);
      DoubleReads(args[0], tail);
      assert Joined(args) == Repr(args[0]) + tail;
      if |args| > 1 {
        BlankFirst(Joined(args[1..]));
        SplitsBack(args[1..]);
      }
      assert [args[0]] + args[1..] == args;
    }
  }

  lemma BlankFirst(rest: Text)
    ensures Args([SPACE] + rest) == Args(rest)
  {
    assert ([SPACE] + rest)[1..] == rest;
  }

  // ---- plain and single-quoted arguments

  /** A byte that neither ends a plain word nor starts a quoted part of it. */
  predicate PlainByte(c: Byte) {
    c != 0 && c != SPACE && c != NEWLINE && c != RETURN && c != TAB && c != QUOTE && c != APOSTROPHE
  }

  /** How an argument may be written. */
  datatype Style = Word | Double | Apostrophes

  /** Any bytes can stand in double quotes; in single quotes, no zero byte and no backslash at the end, where it would
      escape the closing quote. */
  predicate Fits(style: Style, s: Text) {
    match style
    case Word => s != [] && !IsSpace(s[0]) && forall i :: 0 <= i < |s| ==> PlainByte(s[i])
    case Double => true
    case Apostrophes => SingleSafe(s)
  }

  predicate SingleSafe(s: Text) {
    (forall i :: 0 <= i < |s| ==> s[i] != 0) && (s != [] ==> s[|s| - 1] != BACKSLASH)
  }

  function EscapedSingle(s: Text): Text {
    if s == [] then []
    else (if s[0] == APOSTROPHE then [BACKSLASH, APOSTROPHE] else [s[0]]) + EscapedSingle(s[1..])
  }

  function Rendered(style: Style, s: Text): Text {
    match style
    case Word => s
    case Double => Repr(s)
    case Apostrophes => [APOSTROPHE] + EscapedSingle(s) + [APOSTROPHE]
  }

  /** A plain word ends at the first blank, which goes with it. */
  lemma {:induction false} WordReadsBack(s: Text, tail: Text, current: Text)
    requires (forall i :: 0 <= i < |s| ==> PlainByte(s[i])) && (tail == [] || tail[0] == SPACE)
    ensures Token(s + tail, current, Plain) == Some((current + s, if tail == [] then [] else tail[1..]))
  {
    if s == [] {
      assert s + tail == tail && current + s == current;
    } else {
      assert (s + tail)[1..] == s[1..] + tail;
      WordReadsBack(s[1..], tail, current + [s[0]]);
      assert current + [s[0]] + s[1..] == current + s;
    }
  }

  lemma {:induction false} SingleReadsBack(s: Text, tail: Text, current: Text)
    requires SingleSafe(s) && (tail == [] || tail[0] == SPACE)
    ensures Token(EscapedSingle(s) + [APOSTROPHE] + tail, current, Single) == Some((current + s, tail))
  {
    if s == [] {
      ClosingApostrophe(tail, current);
      assert EscapedSingle(s) + [APOSTROPHE] + tail == [APOSTROPHE] + tail && current + s == current;
    } else {
      var rest := EscapedSingle(s[1..]) + [APOSTROPHE] + tail;
      Resingled(if s[0] == APOSTROPHE then [BACKSLASH, APOSTROPHE] else [s[0]], EscapedSingle(s[1..]), tail);
      OneSingle(s, rest, current);
      SingleReadsBack(s[1..], tail, current + [s[0]]);
      assert current + [s[0]] + s[1..] == current + s;
    }
  }

  lemma ClosingApostrophe(tail: Text, current: Text)
    requires tail == [] || tail[0] == SPACE
    ensures Token([APOSTROPHE] + tail, current, Single) == Some((current, tail))
  {
    assert ([APOSTROPHE] + tail)[1..] == tail;
  }

  /** One byte in single quotes; a backslash is never followed by a bare apostrophe. */
  lemma OneSingle(s: Text, rest: Text, current: Text)
    requires SingleSafe(s) && s != [] && (|s| > 1 ==> EscapedSingle(s[1..]) <= rest)
    ensures Token((if s[0] == APOSTROPHE then [BACKSLASH, APOSTROPHE] else [s[0]]) + rest, current, Single)
      == Token(rest, current + [s[0]], Single)
  {
    if s[0] == APOSTROPHE {
      assert ([BACKSLASH, APOSTROPHE] + rest)[2..] == rest;
    } else {
      assert ([s[0]] + rest)[1..] == rest;
      if |s| > 1 { assert At(rest, 0) == EscapedSingle(s[1..])[0]; }
    }
  }

  lemma Resingled(a: Text, b: Text, tail: Text)
    ensures a + b + [APOSTROPHE] + tail == a + (b + [APOSTROPHE] + tail)
  {}

  /** The arguments, each written in some way, joined by spaces. */
  function JoinedIn(styles: seq<Style>, args: seq<Text>): Text
    requires |styles| == |args|
  {
    if args == [] then []
    else if |args| == 1 then Rendered(styles[0], args[0])
    else Rendered(styles[0], args[0]) + ([SPACE] + JoinedIn(styles[1..], args[1..]))
  }

  ghost predicate ReadsAs(line: Text, s: Text, tail: Text) {
    && At(line, 0) != 0 && !IsSpace(line[0])
    && var r := Token(line, [], Plain);
       r.Some? && r.value.0 == s && Args(r.value.1) == Args(tail)
  }

  lemma WordReads(s: Text, tail: Text)
    requires Fits(Word, s) && (tail == [] || tail[0] == SPACE)
    ensures ReadsAs(s + tail, s, tail)
  {
    WordReadsBack(s, tail, []);
    assert [] + s == s && (s + tail)[0] == s[0];
    if tail != [] {
      assert tail == [SPACE] + tail[1..];
      BlankFirst(tail[1..]);
    }
  }

  lemma DoubleReads(s: Text, tail: Text)
    requires tail == [] || tail[0] == SPACE
    ensures ReadsAs(Repr(s) + tail, s, tail)
  {
    QuotedReadsBack(s, tail, []);
    var line := [QUOTE] + (Escaped(s) + [QUOTE] + tail);
    assert Repr(s) + tail == line && line[1..] == Escaped(s) + [QUOTE] + tail;
    assert [] + s == s;
  }

  lemma SingleReads(s: Text, tail: Text)
    requires SingleSafe(s) && (tail == [] || tail[0] == SPACE)
    ensures ReadsAs([APOSTROPHE] + EscapedSingle(s) + [APOSTROPHE] + tail, s, tail)
  {
    SingleReadsBack(s, tail, []);
    var line := [APOSTROPHE] + (EscapedSingle(s) + [APOSTROPHE] + tail);
    assert [APOSTROPHE] + EscapedSingle(s) + [APOSTROPHE] + tail == line;
    assert line[1..] == EscapedSingle(s) + [APOSTROPHE] + tail;
    assert [] + s == s;
  }

  lemma RenderedReads(style: Style, s: Text, tail: Text)
    requires Fits(style, s) && (tail == [] || tail[0] == SPACE)
    ensures ReadsAs(Rendered(style, s) + tail, s, tail)
  {
    match style
    case Word => WordReads(s, tail);
    case Double => DoubleReads(s, tail);
    case Apostrophes => SingleReads(s, tail);
  }

  /** Whichever way each argument is written, splitting the line gives back the list. */
  lemma {:induction false} AnyStyleSplitsBack(styles: seq<Style>, args: seq<Text>)
    requires |styles| == |args| && forall i :: 0 <= i < |args| ==> Fits(styles[i], args[i])
    ensures Args(JoinedIn(styles, args)) == Some(args)
  {
    if args != [] {
      var tail := if |args| == 1 then [] else [SPACE] + JoinedIn(styles[1..], args[1..]);
      RenderedReads(styles[0], args[0], tail);
      assert JoinedIn(styles, args) == Rendered(styles[0], args[0]) + tail;
      if |args| > 1 {
        BlankFirst(JoinedIn(styles[1..], args[1..]));
        AnyStyleSplitsBack(styles[1..], args[1..]);
      }
      assert [args[0]] + args[1..] == args;
    }
  }
}
