/** String#inspect, and the lexer for the literals it writes. */
module Strings {

  type Byte = x: int | 0 <= x < 256

  const NEWLINE: Byte := 10
  const RETURN: Byte := 13
  const QUOTE: Byte := 34
  const HASH: Byte := 35
  const DOLLAR: Byte := 36
  const DASH: Byte := 45
  const AT: Byte := 64
  const BACKSLASH: Byte := 92
  const CURLY: Byte := 123

  // ----- writing -------------------------------------------------------------------------------

  /** mp_toradix writes capital letters. */
  function HexDigit(n: int): Byte
    requires 0 <= n < 16
  {
    if n < 10 then 48 + n else 65 + n - 10
  }

  function Quoted(c: Byte): seq<Byte> {
    if c == BACKSLASH then [BACKSLASH, BACKSLASH]
    else if c == QUOTE then [BACKSLASH, QUOTE]
    else if c == HASH then [BACKSLASH, HASH]
    else if c == NEWLINE then [BACKSLASH, 110]
    else if c == RETURN then [BACKSLASH, 114]
    else if c < 32 || c >= 127 then [BACKSLASH, 120] + Padded(Radix16(c))
    else [c]
  }

  /** Number::to_string(16) of a byte */
  function Radix16(c: Byte): (r: seq<Byte>)
    ensures 1 <= |r| <= 2
  {
    if c < 16 then [HexDigit(c)] else [HexDigit(c / 16), HexDigit(c % 16)]
  }

  /** rjust(2, "0") */
  function Padded(s: seq<Byte>): seq<Byte>
    requires 1 <= |s| <= 2
  {
    if |s| == 2 then s else [48] + s
  }

  function QuotedAll(s: seq<Byte>): seq<Byte> {
    if |s| == 0 then [] else QuotedAll(s[..|s| - 1]) + Quoted(s[|s| - 1])
  }

  function Inspected(s: seq<Byte>): seq<Byte> {
    [QUOTE] + QuotedAll(s) + [QUOTE]
  }

  /** The text is printable ASCII; characters that need no escape are written as they are, and the
      others with a backslash. */
  method Inspect(s: seq<Byte>) returns (result: seq<Byte>)
    ensures result == Inspected(s)
    ensures forall c <- result :: 32 <= c <= 126
    ensures (forall i {:trigger s[i]} :: 0 <= i < |s| ==> 32 <= s[i] <= 126 && s[i] != 34 && s[i] != 35 && s[i] != 92)
      ==> result == [34] + s + [34]
    ensures s in {[34], [35], [92]} ==> result == [34, 92, s[0], 34]
    ensures (s == [10] ==> result == [34, 92, 110, 34]) && (s == [13] ==> result == [34, 92, 114, 34])
    ensures |s| == 1 && (s[0] < 32 || 127 <= s[0]) && s[0] != 10 && s[0] != 13 ==>
              result == [34, 92, 120, if s[0] < 160 then 48 + s[0] / 16 else 55 + s[0] / 16,
                         if s[0] % 16 < 10 then 48 + s[0] % 16 else 55 + s[0] % 16, 34]
  {
    hide Quoted, QuotedAll;
    result := [QUOTE];
    var i := 0;
    NothingQuoted(s);
    while i < |s|
      invariant 0 <= i <= |s| && result == [QUOTE] + QuotedAll(s[..i])
    {
      QuotedNext(s, i);
      var quoted := InspectChar(s[i]);
      QuotedFurther(QuotedAll(s[..i]), quoted);
      result := result + quoted;
      i := i + 1;
    }
    assert s[..i] == s;
    result := result + [QUOTE];
    QuotedInBytes(s);
    if forall i {:trigger s[i]} :: 0 <= i < |s| ==> 32 <= s[i] <= 126 && s[i] != 34 && s[i] != 35 && s[i] != 92 {
      PlainIsKept(s);
    }
    if |s| == 1 {
      QuotedByte(s[0]);
      OneQuoted(s[0]);
      assert s == [s[0]];
    }
  }

  lemma OneQuoted(c: Byte)
    ensures QuotedAll([c]) == Quoted(c)
  {
    assert [c][..0] == [];
    assert QuotedAll([]) == [];
  }

  lemma QuotedByte(c: Byte)
    ensures forall x <- Quoted(c) :: 32 <= x <= 126
    ensures 32 <= c <= 126 && c != 34 && c != 35 && c != 92 ==> Quoted(c) == [c]
    ensures c in {34, 35, 92} ==> Quoted(c) == [92, c]
    ensures (c == 10 ==> Quoted(c) == [92, 110]) && (c == 13 ==> Quoted(c) == [92, 114])
    ensures (c < 32 || 127 <= c) && c != 10 && c != 13 ==>
              Quoted(c) == [92, 120, if c < 160 then 48 + c / 16 else 55 + c / 16,
                            if c % 16 < 10 then 48 + c % 16 else 55 + c % 16]
  {
  }

  lemma {:induction false} QuotedInBytes(s: seq<Byte>)
    ensures forall c <- QuotedAll(s) :: 32 <= c <= 126
    decreases |s|
  {
    hide Quoted;
    QuotedAllSplits(s);
    if |s| > 0 {
      QuotedInBytes(s[..|s| - 1]);
      QuotedByte(s[|s| - 1]);
    }
  }

  lemma {:induction false} PlainIsKept(s: seq<Byte>)
    requires forall i {:trigger s[i]} :: 0 <= i < |s| ==> 32 <= s[i] <= 126 && s[i] != 34 && s[i] != 35 && s[i] != 92
    ensures QuotedAll(s) == s
    decreases |s|
  {
    hide Quoted;
    QuotedAllSplits(s);
    if |s| > 0 {
      FrontAndLast(s);
      PlainIsKept(s[..|s| - 1]);
      QuotedByte(s[|s| - 1]);
    }
  }

  /** What is written for two strings together is what is written for each, without the quotes
      between. */
  lemma {:induction false} InspectJoins(a: seq<Byte>, b: seq<Byte>)
    ensures Inspected(a + b) == Inspected(a)[..|Inspected(a)| - 1] + Inspected(b)[1..]
  {
    hide QuotedAll;
    QuotedJoins(a, b);
    BetweenQuotes(QuotedAll(a));
    BetweenQuotes(QuotedAll(b));
    assert [QUOTE] + (QuotedAll(a) + QuotedAll(b)) + [QUOTE] == ([QUOTE] + QuotedAll(a)) + (QuotedAll(b) + [QUOTE]);
  }

  lemma BetweenQuotes(q: seq<Byte>)
    ensures var text := [QUOTE] + q + [QUOTE]; text[..|text| - 1] == [QUOTE] + q && text[1..] == q + [QUOTE]
  {
  }

  lemma {:induction false} QuotedJoins(a: seq<Byte>, b: seq<Byte>)
    ensures QuotedAll(a + b) == QuotedAll(a) + QuotedAll(b)
    decreases |b|
  {
    hide Quoted;
    QuotedAllSplits(b);
    QuotedAllSplits(a + b);
    if |b| > 0 {
      QuotedJoins(a, b[..|b| - 1]);
      assert (a + b)[..|a + b| - 1] == a + b[..|b| - 1];
    } else {
      assert a + b == a;
    }
  }

  lemma NothingQuoted(s: seq<Byte>)
    ensures QuotedAll(s[..0]) == []
  {
  }

  lemma QuotedFurther(a: seq<Byte>, b: seq<Byte>)
    ensures ([QUOTE] + a) + b == [QUOTE] + (a + b)
  {
  }

  lemma QuotedNext(s: seq<Byte>, i: nat)
    requires i < |s|
    ensures QuotedAll(s[..i + 1]) == QuotedAll(s[..i]) + Quoted(s[i])
  {
    assert s[..i + 1][..i] == s[..i];
  }

  /** One turn of the switch. */
  method InspectChar(c: Byte) returns (r: seq<Byte>)
    ensures r == Quoted(c)
  {
    if c == BACKSLASH {
      r := [BACKSLASH, BACKSLASH];
    } else if c == QUOTE {
      r := [BACKSLASH, QUOTE];
    } else if c == HASH {
      r := [BACKSLASH, HASH];
    } else if c == NEWLINE {
      r := [BACKSLASH, 110];
    } else if c == RETURN {
      r := [BACKSLASH, 114];
    } else if c < 32 || c >= 127 {
      r := [BACKSLASH, 120] + Padded(Radix16(c));
    } else {
      r := [c];
    }
  }

  // ----- reading -------------------------------------------------------------------------------

  /** The text ends in a zero. */
  function CharAt(text: seq<Byte>, pos: nat): Byte {
    if pos < |text| then text[pos] else 0
  }

  predicate IsHex(c: Byte) {
    48 <= c <= 57 || 65 <= c <= 70 || 97 <= c <= 102
  }

  predicate IsOctal(c: Byte) {
    48 <= c <= 55
  }

  /** What the decoding loop makes of a character, an x included. */
  function HexValue(c: Byte): int {
    if c >= 97 then c - 97 + 10 else if c >= 65 then c - 65 + 10 else c - 48
  }

  function OctalValue(c: Byte): int {
    c - 48
  }

  /** A sequence of digits as a number. */
  function Number(text: seq<Byte>, start: nat, stop: nat, hex: bool): int
    requires start <= stop <= |text|
    decreases stop - start
  {
    if start == stop then 0
    else Number(text, start, stop - 1, hex) * (if hex then 16 else 8)
         + if hex then HexValue(text[stop - 1]) else OctalValue(text[stop - 1])
  }

  /** One escape, after the backslash: whether there is one, what it stands for and where it ends. */
  datatype Escape = Escape(ok: bool, bytes: seq<Byte>, pos: nat)

  function HexEnd(text: seq<Byte>, pos: nat): (r: nat)
    ensures pos < r && (CharAt(text, pos) != 0 ==> r <= |text|)
  {
    if !IsHex(CharAt(text, pos + 1)) then pos + 1 else if !IsHex(CharAt(text, pos + 2)) then pos + 2 else pos + 3
  }

  function OctalEnd(text: seq<Byte>, pos: nat): (r: nat)
    ensures pos < r && (CharAt(text, pos) != 0 ==> r <= |text|)
  {
    if !IsOctal(CharAt(text, pos + 1)) then pos + 1 else if !IsOctal(CharAt(text, pos + 2)) then pos + 2 else pos + 3
  }

  function Plain(c: Byte): int {
    if c == 110 then 10 else if c == 116 then 9 else if c == 114 then 13 else if c == 102 then 12
    else if c == 118 then 11 else if c == 97 then 7 else if c == 101 then 27 else if c == 98 then 8
    else if c == 115 then 32 else -1
  }

  /** A control or meta prefix is skipped; the dash after C and M may be missing. */
  function PrefixEnd(text: seq<Byte>, pos: nat): (r: nat)
    ensures r > pos
  {
    if CharAt(text, pos) != 99 && CharAt(text, pos + 1) == DASH then pos + 2 else pos + 1
  }

  function EscapeAt(text: seq<Byte>, pos: nat, captureNewline: bool): (r: Escape)
    ensures pos <= |text| ==> r.pos <= |text| && (if r.ok then r.pos > pos else r.pos >= pos)
    ensures !r.ok ==> r.bytes == []
    decreases if pos < |text| then |text| - pos else 0
  {
    var c := CharAt(text, pos);
    if c == NEWLINE then Escape(true, if captureNewline then [NEWLINE] else [], pos + 1)
    else if c == RETURN then
      var crlf := CharAt(text, pos + 1) == NEWLINE;
      Escape(true, if !captureNewline then [] else if crlf then [NEWLINE] else [], if crlf then pos + 2 else pos + 1)
    else if c == 99 || c == 67 || c == 77 then
      var next := PrefixEnd(text, pos);
      if CharAt(text, next) == BACKSLASH then EscapeAt(text, next + 1, captureNewline) else Escape(false, [], next)
    else if IsOctal(c) then Escape(true, [Number(text, pos, OctalEnd(text, pos), false) % 256], OctalEnd(text, pos))
    else if c == 120 then Escape(true, [Number(text, pos, HexEnd(text, pos), true) % 256], HexEnd(text, pos))
    else if Plain(c) != -1 then Escape(true, [Plain(c)], pos + 1)
    else Escape(false, [], pos)
  }

  datatype Outcome = Literal(bytes: seq<Byte>, pos: nat) | Interpolated(pos: nat) | Unterminated(pos: nat)

  /** A double-quoted literal from inside of it on; result is what has been read. */
  function LiteralAt(text: seq<Byte>, pos: nat, result: seq<Byte>): Outcome
    requires pos <= |text|
    decreases |text| - pos
  {
    var c := CharAt(text, pos);
    if c == QUOTE then Literal(result, pos + 1)
    else if c == HASH then
      if CharAt(text, pos + 1) in {CURLY, DOLLAR, AT} then Interpolated(pos + 1)
      else LiteralAt(text, pos + 1, result + [HASH])
    else if c == RETURN && CharAt(text, pos + 1) == NEWLINE then LiteralAt(text, pos + 2, result + [RETURN, NEWLINE])
    else if c == BACKSLASH then
      var e := EscapeAt(text, pos + 1, false);
      if e.ok then LiteralAt(text, e.pos, result + e.bytes)
      else if e.pos >= |text| then Unterminated(e.pos)
      else LiteralAt(text, e.pos + 1, result + [CharAt(text, e.pos)])
    else if pos >= |text| then Unterminated(pos)
    else LiteralAt(text, pos + 1, result + [c])
  }

  class Lexer {
    const text: seq<Byte>
    var pos: nat

    constructor (text: seq<Byte>)
      ensures this.text == text && pos == 0
    {
      this.text := text;
      pos := 0;
    }

    function Input(): Byte
      reads this
    {
      CharAt(text, pos)
    }

    /** The loop that goes back over the characters of a numeric escape, in eight bits. */
    method Decode(start: nat, hex: bool) returns (num: Byte)
      requires start <= pos <= |text|
      ensures num == Number(text, start, pos, hex) % 256
    {
      num := 0;
      var c := pos;
      var weight := 1;
      ghost var low := 0;
      while c > start
        invariant start <= c <= pos && num == low % 256
        invariant Number(text, start, pos, hex) == weight * Number(text, start, c, hex) + low
      {
        var digit := if hex then HexValue(text[c - 1]) else OctalValue(text[c - 1]);
        var radix := if hex then 16 else 8;
        Carry(weight, Number(text, start, c - 1, hex), radix, digit, low);
        num := (num + digit * weight) % 256;
        low := low + digit * weight;
        weight := weight * radix;
        c := c - 1;
      }
    }

    /** parse_escape */
    method ParseEscape(captureNewline: bool) returns (ok: bool, result: seq<Byte>)
      requires pos <= |text|
      modifies this`pos
      ensures EscapeAt(text, old(pos), captureNewline) == Escape(ok, result, pos)
      decreases |text| - pos
    {
      ok, result := true, [];
      var c := Input();
      if c == NEWLINE {
        if captureNewline {
          result := [NEWLINE];
        }
        pos := pos + 1;
      } else if c == RETURN {
        pos := pos + 1;
        if Input() == NEWLINE {
          if captureNewline {
            result := [NEWLINE];
          }
          pos := pos + 1;
        }
      } else if c == 99 || c == 67 || c == 77 {
        pos := pos + 1;
        if c != 99 && Input() == DASH {
          pos := pos + 1;
        }
        if Input() == BACKSLASH {
          pos := pos + 1;
          ok, result := ParseEscape(captureNewline);
        } else {
          ok := false;
        }
      } else if IsOctal(c) {
        var start := pos;
        pos := pos + 1;
        if IsOctal(Input()) {
          pos := pos + 1;
          if IsOctal(Input()) {
            pos := pos + 1;
          }
        }
        var num := Decode(start, false);
        result := [num];
      } else if c == 120 {
        var start := pos;
        pos := pos + 1;
        if IsHex(Input()) {
          pos := pos + 1;
          if IsHex(Input()) {
            pos := pos + 1;
          }
        }
        var num := Decode(start, true);
        result := [num];
      } else if Plain(c) != -1 {
        result := [Plain(c)];
        pos := pos + 1;
      } else {
        ok := false;
      }
    }

    /** parse_interpolate, for a double-quoted literal and up to its first interpolation. */
    method ParseInterpolate() returns (out: Outcome)
      requires pos <= |text|
      modifies this`pos
      ensures out == LiteralAt(text, old(pos), []) && pos == out.pos
    {
      var result := [];
      while true
        invariant pos <= |text| && LiteralAt(text, old(pos), []) == LiteralAt(text, pos, result)
        decreases |text| - pos
      {
        var c := Input();
        if c == QUOTE {
          pos := pos + 1;
          return Literal(result, pos);
        } else if c == HASH {
          pos := pos + 1;
          if Input() in {CURLY, DOLLAR, AT} {
            return Interpolated(pos);
          }
          result := result + [HASH];
        } else if c == RETURN {
          pos := pos + 1;
          if Input() == NEWLINE {
            pos := pos + 1;
            result := result + [RETURN, NEWLINE];
          } else {
            result := result + [RETURN];
          }
        } else if c == BACKSLASH {
          pos := pos + 1;
          var ok, escape := ParseEscape(false);
          if !ok {
            if pos >= |text| {
              return Unterminated(pos);
            }
            assert escape == [];
            escape := escape + [Input()];
            assert escape == [Input()];
            pos := pos + 1;
          }
          result := result + escape;
        } else if pos >= |text| {
          return Unterminated(pos);
        } else {
          result := result + [c];
          pos := pos + 1;
        }
      }
    }
  }

  lemma Carry(weight: int, high: int, radix: int, digit: int, low: int)
    ensures weight * (high * radix + digit) + low == weight * radix * high + (low + digit * weight)
    ensures ((low % 256) + digit * weight) % 256 == (low + digit * weight) % 256
  {
  }

  // ----- the round trip ------------------------------------------------------------------------

  predicate Has(text: seq<Byte>, pos: nat, part: seq<Byte>) {
    pos + |part| <= |text| && text[pos..pos + |part|] == part
  }

  /** What inspect writes for a character is read as that character.  For \\x and two digits this
      rests on the eight bits: the decoding loop goes back over the x too. */
  lemma QuotedIsRead(text: seq<Byte>, pos: nat, c: Byte, result: seq<Byte>)
    requires Has(text, pos, Quoted(c))
    ensures LiteralAt(text, pos, result) == LiteralAt(text, pos + |Quoted(c)|, result + [c])
  {
    assert forall k :: 0 <= k < |Quoted(c)| ==> CharAt(text, pos + k) == Quoted(c)[k];
    assert CharAt(text, pos) == Quoted(c)[0];
    if |Quoted(c)| > 1 {
      assert CharAt(text, pos + 1) == Quoted(c)[1];
      if |Quoted(c)| > 2 {
        assert Quoted(c)[2] == HexDigit(c / 16) && Quoted(c)[3] == HexDigit(c % 16);
        HexRead(text, pos + 1, c);
      }
    }
  }

  lemma HexRead(text: seq<Byte>, pos: nat, c: Byte)
    requires pos + 3 <= |text| && text[pos] == 120 && text[pos + 1] == HexDigit(c / 16)
      && text[pos + 2] == HexDigit(c % 16)
    ensures EscapeAt(text, pos, false) == Escape(true, [c], pos + 3)
  {
    assert HexEnd(text, pos) == pos + 3;
    assert Number(text, pos, pos, true) == 0;
    assert Number(text, pos, pos + 1, true) == 33;
    assert Number(text, pos, pos + 2, true) == 33 * 16 + c / 16;
    assert Number(text, pos, pos + 3, true) == 33 * 256 + c;
  }

  lemma FrontAndLast(s: seq<Byte>)
    requires |s| > 0
    ensures s[..|s| - 1] + [s[|s| - 1]] == s
  {
  }

  lemma QuotedAllSplits(s: seq<Byte>)
    ensures |s| == 0 ==> |QuotedAll(s)| == 0
    ensures |s| > 0 ==> QuotedAll(s) == QuotedAll(s[..|s| - 1]) + Quoted(s[|s| - 1])
  {
    hide Quoted;
  }

  lemma {:induction false} QuotedAllIsRead(text: seq<Byte>, pos: nat, s: seq<Byte>)
    requires Has(text, pos, QuotedAll(s)) && pos + |QuotedAll(s)| <= |text|
    ensures LiteralAt(text, pos, []) == LiteralAt(text, pos + |QuotedAll(s)|, s)
    decreases |s|
  {
    hide *;
    QuotedAllSplits(s);
    if |s| > 0 {
      FrontAndLast(s);
      var front, c := s[..|s| - 1], s[|s| - 1];
      HasParts(text, pos, QuotedAll(front), Quoted(c));
      QuotedAllIsRead(text, pos, front);
      QuotedIsRead(text, pos + |QuotedAll(front)|, c, front);
    }
  }

  lemma HasParts(text: seq<Byte>, pos: nat, a: seq<Byte>, b: seq<Byte>)
    requires Has(text, pos, a + b)
    ensures Has(text, pos, a) && Has(text, pos + |a|, b) && pos + |a| + |b| <= |text|
  {
    assert text[pos..pos + |a|] == text[pos..pos + |a + b|][..|a|] == a;
    assert text[pos + |a|..pos + |a| + |b|] == text[pos..pos + |a + b|][|a|..] == b;
  }

  lemma InspectedStands(before: seq<Byte>, s: seq<Byte>, after: seq<Byte>)
    ensures var text := before + Inspected(s) + after;
            var end := |before| + 1 + |QuotedAll(s)|;
            Has(text, |before| + 1, QuotedAll(s)) && end < |text| && text[end] == QUOTE
              && |before| + |Inspected(s)| == end + 1
  {
    hide QuotedAll, Has;
    var q := QuotedAll(s);
    var text := before + Inspected(s) + after;
    InTheMiddle(before + [QUOTE], q, [QUOTE] + after);
    assert text == (before + [QUOTE]) + q + ([QUOTE] + after);
  }

  lemma InTheMiddle(a: seq<Byte>, b: seq<Byte>, c: seq<Byte>)
    ensures Has(a + b + c, |a|, b)
  {
  }

  /** Lexing what inspect has written, wherever it stands, gives back the string, and ends right
      behind it. */
  lemma InspectRoundTrip(before: seq<Byte>, s: seq<Byte>, after: seq<Byte>)
    ensures var text := before + Inspected(s) + after;
            LiteralAt(text, |before| + 1, []) == Literal(s, |before| + |Inspected(s)|)
  {
    hide *;
    InspectedStands(before, s, after);
    var text := before + Inspected(s) + after;
    QuotedAllIsRead(text, |before| + 1, s);
    LiteralEnds(text, |before| + 1 + |QuotedAll(s)|, s);
  }

  lemma LiteralEnds(text: seq<Byte>, pos: nat, result: seq<Byte>)
    requires pos < |text| && text[pos] == QUOTE
    ensures LiteralAt(text, pos, result) == Literal(result, pos + 1)
  {
  }

  /** Different strings are never written alike. */
  lemma InspectIsInjective(s: seq<Byte>, t: seq<Byte>)
    requires Inspected(s) == Inspected(t)
    ensures s == t
  {
    InspectRoundTrip([], s, []);
    InspectRoundTrip([], t, []);
    assert [] + Inspected(s) + [] == [] + Inspected(t) + [];
  }

  /** Evaluating the text gives back the string: inspect, and then the lexer. */
  method InspectAndLex(s: seq<Byte>) returns (t: seq<Byte>)
    ensures t == s
  {
    hide QuotedAll, LiteralAt;
    var text := Inspect(s);
    InspectRoundTrip([], s, []);
    assert [] + Inspected(s) + [] == Inspected(s);
    var lexer := new Lexer(text);
    lexer.pos := lexer.pos + 1;
    var out := lexer.ParseInterpolate();
    return out.bytes;
  }

  /** A \\x escape is the number its digits stand for if and only if there are two of them: with one
      digit the x counts for sixteen, and with none for thirty-three. */
  lemma HexEscape(text: seq<Byte>, pos: nat)
    requires CharAt(text, pos) == 120
    ensures var end := HexEnd(text, pos);
            var e := EscapeAt(text, pos, false);
            e.ok && e.pos == end && |e.bytes| == 1
              && (e.bytes[0] == Number(text, pos + 1, end, true) <==> end == pos + 3)
    ensures HexEnd(text, pos) == pos + 2
      ==> EscapeAt(text, pos, false) == Escape(true, [16 + HexValue(text[pos + 1])], pos + 2)
    ensures HexEnd(text, pos) == pos + 1 ==> EscapeAt(text, pos, false) == Escape(true, [33], pos + 1)
  {
    hide Number, HexValue, IsHex;
    HexNumbers(text, pos);
  }

  lemma HexNumbers(text: seq<Byte>, pos: nat)
    requires CharAt(text, pos) == 120
    ensures Number(text, pos, pos + 1, true) == 33 && Number(text, pos + 1, pos + 1, true) == 0
    ensures pos + 1 < |text| ==> Number(text, pos + 1, pos + 2, true) == HexValue(text[pos + 1])
                                 && Number(text, pos, pos + 2, true) == 33 * 16 + HexValue(text[pos + 1])
    ensures HexEnd(text, pos) >= pos + 2 ==> pos + 1 < |text| && 0 <= HexValue(text[pos + 1]) < 16
    ensures HexEnd(text, pos) == pos + 3 ==>
              pos + 2 < |text| && 0 <= HexValue(text[pos + 2]) < 16
              && Number(text, pos + 1, pos + 3, true) == 16 * HexValue(text[pos + 1]) + HexValue(text[pos + 2])
              && Number(text, pos, pos + 3, true) == 33 * 256 + 16 * HexValue(text[pos + 1]) + HexValue(text[pos + 2])
  {
    assert Number(text, pos, pos, true) == 0 && Number(text, pos + 1, pos + 1, true) == 0;
    assert Number(text, pos, pos + 1, true) == 33;
    if HexEnd(text, pos) >= pos + 2 {
      assert IsHex(CharAt(text, pos + 1));
      assert Number(text, pos + 1, pos + 2, true) == HexValue(text[pos + 1]);
      assert Number(text, pos, pos + 2, true) == 33 * 16 + HexValue(text[pos + 1]);
    }
  }

  // ----- what literals stand for, byte by byte -----------------------------------------------------

  /** A letter behind a backslash; one without a meaning stands for itself, and so do backslash, quote
      and hash. */
  lemma LetterIsRead(text: seq<Byte>, pos: nat, result: seq<Byte>)
    requires pos + 1 < |text| && text[pos] == 92
    ensures var table := [(110, 10), (116, 9), (114, 13), (102, 12), (118, 11), (97, 7), (101, 27), (98, 8), (115, 32)];
            && (forall i {:trigger table[i]} :: 0 <= i < |table| && text[pos + 1] == table[i].0 ==>
                  LiteralAt(text, pos, result) == LiteralAt(text, pos + 2, result + [table[i].1]))
            && ((forall i {:trigger table[i]} :: 0 <= i < |table| ==> text[pos + 1] != table[i].0)
                && text[pos + 1] !in {10, 13, 67, 77, 99, 120} && !(48 <= text[pos + 1] <= 55) ==>
                  LiteralAt(text, pos, result) == LiteralAt(text, pos + 2, result + [text[pos + 1]]))
  {
    var table := [(110, 10), (116, 9), (114, 13), (102, 12), (118, 11), (97, 7), (101, 27), (98, 8), (115, 32)];
    var c := text[pos + 1];
    if Plain(c) == -1 {
      assert forall i {:trigger table[i]} :: 0 <= i < |table| ==> c != table[i].0;
    } else {
      assert exists i :: 0 <= i < |table| && c == table[i].0 by {
        assert table[0].0 == 110 && table[1].0 == 116 && table[2].0 == 114 && table[3].0 == 102 && table[4].0 == 118
            && table[5].0 == 97 && table[6].0 == 101 && table[7].0 == 98 && table[8].0 == 115;
      }
    }
  }

  /** A backslash before the end of a line joins the lines. */
  lemma LinesAreJoined(text: seq<Byte>, pos: nat, result: seq<Byte>)
    requires pos + 1 < |text| && text[pos] == 92
    ensures text[pos + 1] == 10 ==> LiteralAt(text, pos, result) == LiteralAt(text, pos + 2, result)
    ensures text[pos + 1] == 13 && pos + 2 < |text| ==>
              LiteralAt(text, pos, result) == LiteralAt(text, if text[pos + 2] == 10 then pos + 3 else pos + 2, result)
  {
    assert result + [] == result;
  }

  /** A control or meta prefix leaves the escape behind it as it is. */
  lemma PrefixIsSkipped(text: seq<Byte>, pos: nat, result: seq<Byte>)
    requires pos + 2 < |text| && text[pos] == 92
    ensures text[pos + 1] == 99 && text[pos + 2] == 92
      ==> LiteralAt(text, pos, result) == LiteralAt(text, pos + 2, result)
    ensures text[pos + 1] in {67, 77} && text[pos + 2] == 45 && pos + 3 < |text| && text[pos + 3] == 92 ==>
              LiteralAt(text, pos, result) == LiteralAt(text, pos + 3, result)
  {
  }

  /** Up to three octal digits behind a backslash are a byte, in eight bits. */
  lemma OctalIsRead(text: seq<Byte>, pos: nat, result: seq<Byte>, n: nat)
    requires 1 <= n <= 3 && pos + n < |text| && text[pos] == 92
    requires forall k {:trigger text[k]} :: pos < k <= pos + n ==> 48 <= text[k] <= 55
    requires n < 3 ==> pos + n + 1 == |text| || !(48 <= text[pos + n + 1] <= 55)
    ensures var a, b, c := text[pos + 1] as int - 48, text[pos + n - 1] as int - 48, text[pos + n] as int - 48;
            LiteralAt(text, pos, result) ==
            LiteralAt(text, pos + n + 1, result + [(if n == 1 then c else if n == 2 then 8 * b + c
                                                    else 64 * a + 8 * b + c) % 256])
  {
    var a, b, c := text[pos + 1] as int - 48, text[pos + n - 1] as int - 48, text[pos + n] as int - 48;
    assert OctalEnd(text, pos + 1) == pos + n + 1;
    assert Number(text, pos + 1, pos + 1, false) == 0;
    assert Number(text, pos + 1, pos + 2, false) == a;
    if n == 2 {
      assert Number(text, pos + 1, pos + 3, false) == 8 * b + c;
    } else if n == 3 {
      assert Number(text, pos + 1, pos + 3, false) == 8 * a + b;
      assert Number(text, pos + 1, pos + 4, false) == 8 * (8 * a + b) + c;
    }
  }

  /** \\x takes up to two hexadecimal digits, capital or not.  Two are their number; fewer leave the x in. */
  lemma HexIsRead(text: seq<Byte>, pos: nat, result: seq<Byte>, n: nat)
    requires n <= 2 && pos + 1 + n < |text| && text[pos] == 92 && text[pos + 1] == 120
    requires forall k {:trigger text[k]} :: pos + 1 < k <= pos + 1 + n ==>
               48 <= text[k] <= 57 || 65 <= text[k] <= 70 || 97 <= text[k] <= 102
    requires n < 2 ==> pos + n + 2 == |text| || !(|| 48 <= text[pos + n + 2] <= 57 || 65 <= text[pos + n + 2] <= 70
                                                  || 97 <= text[pos + n + 2] <= 102)
    ensures var c, d := text[pos + n] as int, text[pos + 1 + n] as int;
            var high := if c >= 97 then c - 87 else if c >= 65 then c - 55 else c - 48;
            var low := if d >= 97 then d - 87 else if d >= 65 then d - 55 else d - 48;
            LiteralAt(text, pos, result) ==
            LiteralAt(text, pos + n + 2, result + [if n == 2 then 16 * high + low else if n == 1 then 16 + low else 33])
  {
    hide Number, LiteralAt, HexEnd;
    HexDigitsEnd(text, pos + 1, n);
    HexNumbers(text, pos + 1);
    EscapeIsRead(text, pos, result);
  }

  lemma HexDigitsEnd(text: seq<Byte>, pos: nat, n: nat)
    requires n <= 2 && pos + n < |text|
    requires forall k {:trigger text[k]} :: pos < k <= pos + n ==>
               48 <= text[k] <= 57 || 65 <= text[k] <= 70 || 97 <= text[k] <= 102
    requires n < 2 ==> pos + n + 1 == |text| || !(|| 48 <= text[pos + n + 1] <= 57 || 65 <= text[pos + n + 1] <= 70
                                                  || 97 <= text[pos + n + 1] <= 102)
    ensures HexEnd(text, pos) == pos + n + 1
  {
  }

  lemma EscapeIsRead(text: seq<Byte>, pos: nat, result: seq<Byte>)
    requires pos < |text| && text[pos] == 92
    ensures var e := EscapeAt(text, pos + 1, false);
            e.ok ==> LiteralAt(text, pos, result) == LiteralAt(text, e.pos, result + e.bytes)
  {
    hide EscapeAt;
  }

  /** A quote ends the literal, a hash before a brace, a dollar sign or an at sign interpolates, and
      without a backslash any other byte stands for itself. */
  lemma ByteIsRead(text: seq<Byte>, pos: nat, result: seq<Byte>)
    requires pos < |text|
    ensures text[pos] == 34 ==> LiteralAt(text, pos, result) == Literal(result, pos + 1)
    ensures text[pos] == 35 && pos + 1 < |text| && text[pos + 1] in {36, 64, 123} ==>
              LiteralAt(text, pos, result) == Interpolated(pos + 1)
    ensures text[pos] == 35 && (pos + 1 == |text| || text[pos + 1] !in {36, 64, 123}) ==>
              LiteralAt(text, pos, result) == LiteralAt(text, pos + 1, result + [35])
    ensures text[pos] !in {13, 34, 35, 92} ==>
              LiteralAt(text, pos, result) == LiteralAt(text, pos + 1, result + [text[pos]])
    ensures text[pos] == 13 && pos + 1 < |text| ==>
              LiteralAt(text, pos, result) == if text[pos + 1] == 10 then LiteralAt(text, pos + 2, result + [13, 10])
                                              else LiteralAt(text, pos + 1, result + [13])
  {
  }
}
