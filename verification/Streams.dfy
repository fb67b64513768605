/** Reading lines through a buffer. */
module Streams {

  type Byte = x: int | 0 <= x < 256

  const NEWLINE: Byte := 10
  const RETURN: Byte := 13
  const BUFFER_SIZE: nat := 0x200

  // ----- lines, a byte at a time -----------------------------------------------------------------

  /** Where the line that starts at p ends: behind a \n, a \r\n or a lone \r, or with the stream. */
  function LineEnd(data: seq<Byte>, p: nat): (r: nat)
    requires p <= |data|
    ensures p <= r <= |data| && (p < |data| ==> p < r)
    decreases |data| - p
  {
    if p == |data| then p
    else if data[p] == NEWLINE then p + 1
    else if data[p] == RETURN then if p + 1 < |data| && data[p + 1] == NEWLINE then p + 2 else p + 1
    else LineEnd(data, p + 1)
  }

  /** data[p..end] is a line with its terminator, and the next line starts at end. */
  predicate IsLine(data: seq<Byte>, p: nat, end: nat) {
    && p <= end <= |data| && (p < |data| ==> p < end)
    && (forall k {:trigger data[k]} :: p <= k < end ==>
          (data[k] == NEWLINE ==> k == end - 1)
          && (data[k] == RETURN ==> k == end - 1 || (k == end - 2 && data[end - 1] == NEWLINE)))
    && (end < |data| ==> data[end - 1] == NEWLINE || (data[end - 1] == RETURN && data[end] != NEWLINE))
  }

  lemma {:induction false} LineEndIsLine(data: seq<Byte>, p: nat)
    requires p <= |data|
    ensures IsLine(data, p, LineEnd(data, p))
    decreases |data| - p
  {
    if p < |data| && data[p] != NEWLINE && data[p] != RETURN {
      LineEndIsLine(data, p + 1);
    }
  }

  /** The same in bytes: a line ends behind the first 10 or 13 in it, and a 13 takes a 10 with it. */
  lemma LineInBytes(data: seq<Byte>, p: nat)
    requires p <= |data|
    ensures var end := LineEnd(data, p);
      && p <= end <= |data| && (p < |data| ==> p < end)
      && (forall k {:trigger data[k]} :: p <= k < end - 1 ==>
            data[k] != 10 && (data[k] == 13 ==> k == end - 2 && data[end - 1] == 10))
      && (end < |data| ==> data[end - 1] == 10 || (data[end - 1] == 13 && data[end] != 10))
  {
    hide LineEnd;
    LineEndIsLine(data, p);
  }

  /** There is one way to cut off a line. */
  lemma {:induction false} OneLine(data: seq<Byte>, p: nat, end: nat)
    requires IsLine(data, p, end)
    ensures end == LineEnd(data, p)
    decreases |data| - p
  {
    if p < |data| && data[p] != NEWLINE && data[p] != RETURN {
      OneLine(data, p + 1, end);
    }
  }

  // ----- the stream ------------------------------------------------------------------------------

  class Stream {
    const data: seq<Byte>
    var pos: nat

    ghost predicate Valid()
      reads this
    {
      pos <= |data|
    }

    constructor (data: seq<Byte>)
      ensures this.data == data && pos == 0 && Valid()
    {
      this.data := data;
      pos := 0;
    }

    /** A read is short only at the end of the stream. */
    method Read(length: nat) returns (r: seq<Byte>)
      requires Valid()
      modifies this`pos
      ensures Valid() && pos == (if old(pos) + length <= |data| then old(pos) + length else |data|)
        && r == data[old(pos)..pos]
    {
      var start := pos;
      pos := if start + length <= |data| then start + length else |data|;
      r := data[start..pos];
    }

    method Seek(to: nat)
      requires to <= |data|
      modifies this`pos
      ensures pos == to && Valid()
    {
      pos := to;
    }

    /** The loop over one buffer, which was read at p: the end of the line and the seek there, if it
        is in this buffer. */
    method Scan(p: nat, read: seq<Byte>) returns (found: bool, line: seq<Byte>)
      requires Valid() && p + |read| == pos && read == data[p..pos]
      modifies this`pos
      ensures Valid() && p <= pos
      ensures found ==> pos == LineEnd(data, p) && line == data[p..pos]
      ensures !found ==> pos == old(pos) && line == read && LineEnd(data, p) == LineEnd(data, pos)
    {
      hide LineEnd;
      var i := 0;
      while i < |read|
        invariant 0 <= i <= |read| && pos == old(pos) && LineEnd(data, p) == LineEnd(data, p + i)
      {
        LineEndHere(data, p + i);
        assert read[i] == data[p + i];
        if read[i] == RETURN {
          i := i + 1;
          if i < |read| {
            assert read[i] == data[p + i];
            if read[i] == NEWLINE {
              i := i + 1;
            }
            Seek(p + i);
            Front(data, p, i, |read|);
            return true, read[..i];
          } else {
            found, line := LastReturn(p, read);
            return;
          }
        } else if read[i] == NEWLINE {
          i := i + 1;
          Seek(p + i);
          Front(data, p, i, |read|);
          return true, read[..i];
        }
        i := i + 1;
      }
      return false, read;
    }

    /** A \r is the last byte of the buffer: one more byte tells whether the line ends with \r\n. */
    method LastReturn(p: nat, read: seq<Byte>) returns (found: bool, line: seq<Byte>)
      requires Valid() && p + |read| == pos && read == data[p..pos] && |read| > 0
      modifies this`pos
      ensures Valid() && found && p <= pos && line == data[p..pos]
      ensures pos == if old(pos) < |data| && data[old(pos)] == NEWLINE then old(pos) + 1 else old(pos)
    {
      var c := Read(1);
      Adjoin(data, p, p + |read|, pos);
      if c == [NEWLINE] {
        return true, read + c;
      } else {
        Seek(pos - |c|);
        return true, read;
      }
    }

    /** gets: exactly the next line, whatever the buffer cuts it into. */
    method Gets() returns (line: seq<Byte>)
      requires Valid()
      modifies this`pos
      ensures Valid() && pos == LineEnd(data, old(pos)) && line == data[old(pos)..pos]
      ensures forall k {:trigger line[k]} :: 0 <= k < |line| - 1 ==>
                line[k] != 10 && (line[k] == 13 ==> k == |line| - 2 && line[|line| - 1] == 10)
      ensures pos < |data| ==>
                |line| > 0 && (line[|line| - 1] == 10 || (line[|line| - 1] == 13 && data[pos] != 10))
    {
      hide LineEnd;
      ghost var start := pos;
      LineInBytes(data, start);
      var result := [];
      while true
        invariant start <= pos <= |data| && result == data[start..pos] && LineEnd(data, start) == LineEnd(data, pos)
        decreases |data| - pos
      {
        var p := pos;
        var buffer := Read(BUFFER_SIZE);
        var found, part := Scan(p, buffer);
        Adjoin(data, start, p, pos);
        if found {
          return result + part;
        }
        if |buffer| < BUFFER_SIZE {
          LineEndHere(data, pos);
          return result + buffer;
        }
        result := result + buffer;
      }
    }
  }

  /** One byte of a line. */
  lemma LineEndHere(data: seq<Byte>, p: nat)
    requires p <= |data|
    ensures LineEnd(data, p) == if p == |data| then p
                                else if data[p] == NEWLINE then p + 1
                                else if data[p] == RETURN then
                                  if p + 1 < |data| && data[p + 1] == NEWLINE then p + 2 else p + 1
                                else LineEnd(data, p + 1)
  {
  }

  lemma Front(data: seq<Byte>, p: nat, i: nat, n: nat)
    requires i <= n && p + n <= |data|
    ensures data[p..p + n][..i] == data[p..p + i]
  {
  }

  lemma Adjoin(data: seq<Byte>, a: nat, b: nat, c: nat)
    requires a <= b <= c <= |data|
    ensures data[a..b] + data[b..c] == data[a..c]
    ensures c == b ==> data[a..b] == data[a..c]
    ensures c == b + 1 ==> data[b..c] == [data[b]]
  {
  }

  function Joined(lines: seq<seq<Byte>>): seq<Byte> {
    if |lines| == 0 then [] else Joined(lines[..|lines| - 1]) + lines[|lines| - 1]
  }

  /** Line number i is a line of the stream, from one end to the next. */
  ghost predicate LineAt(data: seq<Byte>, lines: seq<seq<Byte>>, ends: seq<nat>, i: nat) {
    && i < |lines| && i + 1 < |ends| && ends[i] < ends[i + 1] <= |data|
    && IsLine(data, ends[i], ends[i + 1]) && lines[i] == data[ends[i]..ends[i + 1]]
  }

  /** The lines of a stream and where they start and end. */
  ghost predicate Cuts(data: seq<Byte>, lines: seq<seq<Byte>>, ends: seq<nat>) {
    && |ends| == |lines| + 1 && ends[0] == 0
    && forall i {:trigger LineAt(data, lines, ends, i)} :: 0 <= i < |lines| ==> LineAt(data, lines, ends, i)
  }

  /** Each line lies between two ends, which follow each other. */
  lemma CutsAreLines(data: seq<Byte>, lines: seq<seq<Byte>>, ends: seq<nat>, i: nat)
    requires Cuts(data, lines, ends) && i < |lines|
    ensures ends[i] < ends[i + 1] <= |data| && lines[i] == data[ends[i]..ends[i + 1]]
      && IsLine(data, ends[i], ends[i + 1])
  {
    hide IsLine;
    assert LineAt(data, lines, ends, i);
  }

  lemma CutsMore(data: seq<Byte>, lines: seq<seq<Byte>>, ends: seq<nat>, start: nat, end: nat)
    requires Cuts(data, lines, ends) && start == ends[|lines|] < end <= |data| && IsLine(data, start, end)
    ensures Cuts(data, lines + [data[start..end]], ends + [end])
  {
    hide IsLine;
    var more, all := lines + [data[start..end]], ends + [end];
    forall i {:trigger LineAt(data, more, all, i)} | 0 <= i < |more|
      ensures LineAt(data, more, all, i)
    {
      if i < |lines| {
        assert LineAt(data, lines, ends, i);
      }
    }
  }

  lemma JoinedMore(data: seq<Byte>, lines: seq<seq<Byte>>, start: nat, end: nat)
    requires start <= end <= |data| && Joined(lines) == data[..start]
    ensures Joined(lines + [data[start..end]]) == data[..end]
  {
    var more := lines + [data[start..end]];
    assert more[..|more| - 1] == lines && more[|more| - 1] == data[start..end];
    assert data[..start] + data[start..end] == data[..end];
  }

  /** Lines as they come, until there are none: together they are the stream, and they are its lines. */
  method ReadLines(data: seq<Byte>) returns (lines: seq<seq<Byte>>, ghost ends: seq<nat>)
    ensures Cuts(data, lines, ends) && ends[|lines|] == |data| && Joined(lines) == data
  {
    hide IsLine, LineEnd, Cuts;
    var stream := new Stream(data);
    lines, ends := [], [0];
    NoCuts(data);
    while true
      invariant stream.Valid() && stream.data == data && |ends| == |lines| + 1 && ends[|lines|] == stream.pos
      invariant Cuts(data, lines, ends) && Joined(lines) == data[..stream.pos]
      decreases |data| - stream.pos
    {
      ghost var start := stream.pos;
      var line := stream.Gets();
      LineEndIsLine(data, start);
      if |line| == 0 {
        LineEndHere(data, stream.pos);
        return;
      }
      CutsMore(data, lines, ends, start, stream.pos);
      JoinedMore(data, lines, start, stream.pos);
      lines, ends := lines + [line], ends + [stream.pos];
    }
  }

  lemma NoCuts(data: seq<Byte>)
    ensures Cuts(data, [], [0])
  {
  }
}
