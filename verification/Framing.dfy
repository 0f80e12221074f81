/** Newline-delimited frames: three readers of one format. */
module Framing {
  import opened Words
  import opened Text
  import opened Json

  // ---- What a byte stream contains ----

  /** The index of the first newline; the length of the text when there is none. */
  function FirstNewline(s: string): (i: nat)
    ensures i <= |s|
  {
    if s == "" || s[0] == '\n' then 0 else 1 + FirstNewline(s[1..])
  }

  lemma {:induction false} FirstNewlineIs(s: string)
    ensures Lacks(s[..FirstNewline(s)], '\n')
    ensures FirstNewline(s) < |s| ==> s[FirstNewline(s)] == '\n'
  {
    if s != "" && s[0] != '\n' {
      FirstNewlineIs(s[1..]);
      var i := FirstNewline(s[1..]);
      assert s[..i + 1] == [s[0]] + s[1..][..i];
    }
  }

  lemma {:induction false} FirstNewlineUnique(s: string, i: nat)
    requires i <= |s| && Lacks(s[..i], '\n') && (i < |s| ==> s[i] == '\n')
    ensures FirstNewline(s) == i
  {
    if i > 0 {
      assert s[..i][0] == s[0] && s[1..][..i - 1] == s[..i][1..];
      FirstNewlineUnique(s[1..], i - 1);
    }
  }

  /** The complete lines of a stream, and what follows the last newline. */
  function Lines(s: string): seq<string>
    decreases |s|
  {
    var i := FirstNewline(s);
    if i == |s| then [] else [s[..i]] + Lines(s[i + 1..])
  }

  function Remainder(s: string): (r: string)
    ensures |r| <= |s|
    decreases |s|
  {
    var i := FirstNewline(s);
    if i == |s| then s else Remainder(s[i + 1..])
  }

  /** Each line followed by its newline. */
  function Framed(lines: seq<string>): string {
    if lines == [] then "" else lines[0] + "\n" + Framed(lines[1..])
  }

  lemma CutText(s: string, i: nat)
    requires i < |s| && s[i] == '\n'
    ensures s == s[..i] + "\n" + s[i + 1..]
  {
  }

  lemma CutAtNewline(s: string)
    requires FirstNewline(s) < |s|
    ensures var i := FirstNewline(s);
      && s == s[..i] + "\n" + s[i + 1..] && Lacks(s[..i], '\n')
      && Lines(s) == [s[..i]] + Lines(s[i + 1..]) && Remainder(s) == Remainder(s[i + 1..])
  {
    FirstNewlineIs(s);
    CutText(s, FirstNewline(s));
    hide FirstNewline, Lacks;
  }

  lemma NoNewline(s: string)
    requires FirstNewline(s) == |s|
    ensures Lacks(s, '\n') && Lines(s) == [] && Remainder(s) == s
  {
    FirstNewlineIs(s);
    assert s[..|s|] == s;
  }

  lemma Regroup(line: string, mid: string, rest: string)
    ensures (line + "\n" + mid) + rest == line + "\n" + (mid + rest)
  {
  }

  /** Lines and remainder are the one way of cutting a stream at its newlines. */
  lemma {:induction false} LinesAreTheSplit(s: string)
    ensures Framed(Lines(s)) + Remainder(s) == s
    ensures Lacks(Remainder(s), '\n') && forall k :: 0 <= k < |Lines(s)| ==> Lacks(Lines(s)[k], '\n')
    decreases |s|
  {
    var i := FirstNewline(s);
    hide FirstNewline, Lines, Remainder, Lacks;
    if i == |s| {
      NoNewline(s);
      assert "" + s == s;
    } else {
      CutAtNewline(s);
      var rest := s[i + 1..];
      LinesAreTheSplit(rest);
      assert Lines(s)[1..] == Lines(rest);
      Regroup(s[..i], Framed(Lines(rest)), Remainder(rest));
    }
  }

  lemma OneLineFirst(line: string, rest: string)
    requires Lacks(line, '\n')
    ensures Lines(line + "\n" + rest) == [line] + Lines(rest) && Remainder(line + "\n" + rest) == Remainder(rest)
  {
    var s := line + "\n" + rest;
    assert s[..|line|] == line && s[|line|] == '\n' && s[|line| + 1..] == rest;
    FirstNewlineUnique(s, |line|);
  }

  lemma {:induction false} SplitIsUnique(lines: seq<string>, rest: string)
    requires Lacks(rest, '\n') && forall k :: 0 <= k < |lines| ==> Lacks(lines[k], '\n')
    ensures Lines(Framed(lines) + rest) == lines && Remainder(Framed(lines) + rest) == rest
  {
    if lines == [] {
      assert "" + rest == rest;
      assert rest[..|rest|] == rest;
      FirstNewlineUnique(rest, |rest|);
    } else {
      SplitIsUnique(lines[1..], rest);
      OneLineFirst(lines[0], Framed(lines[1..]) + rest);
      assert Framed(lines) + rest == lines[0] + "\n" + (Framed(lines[1..]) + rest);
      assert [lines[0]] + lines[1..] == lines;
    }
  }

  /** What is left over from one part is simply put in front of the next. */
  lemma {:induction false} SplitInParts(a: string, b: string)
    ensures Lines(a + b) == Lines(a) + Lines(Remainder(a) + b)
    ensures Remainder(a + b) == Remainder(Remainder(a) + b)
    decreases |a|
  {
    var i := FirstNewline(a);
    hide FirstNewline, Lines, Remainder, Lacks;
    if i == |a| {
      NoNewline(a);
      assert [] + Lines(a + b) == Lines(a + b);
    } else {
      CutAtNewline(a);
      var rest := a[i + 1..];
      SplitInParts(rest, b);
      Regroup(a[..i], rest, b);
      OneLineFirst(a[..i], rest + b);
      assert ([a[..i]] + Lines(rest)) + Lines(Remainder(rest) + b) == [a[..i]] + (Lines(rest) + Lines(Remainder(rest) + b));
    }
  }

  function Concat(chunks: seq<string>): string {
    if chunks == [] then "" else Concat(chunks[..|chunks| - 1]) + chunks[|chunks| - 1]
  }

  // ---- Encoding ----

  function Encode(v: Value): string {
    Print(v) + "\n"
  }

  function EncodeAll(vs: seq<Value>): string {
    if vs == [] then "" else Encode(vs[0]) + EncodeAll(vs[1..])
  }

  function PrintAll(vs: seq<Value>): seq<string> {
    seq(|vs|, i requires 0 <= i < |vs| => Print(vs[i]))
  }

  /** Messages written one after the other come back one by one, with nothing left over. */
  lemma {:induction false} EncodedMessagesComeBack(vs: seq<Value>)
    ensures Lines(EncodeAll(vs)) == PrintAll(vs) && Remainder(EncodeAll(vs)) == ""
  {
    if vs != [] {
      PrintIsOneLine(vs[0]);
      EncodedMessagesComeBack(vs[1..]);
      hide Print;
      OneLineFirst(Print(vs[0]), EncodeAll(vs[1..]));
      assert PrintAll(vs) == [Print(vs[0])] + PrintAll(vs[1..]);
    }
  }

  // ---- The daemon's reader ----

  const MAX_SOCKET_BUFFER: nat := 0x10_0000

  datatype Reading = Reading(buffer: string, handled: seq<string>, refusals: nat)

  function Received(r: Reading, chunk: string): Reading {
    var b := r.buffer + chunk;
    if |b| > MAX_SOCKET_BUFFER then Reading(b, r.handled, r.refusals + 1)
    else Reading(Remainder(b), r.handled + Lines(b), r.refusals)
  }

  function ReceivedAll(chunks: seq<string>): Reading {
    if chunks == [] then Reading("", [], 0)
    else Received(ReceivedAll(chunks[..|chunks| - 1]), chunks[|chunks| - 1])
  }

  /** The chunk overflows the buffer, together with the unfinished line before it. */
  predicate Overflows(chunks: seq<string>, k: nat)
    requires k < |chunks|
  {
    |Remainder(Concat(chunks[..k]))| + |chunks[k]| > MAX_SOCKET_BUFFER
  }

  /** However the stream is cut: as long as no chunk overflows, the lines handled are the lines of the whole. */
  lemma {:induction false} CutsDoNotMatter(chunks: seq<string>)
    requires forall k :: 0 <= k < |chunks| ==> !Overflows(chunks, k)
    ensures ReceivedAll(chunks) == Reading(Remainder(Concat(chunks)), Lines(Concat(chunks)), 0)
  {
    if chunks != [] {
      var n := |chunks| - 1;
      var front := chunks[..n];
      forall k | 0 <= k < n ensures !Overflows(front, k) {
        assert front[..k] == chunks[..k] && !Overflows(chunks, k);
      }
      CutsDoNotMatter(front);
      assert !Overflows(chunks, n);
      SplitInParts(Concat(front), chunks[n]);
    }
  }

  /** From the first chunk that overflows on, every chunk is refused and no further line is handled. */
  lemma {:induction false} RefusesFromOverflow(chunks: seq<string>, k: nat)
    requires k < |chunks| && Overflows(chunks, k) && forall j :: 0 <= j < k ==> !Overflows(chunks, j)
    ensures ReceivedAll(chunks).handled == Lines(Concat(chunks[..k])) && ReceivedAll(chunks).refusals == |chunks| - k
    ensures |ReceivedAll(chunks).buffer| > MAX_SOCKET_BUFFER
    decreases |chunks|
  {
    var n := |chunks| - 1;
    var front := chunks[..n];
    if k == n {
      forall j | 0 <= j < n ensures !Overflows(front, j) {
        assert front[..j] == chunks[..j] && !Overflows(chunks, j);
      }
      CutsDoNotMatter(front);
    } else {
      forall j | 0 <= j <= k ensures Overflows(front, j) == Overflows(chunks, j) {
        assert front[..j] == chunks[..j];
      }
      RefusesFromOverflow(front, k);
      assert front[..k] == chunks[..k];
    }
  }

  /** The connection is refused if and only if some chunk overflows. */
  lemma RefusesIffOverflow(chunks: seq<string>)
    ensures ReceivedAll(chunks).refusals > 0 <==> exists k :: 0 <= k < |chunks| && Overflows(chunks, k)
    ensures ReceivedAll(chunks).refusals > 0
      <==> exists k :: 0 <= k < |chunks| && |Remainder(Concat(chunks[..k]))| + |chunks[k]| > 1048576
  {
    OverflowIs(chunks);
    if k :| 0 <= k < |chunks| && Overflows(chunks, k) {
      var first := FirstOverflow(chunks, k);
      RefusesFromOverflow(chunks, first);
    } else {
      CutsDoNotMatter(chunks);
    }
  }

  lemma OverflowIs(chunks: seq<string>)
    ensures forall k :: 0 <= k < |chunks| ==>
      (Overflows(chunks, k) <==> |Remainder(Concat(chunks[..k]))| + |chunks[k]| > 1048576)
  {
  }

  lemma {:induction false} FirstOverflow(chunks: seq<string>, k: nat) returns (first: nat)
    requires k < |chunks| && Overflows(chunks, k)
    ensures first <= k && Overflows(chunks, first) && forall j :: 0 <= j < first ==> !Overflows(chunks, j)
  {
    if j :| 0 <= j < k && Overflows(chunks, j) {
      first := FirstOverflow(chunks, j);
    } else {
      first := k;
    }
  }

  /** The limit counts finished lines too: a stream of empty lines is refused in one piece and accepted in two. */
  lemma OnePieceRefused(s: string)
    requires |s| == 1048577 && forall i :: 0 <= i < |s| ==> s[i] == '\n'
    ensures ReceivedAll([s]).refusals == 1 && ReceivedAll([s]).handled == []
    ensures ReceivedAll([s[..1], s[1..]]) == Reading(Remainder(s), Lines(s), 0)
  {
    assert [s][..0] == [] && ReceivedAll([]) == Reading("", [], 0) && "" + s == s;
    NoOverflowInTwo(s);
    CutsDoNotMatter([s[..1], s[1..]]);
  }

  lemma NoOverflowInTwo(s: string)
    requires |s| == MAX_SOCKET_BUFFER + 1 && s[0] == '\n'
    ensures var two := [s[..1], s[1..]];
      Concat(two) == s && !Overflows(two, 0) && !Overflows(two, 1)
  {
    var two := [s[..1], s[1..]];
    assert two[..0] == [] && two[..1] == [s[..1]] && two[..1][..0] == [];
    assert Concat(two[..1]) == s[..1] && Concat(two) == s;
    assert s[..1] == "\n" && Remainder("\n") == "";
  }

  lemma LineMoves(done: seq<string>, line: string, todo: seq<string>)
    ensures (done + [line]) + todo == done + ([line] + todo)
  {
  }

  /** One connection as readClient() sees it; `handled` collects the lines it parses, in order. */
  class SocketReader {
    var buffer: string
    var handled: seq<string>
    var refusals: nat

    function Abs(): Reading
      reads this
    {
      Reading(buffer, handled, refusals)
    }

    constructor ()
      ensures Abs() == ReceivedAll([])
    {
      buffer, handled, refusals := "", [], 0;
    }

    method ReadClient(chunk: string)
      modifies this
      ensures Abs() == Received(old(Abs()), chunk)
    {
      buffer := buffer + chunk;
      if |buffer| > MAX_SOCKET_BUFFER {
        refusals := refusals + 1;
        return;
      }
      ghost var all := buffer;
      hide FirstNewline, Lines, Remainder;
      var newline := FirstNewline(buffer);
      while newline < |buffer|
        invariant newline == FirstNewline(buffer) && refusals == old(refusals)
        invariant handled + Lines(buffer) == old(handled) + Lines(all) && Remainder(buffer) == Remainder(all)
        decreases |buffer|
      {
        var line := buffer[..newline];
        CutAtNewline(buffer);
        LineMoves(handled, line, Lines(buffer[newline + 1..]));
        buffer := buffer[newline + 1..];
        handled := handled + [line];
        newline := FirstNewline(buffer);
      }
      NoNewline(buffer);
      assert handled + [] == handled;
    }
  }

  // ---- The C client's reader ----

  const MAX_RPC_RESPONSE: nat := 0x10_0000

  /** The line a reader gets from a connection that delivers `stream` and then closes: None for an error. */
  predicate ShortLine(stream: string) {
    FirstNewline(stream) < |stream| && FirstNewline(stream) <= MAX_RPC_RESPONSE - 2
  }

  /** 512 doubled up to eleven times. */
  predicate IsCapacity(cap: nat) {
    cap in {512, 1024, 2048, 4096, 8192, 16384, 32768, 65536, 131072, 262144, 524288, 1048576}
  }

  lemma CapacityDoubles(cap: nat)
    ensures IsCapacity(512)
    ensures IsCapacity(cap) && cap < MAX_RPC_RESPONSE ==> IsCapacity(cap * 2) && 512 <= cap && cap * 2 <= MAX_RPC_RESPONSE
  {
  }

  method Realloc(buf: array<char>, used: nat, size: nat) returns (r: array<char>)
    requires used <= buf.Length && used <= size
    ensures fresh(r) && r.Length == size && r[..used] == buf[..used]
  {
    r := new char[size](_ => '\0');
    forall i | 0 <= i < used {
      r[i] := buf[i];
    }
  }

  lemma NewlineAt(s: string)
    ensures var i := FirstNewline(s);
      (forall k :: 0 <= k < i ==> s[k] != '\n') && (i < |s| ==> s[i] == '\n')
  {
    FirstNewlineIs(s);
    var i := FirstNewline(s);
    assert forall k :: 0 <= k < i ==> s[..i][k] == s[k];
  }

  /** Reads byte by byte into a buffer that doubles from 512 bytes up to 1 MiB, one byte being kept for the
      terminator: exactly the lines of up to 2^20 - 2 bytes are returned. */
  method RecvLine(stream: string) returns (line: Option<string>, taken: nat)
    ensures line == if ShortLine(stream) then Some(stream[..FirstNewline(stream)]) else None
    ensures line.Some? <==> FirstNewline(stream) < |stream| && FirstNewline(stream) <= 1048574
    ensures line.Some? ==> taken == FirstNewline(stream) + 1 && line.value == stream[..FirstNewline(stream)]
  {
    var cap, pos := 512, 0;
    var buf := new char[cap](_ => '\0');
    taken := 0;
    ghost var end := FirstNewline(stream);
    NewlineAt(stream);
    CapacityDoubles(cap);
    hide FirstNewline, IsCapacity;
    while true
      invariant pos == taken && taken <= end
      invariant buf.Length == cap && pos < cap <= MAX_RPC_RESPONSE
      invariant IsCapacity(cap)
      invariant fresh(buf) && buf[..pos] == stream[..pos]
      decreases |stream| - taken
    {
      if pos + 1 >= cap {
        if cap >= MAX_RPC_RESPONSE {
          return None, taken;
        }
        CapacityDoubles(cap);
        cap := if cap < MAX_RPC_RESPONSE then cap * 2 else MAX_RPC_RESPONSE;
        buf := Realloc(buf, pos, cap);
      }
      assert pos + 1 < cap;
      if taken == |stream| {
        return None, taken;
      }
      var ch := stream[taken];
      taken := taken + 1;
      if ch == '\n' {
        assert pos == end;
        assert ShortLine(stream);
        assert buf[..pos] == stream[..pos];
        return Some(buf[..pos]), taken;
      }
      assert pos < end;
      buf[pos] := ch;
      pos := pos + 1;
    }
  }
}
