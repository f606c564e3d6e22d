/** Reassembling the board's lines from what a serial port's readline() returns. */
module LineReader {
  import opened Numbers

  const NEWLINE: Byte := 10
  const MAX_LINE_BYTES := 256

  predicate Terminated(b: seq<Byte>) {
    b != [] && b[|b| - 1] == NEWLINE
  }

  /** The lines handed on, given the bytes pending from before. */
  function Reassembled(pending: seq<Byte>, chunks: seq<seq<Byte>>): seq<seq<Byte>>
    decreases |chunks|
  {
    if chunks == [] then []
    else
      var p := pending + chunks[0];
      if Terminated(p) then [p] + Reassembled([], chunks[1..])
      else Reassembled(if |p| > MAX_LINE_BYTES then [] else p, chunks[1..])
  }

  /** The loop of read_lines(), up to a read error after the last chunk. */
  method ReadLines(chunks: seq<seq<Byte>>) returns (handed: seq<seq<Byte>>)
    ensures handed == Reassembled([], chunks)
  {
    var pending: seq<Byte> := [];
    handed := [];
    for i := 0 to |chunks|
      invariant handed + Reassembled(pending, chunks[i..]) == Reassembled([], chunks)
    {
      assert chunks[i..][1..] == chunks[i + 1..];
      pending := pending + chunks[i];
      if !Terminated(pending) {
        if |pending| > MAX_LINE_BYTES {
          pending := [];
        }
        continue;
      }
      handed := handed + [pending];
      pending := [];
    }
  }

  // The stream ------------------------------------------------------------------------

  function NewlineAt(s: seq<Byte>): (i: nat)
    ensures i <= |s| && (i < |s| ==> s[i] == NEWLINE)
    ensures NEWLINE !in s[..i]
  {
    if s == [] || s[0] == NEWLINE then 0 else 1 + NewlineAt(s[1..])
  }

  /** The terminated lines of a stream, each with its newline. */
  function Lines(stream: seq<Byte>): seq<seq<Byte>>
    decreases |stream|
  {
    var i := NewlineAt(stream);
    if i == |stream| then [] else [stream[..i + 1]] + Lines(stream[i + 1..])
  }

  /** readline() returns up to the first newline, or less when its timeout expires. */
  predicate IsChunk(chunk: seq<Byte>) {
    chunk == [] || NEWLINE !in chunk[..|chunk| - 1]
  }

  function Flatten(chunks: seq<seq<Byte>>): seq<Byte> {
    if chunks == [] then [] else chunks[0] + Flatten(chunks[1..])
  }

  ghost predicate ChunkingOf(chunks: seq<seq<Byte>>, stream: seq<Byte>) {
    Flatten(chunks) == stream && forall i :: 0 <= i < |chunks| ==> IsChunk(chunks[i])
  }

  /** No terminated line has more than 256 bytes before its newline. */
  ghost predicate Fits(stream: seq<Byte>) {
    forall i :: 0 <= i < |Lines(stream)| ==> |Lines(stream)[i]| <= MAX_LINE_BYTES + 1
  }

  lemma LinesOf(body: seq<Byte>, rest: seq<Byte>)
    requires NEWLINE !in body
    ensures Lines(body) == []
    ensures Lines(body + [NEWLINE] + rest) == [body + [NEWLINE]] + Lines(rest)
  {
    BodyEnds(body, rest);
    var s := body + [NEWLINE] + rest;
    assert s[..|body| + 1] == body + [NEWLINE] && s[|body| + 1..] == rest;
  }

  lemma {:induction false} BodyEnds(body: seq<Byte>, rest: seq<Byte>)
    requires NEWLINE !in body
    ensures NewlineAt(body) == |body| && NewlineAt(body + [NEWLINE] + rest) == |body|
  {
    if body == [] {
      assert body + [NEWLINE] + rest == [NEWLINE] + rest;
    } else {
      assert (body + [NEWLINE] + rest)[1..] == body[1..] + [NEWLINE] + rest;
      BodyEnds(body[1..], rest);
    }
  }

  lemma SplitAround(s: seq<Byte>, i: nat)
    requires i < |s|
    ensures s == s[..i] + [s[i]] + s[i + 1..]
  {
  }

  /** The first line of a stream, and the rest. */
  lemma FirstLine(stream: seq<Byte>)
    ensures var i := NewlineAt(stream);
            if i == |stream| then NEWLINE !in stream
            else stream == stream[..i] + [NEWLINE] + stream[i + 1..]
  {
    hide NewlineAt;
    var i := NewlineAt(stream);
    if i == |stream| {
      assert stream[..i] == stream;
    } else {
      SplitAround(stream, i);
    }
  }

  lemma FitsSplits(body: seq<Byte>, rest: seq<Byte>)
    requires NEWLINE !in body
    ensures Fits(body + [NEWLINE] + rest) <==> |body| <= MAX_LINE_BYTES && Fits(rest)
  {
    var s := body + [NEWLINE] + rest;
    LinesOf(body, rest);
    assert Lines(s)[0] == body + [NEWLINE];
    assert forall i :: 0 <= i < |Lines(rest)| ==> Lines(s)[i + 1] == Lines(rest)[i];
    if Fits(s) {
      forall i | 0 <= i < |Lines(rest)| ensures |Lines(rest)[i]| <= MAX_LINE_BYTES + 1 {
        assert Lines(s)[i + 1] == Lines(rest)[i];
      }
    }
  }

  lemma {:induction false} NothingLeft(pending: seq<Byte>, chunks: seq<seq<Byte>>)
    requires NEWLINE !in pending && NEWLINE !in Flatten(chunks)
    ensures Reassembled(pending, chunks) == []
    decreases |chunks|
  {
    if chunks != [] {
      var p := pending + chunks[0];
      assert forall x :: x in chunks[0] ==> x in Flatten(chunks);
      assert forall x :: x in Flatten(chunks[1..]) ==> x in Flatten(chunks);
      NothingLeft(if |p| > MAX_LINE_BYTES then [] else p, chunks[1..]);
    }
  }

  lemma {:induction false} NoLineIsLost(pending: seq<Byte>, chunks: seq<seq<Byte>>)
    requires NEWLINE !in pending && forall i :: 0 <= i < |chunks| ==> IsChunk(chunks[i])
    requires Fits(pending + Flatten(chunks))
    ensures Reassembled(pending, chunks) == Lines(pending + Flatten(chunks))
    decreases |chunks|
  {
    hide Lines;
    hide Fits;
    if chunks == [] {
      assert pending + Flatten(chunks) == pending;
      LinesOf(pending, []);
    } else {
      var p, rest := pending + chunks[0], Flatten(chunks[1..]);
      assert pending + Flatten(chunks) == p + rest;
      if Terminated(p) {
        var body := p[..|p| - 1];
        assert NEWLINE !in body;
        assert p + rest == body + [NEWLINE] + rest && p == body + [NEWLINE];
        LinesOf(body, rest);
        FitsSplits(body, rest);
        assert [] + rest == rest;
        NoLineIsLost([], chunks[1..]);
      } else {
        assert NEWLINE !in p;
        if |p| <= MAX_LINE_BYTES {
          NoLineIsLost(p, chunks[1..]);
        } else {
          TooLongToEnd(p, rest);
          NothingLeft([], chunks[1..]);
        }
      }
    }
  }

  /** More than 256 bytes without a newline can only be the unterminated end of the stream. */
  lemma TooLongToEnd(p: seq<Byte>, rest: seq<Byte>)
    requires NEWLINE !in p && |p| > MAX_LINE_BYTES && Fits(p + rest)
    ensures NEWLINE !in rest && Lines(p + rest) == []
  {
    hide NewlineAt;
    hide Lines;
    var i := NewlineAt(rest);
    FirstLine(rest);
    if i < |rest| {
      assert p + rest == (p + rest[..i]) + [NEWLINE] + rest[i + 1..];
      FitsSplits(p + rest[..i], rest[i + 1..]);
      assert false;
    }
    LinesOf(p + rest, []);
  }

  /** Every line in two chunks: its text, when the timeout expires, and its newline. */
  function Slowly(stream: seq<Byte>): seq<seq<Byte>>
    decreases |stream|
  {
    var i := NewlineAt(stream);
    if i == |stream| then [stream] else [stream[..i], [NEWLINE]] + Slowly(stream[i + 1..])
  }

  lemma SlowlyOf(body: seq<Byte>, rest: seq<Byte>)
    requires NEWLINE !in body
    ensures Slowly(body) == [body]
    ensures Slowly(body + [NEWLINE] + rest) == [body, [NEWLINE]] + Slowly(rest)
  {
    BodyEnds(body, rest);
    var s := body + [NEWLINE] + rest;
    assert s[..|body|] == body && s[|body| + 1..] == rest;
  }

  lemma TwoChunks(a: seq<Byte>, b: seq<Byte>, rest: seq<seq<Byte>>)
    ensures Flatten([a, b] + rest) == a + b + Flatten(rest)
    ensures [] + a == a && Reassembled([], [a]) == if Terminated(a) then [a] else []
    ensures NEWLINE !in a && b == [NEWLINE] ==>
              Reassembled([], [a, b] + rest)
              == [(if |a| > MAX_LINE_BYTES then [] else a) + b] + Reassembled([], rest)
  {
    var all := [a, b] + rest;
    assert all[1..] == [b] + rest && all[1..][1..] == rest;
    assert [a][1..] == [];
    assert [] + a == a;
    if NEWLINE !in a && b == [NEWLINE] {
      var kept: seq<Byte> := if |a| > MAX_LINE_BYTES then [] else a;
      assert Reassembled([], all) == Reassembled(kept, all[1..]);
      assert all[1..][0] == b && Terminated(kept + b);
    }
  }

  lemma {:induction false} SlowlyIsChunking(stream: seq<Byte>)
    ensures ChunkingOf(Slowly(stream), stream)
    decreases |stream|
  {
    FirstLine(stream);
    var i := NewlineAt(stream);
    hide Slowly;
    if i == |stream| {
      SlowlyOf(stream, []);
      var one := [stream];
      assert one[1..] == [] && Flatten(one) == stream + Flatten(one[1..]) == stream;
      assert IsChunk(stream);
    } else {
      var body, rest := stream[..i], stream[i + 1..];
      SlowlyOf(body, rest);
      SlowlyIsChunking(rest);
      var later := Slowly(rest);
      TwoChunks(body, [NEWLINE], later);
      forall k | 0 <= k < |later| + 2 ensures IsChunk(([body, [NEWLINE]] + later)[k]) {
        assert k >= 2 ==> ([body, [NEWLINE]] + later)[k] == later[k - 2];
      }
    }
  }

  lemma {:induction false} SlowlyLosesLongLines(stream: seq<Byte>)
    requires !Fits(stream)
    ensures Reassembled([], Slowly(stream)) != Lines(stream)
    decreases |stream|
  {
    FirstLine(stream);
    var i := NewlineAt(stream);
    hide Slowly;
    hide Lines;
    hide Reassembled;
    if i == |stream| {
      LinesOf(stream, []);
      assert false;
    } else {
      var body, rest := stream[..i], stream[i + 1..];
      FitsSplits(body, rest);
      LinesOf(body, rest);
      SlowlyOf(body, rest);
      TwoChunks(body, [NEWLINE], Slowly(rest));
      if |body| <= MAX_LINE_BYTES {
        SlowlyLosesLongLines(rest);
        assert Lines(stream)[1..] == Lines(rest);
        assert Reassembled([], Slowly(stream))[1..] == Reassembled([], Slowly(rest));
      } else {
        assert Lines(stream)[0] == body + [NEWLINE] && |[] + [NEWLINE]| == 1;
        assert Reassembled([], Slowly(stream))[0] == [] + [NEWLINE];
      }
    }
  }

  /** read_lines() hands on exactly the lines of a stream, however the serial port cuts it up,
      if and only if no line has more than 256 bytes before its newline. */
  lemma LinesSurviveExactly(stream: seq<Byte>)
    ensures Fits(stream) <==>
            forall chunks :: ChunkingOf(chunks, stream) ==> Reassembled([], chunks) == Lines(stream)
  {
    if Fits(stream) {
      forall chunks | ChunkingOf(chunks, stream)
        ensures Reassembled([], chunks) == Lines(stream)
      {
        assert [] + stream == stream;
        NoLineIsLost([], chunks);
      }
    } else {
      SlowlyIsChunking(stream);
      SlowlyLosesLongLines(stream);
    }
  }
}
