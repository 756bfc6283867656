/**
 The exec protocol's frames: a four-byte big-endian length and that many payload bytes,
 with an optional "OK ...\n" line before a response. JSON is left at byte payloads.
 */
module Framing {
  import opened Wrappers
  import opened SparseIO

  const WORD: int := 0x1_0000_0000

  /** The last k base-256 digits of a number, most significant first. */
  function Digits(v: nat, k: nat): (d: seq<Byte>)
    ensures |d| == k
  {
    if k == 0 then [] else Digits(v / 256, k - 1) + [v % 256]
  }

  /** binary.BigEndian.PutUint32 of uint32(n): the length is truncated to 32 bits. */
  function Header(n: nat): (h: seq<Byte>)
    ensures |h| == 4
  {
    Digits(n, 4)
  }

  function Size(h: seq<Byte>): (n: nat)
    requires |h| >= 4
    ensures n < WORD
  {
    h[0] as int * 0x100_0000 + h[1] as int * 0x1_0000 + h[2] as int * 0x100 + h[3] as int
  }

  lemma {:induction false} SizeOfHeader(n: nat)
    ensures Size(Header(n)) == n % WORD
  {
    var q1 := n / 256;
    var q2 := q1 / 256;
    var q3 := q2 / 256;
    var d1, d2, d3 := Digits(q3, 1), Digits(q2, 2), Digits(q1, 3);
    assert d1 == Digits(q3 / 256, 0) + [q3 % 256];
    assert d2 == d1 + [q2 % 256];
    assert d3 == d2 + [q1 % 256];
    assert Header(n) == d3 + [n % 256];
    var h := Header(n);
    assert h[0] == q3 % 256 && h[1] == q2 % 256 && h[2] == q1 % 256 && h[3] == n % 256;
    assert n == WORD * (q3 / 256) + Size(h);
  }

  lemma {:induction false} HeaderTells(n: nat)
    ensures if n < WORD then Size(Header(n)) == n else Size(Header(n)) < n
  {
    SizeOfHeader(n);
  }

  function Frame(payload: seq<Byte>): seq<Byte> { Header(|payload|) + payload }

  /** What a read makes of the bytes at hand: a payload or an error, and the bytes left over. */
  datatype Read = Read(payload: Option<seq<Byte>>, rest: seq<Byte>)

  function ReadFrame(bytes: seq<Byte>, max: int): Read {
    if |bytes| < 4 then Read(None, [])
    else
      var size := Size(bytes);
      if size == 0 || (max > 0 && size > max) then Read(None, bytes[4..])
      else if |bytes| < 4 + size then Read(None, [])
      else Read(Some(bytes[4..4 + size]), bytes[4 + size..])
  }

  lemma {:induction false} SizePrefix(a: seq<Byte>, b: seq<Byte>)
    requires |a| >= 4
    ensures Size(a + b) == Size(a)
  {
  }

  /**
   A non-empty payload comes back unchanged, with the bytes after it untouched, if and only
   if its length fits the header and the reader's limit.
   */
  lemma {:induction false} RoundTripIff(payload: seq<Byte>, rest: seq<Byte>, max: int)
    requires payload != []
    ensures ReadFrame(Frame(payload) + rest, max) == Read(Some(payload), rest)
       <==> |payload| < WORD && (max > 0 ==> |payload| <= max)
  {
    HeaderTells(|payload|);
    if |payload| < WORD {
      ReadsBack(Header(|payload|), payload, rest, max);
    } else {
      ReadsLess(Header(|payload|), payload, rest, max);
    }
  }

  /** A header that gives the payload's length: read back exactly within the limit. */
  lemma {:induction false} ReadsBack(header: seq<Byte>, payload: seq<Byte>, rest: seq<Byte>, max: int)
    requires |header| == 4 && Size(header) == |payload| > 0
    ensures ReadFrame(header + payload + rest, max) == Read(Some(payload), rest) <==> (max > 0 ==> |payload| <= max)
  {
    var bytes := header + payload + rest;
    assert bytes == header + (payload + rest);
    SizePrefix(header, payload + rest);
    assert bytes[4..4 + |payload|] == payload && bytes[4 + |payload|..] == rest;
  }

  /** A header that gives another length never yields the payload. */
  lemma {:induction false} ReadsLess(header: seq<Byte>, payload: seq<Byte>, rest: seq<Byte>, max: int)
    requires |header| == 4 && Size(header) < |payload|
    ensures ReadFrame(header + payload + rest, max) != Read(Some(payload), rest)
  {
    assert header + payload + rest == header + (payload + rest);
    SizePrefix(header, payload + rest);
  }

  /** What a read accepts is the frame of a non-empty payload within the limit, and the rest is left. */
  lemma {:induction false} ReadIsFrame(bytes: seq<Byte>, max: int)
    requires ReadFrame(bytes, max).payload.Some?
    ensures var r := ReadFrame(bytes, max);
            r.payload.value != [] && (max > 0 ==> |r.payload.value| <= max) && bytes == Frame(r.payload.value) + r.rest
  {
    var size := Size(bytes);
    var r := ReadFrame(bytes, max);
    assert bytes == bytes[..4] + (r.payload.value + r.rest);
    SizePrefix(bytes[..4], bytes[4..]);
    assert bytes == bytes[..4] + bytes[4..];
    HeaderTells(size);
    SizeInjective(bytes[..4], Header(size));
    ConcatAssoc(bytes[..4], r.payload.value, r.rest);
  }

  lemma {:induction false} SizeInjective(g: seq<Byte>, h: seq<Byte>)
    requires |g| == |h| == 4 && Size(g) == Size(h)
    ensures g == h
  {
    assert g[0] == h[0];
    assert g[1] == h[1];
    assert g[2] == h[2];
  }

  // ------------------------------------------------------------------ streams of frames

  function Frames(payloads: seq<seq<Byte>>): seq<Byte> {
    if payloads == [] then [] else Frame(payloads[0]) + Frames(payloads[1..])
  }

  /** Reads count frames, giving up at the first error. */
  function ReadFrames(bytes: seq<Byte>, count: nat, max: int): Option<(seq<seq<Byte>>, seq<Byte>)> {
    if count == 0 then Some(([], bytes))
    else
      var first := ReadFrame(bytes, max);
      if first.payload.None? then None
      else match ReadFrames(first.rest, count - 1, max)
           case None => None
           case Some((more, rest)) => Some(([first.payload.value] + more, rest))
  }

  lemma {:induction false} ReadFramesStep(bytes: seq<Byte>, payload: seq<Byte>, left: seq<Byte>, more: seq<seq<Byte>>, rest: seq<Byte>, max: int)
    requires ReadFrame(bytes, max) == Read(Some(payload), left)
    requires ReadFrames(left, |more|, max) == Some((more, rest))
    ensures ReadFrames(bytes, |more| + 1, max) == Some(([payload] + more, rest))
  {
  }

  /** Any sequence of accepted payloads is read back unchanged, in order. */
  lemma {:induction false} StreamRoundTrip(payloads: seq<seq<Byte>>, rest: seq<Byte>, max: int)
    requires forall k :: 0 <= k < |payloads| ==> 0 < |payloads[k]| < WORD && (max > 0 ==> |payloads[k]| <= max)
    ensures ReadFrames(Frames(payloads) + rest, |payloads|, max) == Some((payloads, rest))
    decreases |payloads|
  {
    if payloads == [] {
      assert Frames(payloads) + rest == rest;
    } else {
      StreamRoundTrip(payloads[1..], rest, max);
      OneMoreFrame(payloads[0], payloads[1..], rest, max);
      assert payloads == [payloads[0]] + payloads[1..];
    }
  }

  lemma {:induction false} OneMoreFrame(payload: seq<Byte>, tail: seq<seq<Byte>>, rest: seq<Byte>, max: int)
    requires 0 < |payload| < WORD && (max > 0 ==> |payload| <= max)
    requires ReadFrames(Frames(tail) + rest, |tail|, max) == Some((tail, rest))
    ensures ReadFrames(Frames([payload] + tail) + rest, |tail| + 1, max) == Some(([payload] + tail, rest))
  {
    FramesCons([payload] + tail, rest);
    assert ([payload] + tail)[1..] == tail;
    RoundTripIff(payload, Frames(tail) + rest, max);
    ReadFramesStep(Frames([payload] + tail) + rest, payload, Frames(tail) + rest, tail, rest, max);
  }

  lemma {:induction false} FramesCons(payloads: seq<seq<Byte>>, rest: seq<Byte>)
    requires payloads != []
    ensures Frames(payloads) + rest == Frame(payloads[0]) + (Frames(payloads[1..]) + rest)
    ensures payloads == [payloads[0]] + payloads[1..]
  {
    ConcatAssoc(Frame(payloads[0]), Frames(payloads[1..]), rest);
  }

  lemma {:induction false} ConcatAssoc(a: seq<Byte>, b: seq<Byte>, c: seq<Byte>)
    ensures a + b + c == a + (b + c)
  {
  }

  // ------------------------------------------------------------------ acknowledgement line

  const OK_PREFIX: seq<Byte> := [79, 75, 32]
  const NEWLINE: Byte := 10

  /** Index of the first newline, or the length if there is none. */
  function LineEnd(bytes: seq<Byte>): (n: nat)
    ensures n <= |bytes| && (n < |bytes| ==> bytes[n] == NEWLINE) && forall i :: 0 <= i < n ==> bytes[i] != NEWLINE
  {
    if bytes == [] then 0 else if bytes[0] == NEWLINE then 0 else 1 + LineEnd(bytes[1..])
  }

  predicate StartsWithOk(bytes: seq<Byte>) { |bytes| >= 3 && bytes[..3] == OK_PREFIX }

  function ReadResponse(bytes: seq<Byte>, max: int): Read {
    if StartsWithOk(bytes) then
      if LineEnd(bytes) == |bytes| then Read(None, []) else ReadFrame(bytes[LineEnd(bytes) + 1..], max)
    else ReadFrame(bytes, max)
  }

  /** A frame opens with "OK " exactly for 256 lengths, all of at least 0x4F4B2000 bytes. */
  lemma {:induction false} FrameStartsWithOkIff(payload: seq<Byte>, rest: seq<Byte>)
    requires |payload| < WORD
    ensures StartsWithOk(Frame(payload) + rest) <==> 0x4F4B_2000 <= |payload| <= 0x4F4B_20FF
  {
    HeaderTells(|payload|);
    assert (Frame(payload) + rest)[..3] == Header(|payload|)[..3];
    PrefixIff(Header(|payload|));
  }

  lemma {:induction false} PrefixIff(h: seq<Byte>)
    requires |h| == 4
    ensures h[..3] == OK_PREFIX <==> 0x4F4B_2000 <= Size(h) <= 0x4F4B_20FF
  {
    assert h[..3] == OK_PREFIX <==> h[0] == 79 && h[1] == 75 && h[2] == 32;
  }

  /** A line "OK ...\n" before a frame is stripped whatever it says. */
  lemma {:induction false} AckIsStripped(text: seq<Byte>, payload: seq<Byte>, rest: seq<Byte>, max: int)
    requires NEWLINE !in text && 0 < |payload| < WORD && (max > 0 ==> |payload| <= max)
    ensures ReadResponse(OK_PREFIX + text + [NEWLINE] + Frame(payload) + rest, max) == Read(Some(payload), rest)
  {
    var line := OK_PREFIX + text + [NEWLINE];
    var bytes := line + Frame(payload) + rest;
    var n := |line| - 1;
    assert bytes[..3] == OK_PREFIX;
    assert bytes[n] == NEWLINE;
    forall i | 0 <= i < n
      ensures bytes[i] != NEWLINE
    {
      assert bytes[i] == if i < 3 then OK_PREFIX[i] else text[i - 3];
    }
    assert LineEnd(bytes) == n;
    assert bytes[n + 1..] == Frame(payload) + rest;
    RoundTripIff(payload, rest, max);
  }

  /**
   Without such a line, a response is read back exactly unless its length makes the header
   look like one; no limit below 0x4F4B2000 admits that length.
   */
  lemma {:induction false} BareResponseIff(payload: seq<Byte>, rest: seq<Byte>, max: int)
    requires 0 < |payload| < WORD && (max > 0 ==> |payload| <= max)
    ensures ReadResponse(Frame(payload) + rest, max) == Read(Some(payload), rest)
       <==> !(0x4F4B_2000 <= |payload| <= 0x4F4B_20FF)
    ensures 0 < max < 0x4F4B_2000 ==> ReadResponse(Frame(payload) + rest, max) == Read(Some(payload), rest)
  {
    var bytes := Frame(payload) + rest;
    FrameStartsWithOkIff(payload, rest);
    RoundTripIff(payload, rest, max);
    if StartsWithOk(bytes) && LineEnd(bytes) < |bytes| {
      var left := bytes[LineEnd(bytes) + 1..];
      ReadConserves(left, max);
      assert |left| < |bytes| == 4 + |payload| + |rest|;
    }
  }

  /** A successful read splits its input into header, payload and rest. */
  lemma {:induction false} ReadConserves(bytes: seq<Byte>, max: int)
    ensures var r := ReadFrame(bytes, max);
            r.payload.Some? ==> |bytes| == 4 + |r.payload.value| + |r.rest|
  {
  }

  // ------------------------------------------------------------------ the operations

  /** A byte stream between host and guest. */
  class Stream {
    var bytes: seq<Byte>

    constructor (bytes: seq<Byte>)
      ensures this.bytes == bytes
    {
      this.bytes := bytes;
    }

    method WriteFramed(payload: seq<Byte>, max: int) returns (ok: bool)
      modifies this
      ensures ok <==> payload != [] && (max > 0 ==> |payload| <= max)
      ensures bytes == if ok then old(bytes) + Frame(payload) else old(bytes)
    {
      if |payload| == 0 { return false; }
      if max > 0 && |payload| > max { return false; }
      bytes := bytes + Header(|payload|);
      bytes := bytes + payload;
      assert old(bytes) + Header(|payload|) + payload == old(bytes) + Frame(payload);
      ok := true;
    }

    /** io.ReadFull: the first n bytes, or an error after consuming what there is. */
    method ReadFull(n: nat) returns (r: Option<seq<Byte>>)
      modifies this
      ensures r == if n <= |old(bytes)| then Some(old(bytes)[..n]) else None
      ensures bytes == if n <= |old(bytes)| then old(bytes)[n..] else []
    {
      if |bytes| < n {
        bytes := [];
        return None;
      }
      r := Some(bytes[..n]);
      bytes := bytes[n..];
    }

    method ReadFramed(max: int) returns (r: Option<seq<Byte>>)
      modifies this
      ensures Read(r, bytes) == ReadFrame(old(bytes), max)
    {
      var header := ReadFull(4);
      if header.None? { return None; }
      var size := Size(header.value);
      assert size == Size(old(bytes));
      if size <= 0 { return None; }
      if max > 0 && size > max { return None; }
      r := ReadFull(size);
      if r.Some? {
        assert old(bytes)[4..][..size] == old(bytes)[4..4 + size] && old(bytes)[4..][size..] == old(bytes)[4 + size..];
      }
    }

    method ReadVsockExecResponse(max: int) returns (r: Option<seq<Byte>>)
      modifies this
      ensures Read(r, bytes) == ReadResponse(old(bytes), max)
    {
      if StartsWithOk(bytes) {
        var end := LineEnd(bytes);
        if end == |bytes| {
          bytes := [];
          return None;
        }
        bytes := bytes[end + 1..];
      }
      r := ReadFramed(max);
    }
  }
}
