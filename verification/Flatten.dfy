/**
 flattenDmDevice: the sparse copy of a device into a fresh image file. Every command
 that can fail is a nondeterministic choice, so a contract holds for all failures;
 healthy says that no system call of this run fails.
 */
module Flatten {
  import opened SparseIO

  const BUFFER: nat := 1048576
  const PAGE: nat := 4096

  datatype ReadStatus = Good | Eof | IoError

  /** read(2) at position pos: at least one byte, or end of file, or an error. */
  method Read(src: Source, pos: nat, n: nat, healthy: bool) returns (rn: nat, status: ReadStatus)
    requires 0 < n
    ensures rn <= n && (rn > 0 ==> pos + rn <= |src.bytes|)
    ensures status.Good? ==> rn > 0
    ensures status.Eof? ==> rn == 0 && pos >= |src.bytes|
    ensures status.IoError? ==> rn == 0 && !healthy
  {
    if pos >= |src.bytes| {
      rn, status := 0, Eof;
    } else {
      var fails: bool, short: bool := *, *;
      if fails && !healthy { return 0, IoError; }
      status := Good;
      rn := if short then 1 else if pos + n <= |src.bytes| then n else |src.bytes| - pos;
    }
  }

  /** pwrite(2): an error, or some bytes from the start of the buffer, all of them if whole. */
  method Pwrite(dst: array<Byte>, buf: seq<Byte>, off: nat, healthy: bool, whole: bool) returns (n: nat, ok: bool)
    requires off + |buf| <= dst.Length
    modifies dst
    ensures n <= |buf| && (ok && buf != [] ==> n > 0) && (ok && whole ==> n == |buf|)
    ensures healthy ==> ok
    ensures !ok ==> n == 0
    ensures forall i :: 0 <= i < dst.Length ==> dst[i] == if off <= i < off + n then buf[i - off] else old(dst[i])
  {
    ok := *;
    ok := ok || healthy;
    n := 0;
    if ok {
      var short: bool := *;
      n := if short && !whole && |buf| > 1 then 1 else |buf|;
      forall i | off <= i < off + n {
        dst[i] := buf[i - off];
      }
    }
  }

  /** os.File.WriteAt: goes on after a short write until all is written or a call fails. */
  method WriteAll(dst: array<Byte>, buf: seq<Byte>, off: nat, healthy: bool) returns (ok: bool)
    requires off + |buf| <= dst.Length
    modifies dst
    ensures healthy ==> ok
    ensures ok ==> forall i :: off <= i < off + |buf| ==> dst[i] == buf[i - off]
    ensures forall i :: 0 <= i < dst.Length && !(off <= i < off + |buf|) ==> dst[i] == old(dst[i])
  {
    var done := 0;
    while done < |buf|
      invariant 0 <= done <= |buf|
      invariant forall i :: off <= i < off + done ==> dst[i] == buf[i - off]
      invariant forall i :: 0 <= i < dst.Length && !(off <= i < off + |buf|) ==> dst[i] == old(dst[i])
    {
      var n, written := Pwrite(dst, buf[done..], off + done, healthy, false);
      if !written { return false; }
      done := done + n;
    }
    ok := true;
  }

  /** fsync(2), which may fail after everything was written. */
  method Sync(healthy: bool) returns (ok: bool)
    ensures healthy ==> ok
  {
    ok := *;
    ok := ok || healthy;
  }

  method IsAllZeros(b: seq<Byte>) returns (zero: bool)
    ensures zero <==> forall i :: 0 <= i < |b| ==> b[i] == 0
  {
    for k := 0 to |b|
      invariant forall i :: 0 <= i < k ==> b[i] == 0
    {
      if b[k] != 0 { return false; }
    }
    return true;
  }

  ghost function Span(lo: nat, hi: nat): (r: set<nat>)
    ensures forall i: nat :: i in r <==> lo <= i < hi
    decreases hi - lo
  {
    if lo >= hi then {} else {lo} + Span(lo + 1, hi)
  }

  /**
   Short reads do not lose bytes, but short writes do: the count of a pwrite is not looked at, and
   lost are the bytes it left out. Nothing outside [start, end) is written.
   */
  method CopyDataExtent(src: Source, dst: array<Byte>, start: nat, end: nat, healthy: bool, whole: bool)
    returns (ok: bool, ghost lost: set<nat>)
    requires start <= end <= |src.bytes| == dst.Length
    modifies dst
    ensures healthy ==> ok
    ensures (forall i :: i in lost ==> start <= i < end) && (whole ==> lost == {})
    ensures ok ==> forall i :: start <= i < end ==> dst[i] == if i in lost then old(dst[i]) else src.bytes[i]
    ensures forall i :: 0 <= i < dst.Length && !(start <= i < end) ==> dst[i] == old(dst[i])
  {
    lost := {};
    ok := *;
    if !ok && !healthy { return; }
    ok := true;
    var pos := start;
    var off := start;
    while off < end
      invariant start <= off <= end && pos == off && ok
      invariant (forall i :: i in lost ==> start <= i < off) && (whole ==> lost == {})
      invariant forall i :: start <= i < off ==> dst[i] == if i in lost then old(dst[i]) else src.bytes[i]
      invariant forall i :: 0 <= i < dst.Length && !(start <= i < off) ==> dst[i] == old(dst[i])
    {
      var n := BUFFER;
      if end - off < n { n := end - off; }
      var rn, status := Read(src, pos, n, healthy);
      if rn > 0 {
        var wn, written := Pwrite(dst, src.bytes[pos..pos + rn], off, healthy, whole);
        if !written { return false, lost; }
        lost := lost + Span(off + wn, off + rn);
        pos := pos + rn;
        off := off + rn;
      }
      if !status.Good? {
        if status.Eof? { break; }
        return false, lost;
      }
    }
  }

  /** One chunk of the linear path: only its non-zero pages are written. */
  method WriteNonZeroPages(dst: array<Byte>, chunk: seq<Byte>, offset: nat, healthy: bool) returns (ok: bool)
    requires offset + |chunk| <= dst.Length
    requires forall i :: offset <= i < offset + |chunk| ==> dst[i] == 0
    modifies dst
    ensures healthy ==> ok
    ensures ok ==> forall i :: offset <= i < offset + |chunk| ==> dst[i] == chunk[i - offset]
    ensures forall i :: 0 <= i < dst.Length && !(offset <= i < offset + |chunk|) ==> dst[i] == old(dst[i])
  {
    var i := 0;
    while i < |chunk|
      invariant 0 <= i
      invariant forall k :: offset <= k < offset + i && k < offset + |chunk| ==> dst[k] == chunk[k - offset]
      invariant forall k :: offset + i <= k < offset + |chunk| ==> dst[k] == 0
      invariant forall j :: 0 <= j < dst.Length && !(offset <= j < offset + |chunk|) ==> dst[j] == old(dst[j])
    {
      var end := i + PAGE;
      if end > |chunk| { end := |chunk|; }
      var block := chunk[i..end];
      var zero := IsAllZeros(block);
      if !zero {
        var written := WriteAll(dst, block, offset + i, healthy);
        if !written { return false; }
      }
      forall k | offset + i <= k < offset + end
        ensures dst[k] == chunk[k - offset]
      {
        var j := k - offset - i;
        assert block[j] == chunk[i + j];
      }
      i := i + PAGE;
    }
    ok := true;
  }

  /** The zero-skipping copy from startOffset on, over a destination still zero there. */
  method LinearSparseCopy(src: Source, dst: array<Byte>, startOffset: nat, sizeBytes: nat, healthy: bool) returns (ok: bool)
    requires startOffset <= sizeBytes == |src.bytes| == dst.Length
    requires forall i :: startOffset <= i < dst.Length ==> dst[i] == 0
    modifies dst
    ensures healthy ==> ok
    ensures ok ==> forall i :: startOffset <= i < sizeBytes ==> dst[i] == src.bytes[i]
    ensures forall i :: 0 <= i < startOffset ==> dst[i] == old(dst[i])
  {
    ok := *;
    if !ok && !healthy { return; }
    ok := true;
    var offset := startOffset;
    while offset < sizeBytes
      invariant startOffset <= offset <= sizeBytes
      invariant forall i :: startOffset <= i < offset ==> dst[i] == src.bytes[i]
      invariant forall i :: offset <= i < dst.Length ==> dst[i] == 0
      invariant forall i :: 0 <= i < startOffset ==> dst[i] == old(dst[i])
    {
      // io.ReadFull: a whole buffer, or what is left with an end-of-file error.
      var failed: bool := *;
      if failed && !healthy { return false; }
      var n := if offset + BUFFER <= |src.bytes| then BUFFER else |src.bytes| - offset;
      if n == 0 { break; }
      var chunk := src.bytes[offset..offset + n];
      var written := WriteNonZeroPages(dst, chunk, offset, healthy);
      if !written { return false; }
      offset := offset + n;
      if n < BUFFER { break; }
    }
  }

  /**
   A successful flatten, on extents, linearly, or switching from one to the other on a later
   EINVAL, is byte-equal to its source if and only if every byte lost to a short write is zero
   there; on the linear path none is lost.
   */
  method FlattenDmDevice(src: Source, sizeBytes: nat, healthy: bool, whole: bool)
    returns (ok: bool, dst: array<Byte>, ghost lost: set<nat>)
    requires src.Valid() && sizeBytes == |src.bytes|
    ensures fresh(dst) && dst.Length == sizeBytes
    ensures (forall i :: i in lost ==> i < sizeBytes && src.data[i]) && (whole ==> lost == {})
    ensures ok ==> forall i :: 0 <= i < sizeBytes ==> dst[i] == if i in lost then 0 else src.bytes[i]
    ensures ok ==> (dst[..] == src.bytes <==> forall i :: i in lost ==> src.bytes[i] == 0)
    ensures healthy && (forall o: nat :: !src.seekData(o).Failed? && (src.seekHole(o).At? || src.seekHole(o).NoMore?)) ==> ok
  {
    lost := {};
    dst := new Byte[sizeBytes](_ => 0);
    ok := *;
    if !ok && !healthy { return; }
    ok := true;
    var offset := 0;
    while offset < sizeBytes
      invariant 0 <= offset <= sizeBytes && ok
      invariant (forall i :: i in lost ==> i < offset && src.data[i]) && (whole ==> lost == {})
      invariant forall i :: 0 <= i < offset ==> dst[i] == if i in lost then 0 else src.bytes[i]
      invariant forall i :: offset <= i < sizeBytes ==> dst[i] == 0
    {
      assert src.DataAnswer(offset);
      var data := src.seekData(offset);
      if data.NoMore? { break; }
      if data.Unsupported? {
        ok := LinearSparseCopy(src, dst, offset, sizeBytes, healthy);
        EqualIff(src, dst[..], lost);
        return;
      }
      if data.Failed? { return false, dst, lost; }
      var dataStart := data.off;
      assert src.HoleAnswer(dataStart);
      var hole := src.seekHole(dataStart);
      var holeStart: nat;
      match hole {
        case At(h) => holeStart := h;
        case NoMore => holeStart := sizeBytes;
        case _ => return false, dst, lost;
      }
      var copied, missed := CopyDataExtent(src, dst, dataStart, holeStart, healthy, whole);
      lost := lost + set i | i in missed && src.data[i];
      if !copied { return false, dst, lost; }
      offset := holeStart;
    }
    EqualIff(src, dst[..], lost);
    ok := Sync(healthy);
  }

  lemma {:induction false} EqualIff(src: Source, dst: seq<Byte>, lost: set<nat>)
    requires |dst| == |src.bytes| && forall i :: i in lost ==> i < |dst|
    ensures (forall i :: 0 <= i < |dst| ==> dst[i] == if i in lost then 0 else src.bytes[i]) ==>
              (dst == src.bytes <==> forall i :: i in lost ==> src.bytes[i] == 0)
  {
  }
}
