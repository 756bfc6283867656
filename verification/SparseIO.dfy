/**
 Files with holes: the lseek(2) contract the two scanners rely on, the manifest
 that ExtractSparseRegions builds, and the overlay that MergeDiffMemory applies.
 */
module SparseIO {
  import opened Wrappers

  type Byte = x: int | 0 <= x < 256

  /** Answer of one lseek: an offset, ENXIO, EINVAL, or any other errno. */
  datatype Seek = At(off: nat) | NoMore | Unsupported | Failed

  datatype Region = Region(offset: nat, length: nat)

  /**
   A readable file or block device. data[i] says that byte i lies in an extent the
   kernel reports as data; the two functions answer SEEK_DATA and SEEK_HOLE.
   */
  datatype Source = Source(bytes: seq<Byte>, data: seq<bool>,
                           seekData: nat -> Seek, seekHole: nat -> Seek)
  {
    /** Holes read as zero, and a seek that answers an offset or ENXIO tells the truth. */
    ghost predicate Valid() {
      && |data| == |bytes|
      && (forall i :: 0 <= i < |bytes| && !data[i] ==> bytes[i] == 0)
      && (forall o: nat :: o < |bytes| ==> DataAnswer(o))
      && (forall o: nat :: o < |bytes| && data[o] ==> HoleAnswer(o))
    }

    ghost predicate DataAnswer(o: nat)
      requires |data| == |bytes|
    {
      match seekData(o)
      case At(d) => o <= d < |bytes| && data[d] && forall i :: o <= i < d ==> !data[i]
      case NoMore => forall i :: o <= i < |bytes| ==> !data[i]
      case _ => true
    }

    ghost predicate HoleAnswer(o: nat)
      requires |data| == |bytes|
    {
      match seekHole(o)
      case At(h) => o < h <= |bytes| && forall i :: o <= i < h ==> data[i]
      case _ => true
    }

    /** No SEEK_DATA fails with anything but ENXIO. */
    ghost predicate SeekDataWorks() {
      forall o: nat :: o < |bytes| ==> seekData(o).At? || seekData(o).NoMore?
    }

    ghost predicate SeekHoleWorks() {
      forall o: nat :: o < |bytes| ==> seekHole(o).At?
    }
  }

  /** Where the extent starting at d ends; a failed SEEK_HOLE takes the rest of the file. */
  function ExtentEnd(f: Source, d: nat): nat {
    match f.seekHole(d)
    case At(h) => h
    case _ => |f.bytes|
  }

  ghost predicate Covered(regions: seq<Region>, i: nat) {
    exists k :: 0 <= k < |regions| && regions[k].offset <= i < regions[k].offset + regions[k].length
  }

  /** The regions a scan from offset off reports. */
  ghost function RegionsFrom(f: Source, off: nat): seq<Region>
    requires f.Valid()
    decreases |f.bytes| - off
  {
    if off >= |f.bytes| then []
    else
      assert f.DataAnswer(off);
      match f.seekData(off)
      case At(d) =>
        assert f.HoleAnswer(d);
        var h := ExtentEnd(f, d);
        [Region(d, h - d)] + RegionsFrom(f, h)
      case _ => []
  }

  /** The offset at which the scan from off stops: end of file, or a failed SEEK_DATA. */
  ghost function StopFrom(f: Source, off: nat): nat
    requires f.Valid()
    decreases |f.bytes| - off
  {
    if off >= |f.bytes| then off
    else
      assert f.DataAnswer(off);
      match f.seekData(off)
      case At(d) =>
        assert f.HoleAnswer(d);
        StopFrom(f, ExtentEnd(f, d))
      case _ => off
  }

  /** Non-empty regions in increasing order, none touching the next one's interior. */
  ghost predicate Ordered(regions: seq<Region>, lo: nat, hi: nat) {
    && (forall k :: 0 <= k < |regions| ==>
          lo <= regions[k].offset && 0 < regions[k].length && regions[k].offset + regions[k].length <= hi)
    && (forall k, l :: 0 <= k < l < |regions| ==>
          regions[k].offset + regions[k].length <= regions[l].offset)
  }

  lemma {:induction false} CoveredCons(r: Region, rest: seq<Region>, i: nat)
    ensures Covered([r] + rest, i) <==> r.offset <= i < r.offset + r.length || Covered(rest, i)
  {
    var all := [r] + rest;
    if Covered(rest, i) {
      var k :| 0 <= k < |rest| && rest[k].offset <= i < rest[k].offset + rest[k].length;
      assert all[k + 1] == rest[k];
    }
    if r.offset <= i < r.offset + r.length {
      assert all[0] == r;
    }
    if Covered(all, i) {
      var k :| 0 <= k < |all| && all[k].offset <= i < all[k].offset + all[k].length;
      assert k > 0 ==> rest[k - 1] == all[k];
    }
  }

  lemma {:induction false} RegionsOrdered(f: Source, off: nat)
    requires f.Valid() && off <= |f.bytes|
    ensures Ordered(RegionsFrom(f, off), off, |f.bytes|)
    decreases |f.bytes| - off
  {
    if off < |f.bytes| {
      assert f.DataAnswer(off);
      match f.seekData(off)
      case At(d) =>
        assert f.HoleAnswer(d);
        RegionsOrdered(f, ExtentEnd(f, d));
      case _ =>
    }
  }

  /** Every data byte before the stop is covered; nothing is covered outside [off, stop). */
  lemma {:induction false} RegionsCoverUpToStop(f: Source, off: nat, i: nat)
    requires f.Valid() && off <= i < |f.bytes|
    ensures f.data[i] && i < StopFrom(f, off) ==> Covered(RegionsFrom(f, off), i)
    ensures Covered(RegionsFrom(f, off), i) ==> i < StopFrom(f, off)
    ensures Covered(RegionsFrom(f, off), i) && f.SeekHoleWorks() ==> f.data[i]
    decreases |f.bytes| - off
  {
    ScanStep(f, off);
    StopStep(f, off);
    if f.seekData(off).At? {
      var d := f.seekData(off).off;
      var h := ExtentEnd(f, d);
      CoveredCons(Region(d, h - d), RegionsFrom(f, h), i);
      if i >= h {
        RegionsCoverUpToStop(f, h, i);
      } else {
        NotCoveredBefore(f, h, i);
        assert f.DataAnswer(off) && f.HoleAnswer(d);
      }
    } else {
      assert f.DataAnswer(off);
    }
  }

  lemma {:induction false} NotCoveredBefore(f: Source, off: nat, i: nat)
    requires f.Valid() && i < off <= |f.bytes|
    ensures !Covered(RegionsFrom(f, off), i) && off <= StopFrom(f, off)
  {
    RegionsOrdered(f, off);
    StopIsPast(f, off);
  }

  lemma {:induction false} StopStep(f: Source, off: nat)
    requires f.Valid() && off < |f.bytes|
    ensures StopFrom(f, off) == if f.seekData(off).At? then StopFrom(f, ExtentEnd(f, f.seekData(off).off)) else off
  {
    assert f.DataAnswer(off);
    if f.seekData(off).At? {
      assert f.HoleAnswer(f.seekData(off).off);
    }
  }

  lemma {:induction false} StopIsPast(f: Source, off: nat)
    requires f.Valid() && off <= |f.bytes|
    ensures off <= StopFrom(f, off) <= |f.bytes|
    ensures f.SeekDataWorks() ==> forall i :: StopFrom(f, off) <= i < |f.bytes| ==> !f.data[i]
    decreases |f.bytes| - off
  {
    if off < |f.bytes| {
      assert f.DataAnswer(off);
      match f.seekData(off)
      case At(d) =>
        assert f.HoleAnswer(d);
        StopIsPast(f, ExtentEnd(f, d));
      case _ =>
    }
  }

  /** The scan from offset off asks for the next data at offset o. */
  ghost predicate Asks(f: Source, off: nat, o: nat)
    requires f.Valid()
    decreases |f.bytes| - off
  {
    off < |f.bytes| &&
    (o == off ||
     (f.seekData(off).At? &&
      (assert f.DataAnswer(off);
       assert f.HoleAnswer(f.seekData(off).off);
       Asks(f, ExtentEnd(f, f.seekData(off).off), o))))
  }

  /** Where the scan stops short of the end is the one place it asks in vain. */
  lemma {:induction false} StopsWhereAnswerFails(f: Source, off: nat, o: nat)
    requires f.Valid() && off <= |f.bytes|
    ensures Asks(f, off, o) && !f.seekData(o).At? <==> o == StopFrom(f, off) < |f.bytes|
    decreases |f.bytes| - off
  {
    if off < |f.bytes| {
      assert f.DataAnswer(off);
      match f.seekData(off)
      case At(d) =>
        assert f.HoleAnswer(d);
        StopsWhereAnswerFails(f, ExtentEnd(f, d), o);
        StopIsPast(f, ExtentEnd(f, d));
      case _ =>
    }
  }

  /**
   The manifest covers every data byte if and only if no SEEK_DATA of the scan fails with data
   at or after it: any error, not only ENXIO, ends the scan without an error.
   */
  lemma {:induction false} ManifestCompleteIff(f: Source)
    requires f.Valid()
    ensures (forall i :: 0 <= i < |f.bytes| && f.data[i] ==> Covered(RegionsFrom(f, 0), i))
       <==> (forall o: nat, i :: Asks(f, 0, o) && !f.seekData(o).At? && o <= i < |f.bytes| ==> !f.data[i])
    ensures f.SeekDataWorks() ==> forall i :: 0 <= i < |f.bytes| && f.data[i] ==> Covered(RegionsFrom(f, 0), i)
  {
    StopIsPast(f, 0);
    forall i: nat | i < |f.bytes|
      ensures f.data[i] && i < StopFrom(f, 0) ==> Covered(RegionsFrom(f, 0), i)
      ensures Covered(RegionsFrom(f, 0), i) ==> i < StopFrom(f, 0)
    {
      RegionsCoverUpToStop(f, 0, i);
    }
    forall o: nat
      ensures Asks(f, 0, o) && !f.seekData(o).At? <==> o == StopFrom(f, 0) < |f.bytes|
    {
      StopsWhereAnswerFails(f, 0, o);
    }
    var stop := StopFrom(f, 0);
    assert stop < |f.bytes| ==> Asks(f, 0, stop) && !f.seekData(stop).At?;
    if i :| stop <= i < |f.bytes| && f.data[i] {
      assert !Covered(RegionsFrom(f, 0), i);
    }
  }

  /** A SEEK_DATA that fails with EIO halfway: the data behind it is in no region. */
  lemma {:induction false} SeekDataErrorLosesData() returns (f: Source)
    ensures f.Valid() && |f.data| == 3 && f.data[2] && !Covered(RegionsFrom(f, 0), 2)
  {
    f := Source([7, 0, 9], [true, false, true], (o: nat) => if o == 0 then At(0) else Failed, (o: nat) => At(o + 1));
    assert f.DataAnswer(0) && f.HoleAnswer(0);
    assert RegionsFrom(f, 0) == [Region(0, 1)] + RegionsFrom(f, 1);
    assert RegionsFrom(f, 1) == [];
  }

  /** One round of the scan. */
  lemma {:induction false} ScanStep(f: Source, off: nat)
    requires f.Valid() && off < |f.bytes|
    ensures !f.seekData(off).At? ==> RegionsFrom(f, off) == []
    ensures f.seekData(off).At? ==>
              var d := f.seekData(off).off;
              var h := ExtentEnd(f, d);
              off <= d < h <= |f.bytes| && RegionsFrom(f, off) == [Region(d, h - d)] + RegionsFrom(f, h)
  {
    assert f.DataAnswer(off);
    if f.seekData(off).At? {
      assert f.HoleAnswer(f.seekData(off).off);
    }
  }

  method ExtractSparseRegions(f: Source) returns (regions: seq<Region>)
    requires f.Valid()
    ensures regions == RegionsFrom(f, 0)
  {
    regions := [];
    var fileSize := |f.bytes|;
    if fileSize == 0 { return; }
    var offset := 0;
    ghost var rest := RegionsFrom(f, 0);
    while offset < fileSize
      invariant 0 <= offset <= fileSize
      invariant rest == RegionsFrom(f, offset) && regions + rest == RegionsFrom(f, 0)
    {
      ScanStep(f, offset);
      var answer := f.seekData(offset);
      if !answer.At? { break; }
      var dataOff := answer.off;
      var hole := f.seekHole(dataOff);
      var holeOff := if hole.At? then hole.off else fileSize;
      regions := regions + [Region(dataOff, holeOff - dataOff)];
      rest := RegionsFrom(f, holeOff);
      offset := holeOff;
    }
    assert regions + [] == regions;
  }

  // ------------------------------------------------------------------ overlay

  /** pwrite(2): overwrite in place, growing the file and zero-filling any gap. */
  function WriteAt(file: seq<Byte>, buf: seq<Byte>, off: nat): seq<Byte> {
    var size := if buf != [] && |file| < off + |buf| then off + |buf| else |file|;
    seq(size, i requires 0 <= i < size =>
      if off <= i < off + |buf| then buf[i - off] else if i < |file| then file[i] else 0)
  }

  predicate Readable(r: Region, size: nat) { r.length == 0 || r.offset + r.length <= size }

  ghost predicate AllReadable(regions: seq<Region>, size: nat) {
    forall k :: 0 <= k < |regions| ==> Readable(regions[k], size)
  }

  function Slice(diff: seq<Byte>, r: Region): (buf: seq<Byte>)
    ensures Readable(r, |diff|) ==> |buf| == r.length
  {
    if r.length > 0 && r.offset + r.length <= |diff| then diff[r.offset..r.offset + r.length] else []
  }

  /** base with every manifest region, in order, replaced by the bytes of diff. */
  ghost function Overlay(base: seq<Byte>, diff: seq<Byte>, regions: seq<Region>): seq<Byte>
    decreases |regions|
  {
    if regions == [] then base
    else Overlay(WriteAt(base, Slice(diff, regions[0]), regions[0].offset), diff, regions[1..])
  }

  /** What the overlay reads at each byte, whatever the order or overlap of the regions. */
  lemma {:induction false} OverlayAt(base: seq<Byte>, diff: seq<Byte>, regions: seq<Region>, i: nat)
    requires AllReadable(regions, |diff|)
    ensures |Overlay(base, diff, regions)| >= |base|
    ensures |diff| <= |base| ==> |Overlay(base, diff, regions)| == |base|
    ensures Covered(regions, i) ==> i < |diff| && i < |Overlay(base, diff, regions)|
    ensures i < |Overlay(base, diff, regions)| ==>
              Overlay(base, diff, regions)[i] ==
                if Covered(regions, i) && i < |diff| then diff[i] else if i < |base| then base[i] else 0
    decreases |regions|
  {
    if regions != [] {
      var r, rest := regions[0], regions[1..];
      assert Readable(r, |diff|);
      var base' := WriteAt(base, Slice(diff, r), r.offset);
      assert forall k :: 0 <= k < |rest| ==> rest[k] == regions[k + 1];
      OverlayAt(base', diff, rest, i);
      CoveredCons(r, rest, i);
      assert regions == [r] + rest;
    }
  }

  /**
   The merge succeeds exactly when every region can be read in full from the diff file and no
   open, copy, write or sync fails.
   */
  method MergeDiffMemory(base: seq<Byte>, diff: seq<Byte>, manifest: seq<Region>, ioOk: bool) returns (r: Result<seq<Byte>>)
    ensures r.Ok? <==> ioOk && AllReadable(manifest, |diff|)
    ensures r.Ok? <==> ioOk && forall k :: 0 <= k < |manifest| ==> manifest[k].length == 0 || manifest[k].offset + manifest[k].length <= |diff|
    ensures r.Ok? ==> r.value == Overlay(base, diff, manifest)
  {
    var out := base;
    var k := 0;
    while k < |manifest|
      invariant 0 <= k <= |manifest|
      invariant forall j :: 0 <= j < k ==> Readable(manifest[j], |diff|)
      invariant Overlay(out, diff, manifest[k..]) == Overlay(base, diff, manifest)
    {
      var region := manifest[k];
      if !Readable(region, |diff|) { return Err; }
      assert manifest[k..][0] == region && manifest[k..][1..] == manifest[k + 1..];
      out := WriteAt(out, Slice(diff, region), region.offset);
      k := k + 1;
    }
    if !ioOk { return Err; }
    r := Ok(out);
  }

  // ------------------------------------------------- diffs against a parent image

  /** A diff file that agrees with now on its data extents, which cover every changed byte. */
  ghost predicate Captures(before: seq<Byte>, now: seq<Byte>, diff: Source) {
    && |before| == |now| == |diff.bytes| == |diff.data|
    && (forall i :: 0 <= i < |now| && diff.data[i] ==> diff.bytes[i] == now[i])
    && (forall i :: 0 <= i < |now| && before[i] != now[i] ==> diff.data[i])
  }

  /** A file of now's size whose only data is now's bytes in [d, h). */
  function Extent(now: seq<Byte>, d: nat, h: nat): Source {
    Source(seq(|now|, i requires 0 <= i < |now| => if d <= i < h then now[i] else 0),
           seq(|now|, i requires 0 <= i < |now| => d <= i < h),
           (o: nat) => if d < h && o <= d then At(d) else if d < h && o < h then At(o) else NoMore,
           (o: nat) => At(h))
  }

  lemma {:induction false} ExtentWorks(now: seq<Byte>, d: nat, h: nat)
    requires d <= h <= |now|
    ensures Extent(now, d, h).Valid() && Extent(now, d, h).SeekDataWorks() && Extent(now, d, h).SeekHoleWorks()
    ensures RegionsFrom(Extent(now, d, h), 0) == [] <==> d == h
  {
    var f := Extent(now, d, h);
    forall o: nat | o < |f.bytes|
      ensures f.DataAnswer(o) && (f.data[o] ==> f.HoleAnswer(o))
    {
      assert f.seekData(o) == if d < h && o <= d then At(d) else if d < h && o < h then At(o) else NoMore;
      assert f.seekHole(o) == At(h);
      assert forall i :: 0 <= i < |now| ==> (f.data[i] <==> d <= i < h);
    }
    ManifestEmptyIff(f);
    assert d < h ==> f.data[d];
  }

  function ZeroImage(n: nat): (z: seq<Byte>)
    ensures |z| == n && forall i :: 0 <= i < n ==> z[i] == 0
  {
    seq(n, _ => 0)
  }

  /** What overlaying a diff's own manifest on root gets right at byte i of the new image. */
  ghost predicate RightAt(root: seq<Byte>, now: seq<Byte>, diff: Source, i: nat)
    requires diff.Valid() && i < |now| && |root| == |now| == |diff.bytes|
  {
    if Covered(RegionsFrom(diff, 0), i) then diff.data[i] || now[i] == 0 else root[i] == now[i]
  }

  /**
   One merge step onto any image of the right size. It gives the new image exactly when each
   covered hole byte is zero in it and each uncovered byte is as in root. With working seeks that
   is: wherever the diff has a hole, root agrees with the image the diff was taken against.
   */
  lemma {:induction false} OverlayExactIff(root: seq<Byte>, before: seq<Byte>, now: seq<Byte>, diff: Source)
    requires diff.Valid() && Captures(before, now, diff) && |root| == |now|
    ensures AllReadable(RegionsFrom(diff, 0), |diff.bytes|)
    ensures |Overlay(root, diff.bytes, RegionsFrom(diff, 0))| == |now|
    ensures Overlay(root, diff.bytes, RegionsFrom(diff, 0)) == now <==> forall i: nat :: i < |now| ==> RightAt(root, now, diff, i)
    ensures diff.SeekDataWorks() && diff.SeekHoleWorks() ==>
              (Overlay(root, diff.bytes, RegionsFrom(diff, 0)) == now
               <==> forall i: nat :: i < |now| && !diff.data[i] ==> root[i] == before[i])
  {
    var regions := RegionsFrom(diff, 0);
    RegionsOrdered(diff, 0);
    StopIsPast(diff, 0);
    var merged := Overlay(root, diff.bytes, regions);
    OverlayAt(root, diff.bytes, regions, 0);
    forall i: nat | i < |now|
      ensures merged[i] == now[i] <==> RightAt(root, now, diff, i)
      ensures diff.SeekDataWorks() && diff.SeekHoleWorks() ==> (Covered(regions, i) <==> diff.data[i])
    {
      OverlayAt(root, diff.bytes, regions, i);
      RegionsCoverUpToStop(diff, 0, i);
    }
  }

  /**
   Onto the very image the diff was taken against, with a working SEEK_DATA: exact if and only
   if every hole byte the manifest takes in (only a failed SEEK_HOLE takes in any) is zero.
   */
  lemma {:induction false} MergeStepExactIff(before: seq<Byte>, now: seq<Byte>, diff: Source)
    requires diff.Valid() && diff.SeekDataWorks() && Captures(before, now, diff)
    ensures Overlay(before, diff.bytes, RegionsFrom(diff, 0)) == now
       <==> forall i: nat :: i < |now| && !diff.data[i] && Covered(RegionsFrom(diff, 0), i) ==> now[i] == 0
    ensures diff.SeekHoleWorks() ==> Overlay(before, diff.bytes, RegionsFrom(diff, 0)) == now
  {
    OverlayExactIff(before, before, now, diff);
    StopIsPast(diff, 0);
    forall i: nat | i < |now|
      ensures RightAt(before, now, diff, i) <==> (!diff.data[i] && Covered(RegionsFrom(diff, 0), i) ==> now[i] == 0)
    {
      RegionsCoverUpToStop(diff, 0, i);
    }
  }

  /** A SEEK_HOLE that fails: an unchanged byte after the extent is merged as zero. */
  lemma {:induction false} SeekHoleErrorZeroesMemory() returns (before: seq<Byte>, now: seq<Byte>, diff: Source)
    ensures diff.Valid() && diff.SeekDataWorks() && Captures(before, now, diff)
    ensures before == [1, 5] && now == [2, 5] && Overlay(before, diff.bytes, RegionsFrom(diff, 0)) == [2, 0]
  {
    before, now := [1, 5], [2, 5];
    diff := Source([2, 0], [true, false], (o: nat) => if o == 0 then At(0) else NoMore, (o: nat) => Failed);
    assert diff.DataAnswer(0) && diff.DataAnswer(1) && diff.HoleAnswer(0);
    var regions := RegionsFrom(diff, 0);
    assert regions == [Region(0, 2)] + RegionsFrom(diff, 2) && RegionsFrom(diff, 2) == [];
    assert Covered(regions, 0) && Covered(regions, 1) by {
      assert regions[0] == Region(0, 2);
    }
    OverlayAt(before, diff.bytes, regions, 0);
    OverlayAt(before, diff.bytes, regions, 1);
  }

  /** The manifest is empty exactly when the first SEEK_DATA finds nothing; without errors, when there is no data. */
  lemma {:induction false} ManifestEmptyIff(f: Source)
    requires f.Valid()
    ensures RegionsFrom(f, 0) == [] <==> |f.bytes| == 0 || !f.seekData(0).At?
    ensures f.SeekDataWorks() ==> (RegionsFrom(f, 0) == [] <==> forall i :: 0 <= i < |f.bytes| ==> !f.data[i])
  {
    if |f.bytes| > 0 {
      assert f.DataAnswer(0);
    }
  }
}
