/** Placing an ELF program, bare or inside a signed container, into its memory image. */
module ElfSegments {

  import opened ByteImage

  const SELF_MAGIC: nat := 0x1D3D154F
  const PT_LOAD: nat := 1
  const PF_X: nat := 1
  const PF_W: nat := 2

  datatype Phdr = Phdr(ptype: nat, flags: nat, offset: Word64, vaddr: Word64, filesz: Word64, memsz: Word64)
  {
    predicate IsLoad() { ptype == PT_LOAD }

    predicate Executable() { flags % 2 == PF_X }

    predicate Writable() { flags / PF_W % 2 == 1 }

    /** How many bytes of memory the copy and the zeroing may touch. */
    function Extent(): nat { if memsz > filesz then memsz else filesz }

    predicate Covers(i: int) { vaddr <= i < vaddr + Extent() }
  }

  // ---- The container's segment table ----

  datatype SelfRecord = SelfRecord(flags: nat, offset: Word64, enc: nat, dec: nat)
  {
    /** A data segment, stored neither compressed nor encrypted. */
    predicate Usable() { flags / 0x800 % 2 == 1 && enc == dec }

    function Index(): nat { flags / 0x10_0000 % 0x1_0000_0000 }
  }

  predicate IsSelf(file: seq<Byte>) {
    |file| > 0x20 && FromBytes(file[..4]) == SELF_MAGIC
  }

  predicate RecordIn(file: seq<Byte>, s: nat) {
    IsSelf(file) && s < FromBytes(file[0x18..0x1A]) && 0x20 + 32 * s + 32 <= |file|
  }

  function RecordAt(file: seq<Byte>, s: nat): SelfRecord
    requires 0x20 + 32 * s + 32 <= |file|
  {
    var at := 0x20 + 32 * s;
    SelfRecord(Read64(file, at), Read64(file, at + 8), Read64(file, at + 16), Read64(file, at + 24))
  }

  /** Record s says where segment idx is. */
  predicate Locates(file: seq<Byte>, s: nat, idx: nat) {
    RecordIn(file, s) && RecordAt(file, s).Usable() && RecordAt(file, s).Index() == idx
  }

  /** Record s has the last word on where segment idx is. */
  ghost predicate LastLocates(file: seq<Byte>, s: nat, idx: nat) {
    Locates(file, s, idx) && forall later: nat | later > s :: !Locates(file, later, idx)
  }

  /** The table maps exactly the located segments, each to its last record's offset. */
  ghost predicate IsSegmentTable(file: seq<Byte>, table: map<nat, Word64>) {
    (forall idx: nat, s: nat :: Locates(file, s, idx) ==> idx in table) &&
    (forall idx: nat | idx in table ::
      exists s: nat :: LastLocates(file, s, idx) && table[idx] == RecordAt(file, s).offset)
  }

  /** The table as the first n records leave it. */
  ghost predicate IsTableOf(file: seq<Byte>, n: nat, table: map<nat, Word64>) {
    (forall idx: nat, s: nat :: s < n && Locates(file, s, idx) ==> idx in table) &&
    (forall idx: nat | idx in table ::
      exists s: nat :: LastAmong(file, n, s, idx) && table[idx] == RecordAt(file, s).offset)
  }

  /** Record s has the last word among the first n. */
  ghost predicate LastAmong(file: seq<Byte>, n: nat, s: nat, idx: nat) {
    s < n && Locates(file, s, idx) && forall later: nat | s < later < n :: !Locates(file, later, idx)
  }

  lemma TableGrows(file: seq<Byte>, s: nat, table: map<nat, Word64>)
    requires RecordIn(file, s) && IsTableOf(file, s, table)
    ensures var r := RecordAt(file, s);
            IsTableOf(file, s + 1, if r.Usable() then table[r.Index() := r.offset] else table)
  {
    hide RecordAt, IsSelf;
    var r := RecordAt(file, s);
    var after := if r.Usable() then table[r.Index() := r.offset] else table;
    forall idx: nat | idx in after
      ensures exists t: nat :: LastAmong(file, s + 1, t, idx) && after[idx] == RecordAt(file, t).offset
    {
      if Locates(file, s, idx) {
        assert LastAmong(file, s + 1, s, idx);
      } else {
        var t: nat :| LastAmong(file, s, t, idx) && table[idx] == RecordAt(file, t).offset;
        assert LastAmong(file, s + 1, t, idx);
      }
    }
  }

  lemma TableComplete(file: seq<Byte>, n: nat, table: map<nat, Word64>)
    requires IsTableOf(file, n, table) && !RecordIn(file, n)
    ensures IsSegmentTable(file, table)
  {
    hide RecordAt, IsSelf, SelfRecord.Usable, SelfRecord.Index;
    assert forall t: nat | t >= n :: !RecordIn(file, t);
    forall idx: nat | idx in table
      ensures exists t: nat :: LastLocates(file, t, idx) && table[idx] == RecordAt(file, t).offset
    {
      var t: nat :| LastAmong(file, n, t, idx) && table[idx] == RecordAt(file, t).offset;
      assert LastLocates(file, t, idx);
    }
  }

  method ReadSegmentTable(file: seq<Byte>) returns (table: map<nat, Word64>)
    ensures IsSegmentTable(file, table)
  {
    table := map[];
    assert IsTableOf(file, 0, table);
    hide IsTableOf, RecordAt, IsSegmentTable;
    if |file| <= 0x20 || FromBytes(file[..4]) != SELF_MAGIC {
      TableComplete(file, 0, table);
      return;
    }
    var count := FromBytes(file[0x18..0x1A]);
    var s := 0;
    while s < count
      invariant 0 <= s <= count && IsTableOf(file, s, table)
    {
      if 0x20 + 32 * s + 32 > |file| {
        break;
      }
      var r := RecordAt(file, s);
      TableGrows(file, s, table);
      if r.flags / 0x800 % 2 == 1 && r.enc == r.dec {
        table := table[r.flags / 0x10_0000 % 0x1_0000_0000 := r.offset];
      }
      s := s + 1;
    }
    TableComplete(file, s, table);
  }

  // ---- Copying the segments ----

  /** A program as it lies in its file. */
  datatype Program = Program(file: seq<Byte>, elfOffset: nat, table: map<nat, Word64>, phdrs: seq<Phdr>)
  {
    /** Where in the file segment k's bytes are. */
    function Source(k: nat): Word64
      requires k < |phdrs|
    {
      if k in table then table[k] else Wrap(phdrs[k].offset + elfOffset)
    }

    /** The number of bytes to copy; the end of the file cuts a segment short.  The sum is 64 bits wide. */
    function CopyLength(k: nat): nat
      requires k < |phdrs|
    {
      if (Source(k) + phdrs[k].filesz) % TWO64 > |file| then
        if Source(k) < |file| then |file| - Source(k) else 0
      else phdrs[k].filesz
    }

    /** The bytes that the file holds for segment k. */
    function FileBytes(k: nat): seq<Byte>
      requires k < |phdrs| && (phdrs[k].filesz == 0 || Source(k) + phdrs[k].filesz < TWO64)
    {
      if Source(k) >= |file| || phdrs[k].filesz == 0 then [] else file[Source(k)..Source(k) + CopyLength(k)]
    }

    /** No segment's end in the file passes 2^64, and every segment has its place in the image. */
    ghost predicate Fits(size: nat) {
      forall k | 0 <= k < |phdrs| && phdrs[k].IsLoad() ::
        Source(k) + phdrs[k].filesz < TWO64 && phdrs[k].vaddr + phdrs[k].Extent() <= size
    }

    ghost predicate Disjoint() {
      forall j, k | 0 <= j < k < |phdrs| && phdrs[j].IsLoad() && phdrs[k].IsLoad() ::
        phdrs[j].vaddr + phdrs[j].Extent() <= phdrs[k].vaddr || phdrs[k].vaddr + phdrs[k].Extent() <= phdrs[j].vaddr
    }

    /** What byte i of the image has to be, when segment k covers it. */
    function SegmentByte(k: nat, i: nat): Byte
      requires k < |phdrs| && phdrs[k].vaddr <= i
    {
      var j := i - phdrs[k].vaddr;
      if j < phdrs[k].filesz && Source(k) + j < |file| then file[Source(k) + j] else 0
    }
  }

  /** The guard of the copy keeps the reads inside the file unless the sum of offset and size wraps past it. */
  lemma CopyStaysInFile(p: Program, k: nat)
    requires k < |p.phdrs|
    ensures (p.CopyLength(k) == 0 || p.Source(k) + p.CopyLength(k) <= |p.file|) <==>
            (p.phdrs[k].filesz == 0 || p.Source(k) + p.phdrs[k].filesz < TWO64 ||
             p.Source(k) + p.phdrs[k].filesz - TWO64 > |p.file| || p.Source(k) + p.phdrs[k].filesz <= |p.file|)
  {
    var sum := p.Source(k) + p.phdrs[k].filesz;
    assert sum % TWO64 == if sum < TWO64 then sum else sum - TWO64;
  }

  /** The program header at a place in the file. */
  function HeaderAt(file: seq<Byte>, at: nat): Phdr
    requires at + 0x38 <= |file|
  {
    Phdr(FromBytes(file[at..at + 4]), FromBytes(file[at + 4..at + 8]), Read64(file, at + 8), Read64(file, at + 16),
         Read64(file, at + 32), Read64(file, at + 40))
  }

  /** A bare ELF program of at least an ELF header and one program header, whose segment wraps into the file: it claims
      0x20 bytes from 16 bytes below 2^64, the guard sees the end at 0x10, and the whole copy lies outside the file. */
  lemma WrappedEnd(file: seq<Byte>) returns (p: Program)
    requires 0x78 <= |file| < TWO64 - 0x10 && file[..4] == [0x7F, 0x45, 0x4C, 0x46]
    requires HeaderAt(file, 0x40).offset == TWO64 - 0x10 && HeaderAt(file, 0x40).filesz == 0x20
    ensures p == Program(file, 0, map[], [HeaderAt(file, 0x40)])
    ensures !IsSelf(file) && IsSegmentTable(file, p.table)
    ensures p.CopyLength(0) == 0x20 && p.Source(0) > |file|
  {
    hide Read64, RecordAt;
    p := Program(file, 0, map[], [HeaderAt(file, 0x40)]);
    OtherMagic(file);
  }

  lemma OtherMagic(file: seq<Byte>)
    requires |file| > 0x20 && file[..4] == [0x7F, 0x45, 0x4C, 0x46]
    ensures FromBytes(file[..4]) == 0x464C457F
  {
    var b := file[..4];
    assert b[1..] == [0x45, 0x4C, 0x46] && b[1..][1..] == [0x4C, 0x46] && b[1..][1..][1..] == [0x46];
    assert FromBytes(b[1..][1..][1..]) == 0x46;
    assert FromBytes(b[1..][1..]) == 0x464C;
    assert FromBytes(b[1..]) == 0x464C45;
  }

  function Zeros(n: nat): (z: seq<Byte>)
    ensures |z| == n && forall i | 0 <= i < n :: z[i] == 0
  {
    seq(n, i => 0)
  }

  /** The copy and the zeroing of one segment. */
  function Placed(m: seq<Byte>, p: Program, k: nat): (r: seq<Byte>)
    requires p.Fits(|m|) && k < |p.phdrs|
    ensures |r| == |m|
  {
    var h := p.phdrs[k];
    if !h.IsLoad() then m
    else
      var copied := Splice(m, h.vaddr, p.FileBytes(k));
      if h.memsz > h.filesz then Splice(copied, h.vaddr + h.filesz, Zeros(h.memsz - h.filesz)) else copied
  }

  function PlacedUpTo(m: seq<Byte>, p: Program, n: nat): (r: seq<Byte>)
    requires p.Fits(|m|) && n <= |p.phdrs|
    ensures |r| == |m|
  {
    if n == 0 then m else Placed(PlacedUpTo(m, p, n - 1), p, n - 1)
  }

  /** Placing a segment leaves the rest of the image alone. */
  lemma PlacedElsewhere(m: seq<Byte>, p: Program, k: nat, i: nat)
    requires p.Fits(|m|) && k < |p.phdrs| && i < |m|
    requires !(p.phdrs[k].IsLoad() && p.phdrs[k].Covers(i))
    ensures Placed(m, p, k)[i] == m[i]
  {
    hide Program.FileBytes;
    var h := p.phdrs[k];
    if h.IsLoad() {
      FileBytesSize(p, k);
      var copied := Splice(m, h.vaddr, p.FileBytes(k));
      assert copied[i] == m[i];
    }
  }

  lemma FileBytesSize(p: Program, k: nat)
    requires k < |p.phdrs| && (p.phdrs[k].filesz == 0 || p.Source(k) + p.phdrs[k].filesz < TWO64)
    ensures |p.FileBytes(k)| <= p.phdrs[k].filesz
  {
  }

  /** Over zeros, placing a segment makes its range what the file says. */
  lemma PlacedThere(m: seq<Byte>, p: Program, k: nat, i: nat)
    requires p.Fits(|m|) && k < |p.phdrs| && i < |m| && m[i] == 0
    requires p.phdrs[k].IsLoad() && p.phdrs[k].Covers(i)
    ensures Placed(m, p, k)[i] == p.SegmentByte(k, i)
  {
    CopyStaysInFile(p, k);
  }

  ghost predicate Covered(p: Program, n: nat, i: nat)
    requires n <= |p.phdrs|
  {
    exists k | 0 <= k < n :: p.phdrs[k].IsLoad() && p.phdrs[k].Covers(i)
  }

  lemma {:induction false} Uncovered(m: seq<Byte>, p: Program, n: nat, i: nat)
    requires p.Fits(|m|) && n <= |p.phdrs| && i < |m| && !Covered(p, n, i)
    ensures PlacedUpTo(m, p, n)[i] == m[i]
  {
    hide Placed, Program.Fits;
    if n > 0 {
      Uncovered(m, p, n - 1, i);
      PlacedElsewhere(PlacedUpTo(m, p, n - 1), p, n - 1, i);
    }
  }

  /** Whatever the order of disjoint segments, each range of a zeroed image becomes the file's bytes,
      cut at the end of the file and padded with zeros. */
  lemma {:induction false} SegmentImage(m: seq<Byte>, p: Program, n: nat, k: nat, i: nat)
    requires p.Fits(|m|) && p.Disjoint() && k < n <= |p.phdrs| && i < |m| && m[i] == 0
    requires p.phdrs[k].IsLoad() && p.phdrs[k].Covers(i)
    ensures PlacedUpTo(m, p, n)[i] == p.SegmentByte(k, i)
  {
    hide Placed, Program.SegmentByte, Program.Source;
    var before := PlacedUpTo(m, p, n - 1);
    if k == n - 1 {
      assert !Covered(p, n - 1, i);
      Uncovered(m, p, n - 1, i);
      PlacedThere(before, p, k, i);
    } else {
      SegmentImage(m, p, n - 1, k, i);
      PlacedElsewhere(before, p, n - 1, i);
    }
  }

  /** The same, straight from the file: what the last usable record of a segment says, or the header's own offset
      where there is none. */
  lemma ImageFromFile(m: seq<Byte>, p: Program, k: nat, i: nat, s: nat)
    requires p.Fits(|m|) && p.Disjoint() && k < |p.phdrs| && i < |m| && m[i] == 0
    requires p.phdrs[k].IsLoad() && p.phdrs[k].Covers(i) && IsSegmentTable(p.file, p.table)
    requires LastLocates(p.file, s, k) || forall t: nat :: !Locates(p.file, t, k)
    ensures var h := p.phdrs[k];
            var from := if LastLocates(p.file, s, k) then RecordAt(p.file, s).offset else Wrap(h.offset + p.elfOffset);
            var j := i - h.vaddr;
            PlacedUpTo(m, p, |p.phdrs|)[i] == if j < h.filesz && from + j < |p.file| then p.file[from + j] else 0
  {
    hide PlacedUpTo, RecordAt;
    SegmentImage(m, p, |p.phdrs|, k, i);
    if LastLocates(p.file, s, k) {
      var t: nat :| LastLocates(p.file, t, k) && p.table[k] == RecordAt(p.file, t).offset;
      assert t == s;
    }
  }

  /** memcpy from the file into the image. */
  method CopyBytes(img: array<Byte>, at: nat, bytes: seq<Byte>)
    requires at + |bytes| <= img.Length
    modifies img
    ensures img[..] == Splice(old(img[..]), at, bytes)
  {
    forall i | 0 <= i < |bytes| {
      img[at + i] := bytes[i];
    }
    assert img[..] == Splice(old(img[..]), at, bytes);
  }

  method PlaceSegment(img: array<Byte>, p: Program, k: nat)
    requires p.Fits(img.Length) && k < |p.phdrs|
    modifies img
    ensures img[..] == Placed(old(img[..]), p, k)
  {
    hide Splice;
    var h := p.phdrs[k];
    if h.IsLoad() {
      CopyStaysInFile(p, k);
      var from := p.Source(k);
      var bytes := [];
      if (from + h.filesz) % TWO64 > |p.file| {
        if from < |p.file| {
          bytes := p.file[from..];
        }
      } else if h.filesz > 0 {
        bytes := p.file[from..from + h.filesz];
      }
      assert bytes == p.FileBytes(k);
      CopyBytes(img, h.vaddr, bytes);
      if h.memsz > h.filesz {
        CopyBytes(img, h.vaddr + h.filesz, Zeros(h.memsz - h.filesz));
      }
    }
  }

  method CopySegments(img: array<Byte>, p: Program)
    requires p.Fits(img.Length)
    modifies img
    ensures img[..] == PlacedUpTo(old(img[..]), p, |p.phdrs|)
  {
    hide Placed;
    for k := 0 to |p.phdrs|
      invariant img[..] == PlacedUpTo(old(img[..]), p, k)
    {
      PlaceSegment(img, p, k);
    }
  }

  // ---- The size of the image ----

  /** The image reaches exactly to the last segment's end, provided no end passes 2^64. */
  method ImageSize(phdrs: seq<Phdr>) returns (end: nat)
    ensures (forall k | 0 <= k < |phdrs| && phdrs[k].IsLoad() :: phdrs[k].vaddr + phdrs[k].memsz < TWO64) ==>
              forall k | 0 <= k < |phdrs| && phdrs[k].IsLoad() :: phdrs[k].vaddr + phdrs[k].memsz <= end
    ensures end == 0 || exists k | 0 <= k < |phdrs| ::
                          phdrs[k].IsLoad() && end == (phdrs[k].vaddr + phdrs[k].memsz) % TWO64
  {
    end := 0;
    for n := 0 to |phdrs|
      invariant forall k | 0 <= k < n && phdrs[k].IsLoad() :: (phdrs[k].vaddr + phdrs[k].memsz) % TWO64 <= end
      invariant end == 0 || exists k | 0 <= k < n ::
                            phdrs[k].IsLoad() && end == (phdrs[k].vaddr + phdrs[k].memsz) % TWO64
    {
      if phdrs[n].IsLoad() {
        var segmentEnd := (phdrs[n].vaddr + phdrs[n].memsz) % TWO64;
        if segmentEnd > end {
          end := segmentEnd;
        }
      }
    }
  }

  // ---- The integrity check ----

  predicate Differs(m: seq<Byte>, at: nat, file: seq<Byte>, from: nat, j: nat)
    requires at + j < |m| && from + j < |file|
  {
    m[at + j] != file[from + j]
  }

  /** The bytes of segment k that differ between the image and the file. */
  ghost function Differences(m: seq<Byte>, p: Program, k: nat, n: nat): set<nat>
    requires k < |p.phdrs| && n <= p.phdrs[k].filesz
    requires p.phdrs[k].vaddr + n <= |m| && p.Source(k) + n <= |p.file|
  {
    set j: nat | 0 <= j < n && Differs(m, p.phdrs[k].vaddr, p.file, p.Source(k), j)
  }

  /** diff counts the differences among the first n bytes, and first is the address of the first one. */
  ghost predicate Counted(m: seq<Byte>, p: Program, k: nat, n: nat, diff: nat, first: nat)
    requires k < |p.phdrs| && n <= p.phdrs[k].filesz
    requires p.phdrs[k].vaddr + n <= |m| && p.Source(k) + n <= |p.file|
  {
    var found := Differences(m, p, k, n);
    diff == |found| &&
    (diff > 0 ==> p.phdrs[k].vaddr <= first && first - p.phdrs[k].vaddr in found &&
                  forall j | j in found :: first <= p.phdrs[k].vaddr + j)
  }

  lemma CountedGrows(m: seq<Byte>, p: Program, k: nat, n: nat, diff: nat, first: nat)
    requires k < |p.phdrs| && n < p.phdrs[k].filesz
    requires p.phdrs[k].vaddr + n < |m| && p.Source(k) + n < |p.file|
    requires Counted(m, p, k, n, diff, first)
    ensures var at := p.phdrs[k].vaddr + n;
            if m[at] != p.file[p.Source(k) + n] then
              Counted(m, p, k, n + 1, diff + 1, if diff == 0 then at else first)
            else Counted(m, p, k, n + 1, diff, first)
  {
    hide Program.Source;
    var was := Differences(m, p, k, n);
    var more := Differences(m, p, k, n + 1);
    if m[p.phdrs[k].vaddr + n] != p.file[p.Source(k) + n] {
      assert more == was + {n};
    } else {
      assert more == was;
    }
  }

  method CountDifferences(img: array<Byte>, p: Program, k: nat) returns (diff: nat, first: nat)
    requires k < |p.phdrs| && p.phdrs[k].vaddr + p.phdrs[k].filesz <= img.Length
    requires p.Source(k) + p.phdrs[k].filesz <= |p.file|
    ensures Counted(img[..], p, k, p.phdrs[k].filesz, diff, first)
  {
    diff, first := 0, 0;
    assert Differences(img[..], p, k, 0) == {};
    assert Counted(img[..], p, k, 0, diff, first);
    hide Counted;
    for n := 0 to p.phdrs[k].filesz
      invariant Counted(img[..], p, k, n, diff, first)
    {
      CountedGrows(img[..], p, k, n, diff, first);
      if img[p.phdrs[k].vaddr + n] != p.file[p.Source(k) + n] {
        if diff == 0 {
          first := p.phdrs[k].vaddr + n;
        }
        diff := diff + 1;
      }
    }
  }
}
