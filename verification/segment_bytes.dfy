/** The segment table and the program headers as bytes: which segments the container locates, and what the headers say.
    */
module SegmentBytes {

  import opened ByteImage
  import opened ElfSegments
  import opened RelocationBytes
  import BruteForce

  /** A record of the container's table.  Its flags are, from the lowest bit: eleven bits, the data bit, eight bits, and
      the index of the segment. */
  datatype RecordFields = RecordFields(low: nat, data: nat, mid: nat, index: nat, offset: Word64, enc: Word64,
    dec: Word64)
  {
    predicate Valid() { low < 0x800 && data < 2 && mid < 0x100 && index < 0x1000_0000_0000 }

    function Flags(): nat { low + 0x800 * data + 0x1000 * mid + 0x10_0000 * index }

    function Bytes(): (s: seq<Byte>)
      ensures |s| == 32
    {
      ToBytes(Flags(), 8) + ToBytes(offset, 8) + ToBytes(enc, 8) + ToBytes(dec, 8)
    }
  }

  /** A container whose table has those records. */
  ghost predicate ContainerAt(file: seq<Byte>, rs: seq<RecordFields>) {
    && |rs| < 0x1_0000 && 0x20 + 32 * |rs| <= |file| && |file| > 0x20
    && file[..4] == [0x4F, 0x15, 0x3D, 0x1D] && file[0x18..0x1A] == ToBytes(|rs|, 2)
    && forall s | 0 <= s < |rs| :: RecordBytes(file, rs, s)
  }

  ghost predicate RecordBytes(file: seq<Byte>, rs: seq<RecordFields>, s: nat)
    requires s < |rs| && 0x20 + 32 * |rs| <= |file|
  {
    rs[s].Valid() && file[0x20 + 32 * s..0x20 + 32 * s + 32] == rs[s].Bytes()
  }

  /** Record s is of a data segment, stored as it is, and names segment idx, a 32-bit number. */
  predicate Names(rs: seq<RecordFields>, s: nat, idx: nat) {
    s < |rs| && rs[s].data == 1 && rs[s].enc == rs[s].dec && rs[s].index % 0x1_0000_0000 == idx
  }

  lemma ReadsWord(m: seq<Byte>, at: nat, v: Word64)
    requires SlotIn(m, at) && m[at..at + 8] == ToBytes(v, 8)
    ensures Read64(m, at) == v
  {
    EightBytes();
    FromToBytes(v, 8);
  }

  lemma FourWords(a: seq<Byte>, b: seq<Byte>, c: seq<Byte>, d: seq<Byte>)
    requires |a| == 8 && |b| == 8 && |c| == 8 && |d| == 8
    ensures var s := a + b + c + d;
            s[0..8] == a && s[8..16] == b && s[16..24] == c && s[24..32] == d
  {
  }

  lemma FlagsFit(r: RecordFields)
    requires r.Valid()
    ensures r.Flags() < TWO64
  {
  }

  lemma ReadsRecord(file: seq<Byte>, rs: seq<RecordFields>, s: nat)
    requires ContainerAt(file, rs) && s < |rs|
    ensures rs[s].Flags() < TWO64
    ensures RecordAt(file, s) == SelfRecord(rs[s].Flags(), rs[s].offset, rs[s].enc, rs[s].dec)
  {
    hide ToBytes, Read64, RecordFields.Flags;
    var r, at := rs[s], 0x20 + 32 * s;
    assert RecordBytes(file, rs, s);
    FlagsFit(r);
    FourWords(ToBytes(r.Flags(), 8), ToBytes(r.offset, 8), ToBytes(r.enc, 8), ToBytes(r.dec, 8));
    SliceOfSlice(file, at, at + 32, 0, 8);
    SliceOfSlice(file, at, at + 32, 8, 16);
    SliceOfSlice(file, at, at + 32, 16, 24);
    SliceOfSlice(file, at, at + 32, 24, 32);
    ReadsWord(file, at, r.Flags());
    ReadsWord(file, at + 8, r.offset);
    ReadsWord(file, at + 16, r.enc);
    ReadsWord(file, at + 24, r.dec);
  }

  lemma DataBit(r: RecordFields)
    requires r.Valid()
    ensures r.Flags() / 0x800 % 2 == r.data && r.Flags() / 0x10_0000 == r.index
  {
    var high := r.mid + 0x100 * r.index;
    assert r.Flags() == r.low + 0x800 * (r.data + 2 * high);
    assert r.Flags() / 0x800 == r.data + 2 * high;
  }

  lemma MagicBytes(file: seq<Byte>)
    requires |file| > 0x20
    ensures FromBytes(file[..4]) == 0x1D3D154F <==> file[..4] == [0x4F, 0x15, 0x3D, 0x1D]
  {
    var b := file[..4];
    ToFromBytes(b);
    var magic: seq<Byte> := [0x4F, 0x15, 0x3D, 0x1D];
    assert FromBytes(magic) == 0x1D3D154F by {
      assert magic[1..] == [0x15, 0x3D, 0x1D] && magic[1..][1..] == [0x3D, 0x1D] && magic[1..][1..][1..] == [0x1D];
      assert FromBytes(magic[1..][1..][1..]) == 0x1D;
      assert FromBytes(magic[1..][1..]) == 0x1D3D;
      assert FromBytes(magic[1..]) == 0x1D3D15;
    }
    ToFromBytes(magic);
  }

  lemma CountBytes(n: nat)
    requires n < 0x1_0000
    ensures FromBytes(ToBytes(n, 2)) == n
  {
    assert Power256(2) == 0x1_0000;
    FromToBytes(n, 2);
  }

  lemma ReadsContainer(file: seq<Byte>, rs: seq<RecordFields>, s: nat, idx: nat)
    requires ContainerAt(file, rs)
    ensures Locates(file, s, idx) <==> Names(rs, s, idx)
  {
    hide RecordAt, FromBytes, ToBytes, RecordFields.Flags, RecordBytes;
    MagicBytes(file);
    CountBytes(|rs|);
    if s < |rs| {
      ReadsRecord(file, rs, s);
      assert RecordBytes(file, rs, s);
      DataBit(rs[s]) by { IsValid(file, rs, s); }
    }
  }

  lemma IsValid(file: seq<Byte>, rs: seq<RecordFields>, s: nat)
    requires ContainerAt(file, rs) && s < |rs|
    ensures rs[s].Valid()
  {
    assert RecordBytes(file, rs, s);
  }

  /** From the container's bytes to the table: it has an entry for exactly the segments that some record names, and the
      last such record says where the segment is. */
  lemma TableFromBytes(file: seq<Byte>, rs: seq<RecordFields>, table: map<nat, Word64>, idx: nat)
    requires ContainerAt(file, rs) && IsSegmentTable(file, table)
    ensures idx in table <==> exists s: nat :: Names(rs, s, idx)
    ensures forall s: nat | Names(rs, s, idx) && forall later: nat | later > s :: !Names(rs, later, idx) ::
              idx in table && table[idx] == rs[s].offset
  {
    hide ContainerAt, Names, RecordAt, FromBytes;
    forall s: nat
      ensures Locates(file, s, idx) <==> Names(rs, s, idx)
    {
      ReadsContainer(file, rs, s, idx);
    }
    if idx in table {
      var t: nat :| LastLocates(file, t, idx) && table[idx] == RecordAt(file, t).offset;
      assert Names(rs, t, idx);
      NamedOffset(file, rs, t, idx);
    }
  }

  lemma NamedOffset(file: seq<Byte>, rs: seq<RecordFields>, s: nat, idx: nat)
    requires ContainerAt(file, rs) && Names(rs, s, idx)
    ensures 0x20 + 32 * s + 32 <= |file| && RecordAt(file, s).offset == rs[s].offset
  {
    ReadsRecord(file, rs, s);
  }

  /** A file that does not begin with the container's magic bytes has no table. */
  lemma NoContainerNoTable(file: seq<Byte>, table: map<nat, Word64>)
    requires IsSegmentTable(file, table) && (|file| <= 0x20 || file[..4] != [0x4F, 0x15, 0x3D, 0x1D])
    ensures table == map[]
  {
    hide FromBytes, RecordAt;
    if |file| > 0x20 {
      MagicBytes(file);
    }
    assert forall idx: nat, s: nat :: !LastLocates(file, s, idx);
  }

  // ---- Program headers ----

  /** A program header as the ELF format lays it out. */
  datatype HeaderFields = HeaderFields(ptype: nat, flags: nat, offset: Word64, vaddr: Word64, paddr: Word64,
    filesz: Word64, memsz: Word64, align: Word64)
  {
    predicate Valid() { ptype < 0x1_0000_0000 && flags < 0x1_0000_0000 }

    function Bytes(): (s: seq<Byte>)
      ensures |s| == 0x38
    {
      ToBytes(ptype, 4) + ToBytes(flags, 4) + ToBytes(offset, 8) + ToBytes(vaddr, 8) + ToBytes(paddr, 8) +
      ToBytes(filesz, 8) + ToBytes(memsz, 8) + ToBytes(align, 8)
    }
  }

  lemma HeaderWords(a: seq<Byte>, b: seq<Byte>, c: seq<Byte>, d: seq<Byte>, e: seq<Byte>, f: seq<Byte>, g: seq<Byte>,
                    h: seq<Byte>)
    requires |a| == 4 && |b| == 4 && |c| == 8 && |d| == 8 && |e| == 8 && |f| == 8 && |g| == 8 && |h| == 8
    ensures var s := a + b + c + d + e + f + g + h;
            s[0..4] == a && s[4..8] == b && s[8..16] == c && s[16..24] == d && s[32..40] == f && s[40..48] == g
  {
  }

  /** The program header that a file's bytes hold. */
  lemma ReadsHeader(file: seq<Byte>, at: nat, h: HeaderFields)
    requires h.Valid() && at + 0x38 <= |file| && file[at..at + 0x38] == h.Bytes()
    ensures HeaderAt(file, at) == Phdr(h.ptype, h.flags, h.offset, h.vaddr, h.filesz, h.memsz)
  {
    hide ToBytes, FromBytes, Read64;
    HeaderWords(ToBytes(h.ptype, 4), ToBytes(h.flags, 4), ToBytes(h.offset, 8), ToBytes(h.vaddr, 8),
                ToBytes(h.paddr, 8), ToBytes(h.filesz, 8), ToBytes(h.memsz, 8), ToBytes(h.align, 8));
    SliceOfSlice(file, at, at + 0x38, 0, 4);
    SliceOfSlice(file, at, at + 0x38, 4, 8);
    SliceOfSlice(file, at, at + 0x38, 8, 16);
    SliceOfSlice(file, at, at + 0x38, 16, 24);
    SliceOfSlice(file, at, at + 0x38, 32, 40);
    SliceOfSlice(file, at, at + 0x38, 40, 48);
    FourBytes();
    FromToBytes(h.ptype, 4);
    FromToBytes(h.flags, 4);
    ReadsWord(file, at + 8, h.offset);
    ReadsWord(file, at + 16, h.vaddr);
    ReadsWord(file, at + 32, h.filesz);
    ReadsWord(file, at + 40, h.memsz);
  }

  /** The search for addresses covers the headers of kind 1 with the write bit, the second lowest, and without the
      execute bit, the lowest. */
  lemma ScannedBits(h: Phdr, x: nat, w: nat, rest: nat)
    requires h.flags == x + 2 * w + 4 * rest && x < 2 && w < 2
    ensures BruteForce.Scanned(h) <==> h.ptype == 1 && x == 0 && w == 1
    ensures h.Executable() <==> x == 1
  {
    assert h.flags == x + 2 * (w + 2 * rest);
  }
}
