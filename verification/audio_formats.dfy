/** What a port's sample conversion reads and writes. */
module AudioFormats {

  const DEFAULT_GRAIN: nat := 256

  datatype Format = Format(channels: nat, isFloat: bool)

  /** The format of an SCE_AUDIO_OUT_PARAM_FORMAT number; unknown ones are 16-bit stereo. */
  function Describe(number: nat): Format {
    match number
    case 0 => Format(1, false)
    case 1 => Format(2, false)
    case 2 => Format(8, false)
    case 3 => Format(1, true)
    case 4 => Format(2, true)
    case 5 => Format(8, true)
    case 6 => Format(8, false)
    case 7 => Format(8, true)
    case _ => Format(2, false)
  }

  function OutChannels(f: Format): nat {
    if f.channels == 1 then 1 else 2
  }

  function Grain(len: nat): nat {
    if len == 0 || len > 8192 then DEFAULT_GRAIN else len
  }

  function SampleBytes(f: Format): (w: nat)
    ensures w > 0
  {
    if f.isFloat then 4 else 2
  }

  /** What core.cpp checks to be readable before it calls Output. */
  function PacketBytes(len: nat, f: Format): nat {
    len * f.channels * SampleBytes(f)
  }

  /** The arithmetic on sample values, which this model leaves open. */
  datatype Arithmetic = Arithmetic(scale: int -> int, left: seq<int> -> int, right: seq<int> -> int)

  /** The output sample at position i, from the samples of the packet. */
  function OutputSample(f: Format, ops: Arithmetic, src: seq<int>, i: nat): int
    requires f.channels == 8 ==> (i / 2 + 1) * 8 <= |src|
    requires f.channels != 8 ==> i < |src|
  {
    if f.channels == 8 then
      var frame := src[i / 2 * 8..i / 2 * 8 + 8];
      if i % 2 == 0 then ops.left(frame) else ops.right(frame)
    else ops.scale(src[i])
  }

  /** Convert fills the whole buffer that Open allocated, reading exactly the samples of one
      packet, whichever of its paths it takes. */
  method Convert(len: nat, number: nat, ops: Arithmetic, src: seq<int>, dst: array<int>)
    requires var f := Describe(number);
             |src| == len * f.channels && dst.Length == len * OutChannels(f)
    modifies dst
    ensures var f := Describe(number);
            forall i | 0 <= i < dst.Length ::
              (f.channels == 8 ==> (i / 2 + 1) * 8 <= |src|) && dst[i] == OutputSample(f, ops, src, i)
  {
    var f := Describe(number);
    if f.channels == OutChannels(f) {
      var i := 0;
      while i < dst.Length
        invariant 0 <= i <= dst.Length
        invariant forall j | 0 <= j < i :: dst[j] == ops.scale(src[j])
      {
        dst[i] := ops.scale(src[i]);
        i := i + 1;
      }
    } else {
      assert f.channels == 8 && dst.Length == len * 2;
      var i := 0;
      while i < len
        invariant 0 <= i <= len
        invariant forall j | 0 <= j < i * 2 :: (j / 2 + 1) * 8 <= |src| && dst[j] == OutputSample(f, ops, src, j)
      {
        var frame := src[i * 8..i * 8 + 8];
        dst[i * 2 + 0] := ops.left(frame);
        dst[i * 2 + 1] := ops.right(frame);
        i := i + 1;
      }
    }
  }

  /** The formats of the SDK: 0 and 3 are mono and 2, 5, 6 and 7 have eight channels, every other number is stereo; 3,
      4, 5 and 7 are floating point, every other number is 16 bits. */
  lemma FormatTable(number: nat)
    ensures var f := Describe(number);
            && (f.channels == 1 <==> number in {0, 3}) && (f.channels == 8 <==> number in {2, 5, 6, 7})
            && (f.channels != 1 && f.channels != 8 ==> f.channels == 2)
            && (f.isFloat <==> number in {3, 4, 5, 7})
            && SampleBytes(f) == (if number in {3, 4, 5, 7} then 4 else 2)
            && OutChannels(f) == (if number in {0, 3} then 1 else 2)
  {
  }

  /** A port's packets have from 1 to 8192 frames, and 256 when the guest asks for none or more. */
  lemma GrainRange(len: nat)
    ensures 1 <= Grain(len) <= 8192 && (Grain(len) != len <==> len == 0 || len > 8192)
    ensures Grain(len) != len ==> Grain(len) == 256
  {
  }

  // ---- Which bytes of the packet are read ----

  /** The samples of the packet that the output sample at position i is made from. */
  predicate UsesSample(f: Format, i: nat, k: nat) {
    if f.channels == 8 then i / 2 * 8 <= k < i / 2 * 8 + 8 else k == i
  }

  /** An output sample depends on no other samples. */
  lemma OutputUsesOnly(f: Format, ops: Arithmetic, src: seq<int>, other: seq<int>, i: nat)
    requires |src| == |other| && (f.channels == 8 ==> (i / 2 + 1) * 8 <= |src|) && (f.channels != 8 ==> i < |src|)
    requires forall k: nat | k < |src| && UsesSample(f, i, k) :: src[k] == other[k]
    ensures OutputSample(f, ops, src, i) == OutputSample(f, ops, other, i)
  {
    if f.channels == 8 {
      var at := i / 2 * 8;
      assert forall k | at <= k < at + 8 :: UsesSample(f, i, k);
      assert src[at..at + 8] == other[at..at + 8];
    } else {
      assert UsesSample(f, i, i);
    }
  }

  /** Byte b of the packet belongs to a sample that some output sample is made from. */
  ghost predicate IsRead(len: nat, f: Format, b: nat) {
    exists i: nat, k: nat | i < len * OutChannels(f) && UsesSample(f, i, k) ::
      k * SampleBytes(f) <= b < k * SampleBytes(f) + SampleBytes(f)
  }

  /** Sample k of a packet is used, and only the samples of a packet are. */
  lemma SamplesUsed(len: nat, f: Format, k: nat)
    requires f.channels in {1, 2, 8}
    ensures (exists i: nat :: i < len * OutChannels(f) && UsesSample(f, i, k)) <==> k < len * f.channels
  {
    if f.channels == 8 {
      if k < len * 8 {
        assert UsesSample(f, k / 8 * 2, k) && k / 8 * 2 < len * 2;
      }
      if i: nat :| i < len * OutChannels(f) && UsesSample(f, i, k) {
        assert i / 2 < len;
      }
    } else {
      assert UsesSample(f, k, k);
    }
  }

  lemma WholeSamples(total: nat, f: Format, b: nat)
    ensures var w := SampleBytes(f);
            b / w * w <= b < b / w * w + w && (b < total * w <==> b / w < total) &&
            forall k: nat :: k * w <= b < k * w + w ==> k == b / w
  {
  }

  lemma ReadIsPacket(len: nat, f: Format, b: nat)
    requires f.channels in {1, 2, 8}
    ensures IsRead(len, f, b) <==> b < len * f.channels * SampleBytes(f)
  {
    hide UsesSample, OutChannels, SampleBytes;
    var total, k := len * f.channels, b / SampleBytes(f);
    WholeSamples(total, f, b);
    SamplesUsed(len, f, k);
    if k < total {
      var i: nat :| i < len * OutChannels(f) && UsesSample(f, i, k);
    }
    if i: nat, j: nat :| i < len * OutChannels(f) && UsesSample(f, i, j) &&
                         j * SampleBytes(f) <= b < j * SampleBytes(f) + SampleBytes(f) {
      assert j == k;
    }
  }

  /** The readable bytes that are checked before Output are exactly the bytes that the conversion reads, in every
      format; they fit a 32-bit count. */
  lemma PacketIsWhatIsRead(len: nat, number: nat, b: nat)
    ensures var f := Describe(number);
            PacketBytes(Grain(len), f) <= 262144 && (IsRead(Grain(len), f, b) <==> b < PacketBytes(Grain(len), f))
  {
    hide IsRead;
    ReadIsPacket(Grain(len), Describe(number), b);
  }
}
