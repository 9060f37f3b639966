/**
 * Buffered voxel volumes: a flat buffer of unsigned voxel values of a fixed
 * bit width, laid out plane by plane and each plane row by row, together
 * with the conversions between the stored values and HU values or
 * intensities.
 */
module BufferedVolumes {
  import opened GridMath

  /** 2 to the power `n`: one more than the largest value of an `n`-bit voxel. */
  function Pow2(n: nat): (p: nat)
    ensures p >= 1
  {
    if n == 0 then 1 else 2 * Pow2(n - 1)
  }

  lemma {:induction false} Pow2Add(a: nat, b: nat)
    ensures Pow2(a + b) == Pow2(a) * Pow2(b)
    decreases a
  {
    if a > 0 {
      Pow2Add(a - 1, b);
    }
  }

  lemma Pow2Split(bits: nat)
    requires 12 <= bits
    ensures Pow2(bits) == 4096 * Pow2(bits - 12)
  {
    Pow2Add(12, bits - 12);
  }

  /** A voxel's index in the buffer: `x + width * y + height * width * z`. */
  function VoxelIndex(size: Vec3, c: Vec3): (i: nat)
    ensures i == RowMajor(size, c)
    ensures Below(c, size) ==> i < Cells(size)
  {
    c.x + size.x * c.y + size.y * size.x * c.z
  }

  // ---------------------------------------------------------------------------
  // HU encoding
  // ---------------------------------------------------------------------------

  /** The smallest and largest HU values the 12 significant bits encode. */
  const MinHUV: int := -1024
  const MaxHUV: int := 3071

  /**
   * HUVToBufferValue: `huv + 1024` cast to the voxel type, shifted left so
   * that it occupies the 12 most significant bits; the cast and the result
   * wrap around modulo the voxel type's range.
   */
  function HUVToBufferValue(bits: nat, huv: int): (v: nat)
    requires 12 <= bits
    ensures v < Pow2(bits)
    ensures v % Pow2(bits - 12) == 0
  {
    var cast := (huv + 1024) % Pow2(bits);
    ShiftedCast(bits, cast);
    (cast * Pow2(bits - 12)) % Pow2(bits)
  }

  lemma ShiftedCast(bits: nat, cast: nat)
    requires 12 <= bits
    ensures ((cast * Pow2(bits - 12)) % Pow2(bits)) % Pow2(bits - 12) == 0
  {
    var shift := Pow2(bits - 12);
    DivModUnique(cast * shift, shift, cast, 0);
    ShiftedLowBits(cast * shift, shift, bits);
  }

  /** A multiple of 2^(bits-12) stays one modulo 2^bits. */
  lemma ShiftedLowBits(a: nat, shift: nat, bits: nat)
    requires 12 <= bits && shift == Pow2(bits - 12) && a % shift == 0
    ensures (a % Pow2(bits)) % shift == 0
  {
    Pow2Split(bits);
    MultipleModMultiple(a, shift, Pow2(bits));
  }

  /** A multiple of `shift` stays one modulo 4096 * shift. */
  lemma MultipleModMultiple(a: nat, shift: nat, big: nat)
    requires shift > 0 && big == 4096 * shift && a % shift == 0
    ensures (a % big) % shift == 0
  {
    var k: nat := a / shift;
    var q: nat, r: nat := k / 4096, k % 4096;
    assert a == k * shift;
    Regroup2(q, r, shift);
    assert a == q * big + r * shift;
    MulMono(r, 4095, shift);
    DivModUnique(a, big, q, r * shift);
    DivModUnique(r * shift, shift, r, 0);
  }

  lemma Regroup2(q: nat, r: nat, shift: nat)
    ensures (q * 4096 + r) * shift == q * (4096 * shift) + r * shift
  {
  }

  /** bufferValueToHUV: the 12 most significant bits of the voxel value, minus 1024. */
  function BufferValueToHUV(bits: nat, v: nat): (huv: int)
    requires 12 <= bits
    ensures v < Pow2(bits) ==> MinHUV <= huv <= MaxHUV
  {
    var shift := Pow2(bits - 12);
    DivNonneg(v, shift);
    var top: nat := v / shift;
    if v < Pow2(bits) then TopBits(bits, v); top - 1024 else top - 1024
  }

  /** A `bits`-bit value shifted right by `bits - 12` fits in 12 bits. */
  lemma TopBits(bits: nat, v: nat)
    requires 12 <= bits && v < Pow2(bits)
    ensures v / Pow2(bits - 12) < 4096
  {
    Pow2Split(bits);
    var shift := Pow2(bits - 12);
    if v / shift >= 4096 {
      MulMono(4096, v / shift, shift);
      assert false;
    }
  }

  /** Decoding undoes encoding on every HU value the encoding can represent. */
  lemma DecodeEncode(bits: nat, huv: int)
    requires 12 <= bits && MinHUV <= huv <= MaxHUV
    ensures BufferValueToHUV(bits, HUVToBufferValue(bits, huv)) == huv
  {
    Pow2Split(bits);
    var shift := Pow2(bits - 12);
    var a: nat := huv + 1024;
    DivModUnique(a, Pow2(bits), 0, a);
    MulMono(a, 4095, shift);
    DivModUnique(a * shift, Pow2(bits), 0, a * shift);
    DivModUnique(a * shift, shift, a, 0);
  }

  /** Encoding undoes decoding on every buffer value whose low bits are clear. */
  lemma EncodeDecode(bits: nat, v: nat)
    requires 12 <= bits && v < Pow2(bits)
    ensures HUVToBufferValue(bits, BufferValueToHUV(bits, v)) == v <==> v % Pow2(bits - 12) == 0
  {
    Pow2Split(bits);
    var shift := Pow2(bits - 12);
    var huv := BufferValueToHUV(bits, v);
    DecodeEncode(bits, huv);
    if v % shift == 0 {
      var a: nat := huv + 1024;
      assert a == v / shift;
      assert v == a * shift;
      DivModUnique(a, Pow2(bits), 0, a);
      DivModUnique(v, Pow2(bits), 0, v);
    }
  }

  /** The encoding of 1024 HU in a 16-bit voxel is 2048 shifted by 4 bits. */
  lemma EncodeSixteenBit()
    ensures HUVToBufferValue(16, 1024) == 2048 * 16
    ensures BufferValueToHUV(16, 2048 * 16) == 1024
  {
    assert Pow2(4) == 16;
    assert Pow2(16) == 65536;
  }

  // ---------------------------------------------------------------------------
  // intensity encoding
  // ---------------------------------------------------------------------------

  /** The largest value of a `bits`-bit voxel, `(1 << bits) - 1`. */
  function ValueMax(bits: nat): (m: nat)
    requires 0 < bits
    ensures m >= 1 && m == Pow2(bits) - 1
  {
    assert Pow2(bits) == 2 * Pow2(bits - 1);
    Pow2(bits) - 1
  }

  /**
   * intensityToBufferValue: the intensity scaled to the voxel range and
   * rounded half up, clamped to the largest voxel value.
   */
  function IntensityToBufferValue(bits: nat, intensity: real): (v: nat)
    requires 0 < bits && 0.0 <= intensity <= 1.0
    ensures v <= ValueMax(bits)
  {
    var valueMax := ValueMax(bits);
    var value := intensity * valueMax as real + 0.5;
    var clamped := if value > valueMax as real then valueMax as real else value;
    clamped.Floor
  }

  /** bufferValueToIntensity: the voxel value as a fraction of the largest voxel value. */
  function BufferValueToIntensity(bits: nat, v: nat): (intensity: real)
    requires 0 < bits
    ensures v <= ValueMax(bits) ==> 0.0 <= intensity <= 1.0
  {
    v as real / ValueMax(bits) as real
  }

  /** Every voxel value survives the trip through its intensity. */
  lemma EncodeDecodeIntensity(bits: nat, v: nat)
    requires 0 < bits && v <= ValueMax(bits)
    ensures IntensityToBufferValue(bits, BufferValueToIntensity(bits, v)) == v
  {
    var m := ValueMax(bits) as real;
    assert BufferValueToIntensity(bits, v) * m == v as real;
  }

  /** Decoding an encoded intensity is off by at most half a quantisation step. */
  lemma DecodeEncodeIntensity(bits: nat, intensity: real)
    requires 0 < bits && 0.0 <= intensity <= 1.0
    ensures -0.5 <= (BufferValueToIntensity(bits, IntensityToBufferValue(bits, intensity)) - intensity) * ValueMax(bits) as real <= 0.5
  {
    var mi := ValueMax(bits);
    var v := IntensityToBufferValue(bits, intensity);
    IntensityRoundTrip(intensity, mi, v, BufferValueToIntensity(bits, v));
  }

  /** The round trip of one intensity through a voxel value with largest value `mi`. */
  lemma IntensityRoundTrip(intensity: real, mi: nat, v: nat, back: real)
    requires 0.0 <= intensity <= 1.0 && 1 <= mi
    requires v == (if intensity * mi as real + 0.5 > mi as real then mi as real else intensity * mi as real + 0.5).Floor
    requires back == v as real / mi as real
    ensures -0.5 <= (back - intensity) * mi as real <= 0.5
  {
    var m := mi as real;
    var im := intensity * m;
    FractionBelow(intensity, m);
    RoundingError(im, mi, v);
    QuotientTimes(v as real, m);
    Distribute(back, intensity, m);
  }

  /** Rounding half up and clamping to `m` moves a value of [0, m] by at most one half. */
  lemma RoundingError(im: real, mi: nat, v: nat)
    requires 0.0 <= im <= mi as real
    requires v == (if im + 0.5 > mi as real then mi as real else im + 0.5).Floor
    ensures -0.5 <= v as real - im <= 0.5
  {
  }

  lemma QuotientTimes(a: real, m: real)
    requires m > 0.0
    ensures a / m * m == a
  {
  }

  lemma Distribute(a: real, b: real, m: real)
    ensures (a - b) * m == a * m - b * m
  {
  }

  lemma FractionBelow(a: real, m: real)
    requires 0.0 <= a <= 1.0 && 0.0 <= m
    ensures 0.0 <= a * m <= m
  {
    MulNonneg(a, m);
    MulNonneg(1.0 - a, m);
    assert m - a * m == (1.0 - a) * m;
  }

  lemma MulNonneg(a: real, b: real)
    requires 0.0 <= a && 0.0 <= b
    ensures 0.0 <= a * b
  {
  }

  lemma DivNonneg(a: nat, d: nat)
    requires d > 0
    ensures 0 <= a / d
  {
  }

  // ---------------------------------------------------------------------------
  // the volumes
  // ---------------------------------------------------------------------------

  /**
   * BufferedHUVolume (and the older GenericVolume): a volume of the given
   * size over a buffer of `bits`-bit voxels holding encoded HU values.
   */
  class BufferedHUVolume {
    const size: Vec3
    const bits: nat
    const buffer: array<nat>

    /** The buffer holds every voxel of the size, and every entry fits the voxel type. */
    ghost predicate Valid()
      reads this, buffer
    {
      12 <= bits && buffer.Length >= Cells(size)
      && forall i :: 0 <= i < buffer.Length ==> buffer[i] < Pow2(bits)
    }

    /** The constructor that allocates a zero buffer of exactly `width * height * depth` voxels. */
    constructor(size: Vec3, bits: nat)
      requires 12 <= bits
      ensures Valid() && fresh(buffer)
      ensures this.size == size && this.bits == bits
      ensures buffer.Length == Cells(size) && forall i :: 0 <= i < buffer.Length ==> buffer[i] == 0
    {
      this.size := size;
      this.bits := bits;
      buffer := new nat[Cells(size)](_ => 0);
    }

    /** The constructor over a supplied buffer, which must hold at least `width * height * depth` voxels. */
    constructor FromBuffer(size: Vec3, bits: nat, buffer: array<nat>)
      requires 12 <= bits && buffer.Length >= Cells(size)
      requires forall i :: 0 <= i < buffer.Length ==> buffer[i] < Pow2(bits)
      ensures Valid() && this.size == size && this.bits == bits && this.buffer == buffer
    {
      this.size := size;
      this.bits := bits;
      this.buffer := buffer;
    }

    /** operator(): the HU value of a voxel whose index lies in the buffer. */
    function HUV(c: Vec3): (huv: int)
      reads this, buffer
      requires Valid() && VoxelIndex(size, c) < buffer.Length
      ensures MinHUV <= huv <= MaxHUV
    {
      BufferValueToHUV(bits, buffer[VoxelIndex(size, c)])
    }

    /**
     * setVoxel: stores the encoded value at the voxel's index. A voxel of
     * the size then reads the value back (for a representable value), and
     * every other voxel of the size reads as before.
     */
    method SetVoxel(c: Vec3, huv: int)
      requires Valid() && Below(c, size)
      modifies buffer
      ensures Valid()
      ensures buffer[..] == old(buffer[..])[VoxelIndex(size, c) := HUVToBufferValue(bits, huv)]
      ensures MinHUV <= huv <= MaxHUV ==> HUV(c) == huv
      ensures forall g :: Below(g, size) && g != c ==> HUV(g) == old(HUV(g))
    {
      var index := VoxelIndex(size, c);
      buffer[index] := HUVToBufferValue(bits, huv);
      if MinHUV <= huv <= MaxHUV {
        DecodeEncode(bits, huv);
      }
      forall g | Below(g, size) && g != c
        ensures VoxelIndex(size, g) != index
      {
        if VoxelIndex(size, g) == index {
          RowMajorInjective(size, g, c);
        }
      }
    }

    /** GenericVolume::setVoxel: the same store without the bounds assertion; the index must lie in the buffer. */
    method SetVoxelAtIndex(c: Vec3, huv: int)
      requires Valid() && VoxelIndex(size, c) < buffer.Length
      modifies buffer
      ensures Valid()
      ensures buffer[..] == old(buffer[..])[VoxelIndex(size, c) := HUVToBufferValue(bits, huv)]
      ensures MinHUV <= huv <= MaxHUV ==> HUV(c) == huv
    {
      buffer[VoxelIndex(size, c)] := HUVToBufferValue(bits, huv);
      if MinHUV <= huv <= MaxHUV {
        DecodeEncode(bits, huv);
      }
    }
  }

  /** BufferedIntensityVolume: a volume over a buffer of `bits`-bit voxels holding quantised intensities. */
  class BufferedIntensityVolume {
    const size: Vec3
    const bits: nat
    const buffer: array<nat>

    ghost predicate Valid()
      reads this, buffer
    {
      0 < bits && buffer.Length >= Cells(size)
      && forall i :: 0 <= i < buffer.Length ==> buffer[i] <= ValueMax(bits)
    }

    constructor(size: Vec3, bits: nat)
      requires 0 < bits
      ensures Valid() && fresh(buffer)
      ensures this.size == size && this.bits == bits
      ensures buffer.Length == Cells(size) && forall i :: 0 <= i < buffer.Length ==> buffer[i] == 0
    {
      this.size := size;
      this.bits := bits;
      buffer := new nat[Cells(size)](_ => 0);
    }

    /** operator(): the intensity of a voxel whose index lies in the buffer. */
    function Intensity(c: Vec3): (intensity: real)
      reads this, buffer
      requires Valid() && VoxelIndex(size, c) < buffer.Length
      ensures 0.0 <= intensity <= 1.0
    {
      BufferValueToIntensity(bits, buffer[VoxelIndex(size, c)])
    }

    /**
     * setVoxel: stores the quantised intensity at the voxel's index. The
     * voxel then reads the decoded quantisation of the intensity (within half
     * a quantisation step of it, by DecodeEncodeIntensity), and every other
     * voxel of the size reads as before.
     */
    method SetVoxel(c: Vec3, intensity: real)
      requires Valid() && Below(c, size) && 0.0 <= intensity <= 1.0
      modifies buffer
      ensures Valid()
      ensures buffer[..] == old(buffer[..])[VoxelIndex(size, c) := IntensityToBufferValue(bits, intensity)]
      ensures Intensity(c) == BufferValueToIntensity(bits, IntensityToBufferValue(bits, intensity))
      ensures forall g :: Below(g, size) && g != c ==> Intensity(g) == old(Intensity(g))
    {
      var index := VoxelIndex(size, c);
      buffer[index] := IntensityToBufferValue(bits, intensity);
      forall g | Below(g, size) && g != c
        ensures VoxelIndex(size, g) != index
      {
        if VoxelIndex(size, g) == index {
          RowMajorInjective(size, g, c);
        }
      }
    }
  }
}
