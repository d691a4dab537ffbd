/** Sample normalisation of decoded audio (`copy_buffer_to_planar` in
    src-tauri/src/handlers/audio.rs): a decoded buffer of any supported sample
    format is appended, channel by channel, to a planar buffer of float
    samples in [-1, 1]. Samples are reals: f32 rounding is not modelled. */
module AudioSamples {

  /** The integer sample formats that are converted. */
  datatype PcmFormat = U8 | S16 | S24 | S32

  /** The sample formats the conversion leaves out. */
  datatype OtherFormat = U16 | U24 | U32 | S8 | F64Samples

  /** A decoded buffer: one plane of samples per channel. */
  datatype AudioBuffer =
    | FloatBuffer(floatPlanes: seq<seq<real>>)
    | PcmBuffer(format: PcmFormat, pcmPlanes: seq<seq<int>>)
    | UnsupportedBuffer(other: OtherFormat)

  /** One sequence of float samples per channel. */
  type Planar = seq<seq<real>>

  /** The integer that maps to 0.0: unsigned 8-bit audio is centred at 128. */
  function Offset(f: PcmFormat): int {
    if f == U8 then 128 else 0
  }

  /** Full scale: 2^7, 2^15, 2^23 and 2^31. */
  function Scale(f: PcmFormat): real {
    match f
    case U8 => 128.0
    case S16 => 32768.0
    case S24 => 8388608.0
    case S32 => 2147483648.0
  }

  /** The values a sample of the format can take. */
  predicate InRange(f: PcmFormat, s: int) {
    match f
    case U8 => 0 <= s < 256
    case S16 => -0x8000 <= s < 0x8000
    case S24 => -0x80_0000 <= s < 0x80_0000
    case S32 => -0x8000_0000 <= s < 0x8000_0000
  }

  /** The float an integer sample becomes. */
  function Normalize(f: PcmFormat, s: int): real {
    (s - Offset(f)) as real / Scale(f)
  }

  /** Every in-range sample lands in [-1, 1); an unsigned 8-bit sample lands
      in [-1, 127/128]. */
  lemma NormalizeRange(f: PcmFormat, s: int)
    requires InRange(f, s)
    ensures -1.0 <= Normalize(f, s) < 1.0
    ensures f == U8 ==> Normalize(f, s) <= 127.0 / 128.0
  {
  }

  /** How many steps of 2^-24 one sample unit is worth: 2^24 over the
      format's full scale. */
  function Steps(f: PcmFormat): nat {
    match f
    case U8 => 131072
    case S16 => 512
    case S24 => 2
    case S32 => 1
  }

  /** For the 8-, 16- and 24-bit formats the float of an in-range sample is a
      whole number of steps of 2^-24 in [-1, 1): it needs at most 24
      significant bits, which an f32 holds exactly, so the conversion loses
      nothing and the sample is recovered from its float. */
  lemma NormalizeInvertible(f: PcmFormat, s: int)
    requires f != S32 && InRange(f, s)
    ensures Normalize(f, s) * Scale(f) + Offset(f) as real == s as real
    ensures Normalize(f, s) * 16777216.0 == ((s - Offset(f)) * Steps(f)) as real
    ensures -16777216 <= (s - Offset(f)) * Steps(f) < 16777216
  {
  }

  predicate Supported(b: AudioBuffer) {
    b.FloatBuffer? || b.PcmBuffer?
  }

  function PlaneCount(b: AudioBuffer): nat {
    match b
    case FloatBuffer(planes) => |planes|
    case PcmBuffer(_, planes) => |planes|
    case UnsupportedBuffer(_) => 0
  }

  function PlaneLength(b: AudioBuffer, ch: nat): nat
    requires ch < PlaneCount(b)
  {
    match b
    case FloatBuffer(planes) => |planes[ch]|
    case PcmBuffer(_, planes) => |planes[ch]|
  }

  /** Sample `i` of channel `ch` as a float. */
  function PlaneSample(b: AudioBuffer, ch: nat, i: nat): real
    requires ch < PlaneCount(b) && i < PlaneLength(b, ch)
  {
    match b
    case FloatBuffer(planes) => planes[ch][i]
    case PcmBuffer(f, planes) => Normalize(f, planes[ch][i])
  }

  /** A buffer as the decoder delivers it: every plane holds the same number
      of frames, and every integer sample is within its format's range. */
  predicate WellFormed(b: AudioBuffer) {
    && (forall ch :: 0 <= ch < PlaneCount(b) ==> PlaneLength(b, ch) == PlaneLength(b, 0))
    && (b.PcmBuffer? ==> forall ch, i :: 0 <= ch < |b.pcmPlanes| && 0 <= i < |b.pcmPlanes[ch]| ==>
          InRange(b.format, b.pcmPlanes[ch][i]))
  }

  /** The number of frames of a well-formed buffer. */
  function FrameCount(b: AudioBuffer): nat {
    if PlaneCount(b) == 0 then 0 else PlaneLength(b, 0)
  }

  /** `buf.chan(ch)` exists for every channel of a planar buffer with
      `channels` channels; the conversion indexes the buffer's planes by the
      planar buffer's channels. */
  predicate Covers(b: AudioBuffer, channels: nat) {
    Supported(b) ==> channels <= PlaneCount(b)
  }

  /** The planar buffer after the conversion, as a value. */
  function AppendBuffer(planar: Planar, b: AudioBuffer): (r: Planar)
    requires Covers(b, |planar|)
    ensures |r| == |planar|
  {
    if !Supported(b) then planar
    else
      seq(|planar|, ch requires 0 <= ch < |planar| =>
        planar[ch] + seq(PlaneLength(b, ch), i requires 0 <= i < PlaneLength(b, ch) => PlaneSample(b, ch, i)))
  }

  /** A planar buffer that extends every channel by exactly that channel's
      converted samples is the appended buffer. */
  lemma AppendBufferCharacterised(planar: Planar, b: AudioBuffer, out: Planar)
    requires Covers(b, |planar|) && Supported(b)
    requires |out| == |planar|
    requires forall ch :: 0 <= ch < |planar| ==>
      && |out[ch]| == |planar[ch]| + PlaneLength(b, ch)
      && out[ch][..|planar[ch]|] == planar[ch]
      && forall i :: 0 <= i < PlaneLength(b, ch) ==> out[ch][|planar[ch]| + i] == PlaneSample(b, ch, i)
    ensures out == AppendBuffer(planar, b)
  {
    var app := AppendBuffer(planar, b);
    forall ch | 0 <= ch < |planar|
      ensures out[ch] == app[ch]
    {
      forall i | 0 <= i < |out[ch]|
        ensures out[ch][i] == app[ch][i]
      {
        if i < |planar[ch]| {
          assert out[ch][i] == out[ch][..|planar[ch]|][i];
        }
      }
    }
  }

  /** A well-formed buffer adds the same number of samples to every channel:
      channels that had equal lengths keep equal lengths. */
  lemma AppendKeepsChannelsAligned(planar: Planar, b: AudioBuffer, len: nat)
    requires Covers(b, |planar|) && WellFormed(b)
    requires forall ch :: 0 <= ch < |planar| ==> |planar[ch]| == len
    ensures forall ch :: 0 <= ch < |planar| ==>
      |AppendBuffer(planar, b)[ch]| == len + (if Supported(b) then FrameCount(b) else 0)
  {
  }

  /** `copy_buffer_to_planar`: for every channel of the planar buffer, the
      buffer's samples of that channel are appended, converted to float; a
      buffer of an unsupported format changes nothing. */
  method CopyBufferToPlanar(b: AudioBuffer, planar: Planar) returns (out: Planar)
    requires Covers(b, |planar|)
    ensures |out| == |planar|
    ensures !Supported(b) ==> out == planar
    ensures Supported(b) ==> forall ch :: 0 <= ch < |planar| ==>
      && |out[ch]| == |planar[ch]| + PlaneLength(b, ch)
      && out[ch][..|planar[ch]|] == planar[ch]
      && forall i :: 0 <= i < PlaneLength(b, ch) ==> out[ch][|planar[ch]| + i] == PlaneSample(b, ch, i)
    ensures out == AppendBuffer(planar, b)
  {
    match b
    case UnsupportedBuffer(_) =>
      out := planar;
    case FloatBuffer(planes) =>
      out := [];
      var ch := 0;
      while ch < |planar|
        invariant 0 <= ch <= |planar|
        invariant |out| == ch
        invariant forall c :: 0 <= c < ch ==> out[c] == planar[c] + planes[c]
      {
        out := out + [planar[ch] + planes[ch]];
        ch := ch + 1;
      }
      assert forall c :: 0 <= c < |planar| ==> out[c][..|planar[c]|] == planar[c];
      AppendBufferCharacterised(planar, b, out);
    case PcmBuffer(f, planes) =>
      out := [];
      var ch := 0;
      while ch < |planar|
        invariant 0 <= ch <= |planar|
        invariant |out| == ch
        invariant forall c :: 0 <= c < ch ==>
          && |out[c]| == |planar[c]| + |planes[c]|
          && out[c][..|planar[c]|] == planar[c]
          && forall i :: 0 <= i < |planes[c]| ==> out[c][|planar[c]| + i] == Normalize(f, planes[c][i])
      {
        var samples := planar[ch];
        var i := 0;
        while i < |planes[ch]|
          invariant 0 <= i <= |planes[ch]|
          invariant |samples| == |planar[ch]| + i
          invariant samples[..|planar[ch]|] == planar[ch]
          invariant forall j :: 0 <= j < i ==> samples[|planar[ch]| + j] == Normalize(f, planes[ch][j])
        {
          samples := samples + [Normalize(f, planes[ch][i])];
          i := i + 1;
        }
        out := out + [samples];
        ch := ch + 1;
      }
      AppendBufferCharacterised(planar, b, out);
  }
}
