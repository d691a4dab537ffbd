/** The control flow of `convert_audio_to_ogg`
    (src-tauri/src/handlers/audio.rs): probe, track selection, decoder
    creation, the stream parameters, the packet loop and the Vorbis encoder.
    The probe, the decoder and the encoder are library code; the probe is a
    function from the input bytes to the stream it finds, the stream's packets
    and decode results are a finite sequence of events, and the encoder is a
    function from the stream parameters and samples to bytes. */
module AudioTranscode {
  import opened Wrappers
  import opened Errors
  import opened AudioSamples

  /** What `decoder.decode(&packet)` returned. */
  datatype DecodeOutcome =
    | DecodeOk(buffer: AudioBuffer)
    | DecodeIoErr
    | DecodeCorrupt
    | DecodeOther(decodeMessage: string)

  /** One step of the packet loop: a packet of some track with the result of
      decoding it (for packets of the selected track), or an error from
      `format.next_packet()`. */
  datatype Event =
    | Packet(trackId: nat, outcome: DecodeOutcome)
    | NextIoErr
    | NextReset
    | NextOther(nextMessage: string)

  /** A track of the probed container. `decoderError` is what making a decoder
      for its codec parameters reports, if it fails. */
  datatype Track = Track(
    id: nat,
    nullCodec: bool,
    decoderError: Option<string>,
    sampleRate: Option<nat>,
    channels: Option<nat>)

  /** The probed container: its tracks and the events its packet loop meets.
      The end of the sequence stands for the end of the stream. */
  datatype Probed = Probed(tracks: seq<Track>, events: seq<Event>)

  /** The four steps of the Vorbis encoder, each with its own message. */
  datatype VorbisStage = Builder | Init | EncodeBlock | Finish

  datatype VorbisFailure = VorbisFailure(stage: VorbisStage, message: string)

  function StagePrefix(s: VorbisStage): string {
    match s
    case Builder => "Vorbis builder failed: "
    case Init => "Vorbis init failed: "
    case EncodeBlock => "Vorbis encode failed: "
    case Finish => "Vorbis finish failed: "
  }

  const NoTrackMessage := "No supported audio track found"
  const UnknownRateMessage := "Unknown sample rate"
  const UnknownChannelsMessage := "Unknown channel count"

  /** The index of the first track whose codec is not the null codec. */
  function SelectTrack(tracks: seq<Track>): (r: Option<nat>)
    ensures r.None? <==> forall j :: 0 <= j < |tracks| ==> tracks[j].nullCodec
    ensures r.Some? ==> r.value < |tracks| && !tracks[r.value].nullCodec
    ensures r.Some? ==> forall j :: 0 <= j < r.value ==> tracks[j].nullCodec
  {
    if |tracks| == 0 then None
    else if !tracks[0].nullCodec then Some(0)
    else
      match SelectTrack(tracks[1..])
      case None => None
      case Some(k) => Some(k + 1)
  }

  /** An event that ends the loop normally: an I/O error from `next_packet`,
      or from decoding a packet of the selected track. */
  predicate Ends(e: Event, track: nat) {
    e.NextIoErr? || (e.Packet? && e.trackId == track && e.outcome.DecodeIoErr?)
  }

  /** An event that aborts the conversion. */
  predicate Fatal(e: Event, track: nat) {
    e.NextOther? || (e.Packet? && e.trackId == track && e.outcome.DecodeOther?)
  }

  /** The error a fatal event produces. */
  function FatalError(e: Event, track: nat): Error
    requires Fatal(e, track)
  {
    if e.NextOther? then AudioProcessingError("Packet decode error: " + e.nextMessage)
    else AudioProcessingError("Decode failed: " + e.outcome.decodeMessage)
  }

  /** Every buffer of the selected track the loop decodes before an event
      ends or aborts it fits a planar buffer with `channels` channels; the
      events after that one are never read. */
  predicate EventsCover(events: seq<Event>, track: nat, channels: nat)
    decreases |events|
  {
    || |events| == 0
    || Ends(events[0], track)
    || Fatal(events[0], track)
    || (&& (events[0].Packet? && events[0].trackId == track && events[0].outcome.DecodeOk? ==>
              Covers(events[0].outcome.buffer, channels))
        && EventsCover(events[1..], track, channels))
  }

  /** The packet loop as a fold over the events: what the loop returns when it
      starts from `planar`. */
  function Run(planar: Planar, events: seq<Event>, track: nat): (r: Result<Planar, Error>)
    requires EventsCover(events, track, |planar|)
    ensures r.Failure? ==> r.error.AudioProcessingError?
    decreases |events|
  {
    if |events| == 0 then Success(planar)
    else
      var rest := events[1..];
      match events[0]
      case NextIoErr => Success(planar)
      case NextReset => Run(planar, rest, track)
      case NextOther(m) => Failure(AudioProcessingError("Packet decode error: " + m))
      case Packet(id, outcome) =>
        if id != track then Run(planar, rest, track)
        else
          match outcome
          case DecodeOk(buf) => Run(AppendBuffer(planar, buf), rest, track)
          case DecodeIoErr => Success(planar)
          case DecodeCorrupt => Run(planar, rest, track)
          case DecodeOther(m) => Failure(AudioProcessingError("Decode failed: " + m))
  }

  /** Event `k` is fatal and no earlier event ends the loop. */
  predicate FatalBeforeEnd(events: seq<Event>, track: nat, k: int) {
    0 <= k < |events| && Fatal(events[k], track) && forall j :: 0 <= j < k ==> !Ends(events[j], track)
  }

  /** Event `k` is the first event that ends or aborts the loop, and it is
      fatal. */
  predicate FirstFatal(events: seq<Event>, track: nat, k: int) {
    && FatalBeforeEnd(events, track, k)
    && forall j :: 0 <= j < k ==> !Fatal(events[j], track)
  }

  /** Dropping a first event that neither ends nor aborts the loop shifts
      both conditions by one. */
  lemma FatalShift(events: seq<Event>, track: nat)
    requires |events| > 0 && !Ends(events[0], track) && !Fatal(events[0], track)
    ensures forall k :: 0 < k < |events| ==>
      (FatalBeforeEnd(events, track, k) <==> FatalBeforeEnd(events[1..], track, k - 1))
      && (FirstFatal(events, track, k) <==> FirstFatal(events[1..], track, k - 1))
    ensures !FatalBeforeEnd(events, track, 0)
  {
  }

  /** The loop fails exactly when a fatal event comes before any event that
      ends it, and then with the first fatal event's error. */
  lemma {:induction false} RunFailsIff(planar: Planar, events: seq<Event>, track: nat)
    requires EventsCover(events, track, |planar|)
    ensures Run(planar, events, track).Failure? <==> exists k :: FatalBeforeEnd(events, track, k)
    ensures Run(planar, events, track).Failure? ==>
      exists k :: FirstFatal(events, track, k) && Run(planar, events, track).error == FatalError(events[k], track)
    decreases |events|
  {
    if |events| > 0 {
      var e := events[0];
      var rest := events[1..];
      if Ends(e, track) {
      } else if Fatal(e, track) {
        assert FirstFatal(events, track, 0);
      } else {
        var next := if e.Packet? && e.trackId == track && e.outcome.DecodeOk?
          then AppendBuffer(planar, e.outcome.buffer) else planar;
        assert Run(planar, events, track) == Run(next, rest, track);
        RunFailsIff(next, rest, track);
        FatalShift(events, track);
        if Run(next, rest, track).Failure? {
          var k :| FirstFatal(rest, track, k) && Run(next, rest, track).error == FatalError(rest[k], track);
          assert FirstFatal(events, track, k + 1) && events[k + 1] == rest[k];
        }
        if exists k :: FatalBeforeEnd(events, track, k) {
          var k :| FatalBeforeEnd(events, track, k);
          assert FatalBeforeEnd(rest, track, k - 1);
        }
      }
    }
  }

  /** The number of frames the loop adds to every channel: the frames of each
      supported buffer the selected track decodes before the loop stops. */
  function KeptFrames(events: seq<Event>, track: nat): nat
    decreases |events|
  {
    if |events| == 0 || Ends(events[0], track) || Fatal(events[0], track) then 0
    else
      var e := events[0];
      var added := if e.Packet? && e.trackId == track && e.outcome.DecodeOk? && Supported(e.outcome.buffer)
        then FrameCount(e.outcome.buffer) else 0;
      added + KeptFrames(events[1..], track)
  }

  /** The planar buffer keeps its channel count from creation to encoding, and
      every channel grows by the same number of samples. */
  lemma {:induction false} RunKeepsChannels(planar: Planar, events: seq<Event>, track: nat, len: nat)
    requires EventsCover(events, track, |planar|)
    requires forall k :: 0 <= k < |events| ==>
      (events[k].Packet? && events[k].outcome.DecodeOk? ==> WellFormed(events[k].outcome.buffer))
    requires forall ch :: 0 <= ch < |planar| ==> |planar[ch]| == len
    ensures Run(planar, events, track).Success? ==>
      && |Run(planar, events, track).value| == |planar|
      && forall ch :: 0 <= ch < |planar| ==>
           |Run(planar, events, track).value[ch]| == len + KeptFrames(events, track)
    decreases |events|
  {
    if |events| > 0 {
      var rest := events[1..];
      assert forall k :: 0 <= k < |rest| ==> rest[k] == events[k + 1];
      match events[0]
      case NextIoErr =>
      case NextReset => RunKeepsChannels(planar, rest, track, len);
      case NextOther(_) =>
      case Packet(id, outcome) =>
        if id != track {
          RunKeepsChannels(planar, rest, track, len);
        } else if outcome.DecodeOk? {
          var buf := outcome.buffer;
          var next := AppendBuffer(planar, buf);
          AppendKeepsChannelsAligned(planar, buf, len);
          var len' := len + (if Supported(buf) then FrameCount(buf) else 0);
          assert EventsCover(rest, track, |next|);
          RunKeepsChannels(next, rest, track, len');
        } else if outcome.DecodeCorrupt? {
          RunKeepsChannels(planar, rest, track, len);
        }
    }
  }

  /** Events the loop does not act on: packets of other tracks, corrupt
      packets of the selected track, and reset requests. */
  predicate Skipped(e: Event, track: nat) {
    e.NextReset? || (e.Packet? && (e.trackId != track || e.outcome.DecodeCorrupt?))
  }

  /** The events the loop acts on, in order. */
  function Relevant(events: seq<Event>, track: nat): (r: seq<Event>)
    ensures forall k :: 0 <= k < |r| ==> r[k] in events && !Skipped(r[k], track)
  {
    if |events| == 0 then []
    else if Skipped(events[0], track) then Relevant(events[1..], track)
    else [events[0]] + Relevant(events[1..], track)
  }

  /** Skipped events do not change the outcome of the loop. */
  lemma {:induction false} RunIgnoresSkipped(planar: Planar, events: seq<Event>, track: nat)
    requires EventsCover(events, track, |planar|)
    ensures EventsCover(Relevant(events, track), track, |planar|)
    ensures Run(planar, events, track) == Run(planar, Relevant(events, track), track)
    decreases |events|
  {
    if |events| > 0 {
      var rest := events[1..];
      var e := events[0];
      if Skipped(e, track) {
        RunIgnoresSkipped(planar, rest, track);
      } else {
        var rel := [e] + Relevant(rest, track);
        assert rel[1..] == Relevant(rest, track);
        if Ends(e, track) || Fatal(e, track) {
          assert rel[0] == e;
        } else if e.Packet? && e.trackId == track && e.outcome.DecodeOk? {
          var next := AppendBuffer(planar, e.outcome.buffer);
          assert EventsCover(rest, track, |next|);
          RunIgnoresSkipped(next, rest, track);
          assert EventsCover(rel, track, |planar|);
        }
      }
    }
  }

  /** A planar buffer of `channels` empty channels. */
  function EmptyPlanar(channels: nat): (r: Planar)
    ensures |r| == channels
    ensures forall ch :: 0 <= ch < channels ==> r[ch] == []
  {
    seq(channels, _ => [])
  }

  /** The packet loop: reads events until one ends it or aborts it, converting
      every decoded buffer of the selected track into the planar buffer. */
  method DecodeLoop(events: seq<Event>, track: nat, channels: nat) returns (r: Result<Planar, Error>)
    requires EventsCover(events, track, channels)
    ensures r == Run(EmptyPlanar(channels), events, track)
  {
    var planar := EmptyPlanar(channels);
    var k := 0;
    while k < |events|
      invariant 0 <= k <= |events|
      invariant |planar| == channels
      invariant EventsCover(events[k..], track, channels)
      invariant Run(planar, events[k..], track) == Run(EmptyPlanar(channels), events, track)
    {
      var rest := events[k..];
      assert rest[0] == events[k] && rest[1..] == events[k + 1..];
      match events[k]
      case NextIoErr =>
        return Success(planar);
      case NextReset =>
        k := k + 1;
      case NextOther(m) =>
        return Failure(AudioProcessingError("Packet decode error: " + m));
      case Packet(id, outcome) =>
        if id != track {
          k := k + 1;
        } else {
          match outcome
          case DecodeOk(buf) =>
            assert Covers(buf, channels);
            planar := CopyBufferToPlanar(buf, planar);
            k := k + 1;
          case DecodeIoErr =>
            return Success(planar);
          case DecodeCorrupt =>
            k := k + 1;
          case DecodeOther(m) =>
            return Failure(AudioProcessingError("Decode failed: " + m));
        }
    }
    return Success(planar);
  }

  /** The channel count the encoder is given: `channel_count as u8`. */
  function ChannelsU8(channels: nat): nat {
    channels % 256
  }

  /** The conditions under which the source would not panic. Every decoded
      buffer the loop converts must have a plane for each channel
      (`buf.chan(ch)`); and once the loop has succeeded, the encoder takes
      the sample rate as a non-zero u32 and the channel count, truncated to
      a u8, as a non-zero u8. Probes that fail earlier are answered with an
      error and need nothing. */
  predicate NoPanic(probed: Probed) {
    match SelectTrack(probed.tracks)
    case None => true
    case Some(i) =>
      var t := probed.tracks[i];
      t.decoderError.None? && t.sampleRate.Some? && t.channels.Some? ==>
        && EventsCover(probed.events, t.id, t.channels.value)
        && (Run(EmptyPlanar(t.channels.value), probed.events, t.id).Success? ==>
              t.sampleRate.value > 0 && ChannelsU8(t.channels.value) > 0)
  }

  /** The encoder's outcome, with each stage's failure prefixed by its
      stage. */
  function Encoded(out: Result<seq<byte>, VorbisFailure>): (r: Result<seq<byte>, Error>)
    ensures out.Success? ==> r == Success(out.value)
    ensures out.Failure? ==> r == Failure(AudioProcessingError(StagePrefix(out.error.stage) + out.error.message))
  {
    match out
    case Success(bytes) => Success(bytes)
    case Failure(f) => Failure(AudioProcessingError(StagePrefix(f.stage) + f.message))
  }

  /** What `convert_audio_to_ogg` returns for `input`: the stages in order,
      the packet loop as `Run`, then the encoder on the collected samples. */
  function Transcode(
    input: seq<byte>,
    probe: seq<byte> -> Result<Probed, string>,
    vorbis: (nat, nat, Planar) -> Result<seq<byte>, VorbisFailure>)
    : (r: Result<seq<byte>, Error>)
    requires probe(input).Success? ==> NoPanic(probe(input).value)
    ensures r.Failure? ==> r.error.AudioProcessingError?
  {
    match probe(input)
    case Failure(m) => Failure(AudioProcessingError("Probe failed: " + m))
    case Success(probed) =>
      match SelectTrack(probed.tracks)
      case None => Failure(AudioProcessingError(NoTrackMessage))
      case Some(i) =>
        var t := probed.tracks[i];
        if t.decoderError.Some? then Failure(AudioProcessingError("Decoder creation failed: " + t.decoderError.value))
        else if t.sampleRate.None? then Failure(AudioProcessingError(UnknownRateMessage))
        else if t.channels.None? then Failure(AudioProcessingError(UnknownChannelsMessage))
        else
          var planar :- Run(EmptyPlanar(t.channels.value), probed.events, t.id);
          Encoded(vorbis(t.sampleRate.value, ChannelsU8(t.channels.value), planar))
  }

  /** `convert_audio_to_ogg`. */
  method ConvertAudioToOgg(
    input: seq<byte>,
    probe: seq<byte> -> Result<Probed, string>,
    vorbis: (nat, nat, Planar) -> Result<seq<byte>, VorbisFailure>)
    returns (r: Result<seq<byte>, Error>)
    requires probe(input).Success? ==> NoPanic(probe(input).value)
    ensures probe(input).Failure? ==> r == Failure(AudioProcessingError("Probe failed: " + probe(input).error))
    ensures probe(input).Success? && SelectTrack(probe(input).value.tracks).None? ==>
      r == Failure(AudioProcessingError(NoTrackMessage))
    ensures probe(input).Success? && SelectTrack(probe(input).value.tracks).Some? ==>
      var t := probe(input).value.tracks[SelectTrack(probe(input).value.tracks).value];
      && (t.decoderError.Some? ==>
            r == Failure(AudioProcessingError("Decoder creation failed: " + t.decoderError.value)))
      && (t.decoderError.None? && t.sampleRate.None? ==>
            r == Failure(AudioProcessingError(UnknownRateMessage)))
      && (t.decoderError.None? && t.sampleRate.Some? && t.channels.None? ==>
            r == Failure(AudioProcessingError(UnknownChannelsMessage)))
      && (t.decoderError.None? && t.sampleRate.Some? && t.channels.Some? ==>
            var loop := Run(EmptyPlanar(t.channels.value), probe(input).value.events, t.id);
            && (loop.Failure? ==> r == Failure(loop.error))
            && (loop.Success? ==>
                  r == Encoded(vorbis(t.sampleRate.value, ChannelsU8(t.channels.value), loop.value))))
    ensures r == Transcode(input, probe, vorbis)
    ensures r.Failure? ==> r.error.AudioProcessingError?
  {
    if probe(input).Failure? {
      return Failure(AudioProcessingError("Probe failed: " + probe(input).error));
    }
    var probed := probe(input).value;
    var selected := SelectTrack(probed.tracks);
    if selected.None? {
      return Failure(AudioProcessingError(NoTrackMessage));
    }
    var t := probed.tracks[selected.value];
    if t.decoderError.Some? {
      return Failure(AudioProcessingError("Decoder creation failed: " + t.decoderError.value));
    }
    if t.sampleRate.None? {
      return Failure(AudioProcessingError(UnknownRateMessage));
    }
    if t.channels.None? {
      return Failure(AudioProcessingError(UnknownChannelsMessage));
    }
    var planar :- DecodeLoop(probed.events, t.id, t.channels.value);
    r := Encoded(vorbis(t.sampleRate.value, ChannelsU8(t.channels.value), planar));
  }
}
