/** The application's error enumeration, its display text and its
    serialisation (src-tauri/src/error.rs). Library errors that the source
    wraps are represented by the text of their own display, because only that
    text ever reaches a caller. The mobile-only plugin variant is not part of
    this model. */
module Errors {
  import opened Wrappers

  datatype Error =
    | Io(ioText: string)                  // transparent: shows the I/O error's own text
    | NodeError(nodeText: string)         // wraps an archive-node error
    | JsonParseError(jsonCause: string)   // the cause is not displayed
    | ImageParseError(imageCause: string) // the cause is not displayed
    | StringParseError(stringCause: string)
    | SoundParseError(soundCause: string)
    | InitWzFailed
    | NotInitialized
    | NodeNotFound
    | NodeTypeMismatch(expected: string)
    | ImageSendError
    | ImageProcessingError(imageMessage: string)
    | AudioProcessingError(audioMessage: string)

  const NodeErrorPrefix := "node error: "
  const JsonParseText := "json parse error"
  const ImageParseText := "image parse error"
  const StringParseText := "string parse error"
  const SoundParseText := "sound parse error"
  const InitWzFailedText := "init wz failed"
  const NotInitializedText := "root wz not yet initialized, " + "please use init command first"
  const NodeNotFoundText := "node not found"
  const TypeMismatchPrefix := "node type mismatch, can only use on "
  const ImageSendText := "image sending error"
  const ImageProcessingPrefix := "image processing error: "
  const AudioProcessingPrefix := "audio processing error: "

  /** The `Display` text of an error, as its `#[error(...)]` attributes define it. */
  function Display(e: Error): string {
    match e
    case Io(t) => t
    case NodeError(t) => NodeErrorPrefix + t
    case JsonParseError(_) => JsonParseText
    case ImageParseError(_) => ImageParseText
    case StringParseError(_) => StringParseText
    case SoundParseError(_) => SoundParseText
    case InitWzFailed => InitWzFailedText
    case NotInitialized => NotInitializedText
    case NodeNotFound => NodeNotFoundText
    case NodeTypeMismatch(s) => TypeMismatchPrefix + s
    case ImageSendError => ImageSendText
    case ImageProcessingError(m) => ImageProcessingPrefix + m
    case AudioProcessingError(m) => AudioProcessingPrefix + m
  }

  /** `impl Serialize for Error`: the error is written as one string, its display text. */
  function Serialize(e: Error): (s: string)
    ensures s == Display(e)
    ensures e.NodeNotFound? ==> s == "node not found"
    ensures e.NodeTypeMismatch? ==> s == "node type mismatch, can only use on " + e.expected
  {
    Display(e)
  }

  /** The error with the parts its display drops set to the empty text. */
  function Canonical(e: Error): Error {
    match e
    case JsonParseError(_) => JsonParseError("")
    case ImageParseError(_) => ImageParseError("")
    case StringParseError(_) => StringParseError("")
    case SoundParseError(_) => SoundParseError("")
    case _ => e
  }

  predicate HasPrefix(s: string, p: string) {
    |p| <= |s| && s[..|p|] == p
  }

  /** Reads an error back from a display text. An `Io` error is never
      recognised: its text is the foreign error's own. */
  function ParseDisplay(s: string): Option<Error> {
    if s == JsonParseText then Some(JsonParseError(""))
    else if s == ImageParseText then Some(ImageParseError(""))
    else if s == StringParseText then Some(StringParseError(""))
    else if s == SoundParseText then Some(SoundParseError(""))
    else if s == InitWzFailedText then Some(InitWzFailed)
    else if s == NotInitializedText then Some(NotInitialized)
    else if s == NodeNotFoundText then Some(NodeNotFound)
    else if s == ImageSendText then Some(ImageSendError)
    else if HasPrefix(s, NodeErrorPrefix) then Some(NodeError(s[|NodeErrorPrefix|..]))
    else if HasPrefix(s, TypeMismatchPrefix) then Some(NodeTypeMismatch(s[|TypeMismatchPrefix|..]))
    else if HasPrefix(s, ImageProcessingPrefix) then Some(ImageProcessingError(s[|ImageProcessingPrefix|..]))
    else if HasPrefix(s, AudioProcessingPrefix) then Some(AudioProcessingError(s[|AudioProcessingPrefix|..]))
    else None
  }

  lemma PrefixedText(p: string, m: string)
    ensures HasPrefix(p + m, p)
    ensures (p + m)[|p|..] == m
  {
    assert (p + m)[..|p|] == p;
  }

  /** Two texts that differ at position `i` are different. */
  lemma DifferAt(s: string, t: string, i: nat)
    requires i < |s| && i < |t| && s[i] != t[i]
    ensures s != t
  {
  }

  /** Every display text except an I/O error's names its variant, and the
      payload of every variant whose payload is displayed: the display
      loses only the wrapped library causes. */
  lemma DisplayRoundTrip(e: Error)
    requires !e.Io?
    ensures ParseDisplay(Display(e)) == Some(Canonical(e))
  {
    var s := Display(e);
    match e
    case NodeError(t) =>
      PrefixedText(NodeErrorPrefix, t);
      DisplayPrefixedIsNoFixedText(NodeErrorPrefix, t);
    case NodeTypeMismatch(t) =>
      PrefixedText(TypeMismatchPrefix, t);
      DisplayPrefixedIsNoFixedText(TypeMismatchPrefix, t);
      assert !HasPrefix(s, NodeErrorPrefix) by {
        if |NodeErrorPrefix| <= |s| { DifferAt(s[..|NodeErrorPrefix|], NodeErrorPrefix, 5); }
      }
    case ImageProcessingError(t) =>
      PrefixedText(ImageProcessingPrefix, t);
      DisplayPrefixedIsNoFixedText(ImageProcessingPrefix, t);
      assert !HasPrefix(s, NodeErrorPrefix) by {
        if |NodeErrorPrefix| <= |s| { DifferAt(s[..|NodeErrorPrefix|], NodeErrorPrefix, 0); }
      }
      assert !HasPrefix(s, TypeMismatchPrefix) by {
        if |TypeMismatchPrefix| <= |s| { DifferAt(s[..|TypeMismatchPrefix|], TypeMismatchPrefix, 0); }
      }
    case AudioProcessingError(t) =>
      PrefixedText(AudioProcessingPrefix, t);
      DisplayPrefixedIsNoFixedText(AudioProcessingPrefix, t);
      assert !HasPrefix(s, NodeErrorPrefix) by {
        if |NodeErrorPrefix| <= |s| { DifferAt(s[..|NodeErrorPrefix|], NodeErrorPrefix, 0); }
      }
      assert !HasPrefix(s, TypeMismatchPrefix) by {
        if |TypeMismatchPrefix| <= |s| { DifferAt(s[..|TypeMismatchPrefix|], TypeMismatchPrefix, 0); }
      }
      assert !HasPrefix(s, ImageProcessingPrefix) by {
        if |ImageProcessingPrefix| <= |s| { DifferAt(s[..|ImageProcessingPrefix|], ImageProcessingPrefix, 0); }
      }
    case _ =>
  }

  /** A text that starts with one of the four displayed prefixes is none of
      the fixed display texts. */
  lemma DisplayPrefixedIsNoFixedText(p: string, m: string)
    requires p == NodeErrorPrefix || p == TypeMismatchPrefix
          || p == ImageProcessingPrefix || p == AudioProcessingPrefix
    ensures p + m != JsonParseText && p + m != ImageParseText
    ensures p + m != StringParseText && p + m != SoundParseText
    ensures p + m != InitWzFailedText && p + m != NotInitializedText
    ensures p + m != NodeNotFoundText && p + m != ImageSendText
  {
    var s := p + m;
    assert s[0] == p[0] && s[1] == p[1] && s[5] == p[5] && s[6] == p[6];
    assert s != NotInitializedText by { DifferAt(s, NotInitializedText, 0); }
  }

  /** Errors other than I/O errors that display the same text are the same
      error up to the undisplayed library causes. */
  lemma DisplayInjective(e1: Error, e2: Error)
    requires !e1.Io? && !e2.Io?
    requires Display(e1) == Display(e2)
    ensures Canonical(e1) == Canonical(e2)
  {
    DisplayRoundTrip(e1);
    DisplayRoundTrip(e2);
  }
}
