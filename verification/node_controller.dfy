/** The node routes of the HTTP server (src-tauri/src/server/controller/node.rs):
    the raw, sound, JSON and image payloads of a node, the parse and unparse
    actions, and loading extra archive files named by a comma-separated
    query. The node a route addresses is a snapshot; the archive reader's
    path lookup, parsing and unparsing, image resolution and the WebP writer
    are passed in as functions. */
module NodeController {
  import opened Wrappers
  import opened Errors
  import opened JsonValue
  import opened WzNode
  import opened SimpleJson
  import opened AudioSamples
  import opened AudioTranscode

  /** A successful response: its `Content-Type` and `Cache-Control` headers
      and its body. */
  datatype Reply<B> = Reply(contentType: string, cacheControl: string, body: B)

  const PublicHour := "public, max-age=3600"
  const PrivateHour := "max-age=3600"

  // ----- load_extra_paths -----------------------------------------------

  /** `str::split(sep)`: the pieces between separators, in order; the empty
      string is one empty piece, and adjacent separators give empty pieces. */
  function Split(s: string, sep: char): (parts: seq<string>)
    ensures |parts| >= 1
    ensures forall i :: 0 <= i < |parts| ==> sep !in parts[i]
    decreases |s|
  {
    if |s| == 0 then [""]
    else
      var rest := Split(s[1..], sep);
      if s[0] == sep then [""] + rest
      else [[s[0]] + rest[0]] + rest[1..]
  }

  /** The pieces put back together with the separator between them. */
  function Join(parts: seq<string>, sep: char): string
    requires |parts| >= 1
    decreases |parts|
  {
    if |parts| == 1 then parts[0] else parts[0] + [sep] + Join(parts[1..], sep)
  }

  /** Splitting loses nothing: joining the pieces gives the text back. */
  lemma {:induction false} SplitJoin(s: string, sep: char)
    ensures Join(Split(s, sep), sep) == s
    decreases |s|
  {
    if |s| > 0 {
      SplitJoin(s[1..], sep);
      var rest := Split(s[1..], sep);
      if s[0] != sep {
        if |rest| == 1 {
          assert Join(Split(s, sep), sep) == [s[0]] + rest[0];
        } else {
          assert rest == [rest[0]] + rest[1..];
          assert Join(rest, sep) == rest[0] + [sep] + Join(rest[1..], sep);
          assert Join(Split(s, sep), sep) == ([s[0]] + rest[0]) + [sep] + Join(rest[1..], sep);
        }
        assert s == [s[0]] + s[1..];
      } else {
        assert s == [sep] + s[1..];
      }
    }
  }

  /** And the other way round: pieces without the separator are what
      splitting their join gives. */
  lemma {:induction false} JoinSplit(parts: seq<string>, sep: char)
    requires |parts| >= 1
    requires forall i :: 0 <= i < |parts| ==> sep !in parts[i]
    ensures Split(Join(parts, sep), sep) == parts
    decreases |parts|, |parts[0]|
  {
    var p := parts[0];
    if |p| == 0 {
      if |parts| > 1 {
        JoinSplit(parts[1..], sep);
        var s := Join(parts, sep);
        assert s == [sep] + Join(parts[1..], sep);
        assert s[1..] == Join(parts[1..], sep);
        assert parts == [""] + parts[1..];
      }
    } else {
      var shorter := [p[1..]] + parts[1..];
      assert p[1..] == shorter[0];
      assert forall i :: 1 <= i < |shorter| ==> shorter[i] == parts[i];
      JoinSplit(shorter, sep);
      var s := Join(parts, sep);
      JoinUncons(parts, sep);
      assert s[0] == p[0] && p[0] != sep by {
        assert p[0] in p;
      }
      assert s[1..] == Join(shorter, sep);
      var rest := Split(s[1..], sep);
      assert rest == shorter;
      assert [p[0]] + p[1..] == p;
      assert parts == [p] + parts[1..];
    }
  }

  /** Taking the first character off the first piece. */
  lemma JoinUncons(parts: seq<string>, sep: char)
    requires |parts| >= 1 && |parts[0]| > 0
    ensures Join(parts, sep) == [parts[0][0]] + Join([parts[0][1..]] + parts[1..], sep)
  {
    var shorter := [parts[0][1..]] + parts[1..];
    assert parts[0] == [parts[0][0]] + parts[0][1..];
    if |parts| > 1 {
      assert shorter[1..] == parts[1..];
    }
  }

  /** The pieces that name a child of the root, in order, duplicates kept. */
  function KeepChildren(root: Node, pieces: seq<string>): (kept: seq<string>)
    ensures |kept| <= |pieces|
    ensures forall p :: p in kept <==> p in pieces && HasChildNamed(root, p)
  {
    if |pieces| == 0 then []
    else
      var rest := KeepChildren(root, pieces[1..]);
      assert pieces == [pieces[0]] + pieces[1..];
      if HasChildNamed(root, pieces[0]) then [pieces[0]] + rest else rest
  }

  /** Duplicates are kept: a piece naming a child is kept as often as it
      occurs, and any other piece not at all. */
  lemma {:induction false} KeepChildrenCounts(root: Node, pieces: seq<string>)
    ensures forall p :: multiset(KeepChildren(root, pieces))[p] ==
                        (if HasChildNamed(root, p) then multiset(pieces)[p] else 0)
    decreases |pieces|
  {
    if |pieces| > 0 {
      KeepChildrenCounts(root, pieces[1..]);
      assert pieces == [pieces[0]] + pieces[1..];
    }
  }

  /** Filtering keeps the order: the kept pieces of a concatenation are the
      kept pieces of each part, one after the other. */
  lemma {:induction false} KeepChildrenAppend(root: Node, a: seq<string>, b: seq<string>)
    ensures KeepChildren(root, a + b) == KeepChildren(root, a) + KeepChildren(root, b)
    decreases |a|
  {
    if |a| == 0 {
      assert a + b == b;
    } else {
      assert (a + b)[1..] == a[1..] + b;
      KeepChildrenAppend(root, a[1..], b);
      var tail := KeepChildren(root, a[1..] + b);
      if HasChildNamed(root, a[0]) {
        assert KeepChildren(root, a + b) == [a[0]] + tail;
        assert KeepChildren(root, a) == [a[0]] + KeepChildren(root, a[1..]);
      } else {
        assert KeepChildren(root, a + b) == tail;
        assert KeepChildren(root, a) == KeepChildren(root, a[1..]);
      }
    }
  }

  /** The paths `load_extra_paths` hands to the loader: the comma-separated
      pieces of the `path` query parameter (the empty text when absent) that
      name a child of the root. */
  function ExtraPaths(root: Node, query: map<string, string>): (paths: seq<string>)
    ensures forall p :: p in paths ==> HasChildNamed(root, p)
    ensures "path" !in query ==> paths == (if HasChildNamed(root, "") then [""] else [])
    ensures "path" in query ==> forall p :: p in paths <==> p in Split(query["path"], ',') && HasChildNamed(root, p)
  {
    var text := if "path" in query then query["path"] else "";
    KeepChildren(root, Split(text, ','))
  }

  /** `load_extra_paths`: `load` stands for `load_wz_by_base`, which adds the
      named files under the root; its result is the route's. Without a
      `path` parameter the loader is given nothing to load (unless the root
      has a child with the empty name). */
  function LoadExtraPaths(root: Node, query: map<string, string>, load: seq<string> -> Result<Unit, Error>): (r: Result<Unit, Error>)
    ensures "path" !in query && !HasChildNamed(root, "") ==> r == load([])
    ensures "path" in query ==> r == load(KeepChildren(root, Split(query["path"], ',')))
    ensures r == load(ExtraPaths(root, query))
  {
    load(ExtraPaths(root, query))
  }

  // ----- payload kinds --------------------------------------------------

  const RawMismatch := "WzRaw or WzSound"
  const SoundMismatch := "WzSound"

  /** `get_raw`: the raw-data buffer, else the sound buffer, else a type
      mismatch. */
  function GetRaw(n: Node): (r: Result<Reply<seq<byte>>, Error>)
    ensures r.Success? <==> n.kind.RawData? || n.kind.Sound?
    ensures r.Failure? ==> r.error == NodeTypeMismatch("WzRaw or WzSound")
    ensures r.Success? ==> r.value.contentType == "audio/wav" && r.value.cacheControl == PublicHour
    ensures n.kind.RawData? ==> r.value.body == n.kind.rawBuffer
    ensures n.kind.Sound? ==> r.value.body == n.kind.soundBuffer
  {
    match n.kind
    case RawData(buffer) => Success(Reply("audio/wav", PublicHour, buffer))
    case Sound(_, buffer) => Success(Reply("audio/wav", PublicHour, buffer))
    case _ => Failure(NodeTypeMismatch(RawMismatch))
  }

  /** `get_ogg_sound`: only a sound node is transcoded, from the same buffer
      `get_raw` would send; any other node is refused before the transcoder
      sees anything. */
  method GetOggSound(
    n: Node,
    probe: seq<byte> -> Result<Probed, string>,
    vorbis: (nat, nat, Planar) -> Result<seq<byte>, VorbisFailure>)
    returns (r: Result<Reply<seq<byte>>, Error>)
    requires n.kind.Sound? && probe(n.kind.soundBuffer).Success? ==> NoPanic(probe(n.kind.soundBuffer).value)
    ensures !n.kind.Sound? ==> r == Failure(NodeTypeMismatch("WzSound"))
    ensures n.kind.Sound? ==>
      r == match Transcode(n.kind.soundBuffer, probe, vorbis)
           case Success(ogg) => Success(Reply("audio/ogg", PublicHour, ogg))
           case Failure(e) => Failure(e)
    ensures n.kind.Sound? && r.Failure? ==> r.error.AudioProcessingError?
    ensures r.Success? ==> n.kind.Sound? && r.value.contentType == "audio/ogg" && r.value.cacheControl == PublicHour
  {
    if !n.kind.Sound? {
      return Failure(NodeTypeMismatch(SoundMismatch));
    }
    var ogg :- ConvertAudioToOgg(n.kind.soundBuffer, probe, vorbis);
    return Success(Reply("audio/ogg", PublicHour, ogg));
  }

  /** A node `get_ogg_sound` accepts is one `get_raw` accepts, and the bytes
      it transcodes are the ones `get_raw` sends; a raw-data node is served
      raw but never transcoded. */
  lemma SoundRoutesAgree(n: Node)
    ensures n.kind.Sound? ==> GetRaw(n).Success? && GetRaw(n).value.body == n.kind.soundBuffer
    ensures n.kind.RawData? ==> GetRaw(n).Success? && !n.kind.Sound?
    ensures GetRaw(n).Failure? ==> !n.kind.Sound?
  {
  }

  // ----- get_json -------------------------------------------------------

  /** `get_json`: the simplified projection when `simple` is `Some(true)`, the
      archive's own JSON (`toJson`, whose failure is a JSON error) otherwise. */
  function GetJson(
    n: Node,
    simple: Option<bool>,
    parseF64: string -> Option<F64>,
    toJson: Node -> Result<Json, string>)
    : (r: Result<Reply<Json>, Error>)
    ensures simple == Some(true) ==> r == Success(Reply("application/json", PublicHour, ToSimpleJson(n, parseF64)))
    ensures simple != Some(true) ==>
      (r.Success? <==> toJson(n).Success?)
      && (r.Success? ==> r.value.body == toJson(n).value)
      && (r.Failure? ==> r.error == JsonParseError(toJson(n).error))
    ensures r.Success? ==> r.value.contentType == "application/json" && r.value.cacheControl == PublicHour
  {
    var isSimple := match simple case Some(b) => b case None => false;
    var json :- if isSimple then Success(ToSimpleJson(n, parseF64))
                else match toJson(n)
                     case Success(j) => Success(j)
                     case Failure(cause) => Failure(JsonParseError(cause));
    Success(Reply("application/json", PublicHour, json))
  }

  /** An absent `simple` flag behaves as `false`. */
  lemma GetJsonDefault(n: Node, parseF64: string -> Option<F64>, toJson: Node -> Result<Json, string>)
    ensures GetJson(n, None, parseF64, toJson) == GetJson(n, Some(false), parseF64, toJson)
  {
  }

  // ----- images ---------------------------------------------------------

  /** A decoded image as the image library holds it. */
  datatype Image = Image(width: nat, height: nat, pixels: seq<byte>)

  /** Encoding to WebP, which `None` says failed. */
  function SendImage(image: Result<Image, Error>, writeWebp: Image -> Option<seq<byte>>): (r: Result<Reply<seq<byte>>, Error>)
    ensures image.Failure? ==> r == Failure(image.error)
    ensures image.Success? && writeWebp(image.value).None? ==> r == Failure(ImageSendError)
    ensures image.Success? && writeWebp(image.value).Some? ==>
      r == Success(Reply("image/webp", PrivateHour, writeWebp(image.value).value))
  {
    var img :- image;
    match writeWebp(img)
    case None => Failure(ImageSendError)
    case Some(bytes) => Success(Reply("image/webp", PrivateHour, bytes))
  }

  /** `get_image`: `resolvePng` stands for `resolve_png`, which follows links
      from the addressed node. */
  function GetImage(n: Node, resolvePng: Node -> Result<Image, Error>, writeWebp: Image -> Option<seq<byte>>)
    : (r: Result<Reply<seq<byte>>, Error>)
    ensures resolvePng(n).Failure? ==> r == Failure(resolvePng(n).error)
    ensures resolvePng(n).Success? ==> (r.Failure? <==> writeWebp(resolvePng(n).value).None?)
    ensures r.Failure? && resolvePng(n).Success? ==> r.error == ImageSendError
    ensures r == SendImage(resolvePng(n), writeWebp)
  {
    SendImage(resolvePng(n), writeWebp)
  }

  /** `get_image_unparsed`: `imageNode` stands for
      `get_image_node_from_path`, which finds the image node and the rest of
      the path; a path it cannot resolve is not found, and nothing is
      resolved or encoded. */
  function GetImageUnparsed(
    path: string,
    imageNode: string -> Option<(Node, string)>,
    resolveUnparsed: (Node, string) -> Result<Image, Error>,
    writeWebp: Image -> Option<seq<byte>>)
    : (r: Result<Reply<seq<byte>>, Error>)
    ensures imageNode(path).None? ==> r == Failure(NodeNotFound)
    ensures imageNode(path).Some? ==>
      var (node, rest) := imageNode(path).value;
      r == SendImage(resolveUnparsed(node, rest), writeWebp)
  {
    match imageNode(path)
    case None => Failure(NodeNotFound)
    case Some((node, rest)) => SendImage(resolveUnparsed(node, rest), writeWebp)
  }

  // ----- parse / unparse ------------------------------------------------

  /** What an action did to the archive: the nodes it parsed or unparsed. */
  datatype Touch = Parsed(parsed: Node) | Unparsed(unparsed: Node)

  /** The outcome of an action: its result and what it touched. */
  datatype Outcome = Outcome(result: Result<Unit, Error>, touched: seq<Touch>)

  /** `parse` (and the `parse_node` command): the node at `path` is parsed;
      the parser's own error is dropped, so a found node always succeeds. An
      unresolvable path is not found and touches nothing. */
  function Parse(atPath: string -> Option<Node>, parseNode: Node -> Result<Unit, string>, path: string): (o: Outcome)
    ensures atPath(path).None? <==> o.result.Failure?
    ensures atPath(path).None? ==> o == Outcome(Failure(NodeNotFound), [])
    ensures atPath(path).Some? ==> o == Outcome(Success(Unit), [Parsed(atPath(path).value)])
  {
    match atPath(path)
    case None => Outcome(Failure(NodeNotFound), [])
    case Some(n) =>
      var _ := parseNode(n);
      Outcome(Success(Unit), [Parsed(n)])
  }

  /** `unparse` (and the `unparse_node` command): the node at `path` drops its
      parsed children; an unresolvable path is not found and touches
      nothing. */
  function Unparse(atPath: string -> Option<Node>, path: string): (o: Outcome)
    ensures atPath(path).None? <==> o.result.Failure?
    ensures atPath(path).None? ==> o == Outcome(Failure(NodeNotFound), [])
    ensures atPath(path).Some? ==> o == Outcome(Success(Unit), [Unparsed(atPath(path).value)])
  {
    match atPath(path)
    case None => Outcome(Failure(NodeNotFound), [])
    case Some(n) => Outcome(Success(Unit), [Unparsed(n)])
  }

  /** Parse and unparse agree on which paths exist, and each touches at most
      one node, the one at the path. */
  lemma ParseUnparseAgree(atPath: string -> Option<Node>, parseNode: Node -> Result<Unit, string>, path: string)
    ensures Parse(atPath, parseNode, path).result == Unparse(atPath, path).result
    ensures |Parse(atPath, parseNode, path).touched| == |Unparse(atPath, path).touched| <= 1
    ensures forall t :: t in Parse(atPath, parseNode, path).touched ==> Some(t.parsed) == atPath(path)
  {
  }
}
