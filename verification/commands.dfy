/** The desktop commands (src-tauri/src/commands.rs): encoding an animated
    WebP from PNG frames, opening an archive, reporting the server's address
    and state, and describing a node and its children. The commands
    `parse_node` and `unparse_node` are the same code as the server's parse
    and unparse routes and are modelled once, by `NodeController.Parse` and
    `NodeController.Unparse`. The image decoder, the WebP encoder, the
    archive loader and the path lookup are passed in as functions. */
module Commands {
  import opened Wrappers
  import opened Errors
  import opened Decimal
  import opened JsonValue
  import opened WzNode

  // ----- encode_webp_anim -----------------------------------------------

  const I32Min: int := -0x8000_0000
  const I32Max: int := 0x7FFF_FFFF

  /** The size of a decoded image. */
  datatype Dim = Dim(width: nat, height: nat)

  /** A frame from the front end: what decoding its PNG bytes gives (its size
      or the decoder's error text) and its delay in milliseconds. */
  datatype WebPFrame = WebPFrame(decoded: Result<Dim, string>, delay: int)

  /** The WebP animation encoder: creating it for a canvas size, adding the
      k-th frame at a timestamp (`Some` carries the error text), and
      finalising it with the timestamps of the added frames and the end
      timestamp. */
  datatype Encoder = Encoder(
    create: (nat, nat) -> Option<string>,
    addFrame: (nat, int) -> Option<string>,
    finalize: (seq<int>, int) -> Result<seq<byte>, string>)

  /** The sum of the delays of the given frames. */
  function DelaySum(frames: seq<WebPFrame>): int {
    if |frames| == 0 then 0 else DelaySum(frames[..|frames| - 1]) + frames[|frames| - 1].delay
  }

  /** The timestamp frame `k` is added at: the sum of the earlier delays. */
  function Timestamp(frames: seq<WebPFrame>, k: nat): int
    requires k <= |frames|
  {
    DelaySum(frames[..k])
  }

  /** Every running timestamp fits in an `i32`. */
  predicate NoOverflow(frames: seq<WebPFrame>) {
    forall k :: 0 <= k <= |frames| ==> I32Min <= Timestamp(frames, k) <= I32Max
  }

  /** Why frame `k` cannot be added, if it cannot: a decode error is
      reported before a size mismatch, and both before the encoder is
      asked. */
  function FrameFault(frames: seq<WebPFrame>, k: nat, width: nat, height: nat, enc: Encoder): Option<Error>
    requires k < |frames|
  {
    match frames[k].decoded
    case Failure(m) => Some(ImageProcessingError("Failed to load image buffer: " + m))
    case Success(d) =>
      if d.width != width || d.height != height then Some(ImageProcessingError("Frame size mismatch"))
      else match enc.addFrame(k, Timestamp(frames, k))
           case Some(m) => Some(ImageProcessingError("Add frame failed: " + m))
           case None => None
  }

  /** `encode_webp_anim`. Returns the result and the timestamps of the frames
      added to the encoder, in order. */
  method EncodeWebpAnim(frames: seq<WebPFrame>, width: nat, height: nat, enc: Encoder)
    returns (r: Result<seq<byte>, Error>, added: seq<int>)
    requires NoOverflow(frames)
    ensures |frames| == 0 ==> r == Success([]) && added == []
    ensures |frames| > 0 && enc.create(width, height).Some? ==>
      r == Failure(ImageProcessingError("Encoder init failed: " + enc.create(width, height).value)) && added == []
    ensures |added| <= |frames|
    ensures forall k :: 0 <= k < |added| ==> added[k] == Timestamp(frames, k)
    ensures forall k :: 0 <= k < |added| ==> FrameFault(frames, k, width, height, enc).None?
    ensures |frames| > 0 && enc.create(width, height).None? && |added| < |frames| ==>
      FrameFault(frames, |added|, width, height, enc).Some? &&
      r == Failure(FrameFault(frames, |added|, width, height, enc).value)
    ensures |frames| > 0 && enc.create(width, height).None? && |added| == |frames| ==>
      r == Finalized(enc, added, DelaySum(frames))
    ensures r.Failure? ==> r.error.ImageProcessingError?
  {
    added := [];
    if |frames| == 0 {
      return Success([]), added;
    }
    var created := enc.create(width, height);
    if created.Some? {
      return Failure(ImageProcessingError("Encoder init failed: " + created.value)), added;
    }
    var timestamp := 0;
    var k := 0;
    while k < |frames|
      invariant 0 <= k <= |frames|
      invariant |added| == k
      invariant timestamp == Timestamp(frames, k)
      invariant forall j :: 0 <= j < k ==> added[j] == Timestamp(frames, j)
      invariant forall j :: 0 <= j < k ==> FrameFault(frames, j, width, height, enc).None?
    {
      var frame := frames[k];
      if frame.decoded.Failure? {
        return Failure(ImageProcessingError("Failed to load image buffer: " + frame.decoded.error)), added;
      }
      var d := frame.decoded.value;
      if d.width != width || d.height != height {
        return Failure(ImageProcessingError("Frame size mismatch")), added;
      }
      var fault := enc.addFrame(k, timestamp);
      if fault.Some? {
        return Failure(ImageProcessingError("Add frame failed: " + fault.value)), added;
      }
      added := added + [timestamp];
      assert frames[..k + 1][..k] == frames[..k];
      timestamp := timestamp + frame.delay;
      k := k + 1;
    }
    assert frames[..k] == frames;
    r := Finalized(enc, added, timestamp);
  }

  /** What finalising the encoder gives: its bytes, or its error as an image
      processing error. */
  function Finalized(enc: Encoder, stamps: seq<int>, end: int): (r: Result<seq<byte>, Error>)
    ensures r.Success? <==> enc.finalize(stamps, end).Success?
    ensures r.Success? ==> r.value == enc.finalize(stamps, end).value
    ensures r.Failure? ==> r.error == ImageProcessingError("Finalize failed: " + enc.finalize(stamps, end).error)
  {
    match enc.finalize(stamps, end)
    case Success(bytes) => Success(bytes)
    case Failure(m) => Failure(ImageProcessingError("Finalize failed: " + m))
  }

  /** With no negative delay the timestamps never go backwards. */
  lemma {:induction false} TimestampsOrdered(frames: seq<WebPFrame>, j: nat, k: nat)
    requires forall i :: 0 <= i < |frames| ==> frames[i].delay >= 0
    requires j <= k <= |frames|
    ensures Timestamp(frames, j) <= Timestamp(frames, k)
    decreases k - j
  {
    if j < k {
      TimestampsOrdered(frames, j, k - 1);
      assert frames[..k][..k - 1] == frames[..k - 1];
    }
  }

  /** The end timestamp is the last frame's timestamp plus its delay. */
  lemma EndTimestamp(frames: seq<WebPFrame>)
    requires |frames| > 0
    ensures DelaySum(frames) == Timestamp(frames, |frames| - 1) + frames[|frames| - 1].delay
  {
    assert frames[..|frames|] == frames;
  }

  // ----- init -----------------------------------------------------------

  /** The archive encryption variants. */
  datatype MapleVersion = GMS | EMS | BMS | UNKNOWN

  /** The text naming a version. */
  function VersionName(v: MapleVersion): string {
    match v
    case GMS => "GMS"
    case EMS => "EMS"
    case BMS => "BMS"
    case UNKNOWN => "UNKNOWN"
  }

  /** `init`'s version mapping: the three known names map to their variants,
      any other text to `UNKNOWN`, and no text to none. */
  function MapVersion(version: Option<string>): (r: Option<MapleVersion>)
    ensures version.None? <==> r.None?
    ensures version.Some? ==>
      (r.value == UNKNOWN <==> version.value !in {"GMS", "EMS", "BMS"})
    ensures version.Some? && r.value != UNKNOWN ==> VersionName(r.value) == version.value
  {
    match version
    case None => None
    case Some(s) =>
      Some(if s == "GMS" then GMS else if s == "EMS" then EMS else if s == "BMS" then BMS else UNKNOWN)
  }

  /** The name of each known version maps back to it. */
  lemma VersionNameRoundTrip(v: MapleVersion)
    requires v != UNKNOWN
    ensures MapVersion(Some(VersionName(v))) == Some(v)
  {
  }

  /** The path of the archive file the root is, if it is one. */
  function RootPath(root: Node): Option<string> {
    if root.kind.File? then Some(root.kind.meta.path) else None
  }

  /** The patch version of the root, if it is an archive file. */
  function PatchVersion(root: Node): Option<int> {
    if root.kind.File? then Some(root.kind.meta.patchVersion) else None
  }

  /** `init`: returns the result and the root afterwards. Opening the file
      that is already open does nothing; `resolveBase` stands for
      `resolve_base`, whose failure leaves the root as it was. */
  function Init(root: Node, path: string, version: Option<string>, resolveBase: (string, Option<MapleVersion>) -> Option<Node>)
    : (r: (Result<int, Error>, Node))
    ensures RootPath(root) == Some(path) ==> r == (Success(0), root)
    ensures RootPath(root) != Some(path) && resolveBase(path, MapVersion(version)).None? ==>
      r == (Failure(InitWzFailed), root)
    ensures RootPath(root) != Some(path) && resolveBase(path, MapVersion(version)).Some? ==>
      && r.1 == resolveBase(path, MapVersion(version)).value
      && r.0 == Success(match PatchVersion(r.1) case Some(v) => v case None => 0)
    ensures r.0.Failure? ==> r.0.error == InitWzFailed && r.1 == root
  {
    if RootPath(root) == Some(path) then (Success(0), root)
    else
      match resolveBase(path, MapVersion(version))
      case None => (Failure(InitWzFailed), root)
      case Some(base) =>
        (Success(match PatchVersion(base) case Some(v) => v case None => 0), base)
  }

  /** Opening a file twice: once the root is the file opened from `path`,
      opening `path` again changes nothing and reports 0. */
  lemma InitTwice(root: Node, path: string, version: Option<string>, again: Option<string>,
                  resolveBase: (string, Option<MapleVersion>) -> Option<Node>)
    requires resolveBase(path, MapVersion(version)).Some?
    requires RootPath(resolveBase(path, MapVersion(version)).value) == Some(path)
    ensures var first := Init(root, path, version, resolveBase);
      first.0.Success? && Init(first.1, path, again, resolveBase) == (Success(0), first.1)
  {
  }

  // ----- get_server_url -------------------------------------------------

  const UrlPrefix := "http://localhost:"

  /** Whether the root has a child `Item` with at least one child. */
  predicate ItemsLoaded(root: Node) {
    match ChildNamed(root, "Item")
    case Some(item) => |item.children| > 0
    case None => false
  }

  /** `get_server_url`: the server's address and the state of the root. */
  function GetServerUrl(root: Node, port: nat): (r: Json)
    requires port < 0x1_0000
    ensures r.Obj? && r.fields.Keys == {"url", "is_initialized", "is_load_items", "patch_version"}
    ensures r.fields["url"].Str? && |r.fields["url"].s| > |UrlPrefix|
    ensures r.fields["url"].s[..|UrlPrefix|] == UrlPrefix
    ensures r.fields["url"].s[|UrlPrefix|..] == IntText(port)
    ensures ParseI64(r.fields["url"].s[|UrlPrefix|..]) == Some(port)
    ensures r.fields["is_initialized"] == Bool(!root.kind.NullObject?)
    ensures r.fields["is_load_items"] == Bool(HasChildNamed(root, "Item") && |ChildNamed(root, "Item").value.children| > 0)
    ensures root.kind.File? <==> r.fields["patch_version"].Num?
    ensures root.kind.File? ==> r.fields["patch_version"] == Num(IntNumber(root.kind.meta.patchVersion))
    ensures !root.kind.File? ==> r.fields["patch_version"] == Null
  {
    var portText := IntText(port);
    IntTextRoundTrip(port);
    assert (UrlPrefix + portText)[|UrlPrefix|..] == portText;
    var patch := match PatchVersion(root) case Some(v) => Num(IntNumber(v)) case None => Null;
    Obj(map[
      "url" := Str(UrlPrefix + portText),
      "is_initialized" := Bool(!root.kind.NullObject?),
      "is_load_items" := Bool(ItemsLoaded(root)),
      "patch_version" := patch])
  }

  // ----- get_node_info / get_childs_info --------------------------------

  /** `models::NodeInfo`: a node's name, its type (represented by its kind)
      and whether it has children. */
  datatype NodeInfo = NodeInfo(name: string, kind: Kind, hasChild: bool)

  function InfoOf(n: Node): (info: NodeInfo)
    ensures info.name == n.name && info.kind == n.kind
    ensures info.hasChild <==> |n.children| > 0
  {
    NodeInfo(n.name, n.kind, |n.children| != 0)
  }

  /** The node a command addresses: the root for the empty path, otherwise
      what `atPath` (the archive's `at_path` from the root) finds. */
  function Target(root: Node, atPath: string -> Option<Node>, path: string): (r: Option<Node>)
    ensures path == "" ==> r == Some(root)
    ensures path != "" ==> r == atPath(path)
  {
    if path == "" then Some(root) else atPath(path)
  }

  /** `get_node_info`. */
  function GetNodeInfo(root: Node, atPath: string -> Option<Node>, path: string): (r: Result<NodeInfo, Error>)
    ensures path == "" ==> r == Success(InfoOf(root))
    ensures path != "" && atPath(path).None? ==> r == Failure(NodeNotFound)
    ensures path != "" && atPath(path).Some? ==> r == Success(InfoOf(atPath(path).value))
  {
    match Target(root, atPath, path)
    case None => Failure(NodeNotFound)
    case Some(n) => Success(InfoOf(n))
  }

  /** `get_childs_info`: one entry per child, in child order. */
  function GetChildsInfo(root: Node, atPath: string -> Option<Node>, path: string): (r: Result<seq<NodeInfo>, Error>)
    ensures r.Failure? <==> Target(root, atPath, path).None?
    ensures r.Failure? ==> r.error == NodeNotFound
    ensures r.Success? ==>
      var n := Target(root, atPath, path).value;
      && |r.value| == |n.children|
      && forall i :: 0 <= i < |n.children| ==>
           r.value[i].name == n.children[i].name && r.value[i].kind == n.children[i].kind
           && (r.value[i].hasChild <==> |n.children[i].children| > 0)
  {
    match Target(root, atPath, path)
    case None => Failure(NodeNotFound)
    case Some(n) => Success(seq(|n.children|, i requires 0 <= i < |n.children| => InfoOf(n.children[i])))
  }

  /** The two commands agree: they find the same nodes, and a node has
      children exactly when listing its children gives some. */
  lemma InfoAndChildrenAgree(root: Node, atPath: string -> Option<Node>, path: string)
    ensures GetNodeInfo(root, atPath, path).Success? <==> GetChildsInfo(root, atPath, path).Success?
    ensures GetNodeInfo(root, atPath, path).Success? ==>
      (GetNodeInfo(root, atPath, path).value.hasChild <==> |GetChildsInfo(root, atPath, path).value| > 0)
  {
  }
}
