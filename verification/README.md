# Southperry Studio core, modelled in Dafny

Southperry Studio is a desktop viewer for MapleStory WZ archives. It has a
Rust back end (Tauri commands and an axum HTTP server) and a JavaScript front
end. This project models the parts of it that make decisions of their own,
leaving out the libraries they call:

- **Errors** (`error.rs`): the error enumeration, its display texts and its serialisation.
- **ServerErrors** (`server/mod.rs`): how an error becomes an HTTP status and body. Statuses follow section 15 of RFC 9110.
- **Decimal**, **JsonValue**, **SimpleJson** (`handlers/json.rs`): the simplified JSON projection of a node tree.
  - Decimal models `str::parse::<i64>` exactly and the canonical text of an integer.
  - JsonValue models serde_json values and `Number::from_f64`, which refuses NaN and the infinities (section 6 of RFC 8259).
  - SimpleJson models string-to-number coercion and the recursive projection.
- **AudioSamples**, **AudioTranscode** (`handlers/audio.rs`): the WAV/MP3 to Ogg Vorbis conversion.
  - The probe, decoder and encoder are modelled as functions and as a finite sequence of packet events.
  - The modelled logic covers track selection, the stream-parameter checks, and the packet loop, defined both as a reference fold and as a loop.
  - It also covers sample normalisation over reals.
- **ExportGeometry** (`exportUtils.js`): the frame-export arithmetic.
  - The global bounding box.
  - Even padding.
  - The offsets of the trimmed and the equal-size export modes.
- **NodeController** (`server/controller/node.rs`): the node routes.
  - The comma-list filter of `load_extra_paths`.
  - Payload-kind dispatch for raw, sound and JSON.
  - Image routes, and `parse` / `unparse`.
- **Commands** (`commands.rs`): the desktop commands.
  - `encode_webp_anim`: validation and timestamps.
  - `init`: version mapping and the same-path short-circuit.
  - `get_server_url`, `get_node_info` and `get_childs_info`.
- **WzNode**, **Wrappers**: the node tree as a snapshot value, plus `Option`, `Result`, `Unit` and `byte`.

Some library calls are passed in as function parameters:

- the archive reader's `at_path`, `parse_node`, `to_json` and `get_image_node_from_path`;
- the application's own `utils` functions `resolve_base` and `load_wz_by_base`, which this model does not cover;
- `resolve_png` and `resolve_png_unparsed`;
- the symphonia probe, the Vorbis encoder and the WebP encoder;
- `str::parse::<f64>`.

`image::load_from_memory` is represented by each WebP frame's `decoded` field: the decoded size or the decoder's error text. `unparse` is represented by the `Unparsed` entry the route records in its touch log.

No clock, network or file system appears in the model.

Wherever the source panics, the model has a precondition instead. These are:

- in the audio code, `buf.chan(ch)` on a missing plane of a buffer the packet loop converts, and, once the loop has succeeded, `NonZeroU32::new(..).unwrap()` of the sample rate and `NonZeroU8::new(channel_count as u8).unwrap()`. Probes that fail before these points need nothing;
- `i32` overflow of the WebP timestamp sum. That addition panics when overflow checks are on, as in debug builds, and wraps otherwise; the model excludes both cases.

## Model

| member | source | states |
|---|---|---|
| Errors.Serialize | src-tauri/src/error.rs:57-64 | An error serialises to exactly its display text; "node not found" and "node type mismatch, can only use on " + s are spelled out |
| Errors.DisplayRoundTrip | src-tauri/src/error.rs:9-49 | Every display text other than an I/O error's can be read back to its variant and its displayed payload; only the undisplayed library causes are lost |
| Errors.DisplayPrefixedIsNoFixedText | src-tauri/src/error.rs:12-49 | A text that starts with one of the four parameterised prefixes is never one of the eight fixed messages |
| Errors.DisplayInjective | src-tauri/src/error.rs:9-49 | Two non-I/O errors with the same display text are the same error, up to the undisplayed causes |
| ServerErrors.IntoResponse | src-tauri/src/server/mod.rs:54-87 | The mapping gives 500 exactly for I/O, parse, send and processing errors and 400 exactly for InitWzFailed, NodeError and NodeTypeMismatch. It gives 403 exactly for NotInitialized and 404 exactly for NodeNotFound, and the body is always the display text |
| ServerErrors.StatusClassPartition | src-tauri/src/server/mod.rs:56-81 | An error's status is 4xx exactly when it is not a server fault and 5xx exactly when it is |
| ServerErrors.TransportsReportSameText | src-tauri/src/server/mod.rs:67-81 | The HTTP body equals the serialised error the commands return |
| Decimal.ParseI64 | src-tauri/src/handlers/json.rs:8 | A text is an i64 exactly when it is an optional sign and one or more ASCII digits whose value lies in the i64 range, and the result is that value |
| Decimal.NatTextDigits | src-tauri/src/handlers/json.rs:8-9 | The canonical text of a natural number is all digits and reads back as the number |
| Decimal.IntTextRoundTrip | src-tauri/src/handlers/json.rs:8-9 | Parsing the canonical text of any i64 gives it back |
| Decimal.NonDigitIsNoInteger | src-tauri/src/handlers/json.rs:8 | A text with a non-digit after the optional sign position is never an integer |
| JsonValue.NumberFromF64 | src-tauri/src/handlers/json.rs:13-16 | A float becomes a JSON number exactly when it is finite, and then with its value |
| JsonValue.InsertAll | src-tauri/src/handlers/json.rs:47-49 | Inserting entries in order yields the old keys plus the entries' keys; the last entry with a key wins, and keys no entry names keep their old values |
| SimpleJson.Coerce | src-tauri/src/handlers/json.rs:5-21 | A non-string is returned unchanged, and an i64 text becomes that integer before floats are tried. Otherwise a text becomes a number exactly when the float parse gives a finite value, and that value is the number's; anything else is returned as it came |
| SimpleJson.CoerceIdempotent | src-tauri/src/handlers/json.rs:5-21 | Coercing twice is coercing once |
| SimpleJson.CoerceIntegerText | src-tauri/src/handlers/json.rs:7-10 | The canonical text of any i64 becomes that integer, whatever the float parser would say |
| SimpleJson.CoerceAll | src-tauri/src/handlers/json.rs:46-50 | Coercing a field map keeps its keys and coerces each value |
| SimpleJson.ToSimpleJson | src-tauri/src/handlers/json.rs:23-76 | A node with children projects to an object that has a key for every child name; the recursion ends because it only descends into children |
| SimpleJson.MergedContents | src-tauri/src/handlers/json.rs:41-69 | Before `path` is added, the object's keys are the coerced image or sound fields plus the child names. Each child's projection sits under its name, and fields no child overrides keep their coerced value |
| SimpleJson.ProjectComposite | src-tauri/src/handlers/json.rs:38-75 | A composite's keys are its own fields, its child names, and `path` exactly for an image with no `_outlink` field or child. Children override fields, `path` overrides a child named `path`, and `path` holds the full path |
| SimpleJson.ProjectLeaf | src-tauri/src/handlers/json.rs:24-35 | A value leaf becomes its coerced scalar, an image or sound leaf its uncoerced fields, and any other leaf null |
| WzNode.ChildNamed | src-tauri/src/commands.rs:87 | A child lookup finds a node exactly when some child has that name, and the node found is that child |
| AudioSamples.NormalizeRange | src-tauri/src/handlers/audio.rs:113-140 | Every in-range sample normalises into [-1, 1); an unsigned 8-bit sample lands in [-1, 127/128] |
| AudioSamples.NormalizeInvertible | src-tauri/src/handlers/audio.rs:116-137 | For U8, S16 and S24, an in-range sample's float is a whole multiple of 2^-24 in [-1, 1), so an f32 holds it exactly, and the sample is recovered from it |
| AudioSamples.AppendBuffer | src-tauri/src/handlers/audio.rs:106-145 | The conversion keeps the number of channels of the planar buffer |
| AudioSamples.AppendBufferCharacterised | src-tauri/src/handlers/audio.rs:108-140 | A planar buffer that extends each channel by exactly that channel's converted samples is the appended buffer |
| AudioSamples.AppendKeepsChannelsAligned | src-tauri/src/handlers/audio.rs:108-143 | A well-formed supported buffer adds its frame count to every channel, so equal-length channels stay equal. An unsupported one adds nothing |
| AudioSamples.CopyBufferToPlanar | src-tauri/src/handlers/audio.rs:106-145 | The method keeps every channel's old samples and appends that channel's samples, converted with the format's offset and scale. It leaves the buffer unchanged for an unsupported format, and its result equals the reference `AppendBuffer` |
| AudioTranscode.SelectTrack | src-tauri/src/handlers/audio.rs:36-40 | The selected track is the first whose codec is not null, and there is none exactly when every codec is null |
| AudioTranscode.Run | src-tauri/src/handlers/audio.rs:56-77 | In the reference fold of the packet loop, every failure is an audio processing error: a fatal `next_packet` or decode error never surfaces as another variant |
| AudioTranscode.RunFailsIff | src-tauri/src/handlers/audio.rs:56-77 | The loop fails exactly when a fatal event comes before the first end-of-stream, and the error is that event's |
| AudioTranscode.RunKeepsChannels | src-tauri/src/handlers/audio.rs:53-77 | A successful loop ends with the same number of channels, each grown by the frames of the decoded packets before the end |
| AudioTranscode.RunIgnoresSkipped | src-tauri/src/handlers/audio.rs:60-74 | Other tracks' packets, corrupt-packet errors and reset requests have no effect: the loop gives the same result without them |
| AudioTranscode.DecodeLoop | src-tauri/src/handlers/audio.rs:53-77 | The imperative loop, starting from `channel_count` empty channels, computes exactly the reference fold |
| AudioTranscode.ConvertAudioToOgg | src-tauri/src/handlers/audio.rs:16-103 | Errors come in stage order: probe, missing track, decoder creation, unknown rate, unknown channels, the loop, then the encoder stages. Each has its own message and every failure is an audio processing error. On success the bytes are the encoder's, given the sample rate, the channel count truncated to a u8 and the collected samples. The result is exactly `Transcode`'s, and only inputs that would reach one of the source's panics are excluded |
| ExportGeometry.CalculateGlobalBounds | src/src/utils/exportUtils.js:21-52 | There is no box exactly when no frame has an image. Otherwise every image rectangle lies inside the box, each edge of the box is an edge of some image, and the anchor is the negated top-left corner |
| ExportGeometry.EvenUp | src/src/utils/exportUtils.js:68-69 | A padded size is even, at least the raw size and at most one more, and equals it when it is already even |
| ExportGeometry.EvenUpIdempotent | src/src/utils/exportUtils.js:113-114 | Padding twice is padding once, and halving a padded size is exact |
| ExportGeometry.EntriesFor | src/src/utils/exportUtils.js:145-152 | The output object has a key for exactly the ids of frames with an image, each holding the entry of the last such frame with that id |
| ExportGeometry.ExportTrimmed | src/src/utils/exportUtils.js:58-99 | Only frames with an image are emitted. The entry satisfies 2(x + shift_left) = padded width and 2(shift_up - y) = padded height, and it carries the frame's delay |
| ExportGeometry.PlacementFits | src/src/utils/exportUtils.js:131-132 | Drawn at its offset, an image of an enclosing box lies wholly on any canvas at least as large as the box |
| ExportGeometry.ExportEqualMode | src/src/utils/exportUtils.js:106-159 | Equal mode fails exactly when no frame has an image. Otherwise the layout's box encloses every image tightly, and the canvas is the box padded to even size. Each image is drawn at (-shift_left - min_x, -shift_up - min_y), so every frame's origin falls on the anchor, and each image lies wholly inside the canvas. Every entry has x = min_x + canvas_w / 2, y = -min_y - canvas_h / 2 and the canvas size, and carries its frame's delay |
| NodeController.Split | src-tauri/src/server/controller/node.rs:139 | Splitting gives at least one piece and no piece contains the separator |
| NodeController.SplitJoin | src-tauri/src/server/controller/node.rs:139 | Joining the pieces of a split gives the text back |
| NodeController.JoinSplit | src-tauri/src/server/controller/node.rs:139 | Splitting the join of separator-free pieces gives the pieces back |
| NodeController.KeepChildren | src-tauri/src/server/controller/node.rs:138-141 | A piece is kept exactly when it names a child of the root |
| NodeController.KeepChildrenCounts | src-tauri/src/server/controller/node.rs:138-141 | A piece that names a child is kept as often as it occurs; duplicates are not merged |
| NodeController.KeepChildrenAppend | src-tauri/src/server/controller/node.rs:138-141 | Filtering preserves query order: the filter of a concatenation is the concatenation of the filters |
| NodeController.ExtraPaths | src-tauri/src/server/controller/node.rs:134-142 | Only names of root children are loaded. An absent `path` is the empty text, whose single empty piece survives only if the root has a child with the empty name |
| NodeController.LoadExtraPaths | src-tauri/src/server/controller/node.rs:130-147 | The loader receives the comma pieces of `path` that name a child of the root, and its result is the route's. An absent parameter is split as the empty text, so the loader gets [""] when the root has a child named "" and nothing otherwise |
| NodeController.GetRaw | src-tauri/src/server/controller/node.rs:88-108 | The route succeeds exactly for raw-data and sound nodes. Raw data is preferred and a sound sends its buffer; anything else is NodeTypeMismatch("WzRaw or WzSound") |
| NodeController.GetOggSound | src-tauri/src/server/controller/node.rs:15-37 | A non-sound node is refused with NodeTypeMismatch("WzSound") before transcoding. For a sound node, the reply is exactly the transcoder's outcome on the node's own buffer: its bytes as audio/ogg with the public one-hour cache, or its error unchanged |
| NodeController.SoundRoutesAgree | src-tauri/src/server/controller/node.rs:19-25 | Every node the sound route accepts is served by the raw route with the same buffer; raw data is served raw but never transcoded |
| NodeController.GetJson | src-tauri/src/server/controller/node.rs:110-128 | `simple = Some(true)` gives the simplified projection. Otherwise the archive's own JSON is used, and its failure is a JSON parse error |
| NodeController.GetJsonDefault | src-tauri/src/server/controller/node.rs:114 | An absent `simple` flag behaves as `false` |
| NodeController.SendImage | src-tauri/src/server/controller/node.rs:45-59 | A resolution error passes through, and a failed WebP write is ImageSendError. Otherwise the WebP bytes are sent as image/webp |
| NodeController.GetImage | src-tauri/src/server/controller/node.rs:39-60 | The image route fails with the resolver's error, or with ImageSendError exactly when encoding fails. Otherwise it sends the WebP bytes as image/webp with max-age=3600, exactly as SendImage does |
| NodeController.GetImageUnparsed | src-tauri/src/server/controller/node.rs:62-86 | An image path the lookup cannot resolve is NodeNotFound; otherwise the found node and remaining path are resolved and sent |
| NodeController.Parse | src-tauri/src/server/controller/node.rs:149-161 | An unresolvable path is NodeNotFound and touches nothing. Otherwise exactly the node at the path is parsed, and the parser's own error is dropped |
| NodeController.Unparse | src-tauri/src/server/controller/node.rs:163-174 | An unresolvable path is NodeNotFound and touches nothing; otherwise exactly the node at the path is unparsed |
| NodeController.ParseUnparseAgree | src-tauri/src/commands.rs:145-176 | Parsing and unparsing agree on which paths exist, and each touches at most the node at the path |
| Commands.EncodeWebpAnim | src-tauri/src/commands.rs:19-69 | No frames gives empty bytes and builds no encoder, and an encoder-creation failure comes first. Frame k is added at the sum of the earlier delays; the first bad frame's fault (decode, then size, then add) is the error and nothing after it is added. Otherwise finalisation gets all timestamps and the total delay |
| Commands.TimestampsOrdered | src-tauri/src/commands.rs:39-60 | With no negative delay, frame timestamps never decrease |
| Commands.EndTimestamp | src-tauri/src/commands.rs:60-64 | The finalisation timestamp is the last frame's timestamp plus its delay |
| Commands.MapVersion | src-tauri/src/commands.rs:121-126 | An absent version stays absent; "GMS", "EMS" and "BMS" map to their variants and every other text to UNKNOWN |
| Commands.VersionNameRoundTrip | src-tauri/src/commands.rs:121-126 | The name of each known version maps back to that version |
| Commands.Init | src-tauri/src/commands.rs:100-143 | Re-opening the open file returns 0 with the root unchanged, and a failed resolve is InitWzFailed with the root unchanged. Otherwise the root becomes the resolved node and the result is its patch version, or 0 when it is not a file |
| Commands.InitTwice | src-tauri/src/commands.rs:108-119 | Once a file is opened from a path, opening the same path again, with any version, changes nothing and returns 0 |
| Commands.GetServerUrl | src-tauri/src/commands.rs:71-98 | The object has exactly the four keys. The url is the localhost prefix plus the port's canonical decimal digits, which read back as the port, and `is_initialized` means the root is not null. `is_load_items` means an `Item` child with children exists, and `patch_version` is null unless the root is a file |
| Commands.InfoOf | src-tauri/src/commands.rs:199-203 | The info carries the node's name and type, and `has_child` holds exactly when it has children |
| Commands.GetNodeInfo | src-tauri/src/commands.rs:178-204 | An empty path describes the root, and a path the lookup cannot resolve is NodeNotFound; otherwise the node found is described |
| Commands.GetChildsInfo | src-tauri/src/commands.rs:206-238 | The command fails with NodeNotFound exactly when the target is missing. Otherwise it gives one entry per child in child order, with the child's name, type and whether it has children |
| Commands.InfoAndChildrenAgree | src-tauri/src/commands.rs:185-237 | The two commands find the same nodes, and a node has children exactly when listing them gives some |

## Left out

- The archive reader (wz_reader) is represented by function parameters. This covers `at_path`, `get_full_path` (a node's `fullPath` field), `try_as_*` (the node's `Kind`), `parse_node`, `unparse` (the `Unparsed` touch it records), `to_json`, and `get_image_node_from_path`. Its own behaviour is not part of this model.
- `resolve_png` and `resolve_png_unparsed` are parameters of the image routes. `handlers/png.rs` is not part of this model, so no link-following limit is assumed.
- The codecs are parameters:
  - the symphonia probe and decoder, seen as a probe result plus a finite event sequence whose end is the end of the stream;
  - the Vorbis encoder, seen as one function with a failing stage;
  - the WebP animation encoder;
  - `image::load_from_memory`, seen as each frame's decoded size or error text.
- SimpleJson.Coerce: `str::parse::<f64>` is a parameter; its grammar and f64 rounding are not modelled.
- AudioSamples.CopyBufferToPlanar: samples are reals, so f32 rounding is not modelled. In f32 a large S32 sample rounds up to 1.0, outside the real-valued range [-1, 1).
- SimpleJson.ToSimpleJson: `to_value` of image and sound properties is treated as infallible. The fields are given as the JSON they serialise to, so the serialisation-error path is not modelled.
- Commands.GetNodeInfo: `serde_json::to_string` of the node type is treated as infallible and the type is given as the node's `Kind`. The JSON error path of `get_node_info` and the panic in `get_childs_info` are not modelled.
- Commands.EncodeWebpAnim: `i32` overflow of the timestamp sum is excluded by a precondition covering every prefix sum, including sums after a frame that would fail.
- Commands.EncodeWebpAnim: the pixels of each frame are not modelled. The encoder sees a frame by its index and timestamp, and finalisation sees the list of timestamps.
- Commands.GetServerUrl: the `u16` port is a natural number below 65536, and its decimal text is the canonical one.
- Commands.Init: `replace_root` is modelled as returning the new root; the shared store and its lock are not modelled.
- Panics become preconditions (AudioTranscode.NoPanic). `buf.chan(ch)` past the decoded planes is excluded only for buffers the loop converts before it stops (AudioSamples.Covers). A zero sample rate, or a channel count that truncates to a zero u8, is excluded only when the packet loop succeeds. The `as u8` truncation itself is modelled, since the encoder is given the channel count modulo 256.
- AudioSamples.NormalizeInvertible: stated only for U8, S16 and S24. An S32 sample needs up to 31 significant bits and f32 keeps 24, so the source's S32 conversion rounds and is not invertible. The model's reals do not show that rounding.
- ExportGeometry.CalculateGlobalBounds: origins and sizes are integers. `Math.ceil` of their differences is therefore the identity, and fractional origins are not modelled.
- ExportGeometry.ExportEqualMode: canvas drawing, `toBlob`, `writeFile` and directory handling are not modelled; only the arithmetic is. A rejection of `canvasToBuffer` or `writeFile` is not modelled.
- ExportGeometry.ExportTrimmed: canvas drawing, `canvasToBuffer`, `writeFile` and directory handling are not modelled either, nor a rejection of either await; only the offsets are.
- SimpleJson.ProjectLeaf: a raw-data node is assumed not to be a `WzObjectType::Value`, so it projects to `Null` through the catch-all arm. The archive reader's type definitions are not part of this model.
- Commands.GetServerUrl: `NullObject` is assumed to be the placeholder `is_null` recognises. The archive reader's `is_null` is not part of this model, so a `Value(Null)` root counts as initialised.
- Locking and async are not modelled: RwLock reads and writes, unwrap on a poisoned lock, and tokio.
- Server plumbing is not modelled: server start-up (`app`), the `hello` route, CORS, the middlewares and the route table.
- Response bodies are values. The JSON route's body is the JSON value, not its text.
- `encode_webp` only delegates to `handlers::webp`, which is not part of this model.
- The mobile-only `PluginInvoke` error variant is not modelled.
