/** The archive node tree as the handlers see it. Nodes are values: one node
    is a snapshot of a `WzNode` taken under its read lock. The archive reader
    that builds and resolves nodes is not part of this model; lookups that
    belong to it are passed to the operations as functions. */
module WzNode {
  import opened Wrappers
  import opened JsonValue

  /** The metadata of a node that is an archive file. */
  datatype FileMeta = FileMeta(path: string, patchVersion: int)

  /** The node's object type, reduced to what the handlers distinguish.
      `Value` carries the JSON value its scalar converts into; `Png` and
      `Sound` carry the JSON their property struct serialises to. */
  datatype Kind =
    | Value(value: Json)
    | Png(pngFields: Json)
    | Sound(soundFields: Json, soundBuffer: seq<byte>)
    | RawData(rawBuffer: seq<byte>)
    | File(meta: FileMeta)
    /** The placeholder object of a node that holds nothing, assumed to be
        the one the archive reader's `is_null` recognises (the root before
        any archive is opened). It is not `Value(Null)`, a property whose
        value is JSON null. */
    | NullObject
    | OtherKind(tag: string)

  /** A node: its name, the path `get_full_path` reports for it, its kind and
      its children in insertion order. A child is keyed by its own name. */
  datatype Node = Node(name: string, fullPath: string, kind: Kind, children: seq<Node>)

  predicate UniqueChildNames(n: Node) {
    forall i, j :: 0 <= i < j < |n.children| ==> n.children[i].name != n.children[j].name
  }

  predicate HasChildNamed(n: Node, name: string) {
    exists i :: 0 <= i < |n.children| && n.children[i].name == name
  }

  /** `children.get(name)` / `at(name)`: the child stored under that name. */
  function ChildNamed(n: Node, name: string): (r: Option<Node>)
    ensures r.Some? <==> HasChildNamed(n, name)
    ensures r.Some? ==> r.value in n.children && r.value.name == name
  {
    FirstNamed(n.children, name)
  }

  function FirstNamed(cs: seq<Node>, name: string): (r: Option<Node>)
    ensures r.Some? <==> exists i :: 0 <= i < |cs| && cs[i].name == name
    ensures r.Some? ==> r.value in cs && r.value.name == name
  {
    if |cs| == 0 then None
    else if cs[0].name == name then Some(cs[0])
    else
      var r := FirstNamed(cs[1..], name);
      assert forall i :: 1 <= i < |cs| ==> cs[i] == cs[1..][i - 1];
      r
  }
}
