/** Importing exported fragments (floating_subgraph.py): validation of the stream, and the hot
    patch that imports each stream once. */
module FloatingImport {
  import opened Common

  // A record of the nodes list: malformed, or naming its node. Edge records are kept as they are.
  datatype NodeRecord = Malformed | NodeRecord(id: int, body: Bytes)
  datatype EdgeRecord = MalformedEdge | EdgeRecord(body: Bytes)

  datatype Content = Content(nodes: seq<NodeRecord>, edges: seq<EdgeRecord>, keysPresent: bool, pointersOnly: bool)

  datatype Envelope = Envelope(magic: Bytes, version: int, digest: Bytes, content: Option<Content>)

  // JSON and SHA-256 as parameters: reading an envelope, and the canonical bytes of a content and
  // of a whole stream.
  datatype Env = Env(
    read: Bytes -> Option<Envelope>, magic: Bytes, version: int,
    contentBytes: Content -> Bytes, streamBytes: Content -> Bytes, sha256: Bytes -> Bytes)
  {
    // What encode_stream writes reads back as the envelope it wrote.
    ghost predicate RoundTrips() {
      forall c :: read(streamBytes(c)) == Some(Envelope(magic, version, sha256(contentBytes(c)), Some(c)))
    }
  }

  datatype Error =
    InvalidStream | InvalidMagic | UnsupportedVersion | MissingContent | ContentDigest | NotCanonical
    | MissingKey | PayloadPolicy | InvalidNode | InvalidEdge

  function DecodeStream(env: Env, stream: Bytes): Result<Content, Error> {
    match env.read(stream)
    case None => Err(InvalidStream)
    case Some(e) =>
      if e.magic != env.magic then Err(InvalidMagic)
      else if e.version != env.version then Err(UnsupportedVersion)
      else match e.content
        case None => Err(MissingContent)
        case Some(c) =>
          if e.digest != env.sha256(env.contentBytes(c)) then Err(ContentDigest)
          else if env.sha256(env.streamBytes(c)) != env.sha256(stream) then Err(NotCanonical)
          else Ok(c)
  }

  function ImportStream(env: Env, stream: Bytes): Result<Content, Error> {
    match DecodeStream(env, stream)
    case Err(e) => Err(e)
    case Ok(c) => if !c.keysPresent then Err(MissingKey) else if !c.pointersOnly then Err(PayloadPolicy) else Ok(c)
  }

  /** decode_stream gives back what encode_stream was given. */
  lemma DecodeOfEncode(env: Env, c: Content)
    requires env.RoundTrips()
    ensures DecodeStream(env, env.streamBytes(c)) == Ok(c)
  {
    assert env.read(env.streamBytes(c)) == Some(Envelope(env.magic, env.version, env.sha256(env.contentBytes(c)), Some(c)));
  }

  // What an import target holds.
  datatype Target = Target(nodes: map<int, Bytes>, edges: seq<EdgeRecord>, hashes: set<Bytes>)

  // Nodes up to the first malformed one, later records of a node replacing earlier ones.
  function AddNodes(nodes: map<int, Bytes>, rs: seq<NodeRecord>): (map<int, Bytes>, bool)
    decreases |rs|
  {
    if |rs| == 0 then (nodes, true)
    else if rs[0].Malformed? then (nodes, false)
    else AddNodes(nodes[rs[0].id := rs[0].body], rs[1..])
  }

  function AddEdges(edges: seq<EdgeRecord>, rs: seq<EdgeRecord>): (seq<EdgeRecord>, bool)
    decreases |rs|
  {
    if |rs| == 0 then (edges, true)
    else if rs[0].MalformedEdge? then (edges, false)
    else AddEdges(edges + [rs[0]], rs[1..])
  }

  datatype Outcome = Imported(nodeCount: nat, edgeCount: int) | AlreadyImported | Failed(error: Error)

  // One import: the new target and how it went; a malformed record leaves what came before it.
  function Import(env: Env, t: Target, stream: Bytes): (Target, Outcome) {
    match ImportStream(env, stream)
    case Err(e) => (t, Failed(e))
    case Ok(c) =>
      var hash := env.sha256(stream);
      if hash in t.hashes then (t, AlreadyImported)
      else
        var (nodes, nodesOk) := AddNodes(t.nodes, c.nodes);
        if !nodesOk then (t.(nodes := nodes), Failed(InvalidNode))
        else
          var (edges, edgesOk) := AddEdges(t.edges, c.edges);
          if !edgesOk then (t.(nodes := nodes, edges := edges), Failed(InvalidEdge))
          else (Target(nodes, edges, t.hashes + {hash}), Imported(|c.nodes|, |edges| - |t.edges|))
  }

  // Imports in order, stopping at the first failure.
  function ImportAll(env: Env, t: Target, streams: seq<Bytes>): (Target, Option<Error>)
    decreases |streams|
  {
    if |streams| == 0 then (t, None)
    else
      var (t', outcome) := Import(env, t, streams[0]);
      if outcome.Failed? then (t', Some(outcome.error)) else ImportAll(env, t', streams[1..])
  }

  // The list with every stream that occurred before removed.
  function WithoutRepeats(streams: seq<Bytes>, seen: set<Bytes>): seq<Bytes>
    decreases |streams|
  {
    if |streams| == 0 then []
    else if streams[0] in seen then WithoutRepeats(streams[1..], seen)
    else [streams[0]] + WithoutRepeats(streams[1..], seen + {streams[0]})
  }

  // Streams that came through before: they validate, and their digest is known.
  ghost predicate Known(env: Env, t: Target, seen: set<Bytes>) {
    forall s | s in seen :: ImportStream(env, s).Ok? && env.sha256(s) in t.hashes
  }

  lemma ImportKeepsKnown(env: Env, t: Target, stream: Bytes, seen: set<Bytes>)
    requires Known(env, t, seen) && !Import(env, t, stream).1.Failed?
    ensures Known(env, Import(env, t, stream).0, seen + {stream})
  {
    hide ImportStream, AddNodes, AddEdges;
  }

  /** Importing a stream list with repeats equals importing it with later repeats removed: the same
      target and the same failure, if any, whether or not different streams share a digest. */
  lemma {:induction false} RepeatsDoNotMatter(env: Env, t: Target, streams: seq<Bytes>, seen: set<Bytes>)
    requires Known(env, t, seen)
    ensures ImportAll(env, t, streams) == ImportAll(env, t, WithoutRepeats(streams, seen))
    decreases |streams|
  {
    hide ImportStream, Import, Known;
    if |streams| > 0 {
      var s := streams[0];
      if s in seen {
        ImportRepeat(env, t, s, seen);
        RepeatsDoNotMatter(env, t, streams[1..], seen);
      } else {
        var kept := WithoutRepeats(streams[1..], seen + {s});
        assert ([s] + kept)[1..] == kept;
        if !Import(env, t, s).1.Failed? {
          ImportKeepsKnown(env, t, s, seen);
          RepeatsDoNotMatter(env, Import(env, t, s).0, streams[1..], seen + {s});
        }
      }
    }
  }

  lemma ImportRepeat(env: Env, t: Target, s: Bytes, seen: set<Bytes>)
    requires Known(env, t, seen) && s in seen
    ensures Import(env, t, s) == (t, AlreadyImported)
  {
    hide ImportStream, AddNodes, AddEdges;
  }

  /** From any target: a repeated list imports as its distinct streams do. */
  lemma ImportListOnce(env: Env, t: Target, streams: seq<Bytes>)
    ensures ImportAll(env, t, streams) == ImportAll(env, t, WithoutRepeats(streams, {}))
  {
    RepeatsDoNotMatter(env, t, streams, {});
  }

  /** A successful import adds exactly the stream's nodes, last record per node, and appends
      exactly its edges. */
  lemma {:induction false} AddNodesExactly(nodes: map<int, Bytes>, rs: seq<NodeRecord>, k: int)
    requires AddNodes(nodes, rs).1
    ensures k in AddNodes(nodes, rs).0 <==> (k in nodes || exists i :: 0 <= i < |rs| && rs[i].NodeRecord? && rs[i].id == k)
    ensures (forall i | 0 <= i < |rs| && rs[i].NodeRecord? :: rs[i].id != k) && k in nodes ==> AddNodes(nodes, rs).0[k] == nodes[k]
    ensures forall i | 0 <= i < |rs| && rs[i].NodeRecord? && rs[i].id == k
      && (forall j | i < j < |rs| && rs[j].NodeRecord? :: rs[j].id != k) :: AddNodes(nodes, rs).0[k] == rs[i].body
    decreases |rs|
  {
    if |rs| > 0 {
      var nodes' := nodes[rs[0].id := rs[0].body];
      var rest := rs[1..];
      AddNodesExactly(nodes', rest, k);
      assert forall i | 0 < i < |rs| :: rs[i] == rest[i - 1];
      if i :| 0 <= i < |rest| && rest[i].NodeRecord? && rest[i].id == k { assert rs[i + 1].id == k; }
    }
  }

  lemma {:induction false} AddEdgesExactly(edges: seq<EdgeRecord>, rs: seq<EdgeRecord>)
    ensures AddEdges(edges, rs).1 <==> MalformedEdge !in rs
    ensures AddEdges(edges, rs).1 ==> AddEdges(edges, rs).0 == edges + rs
    decreases |rs|
  {
    if |rs| > 0 {
      AddEdgesExactly(edges + [rs[0]], rs[1..]);
      assert rs == [rs[0]] + rs[1..];
    } else {
      assert edges + [] == edges;
    }
  }

  /** A stream is accepted exactly when it reads as an envelope of the right magic and version around a content whose
      digest it carries, is the canonical stream of that content by its digest, has all its keys and holds pointers only. */
  lemma AcceptedIff(env: Env, stream: Bytes, c: Content)
    ensures ImportStream(env, stream) == Ok(c) <==>
      && env.read(stream) == Some(Envelope(env.magic, env.version, env.sha256(env.contentBytes(c)), Some(c)))
      && env.sha256(env.streamBytes(c)) == env.sha256(stream)
      && c.keysPresent && c.pointersOnly
  {
  }

  lemma {:induction false} AddNodesFails(nodes: map<int, Bytes>, rs: seq<NodeRecord>)
    ensures AddNodes(nodes, rs).1 <==> Malformed !in rs
    decreases |rs|
  {
    if |rs| > 0 {
      assert rs == [rs[0]] + rs[1..];
      if rs[0].NodeRecord? { AddNodesFails(nodes[rs[0].id := rs[0].body], rs[1..]); }
    }
  }

  /** How an accepted stream imports: not again once its digest is known; otherwise it fails on a malformed node
      record, then on a malformed edge record, and else adds its edges, remembers its digest and reports the counts. */
  lemma ImportedExactly(env: Env, t: Target, stream: Bytes, c: Content)
    requires ImportStream(env, stream) == Ok(c)
    ensures var (t', outcome) := Import(env, t, stream);
      && (env.sha256(stream) in t.hashes ==> t' == t && outcome == AlreadyImported)
      && (env.sha256(stream) !in t.hashes ==>
            && (outcome == Failed(InvalidNode) <==> Malformed in c.nodes)
            && (outcome == Failed(InvalidEdge) <==> Malformed !in c.nodes && MalformedEdge in c.edges)
            && (outcome.Imported? <==> Malformed !in c.nodes && MalformedEdge !in c.edges)
            && (outcome.Imported? ==>
                  && outcome == Imported(|c.nodes|, |c.edges|) && t'.edges == t.edges + c.edges
                  && t'.nodes == AddNodes(t.nodes, c.nodes).0 && t'.hashes == t.hashes + {env.sha256(stream)})
            && (!outcome.Imported? ==> t'.hashes == t.hashes))
  {
    hide ImportStream, AddNodes, AddEdges;
    AddNodesFails(t.nodes, c.nodes);
    AddEdgesExactly(t.edges, c.edges);
  }

  class SyntheticHotSnapshot {
    var importedNodes: map<int, Bytes>
    var importedEdges: seq<EdgeRecord>
    var importedStreamHashes: set<Bytes>

    constructor ()
      ensures Holds() == Target(map[], [], {})
    {
      importedNodes, importedEdges, importedStreamHashes := map[], [], {};
    }

    function Holds(): Target
      reads this
    {
      Target(importedNodes, importedEdges, importedStreamHashes)
    }

    /** hot_patch_subgraph. */
    method HotPatch(env: Env, stream: Bytes) returns (outcome: Outcome)
      modifies this
      ensures (Holds(), outcome) == Import(env, old(Holds()), stream)
    {
      hide ImportStream;
      var content := ImportStream(env, stream);
      if content.Err? {
        return Failed(content.error);
      }
      var hash := env.sha256(stream);
      if hash in importedStreamHashes {
        return AlreadyImported;
      }
      var nodes, edges := content.value.nodes, content.value.edges;
      ghost var nodesBefore, edgesBefore := importedNodes, importedEdges;
      var beforeEdges := |importedEdges|;
      assert nodes[0..] == nodes && edges[0..] == edges;
      for i := 0 to |nodes|
        invariant AddNodes(importedNodes, nodes[i..]) == AddNodes(nodesBefore, nodes)
        invariant importedEdges == edgesBefore && importedStreamHashes == old(importedStreamHashes)
      {
        assert nodes[i..][1..] == nodes[i + 1..];
        if nodes[i].Malformed? {
          return Failed(InvalidNode);
        }
        importedNodes := importedNodes[nodes[i].id := nodes[i].body];
      }
      assert AddNodes(nodesBefore, nodes) == (importedNodes, true);
      ghost var nodesAfter := importedNodes;
      for i := 0 to |edges|
        invariant AddEdges(importedEdges, edges[i..]) == AddEdges(edgesBefore, edges)
        invariant importedNodes == nodesAfter && importedStreamHashes == old(importedStreamHashes)
      {
        assert edges[i..][1..] == edges[i + 1..];
        if edges[i].MalformedEdge? {
          return Failed(InvalidEdge);
        }
        importedEdges := importedEdges + [edges[i]];
      }
      assert AddEdges(edgesBefore, edges) == (importedEdges, true);
      importedStreamHashes := importedStreamHashes + {hash};
      return Imported(|nodes|, |importedEdges| - beforeEdges);
    }
  }
}
