/**
 * The pure collection transforms behind the optimistic updates of the memory store,
 * and the invariants they keep: unique ids, unique undirected pairs, closed graphs.
 */
module MemorySync {
  import opened Wrappers
  import opened Text
  import opened Lists
  import opened Types

  const StorageKey := "memolink_data"

  /**
   * The cache key of the current session: per user when a token is present and its
   * payload decodes, the shared legacy key otherwise.
   */
  function CacheKey(token: Option<string>, decode: string -> Option<TokenPayload>): (k: string) {
    if TruthyString(token) then
      match decode(token.value)
      case Some(payload) =>
        StorageKey + "_" + (if TruthyString(payload.sub) then payload.sub.value else "user")
      case None => StorageKey
    else StorageKey
  }

  /**
   * The shared key is used exactly when there is no token or it does not decode; otherwise
   * the key is the shared key, `_`, and the token's subject (or `user` when it has none).
   */
  lemma CacheKeyShape(token: Option<string>, decode: string -> Option<TokenPayload>)
    ensures CacheKey(token, decode) == StorageKey <==>
      !TruthyString(token) || decode(token.value).None?
    ensures CacheKey(token, decode) != StorageKey ==>
      var k := CacheKey(token, decode);
      var sub := decode(token.value).value.sub;
      |k| > |StorageKey| && k[..|StorageKey| + 1] == StorageKey + "_" &&
      k[|StorageKey| + 1..] == (if TruthyString(sub) then sub.value else "user")
  {
    var k := CacheKey(token, decode);
    if TruthyString(token) && decode(token.value).Some? {
      var sub := decode(token.value).value.sub;
      var tail := if TruthyString(sub) then sub.value else "user";
      assert k == (StorageKey + "_") + tail;
      assert |k| > |StorageKey|;
    }
  }

  /** Temporary id of an optimistic memory: `temp-<Date.now()>`. */
  function TempMemoryId(now: nat): string {
    "temp-" + NatToString(now)
  }

  /** Offline id of a memory: `Date.now().toString()`. */
  function OfflineMemoryId(now: nat): string {
    NatToString(now)
  }

  /** Temporary id of an optimistic connection: `temp-conn-<Date.now()>-<Math.random()>`. */
  function TempConnectionId(now: nat, nonce: string): string {
    "temp-conn-" + NatToString(now) + "-" + nonce
  }

  /** Offline id of a connection: `connection-<Date.now()>-<Math.random()>`. */
  function OfflineConnectionId(now: nat, nonce: string): string {
    "connection-" + NatToString(now) + "-" + nonce
  }

  /** The memory built from a draft by `addMemory`: given id and time, tags defaulting to `[]`. */
  function NewMemory(d: MemoryDraft, id: string, createdAt: Timestamp): (m: Memory)
    ensures m.id == id && m.createdAt == createdAt
    ensures m.tags.Some? && (d.tags.Some? ==> m.tags == d.tags) && (d.tags.None? ==> m.tags == Some([]))
    ensures m.title == d.title && m.description == d.description && m.image == d.image
    ensures m.position == d.position && m.date == d.date
  {
    Memory(id, d.title, d.description, d.image, createdAt, d.position,
           Some(d.tags.GetOr([])), d.date)
  }

  // ---- identifiers --------------------------------------------------------------------

  function DifferentIds(a: Memory, b: Memory): bool {
    a.id != b.id
  }

  function DifferentConnectionIds(a: Connection, b: Connection): bool {
    a.id != b.id
  }

  /** Two connections join the same two memories, in either direction. */
  predicate SamePair(a: Connection, b: Connection) {
    (a.source == b.source && a.target == b.target) || (a.source == b.target && a.target == b.source)
  }

  function DifferentPairs(a: Connection, b: Connection): bool {
    !SamePair(a, b)
  }

  /** No two memories share an id. */
  ghost predicate UniqueIds(ms: seq<Memory>) {
    Pairwise(ms, DifferentIds)
  }

  /** No two connections share an id. */
  ghost predicate UniqueConnectionIds(cs: seq<Connection>) {
    Pairwise(cs, DifferentConnectionIds)
  }

  /** No two connections join the same unordered pair of memories. */
  ghost predicate UniquePairs(cs: seq<Connection>) {
    Pairwise(cs, DifferentPairs)
  }

  /** The id occurs in the collection. */
  predicate HasId(ms: seq<Memory>, id: string) {
    exists i :: 0 <= i < |ms| && ms[i].id == id
  }

  predicate HasConnectionId(cs: seq<Connection>, id: string) {
    exists i :: 0 <= i < |cs| && cs[i].id == id
  }

  /** Every connection joins two memories of the collection. */
  ghost predicate ClosedGraph(ms: seq<Memory>, cs: seq<Connection>) {
    forall i :: 0 <= i < |cs| ==> HasId(ms, cs[i].source) && HasId(ms, cs[i].target)
  }

  // ---- memory transforms --------------------------------------------------------------

  /** `prev.map(m => m.id === id ? r : m)`. */
  function ReplaceById(ms: seq<Memory>, id: string, r: Memory): (out: seq<Memory>)
    ensures |out| == |ms|
    ensures forall i :: 0 <= i < |ms| ==> out[i] == if ms[i].id == id then r else ms[i]
  {
    if ms == [] then []
    else [if ms[0].id == id then r else ms[0]] + ReplaceById(ms[1..], id, r)
  }

  /** `prev.filter(m => m.id !== id)`. */
  function RemoveById(ms: seq<Memory>, id: string): (out: seq<Memory>)
    ensures IsSubsequence(out, ms)
    ensures forall m :: m in out <==> m in ms && m.id != id
    ensures !HasId(out, id)
  {
    var keep := (m: Memory) => m.id != id;
    FilterSpec(ms, keep);
    Filter(ms, keep)
  }

  /** `prev.map(m => m.id === id ? {...m, ...updates} : m)`. */
  function MergeById(ms: seq<Memory>, id: string, u: MemoryUpdate): (out: seq<Memory>)
    ensures |out| == |ms|
    ensures forall i :: 0 <= i < |ms| ==> out[i] == if ms[i].id == id then Merge(ms[i], u) else ms[i]
  {
    if ms == [] then []
    else [if ms[0].id == id then Merge(ms[0], u) else ms[0]] + MergeById(ms[1..], id, u)
  }

  /** `prev.map(m => m.id === id ? {...m, position} : m)`. */
  function SetPosition(ms: seq<Memory>, id: string, p: Position): (out: seq<Memory>)
    ensures |out| == |ms|
    ensures forall i :: 0 <= i < |ms| ==> out[i] == if ms[i].id == id then ms[i].(position := Some(p)) else ms[i]
  {
    if ms == [] then []
    else [if ms[0].id == id then ms[0].(position := Some(p)) else ms[0]] + SetPosition(ms[1..], id, p)
  }

  // ---- connection transforms ----------------------------------------------------------

  /** `connections.some(c => (c.source === s && c.target === t) || (c.source === t && c.target === s))`. */
  predicate ConnectionExists(cs: seq<Connection>, s: string, t: string) {
    exists i :: 0 <= i < |cs| && ((cs[i].source == s && cs[i].target == t) || (cs[i].source == t && cs[i].target == s))
  }

  /** `prev.map(c => c.id === id ? r : c)`. */
  function ReplaceConnectionById(cs: seq<Connection>, id: string, r: Connection): (out: seq<Connection>)
    ensures |out| == |cs|
    ensures forall i :: 0 <= i < |cs| ==> out[i] == if cs[i].id == id then r else cs[i]
  {
    if cs == [] then []
    else [if cs[0].id == id then r else cs[0]] + ReplaceConnectionById(cs[1..], id, r)
  }

  /** `prev.filter(c => c.id !== id)`. */
  function RemoveConnectionById(cs: seq<Connection>, id: string): (out: seq<Connection>)
    ensures IsSubsequence(out, cs)
    ensures forall c :: c in out <==> c in cs && c.id != id
  {
    var keep := (c: Connection) => c.id != id;
    FilterSpec(cs, keep);
    Filter(cs, keep)
  }

  /** `prev.filter(c => c.source !== id && c.target !== id)`: the cascade of a memory deletion. */
  function RemoveTouching(cs: seq<Connection>, id: string): (out: seq<Connection>)
    ensures IsSubsequence(out, cs)
    ensures forall c :: c in out <==> c in cs && c.source != id && c.target != id
  {
    var keep := (c: Connection) => c.source != id && c.target != id;
    FilterSpec(cs, keep);
    Filter(cs, keep)
  }

  /** The optimistic step of `addConnection`: append `source`→`target` with id `id` unless
      the pair is already joined in either direction. */
  function Connect(cs: seq<Connection>, source: string, target: string, id: string): (r: seq<Connection>)
    ensures ConnectionExists(cs, source, target) ==> r == cs
    ensures !ConnectionExists(cs, source, target) ==> r == cs + [Connection(id, source, target)]
    ensures ConnectionExists(r, source, target) && ConnectionExists(r, target, source)
    ensures UniquePairs(cs) ==> UniquePairs(r)
  {
    if ConnectionExists(cs, source, target) then
      assert ConnectionExists(cs, target, source);
      cs
    else
      var c := Connection(id, source, target);
      AppendedPairExists(cs, c);
      AppendKeepsUniquePairsIfUnique(cs, c);
      cs + [c]
  }

  /** Connecting `a` to `b` and then `b` to `a` leaves a single connection between them. */
  lemma ConnectBothWaysOnce(cs: seq<Connection>, a: string, b: string, id1: string, id2: string)
    ensures Connect(Connect(cs, a, b, id1), b, a, id2) == Connect(cs, a, b, id1)
  {
  }

  // ---- what the transforms keep ------------------------------------------------------

  /** Rolling back a failed create removes the optimistic item and nothing else. */
  lemma RollbackAppend(ms: seq<Memory>, m: Memory)
    requires !HasId(ms, m.id)
    ensures RemoveById(ms + [m], m.id) == ms
  {
    var keep := (x: Memory) => x.id != m.id;
    FilterConcat(ms, [m], keep);
    FilterAllPass(ms, keep);
    assert Filter([m], keep) == [];
  }

  /** Committing a create swaps the optimistic item for the server's and nothing else. */
  lemma CommitAppend(ms: seq<Memory>, m: Memory, server: Memory)
    requires !HasId(ms, m.id)
    ensures ReplaceById(ms + [m], m.id, server) == ms + [server]
  {
    var out := ReplaceById(ms + [m], m.id, server);
    forall i | 0 <= i < |ms| ensures out[i] == ms[i] {
      assert (ms + [m])[i] == ms[i];
    }
  }

  lemma AppendKeepsUniqueIds(ms: seq<Memory>, m: Memory)
    requires UniqueIds(ms) && !HasId(ms, m.id)
    ensures UniqueIds(ms + [m])
  {
    var out := ms + [m];
    forall i, j | 0 <= i < j < |out| ensures DifferentIds(out[i], out[j]) {
      if j < |ms| {
        assert DifferentIds(ms[i], ms[j]);
      }
    }
  }

  lemma RemoveKeepsUniqueIds(ms: seq<Memory>, id: string)
    requires UniqueIds(ms)
    ensures UniqueIds(RemoveById(ms, id))
  {
    PairwiseSubsequence(RemoveById(ms, id), ms, DifferentIds);
  }

  /** With unique ids, replacing the item `id` by one whose id is `id` or fresh keeps ids unique. */
  lemma ReplaceKeepsUniqueIds(ms: seq<Memory>, id: string, r: Memory)
    requires UniqueIds(ms) && (r.id == id || !HasId(ms, r.id))
    ensures UniqueIds(ReplaceById(ms, id, r))
  {
    var out := ReplaceById(ms, id, r);
    forall i, j | 0 <= i < j < |out| ensures DifferentIds(out[i], out[j]) {
      assert DifferentIds(ms[i], ms[j]);
    }
  }

  /** A merge that does not set a foreign id keeps ids unique. */
  lemma MergeKeepsUniqueIds(ms: seq<Memory>, id: string, u: MemoryUpdate)
    requires UniqueIds(ms)
    requires u.id.None? || u.id.value == id || !HasId(ms, u.id.value)
    ensures UniqueIds(MergeById(ms, id, u))
  {
    var out := MergeById(ms, id, u);
    forall i, j | 0 <= i < j < |out| ensures DifferentIds(out[i], out[j]) {
      var a, b := ms[i], ms[j];
      assert DifferentIds(a, b);
      var ai := if a.id == id then u.id.GetOr(a.id) else a.id;
      var bi := if b.id == id then u.id.GetOr(b.id) else b.id;
      assert out[i].id == ai && out[j].id == bi;
      if u.id.Some? && u.id.value != id {
        assert !(ms[i].id == u.id.value) && !(ms[j].id == u.id.value);
      }
    }
  }

  /** Moving a node changes no id. */
  lemma SetPositionKeepsIds(ms: seq<Memory>, id: string, p: Position)
    ensures forall i :: 0 <= i < |ms| ==> SetPosition(ms, id, p)[i].id == ms[i].id
    ensures UniqueIds(ms) ==> UniqueIds(SetPosition(ms, id, p))
  {
    var out := SetPosition(ms, id, p);
    if UniqueIds(ms) {
      forall i, j | 0 <= i < j < |out| ensures DifferentIds(out[i], out[j]) {
        assert DifferentIds(ms[i], ms[j]);
      }
    }
  }

  /** Writing the same position twice is the same as writing it once. */
  lemma SetPositionIdempotent(ms: seq<Memory>, id: string, p: Position)
    ensures SetPosition(SetPosition(ms, id, p), id, p) == SetPosition(ms, id, p)
  {
  }

  /** Deleting a memory together with its connections keeps every connection's ends present. */
  lemma DeleteKeepsClosedGraph(ms: seq<Memory>, cs: seq<Connection>, id: string)
    requires ClosedGraph(ms, cs)
    ensures ClosedGraph(RemoveById(ms, id), RemoveTouching(cs, id))
  {
    var ms' := RemoveById(ms, id);
    var cs' := RemoveTouching(cs, id);
    forall i | 0 <= i < |cs'| ensures HasId(ms', cs'[i].source) && HasId(ms', cs'[i].target) {
      var c := cs'[i];
      assert c in cs;
      var k :| 0 <= k < |cs| && cs[k] == c;
      var a :| 0 <= a < |ms| && ms[a].id == c.source;
      var b :| 0 <= b < |ms| && ms[b].id == c.target;
      assert ms[a] in ms';
      assert ms[b] in ms';
    }
  }

  /**
   * A counterexample for the deletion without its cascade: removing `m` from a two-memory
   * store but keeping the connection `m`–`n` leaves that connection pointing at nothing.
   */
  lemma DeleteWithoutCascadeDangles(m: Memory, n: Memory, c: Connection)
    requires m.id != n.id && c.source == m.id && c.target == n.id
    ensures ClosedGraph([m, n], [c])
    ensures !ClosedGraph(RemoveById([m, n], m.id), [c])
  {
    assert [m, n][0].id == c.source && [m, n][1].id == c.target;
    assert [c][0].source == m.id;
  }

  lemma DeleteConnectionKeepsClosedGraph(ms: seq<Memory>, cs: seq<Connection>, id: string)
    requires ClosedGraph(ms, cs)
    ensures ClosedGraph(ms, RemoveConnectionById(cs, id))
  {
    var cs' := RemoveConnectionById(cs, id);
    forall i | 0 <= i < |cs'| ensures HasId(ms, cs'[i].source) && HasId(ms, cs'[i].target) {
      assert cs'[i] in cs;
    }
  }

  /** Appending a connection for a pair that is not yet joined keeps pairs unique. */
  lemma AppendKeepsUniquePairs(cs: seq<Connection>, c: Connection)
    requires UniquePairs(cs) && !ConnectionExists(cs, c.source, c.target)
    ensures UniquePairs(cs + [c])
  {
    var out := cs + [c];
    forall i, j | 0 <= i < j < |out| ensures DifferentPairs(out[i], out[j]) {
      if j < |cs| {
        assert DifferentPairs(cs[i], cs[j]);
      } else {
        assert out[i] == cs[i];
      }
    }
  }

  lemma AppendKeepsUniquePairsIfUnique(cs: seq<Connection>, c: Connection)
    requires !ConnectionExists(cs, c.source, c.target)
    ensures UniquePairs(cs) ==> UniquePairs(cs + [c])
  {
    if UniquePairs(cs) {
      AppendKeepsUniquePairs(cs, c);
    }
  }

  /** Once `source`–`target` is joined, both orientations count as existing. */
  lemma AppendedPairExists(cs: seq<Connection>, c: Connection)
    ensures ConnectionExists(cs + [c], c.source, c.target)
    ensures ConnectionExists(cs + [c], c.target, c.source)
  {
    assert (cs + [c])[|cs|] == c;
  }

  /** Removing connections keeps pairs and ids unique. */
  lemma RemoveKeepsUniqueConnections(cs: seq<Connection>, id: string)
    ensures UniquePairs(cs) ==> UniquePairs(RemoveConnectionById(cs, id)) && UniquePairs(RemoveTouching(cs, id))
    ensures UniqueConnectionIds(cs) ==>
      UniqueConnectionIds(RemoveConnectionById(cs, id)) && UniqueConnectionIds(RemoveTouching(cs, id))
  {
    if UniquePairs(cs) {
      PairwiseSubsequence(RemoveConnectionById(cs, id), cs, DifferentPairs);
      PairwiseSubsequence(RemoveTouching(cs, id), cs, DifferentPairs);
    }
    if UniqueConnectionIds(cs) {
      PairwiseSubsequence(RemoveConnectionById(cs, id), cs, DifferentConnectionIds);
      PairwiseSubsequence(RemoveTouching(cs, id), cs, DifferentConnectionIds);
    }
  }

  lemma RollbackAppendConnection(cs: seq<Connection>, c: Connection)
    requires !HasConnectionId(cs, c.id)
    ensures RemoveConnectionById(cs + [c], c.id) == cs
  {
    var keep := (x: Connection) => x.id != c.id;
    FilterConcat(cs, [c], keep);
    FilterAllPass(cs, keep);
    assert Filter([c], keep) == [];
  }

  lemma CommitAppendConnection(cs: seq<Connection>, c: Connection, server: Connection)
    requires !HasConnectionId(cs, c.id)
    ensures ReplaceConnectionById(cs + [c], c.id, server) == cs + [server]
  {
    var out := ReplaceConnectionById(cs + [c], c.id, server);
    forall i | 0 <= i < |cs| ensures out[i] == cs[i] {
      assert (cs + [c])[i] == cs[i];
    }
  }

  /** Every connection with id `id` joins the same two memories as `r`. */
  ghost predicate ReplacementKeepsPair(cs: seq<Connection>, id: string, r: Connection) {
    forall i :: 0 <= i < |cs| && cs[i].id == id ==> SamePair(cs[i], r)
  }

  /** Appending a connection with a fresh id keeps connection ids unique. */
  lemma AppendKeepsUniqueConnectionIds(cs: seq<Connection>, c: Connection)
    requires UniqueConnectionIds(cs) && !HasConnectionId(cs, c.id)
    ensures UniqueConnectionIds(cs + [c])
  {
    var out := cs + [c];
    forall i, j | 0 <= i < j < |out| ensures DifferentConnectionIds(out[i], out[j]) {
      if j < |cs| {
        assert DifferentConnectionIds(cs[i], cs[j]);
      }
    }
  }

  /** Replacing the connection `id` by one whose id is `id` or fresh keeps connection ids unique. */
  lemma ReplaceKeepsUniqueConnectionIds(cs: seq<Connection>, id: string, r: Connection)
    requires UniqueConnectionIds(cs) && (r.id == id || !HasConnectionId(cs, r.id))
    ensures UniqueConnectionIds(ReplaceConnectionById(cs, id, r))
  {
    var out := ReplaceConnectionById(cs, id, r);
    forall i, j | 0 <= i < j < |out| ensures DifferentConnectionIds(out[i], out[j]) {
      assert DifferentConnectionIds(cs[i], cs[j]);
    }
  }

  /** The server's connection for the same pair keeps pairs unique when ids are unique. */
  lemma ReplaceKeepsUniquePairs(cs: seq<Connection>, id: string, r: Connection)
    requires UniquePairs(cs) && UniqueConnectionIds(cs)
    requires ReplacementKeepsPair(cs, id, r)
    ensures UniquePairs(ReplaceConnectionById(cs, id, r))
  {
    var out := ReplaceConnectionById(cs, id, r);
    forall i, j | 0 <= i < j < |out| ensures DifferentPairs(out[i], out[j]) {
      assert DifferentPairs(cs[i], cs[j]);
      assert DifferentConnectionIds(cs[i], cs[j]);
    }
  }

  /** `deleteMemory`'s optimistic step keeps every invariant of the two collections. */
  lemma DeleteKeepsInvariants(ms: seq<Memory>, cs: seq<Connection>, id: string)
    ensures UniqueIds(ms) ==> UniqueIds(RemoveById(ms, id))
    ensures UniquePairs(cs) ==> UniquePairs(RemoveTouching(cs, id))
    ensures UniqueConnectionIds(cs) ==> UniqueConnectionIds(RemoveTouching(cs, id))
    ensures ClosedGraph(ms, cs) ==> ClosedGraph(RemoveById(ms, id), RemoveTouching(cs, id))
  {
    if UniqueIds(ms) {
      RemoveKeepsUniqueIds(ms, id);
    }
    RemoveKeepsUniqueConnections(cs, id);
    if ClosedGraph(ms, cs) {
      DeleteKeepsClosedGraph(ms, cs, id);
    }
  }
}
