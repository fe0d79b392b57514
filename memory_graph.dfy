/**
 * The graph page: the two-click connect mode, the select → confirm/cancel delete flow and
 * the wording of the delete confirmation. Calls into the store run their synchronous
 * optimistic step only, as the page does not wait for the server.
 */
module MemoryGraph {
  import opened Wrappers
  import opened Text
  import opened Types
  import opened MemorySync
  import opened MemoryContext

  /** A node or an edge of the canvas with the `selected` flag the canvas maintains. */
  datatype Selectable = Selectable(id: string, selected: bool)

  /** The ids recorded for deletion. */
  datatype DeleteTarget = DeleteTarget(nodes: seq<string>, edges: seq<string>)

  /** `items.filter(x => x.selected).map(x => x.id)`. */
  function SelectedIds(items: seq<Selectable>): (r: seq<string>)
    ensures |r| <= |items|
    ensures forall x :: x in r <==> exists i :: 0 <= i < |items| && items[i].selected && items[i].id == x
    ensures r == [] <==> forall i :: 0 <= i < |items| ==> !items[i].selected
  {
    if items == [] then []
    else
      var rest := SelectedIds(items[1..]);
      assert forall i :: 0 < i < |items| ==> items[i] == items[1..][i - 1];
      if items[0].selected then [items[0].id] + rest else rest
  }

  // ---- deleting several items -----------------------------------------------------------

  /** The connections left after deleting the edges `ids` one after another. */
  function WithoutConnections(cs: seq<Connection>, ids: seq<string>): (r: seq<Connection>)
    ensures forall c :: c in r <==> c in cs && c.id !in ids
  {
    if ids == [] then cs
    else RemoveConnectionById(WithoutConnections(cs, ids[..|ids| - 1]), ids[|ids| - 1])
  }

  /** The memories left after deleting the nodes `ids` one after another. */
  function WithoutMemories(ms: seq<Memory>, ids: seq<string>): (r: seq<Memory>)
    ensures forall m :: m in r <==> m in ms && m.id !in ids
  {
    if ids == [] then ms
    else RemoveById(WithoutMemories(ms, ids[..|ids| - 1]), ids[|ids| - 1])
  }

  /** The connections left after the cascades of deleting the nodes `ids` one after another. */
  function WithoutTouching(cs: seq<Connection>, ids: seq<string>): (r: seq<Connection>)
    ensures forall c :: c in r <==> c in cs && c.source !in ids && c.target !in ids
  {
    if ids == [] then cs
    else RemoveTouching(WithoutTouching(cs, ids[..|ids| - 1]), ids[|ids| - 1])
  }

  /** A deletion that empties the graph's selection keeps every connection's ends present. */
  lemma DeleteAllKeepsClosedGraph(ms: seq<Memory>, cs: seq<Connection>, edges: seq<string>, nodes: seq<string>)
    requires ClosedGraph(ms, cs)
    ensures ClosedGraph(WithoutMemories(ms, nodes), WithoutTouching(WithoutConnections(cs, edges), nodes))
  {
    var ms' := WithoutMemories(ms, nodes);
    var cs' := WithoutTouching(WithoutConnections(cs, edges), nodes);
    forall i | 0 <= i < |cs'| ensures HasId(ms', cs'[i].source) && HasId(ms', cs'[i].target) {
      var c := cs'[i];
      assert c in cs;
      var a :| 0 <= a < |ms| && ms[a].id == c.source;
      var b :| 0 <= b < |ms| && ms[b].id == c.target;
      assert ms[a] in ms' && ms[b] in ms';
    }
  }

  // ---- the confirmation text ------------------------------------------------------------

  /** `${n} memor${n > 1 ? 'ies' : 'y'}`. */
  function MemoryCount(n: nat): string {
    NatToString(n) + MemoryNoun(n)
  }

  function MemoryNoun(n: nat): string {
    if n > 1 then " memories" else " memory"
  }

  /** `${n} connection${n > 1 ? 's' : ''}`. */
  function ConnectionCount(n: nat): string {
    NatToString(n) + (if n > 1 then " connections" else " connection")
  }

  const Question := "Are you sure you want to delete "

  /** What the question asks to delete: the memory count, the connection count, or both. */
  function Items(n: nat, e: nat): string {
    if n > 0 && e > 0 then MemoryCount(n) + " and " + ConnectionCount(e)
    else if n > 0 then MemoryCount(n)
    else ConnectionCount(e)
  }

  /** The confirmation text for `n` memories and `e` connections. */
  function DeleteMessage(n: nat, e: nat): string {
    Question + Items(n, e) + "?"
  }

  /**
   * The items named start with the memory count whenever memories are selected, end with
   * the connection count whenever connections are, and hold nothing else but the " and "
   * between the two.
   */
  lemma DeleteMessageNamesCounts(n: nat, e: nat)
    requires n > 0 || e > 0
    ensures n > 0 ==>
      |MemoryCount(n)| <= |Items(n, e)| && Items(n, e)[..|MemoryCount(n)|] == MemoryCount(n)
    ensures e > 0 ==>
      |ConnectionCount(e)| <= |Items(n, e)| &&
      Items(n, e)[|Items(n, e)| - |ConnectionCount(e)|..] == ConnectionCount(e)
    ensures |Items(n, e)| ==
      (if n > 0 then |MemoryCount(n)| else 0) + (if n > 0 && e > 0 then 5 else 0) +
      (if e > 0 then |ConnectionCount(e)| else 0)
  {
    var m, c := MemoryCount(n), ConnectionCount(e);
    if n > 0 && e > 0 {
      Regroup("", m, " and ", c);
      StartOf(m, " and " + c);
      StartOf(m + " and ", c);
    }
  }

  /** The number in the text reads back as the count of selected memories. */
  lemma DeleteMessageCountReadsBack(n: nat, e: nat)
    requires n > 0
    ensures |Question| + |NatToString(n)| <= |DeleteMessage(n, e)|
    ensures DeleteMessage(n, e)[|Question|..|Question| + |NatToString(n)|] == NatToString(n)
  {
    var tail := if e > 0 then MemoryNoun(n) + " and " + ConnectionCount(e) else MemoryNoun(n);
    assert Items(n, e) == NatToString(n) + tail;
    Regroup(Question, NatToString(n), tail, "?");
    Middle(Question, NatToString(n), tail + "?");
  }

  lemma Regroup(q: string, d: string, t: string, r: string)
    ensures q + (d + t) + r == q + d + (t + r)
  {
  }

  lemma StartOf(a: string, b: string)
    ensures (a + b)[..|a|] == a && (a + b)[|a|..] == b
  {
  }

  lemma Middle(a: string, b: string, c: string)
    ensures (a + b + c)[|a|..|a| + |b|] == b
  {
    assert (a + b + c)[|a|..|a| + |b|] == (a + b + c)[..|a| + |b|][|a|..];
  }

  // ---- the page's interaction state ----------------------------------------------------

  class GraphView {
    var isConnectMode: bool
    /** The first node of a pending connection (`null` or an id). */
    var selectedNodeForConnect: Option<string>
    var selectedMemoryId: Option<string>
    var showDeleteConfirm: bool
    var deleteTarget: Option<DeleteTarget>

    constructor ()
      ensures !isConnectMode && selectedNodeForConnect == None && selectedMemoryId == None
      ensures !showDeleteConfirm && deleteTarget == None
    {
      isConnectMode := false;
      selectedNodeForConnect := None;
      selectedMemoryId := None;
      showDeleteConfirm := false;
      deleteTarget := None;
    }

    /**
     * `handleNodeClick`. In connect mode the first click records the pending node; the
     * second clears it, leaves connect mode and, for a different node, connects the two.
     * Outside connect mode the click only selects the memory.
     */
    method NodeClick(store: MemoryStore, nodeId: string, now: nat, nonce: string)
      modifies this, store
      ensures old(isConnectMode) && !TruthyString(old(selectedNodeForConnect)) ==>
        isConnectMode && selectedNodeForConnect == Some(nodeId) &&
        store.connections == old(store.connections)
      ensures old(isConnectMode) && TruthyString(old(selectedNodeForConnect)) ==>
        !isConnectMode && selectedNodeForConnect == None &&
        (old(selectedNodeForConnect) == Some(nodeId) ==> store.connections == old(store.connections)) &&
        (old(selectedNodeForConnect) != Some(nodeId) ==>
          store.connections == Connect(old(store.connections), old(selectedNodeForConnect).value, nodeId,
                                       old(store.NewConnectionId(now, nonce))))
      ensures !old(isConnectMode) ==>
        selectedMemoryId == Some(nodeId) && isConnectMode == old(isConnectMode) &&
        selectedNodeForConnect == old(selectedNodeForConnect) && store.connections == old(store.connections)
      ensures old(isConnectMode) ==> selectedMemoryId == old(selectedMemoryId)
      ensures showDeleteConfirm == old(showDeleteConfirm) && deleteTarget == old(deleteTarget)
      ensures store.memories == old(store.memories) && store.darkMode == old(store.darkMode)
      ensures store.token == old(store.token) && store.cache == old(store.cache)
    {
      if isConnectMode {
        if !TruthyString(selectedNodeForConnect) {
          selectedNodeForConnect := Some(nodeId);
        } else {
          if selectedNodeForConnect != Some(nodeId) {
            var _ := store.BeginAddConnection(selectedNodeForConnect.value, nodeId, now, nonce);
          }
          selectedNodeForConnect := None;
          isConnectMode := false;
        }
      } else {
        selectedMemoryId := Some(nodeId);
      }
    }

    /** The connect button flips connect mode and drops any pending node. */
    method ToggleConnectMode()
      modifies this
      ensures isConnectMode == !old(isConnectMode) && selectedNodeForConnect == None
      ensures selectedMemoryId == old(selectedMemoryId)
      ensures showDeleteConfirm == old(showDeleteConfirm) && deleteTarget == old(deleteTarget)
    {
      isConnectMode := !isConnectMode;
      selectedNodeForConnect := None;
    }

    /** `handleDelete`: records the selected nodes and edges and asks for confirmation. */
    method HandleDelete(nodes: seq<Selectable>, edges: seq<Selectable>)
      modifies this
      ensures SelectedIds(nodes) == [] && SelectedIds(edges) == [] ==>
        showDeleteConfirm == old(showDeleteConfirm) && deleteTarget == old(deleteTarget)
      ensures SelectedIds(nodes) != [] || SelectedIds(edges) != [] ==>
        showDeleteConfirm && deleteTarget == Some(DeleteTarget(SelectedIds(nodes), SelectedIds(edges)))
      ensures isConnectMode == old(isConnectMode) && selectedNodeForConnect == old(selectedNodeForConnect)
      ensures selectedMemoryId == old(selectedMemoryId)
    {
      var selectedNodes := SelectedIds(nodes);
      var selectedEdges := SelectedIds(edges);
      if selectedNodes == [] && selectedEdges == [] {
        return;
      }
      deleteTarget := Some(DeleteTarget(selectedNodes, selectedEdges));
      showDeleteConfirm := true;
    }

    /** `confirmDelete`: every recorded edge, then every recorded node, then the target is cleared. */
    method ConfirmDelete(store: MemoryStore)
      modifies this, store
      ensures old(deleteTarget).None? ==>
        store.memories == old(store.memories) && store.connections == old(store.connections) &&
        showDeleteConfirm == old(showDeleteConfirm) && deleteTarget == None
      ensures old(deleteTarget).Some? ==>
        var t := old(deleteTarget).value;
        store.memories == WithoutMemories(old(store.memories), t.nodes) &&
        store.connections == WithoutTouching(WithoutConnections(old(store.connections), t.edges), t.nodes) &&
        !showDeleteConfirm && deleteTarget == None
      ensures store.darkMode == old(store.darkMode) && store.token == old(store.token) && store.cache == old(store.cache)
      ensures isConnectMode == old(isConnectMode) && selectedNodeForConnect == old(selectedNodeForConnect)
      ensures selectedMemoryId == old(selectedMemoryId)
    {
      if deleteTarget.None? {
        return;
      }
      var t := deleteTarget.value;
      DeleteEdges(store, t.edges);
      DeleteNodes(store, t.nodes);
      deleteTarget := None;
      showDeleteConfirm := false;
    }

    /** `edges.forEach(edgeId => deleteConnection(edgeId))`. */
    static method DeleteEdges(store: MemoryStore, edges: seq<string>)
      modifies store
      ensures store.connections == WithoutConnections(old(store.connections), edges)
      ensures store.memories == old(store.memories) && store.darkMode == old(store.darkMode)
      ensures store.token == old(store.token) && store.cache == old(store.cache)
    {
      var i := 0;
      while i < |edges|
        invariant 0 <= i <= |edges|
        invariant store.connections == WithoutConnections(old(store.connections), edges[..i])
        invariant store.memories == old(store.memories) && store.darkMode == old(store.darkMode)
        invariant store.token == old(store.token) && store.cache == old(store.cache)
      {
        var _ := store.BeginDeleteConnection(edges[i]);
        assert edges[..i + 1][..i] == edges[..i];
        i := i + 1;
      }
      assert edges[..i] == edges;
    }

    /** `nodes.forEach(nodeId => deleteMemory(nodeId))`. */
    static method DeleteNodes(store: MemoryStore, nodes: seq<string>)
      modifies store
      ensures store.memories == WithoutMemories(old(store.memories), nodes)
      ensures store.connections == WithoutTouching(old(store.connections), nodes)
      ensures store.darkMode == old(store.darkMode)
      ensures store.token == old(store.token) && store.cache == old(store.cache)
    {
      var j := 0;
      while j < |nodes|
        invariant 0 <= j <= |nodes|
        invariant store.memories == WithoutMemories(old(store.memories), nodes[..j])
        invariant store.connections == WithoutTouching(old(store.connections), nodes[..j])
        invariant store.darkMode == old(store.darkMode)
        invariant store.token == old(store.token) && store.cache == old(store.cache)
      {
        var _ := store.BeginDeleteMemory(nodes[j]);
        assert nodes[..j + 1][..j] == nodes[..j];
        j := j + 1;
      }
      assert nodes[..j] == nodes;
    }

    /** `cancelDelete`: the target is dropped and nothing is deleted. */
    method CancelDelete()
      modifies this
      ensures deleteTarget == None && !showDeleteConfirm
      ensures isConnectMode == old(isConnectMode) && selectedNodeForConnect == old(selectedNodeForConnect)
      ensures selectedMemoryId == old(selectedMemoryId)
    {
      deleteTarget := None;
      showDeleteConfirm := false;
    }
  }
}
