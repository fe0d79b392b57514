/**
 * The client-side store of memories and connections. Every mutation first applies an
 * optimistic local change; once the server answers, the change is either committed
 * (the server's record replaces the optimistic one) or rolled back to a snapshot.
 *
 * Each asynchronous operation is split into its synchronous begin step and its outcome
 * steps (`Commit…`, `Fail…`); the method named after the operation runs one begin
 * followed by the outcome the server's `response` selects. `Date.now()`, `new Date()`
 * and `Math.random()` arrive as the parameters `now`, `createdAt` and `nonce`.
 */
module MemoryContext {
  import opened Wrappers
  import opened Types
  import opened MemorySync

  /** The server's answer to a request: its record, or an error that is rethrown. */
  type Response<T> = Result<T, string>

  /** What the store reads back from a cache entry, with the `|| []` and `|| false` fallbacks. */
  function CachedState(cache: map<string, Option<AppState>>, key: string): (r: (seq<Memory>, seq<Connection>, bool))
    ensures key !in cache || cache[key].None? ==> r == ([], [], false)
  {
    if key in cache && cache[key].Some? then
      var data := cache[key].value;
      (data.memories.GetOr([]), data.connections.GetOr([]), data.darkMode == Some(true))
    else ([], [], false)
  }

  /** The state written by the backup effect is the state read back by the next start. */
  lemma CacheRoundTrip(cache: map<string, Option<AppState>>, key: string,
                       ms: seq<Memory>, cs: seq<Connection>, dark: bool)
    ensures CachedState(cache[key := Some(AppState(Some(ms), Some(cs), Some(dark)))], key) == (ms, cs, dark)
  {
  }

  class MemoryStore {
    var memories: seq<Memory>
    var connections: seq<Connection>
    var darkMode: bool
    /** The `memolink_token` entry of browser storage. */
    var token: Option<string>
    /** The remaining storage entries by key; `None` marks text that is not valid JSON. */
    var cache: map<string, Option<AppState>>
    /** Decoding of a token's payload; `None` when decoding throws. */
    const decode: string -> Option<TokenPayload>

    /** The requests go to the server only while a token is stored. */
    predicate HasSession()
      reads this
    {
      TruthyString(token)
    }

    function Key(): string
      reads this
    {
      CacheKey(token, decode)
    }

    /**
     * The server's edge for `source`–`target` can join the collection: its id is not yet
     * taken and it joins the same two memories.
     */
    ghost predicate ServerConnectionFits(cs: seq<Connection>, source: string, target: string, server: Connection) {
      !HasConnectionId(cs, server.id) && SamePair(server, Connection(server.id, source, target))
    }

    /** The id a new connection gets: temporary while logged in, final offline. */
    function NewConnectionId(now: nat, nonce: string): string
      reads this
    {
      if HasSession() then TempConnectionId(now, nonce) else OfflineConnectionId(now, nonce)
    }

    /** Ids and undirected pairs are unique. */
    ghost predicate Valid()
      reads this
    {
      UniqueIds(memories) && UniqueConnectionIds(connections) && UniquePairs(connections)
    }

    /** Start-up: the three state fields come from the cache entry of the current key. */
    constructor (token: Option<string>, cache: map<string, Option<AppState>>,
                 decode: string -> Option<TokenPayload>)
      ensures this.token == token && this.cache == cache && this.decode == decode
      ensures (memories, connections, darkMode) == CachedState(cache, CacheKey(token, decode))
    {
      this.token := token;
      this.cache := cache;
      this.decode := decode;
      var loaded := CachedState(cache, CacheKey(token, decode));
      memories := loaded.0;
      connections := loaded.1;
      darkMode := loaded.2;
    }

    /** The backup effect: while logged in, the state is written under the current key. */
    method PersistCache()
      modifies this
      ensures HasSession() ==> cache == old(cache)[Key() := Some(AppState(Some(memories), Some(connections), Some(darkMode)))]
      ensures !HasSession() ==> cache == old(cache)
      ensures memories == old(memories) && connections == old(connections)
      ensures darkMode == old(darkMode) && token == old(token)
    {
      if HasSession() {
        cache := cache[Key() := Some(AppState(Some(memories), Some(connections), Some(darkMode)))];
      }
    }

    // ---- addMemory ------------------------------------------------------------------

    /**
     * Appends the new memory: with a temporary id `temp-<now>` while logged in (returning
     * that id for the outcome step), with id `<now>` offline. Earlier items stay as they were.
     */
    method BeginAddMemory(draft: MemoryDraft, now: nat, createdAt: Timestamp) returns (pending: Option<string>)
      modifies this
      ensures HasSession() ==> pending == Some(TempMemoryId(now))
      ensures !HasSession() ==> pending == None
      ensures memories == old(memories) +
        [NewMemory(draft, if HasSession() then TempMemoryId(now) else OfflineMemoryId(now), createdAt)]
      ensures connections == old(connections) && darkMode == old(darkMode)
      ensures token == old(token) && cache == old(cache)
      ensures old(Valid()) && !HasId(old(memories), memories[|memories| - 1].id) ==> Valid()
    {
      var id := if HasSession() then TempMemoryId(now) else OfflineMemoryId(now);
      var m := NewMemory(draft, id, createdAt);
      if UniqueIds(memories) && !HasId(memories, m.id) {
        AppendKeepsUniqueIds(memories, m);
      }
      memories := memories + [m];
      pending := if HasSession() then Some(id) else None;
    }

    /** The server created the memory: it takes the place of the optimistic item. */
    method CommitAddMemory(tempId: string, server: Memory)
      modifies this
      ensures memories == ReplaceById(old(memories), tempId, server)
      ensures connections == old(connections) && darkMode == old(darkMode)
      ensures token == old(token) && cache == old(cache)
      ensures old(Valid()) && (server.id == tempId || !HasId(old(memories), server.id)) ==> Valid()
    {
      if UniqueIds(memories) && (server.id == tempId || !HasId(memories, server.id)) {
        ReplaceKeepsUniqueIds(memories, tempId, server);
      }
      memories := ReplaceById(memories, tempId, server);
    }

    /** The create failed: the optimistic item is removed. */
    method FailAddMemory(tempId: string)
      modifies this
      ensures memories == RemoveById(old(memories), tempId)
      ensures connections == old(connections) && darkMode == old(darkMode)
      ensures token == old(token) && cache == old(cache)
      ensures old(Valid()) ==> Valid()
    {
      if UniqueIds(memories) {
        RemoveKeepsUniqueIds(memories, tempId);
      }
      memories := RemoveById(memories, tempId);
    }

    /**
     * `addMemory` run to completion. With a fresh temporary id, success leaves the earlier
     * items followed by the server's memory, and failure leaves the collection exactly as
     * before and rethrows the error.
     */
    method AddMemory(draft: MemoryDraft, now: nat, createdAt: Timestamp, response: Response<Memory>)
      returns (outcome: Response<()>)
      modifies this
      ensures HasSession() && !HasId(old(memories), TempMemoryId(now)) ==>
        (response.Success? ==> memories == old(memories) + [response.value] && outcome == Success(())) &&
        (response.Failure? ==> memories == old(memories) && outcome == Failure(response.error))
      ensures !HasSession() ==>
        memories == old(memories) + [NewMemory(draft, OfflineMemoryId(now), createdAt)] && outcome == Success(())
      ensures connections == old(connections) && darkMode == old(darkMode)
      ensures token == old(token) && cache == old(cache)
    {
      var before := memories;
      var pending := BeginAddMemory(draft, now, createdAt);
      outcome := Success(());
      if pending.Some? {
        var optimistic := memories[|memories| - 1];
        match response
        case Success(server) =>
          CommitAddMemory(pending.value, server);
          if !HasId(before, TempMemoryId(now)) {
            CommitAppend(before, optimistic, server);
          }
        case Failure(e) =>
          FailAddMemory(pending.value);
          if !HasId(before, TempMemoryId(now)) {
            RollbackAppend(before, optimistic);
          }
          outcome := Failure(e);
      }
    }

    // ---- updateMemory ---------------------------------------------------------------

    /** Shallow-merges `u` into the memory with id `id`; returns the collection as it was. */
    method BeginUpdateMemory(id: string, u: MemoryUpdate) returns (snapshot: seq<Memory>)
      modifies this
      ensures snapshot == old(memories)
      ensures memories == MergeById(old(memories), id, u)
      ensures connections == old(connections) && darkMode == old(darkMode)
      ensures token == old(token) && cache == old(cache)
      ensures old(Valid()) && (u.id.None? || u.id.value == id || !HasId(old(memories), u.id.value)) ==> Valid()
    {
      snapshot := memories;
      if UniqueIds(memories) && (u.id.None? || u.id.value == id || !HasId(memories, u.id.value)) {
        MergeKeepsUniqueIds(memories, id, u);
      }
      memories := MergeById(memories, id, u);
    }

    /** The server's copy of the updated memory replaces the local one. */
    method CommitUpdateMemory(id: string, server: Memory)
      modifies this
      ensures memories == ReplaceById(old(memories), id, server)
      ensures connections == old(connections) && darkMode == old(darkMode)
      ensures token == old(token) && cache == old(cache)
      ensures old(Valid()) && (server.id == id || !HasId(old(memories), server.id)) ==> Valid()
    {
      if UniqueIds(memories) && (server.id == id || !HasId(memories, server.id)) {
        ReplaceKeepsUniqueIds(memories, id, server);
      }
      memories := ReplaceById(memories, id, server);
    }

    /** The update failed: the snapshot comes back verbatim. */
    method FailUpdateMemory(snapshot: seq<Memory>)
      modifies this
      ensures memories == snapshot
      ensures connections == old(connections) && darkMode == old(darkMode)
      ensures token == old(token) && cache == old(cache)
    {
      memories := snapshot;
    }

    /** `updateMemory` run to completion; a failure restores the collection and rethrows. */
    method UpdateMemory(id: string, u: MemoryUpdate, response: Response<Memory>) returns (outcome: Response<()>)
      modifies this
      ensures HasSession() && response.Success? ==>
        memories == ReplaceById(MergeById(old(memories), id, u), id, response.value) && outcome == Success(())
      ensures HasSession() && response.Failure? ==>
        memories == old(memories) && outcome == Failure(response.error)
      ensures !HasSession() ==> memories == MergeById(old(memories), id, u) && outcome == Success(())
      ensures connections == old(connections) && darkMode == old(darkMode)
      ensures token == old(token) && cache == old(cache)
    {
      var snapshot := BeginUpdateMemory(id, u);
      outcome := Success(());
      if HasSession() {
        match response
        case Success(server) =>
          CommitUpdateMemory(id, server);
        case Failure(e) =>
          FailUpdateMemory(snapshot);
          outcome := Failure(e);
      }
    }

    // ---- deleteMemory ---------------------------------------------------------------

    /** Removes the memory and every connection touching it; returns both collections as they were. */
    method BeginDeleteMemory(id: string) returns (snapshot: (seq<Memory>, seq<Connection>))
      modifies this
      ensures snapshot == (old(memories), old(connections))
      ensures memories == RemoveById(old(memories), id)
      ensures connections == RemoveTouching(old(connections), id)
      ensures darkMode == old(darkMode) && token == old(token) && cache == old(cache)
      ensures old(Valid()) ==> Valid()
      ensures old(ClosedGraph(memories, connections)) ==> ClosedGraph(memories, connections)
    {
      snapshot := (memories, connections);
      DeleteKeepsInvariants(memories, connections, id);
      memories, connections := RemoveById(memories, id), RemoveTouching(connections, id);
    }

    /** The delete failed: both collections come back verbatim. */
    method FailDeleteMemory(snapshot: (seq<Memory>, seq<Connection>))
      modifies this
      ensures memories == snapshot.0 && connections == snapshot.1
      ensures darkMode == old(darkMode) && token == old(token) && cache == old(cache)
    {
      memories := snapshot.0;
      connections := snapshot.1;
    }

    /** `deleteMemory` run to completion; a failure restores both collections and rethrows. */
    method DeleteMemory(id: string, response: Response<()>) returns (outcome: Response<()>)
      modifies this
      ensures HasSession() && response.Failure? ==>
        memories == old(memories) && connections == old(connections) && outcome == Failure(response.error)
      ensures !HasSession() || response.Success? ==>
        memories == RemoveById(old(memories), id) && connections == RemoveTouching(old(connections), id) &&
        outcome == Success(())
      ensures darkMode == old(darkMode) && token == old(token) && cache == old(cache)
    {
      var snapshot := BeginDeleteMemory(id);
      outcome := Success(());
      if HasSession() && response.Failure? {
        FailDeleteMemory(snapshot);
        outcome := Failure(response.error);
      }
    }

    // ---- updateMemoryPosition -------------------------------------------------------

    /**
     * Moves a node. The request is fire-and-forget and its failure is never rolled back;
     * offline the same map is applied a second time, which changes nothing more.
     */
    method UpdateMemoryPosition(id: string, p: Position)
      modifies this
      ensures memories == SetPosition(old(memories), id, p)
      ensures connections == old(connections) && darkMode == old(darkMode)
      ensures token == old(token) && cache == old(cache)
      ensures old(Valid()) ==> Valid()
    {
      SetPositionKeepsIds(memories, id, p);
      memories := SetPosition(memories, id, p);
      if !HasSession() {
        SetPositionIdempotent(old(memories), id, p);
        memories := SetPosition(memories, id, p);
      }
    }

    // ---- addConnection --------------------------------------------------------------

    /**
     * Joins `source` to `target` unless the pair is already joined in either direction.
     * While logged in the new edge has a temporary id, returned for the outcome step.
     */
    method BeginAddConnection(source: string, target: string, now: nat, nonce: string)
      returns (pending: Option<string>)
      modifies this
      ensures connections == Connect(old(connections), source, target, NewConnectionId(now, nonce))
      ensures pending == if HasSession() && !ConnectionExists(old(connections), source, target)
                         then Some(TempConnectionId(now, nonce)) else None
      ensures memories == old(memories) && darkMode == old(darkMode)
      ensures token == old(token) && cache == old(cache)
      ensures old(Valid()) && !HasConnectionId(old(connections), NewConnectionId(now, nonce)) ==> Valid()
    {
      pending := None;
      if ConnectionExists(connections, source, target) {
        return;
      }
      var id := if HasSession() then TempConnectionId(now, nonce) else OfflineConnectionId(now, nonce);
      if UniqueConnectionIds(connections) && !HasConnectionId(connections, id) {
        AppendKeepsUniqueConnectionIds(connections, Connection(id, source, target));
      }
      connections := connections + [Connection(id, source, target)];
      if HasSession() {
        pending := Some(id);
      }
    }

    /** The server created the edge: it takes the place of the optimistic one. */
    method CommitAddConnection(tempId: string, server: Connection)
      modifies this
      ensures connections == ReplaceConnectionById(old(connections), tempId, server)
      ensures memories == old(memories) && darkMode == old(darkMode)
      ensures token == old(token) && cache == old(cache)
      ensures old(Valid()) && (server.id == tempId || !HasConnectionId(old(connections), server.id)) &&
              ReplacementKeepsPair(old(connections), tempId, server) ==>
        Valid()
    {
      if Valid() && (server.id == tempId || !HasConnectionId(connections, server.id)) &&
         ReplacementKeepsPair(connections, tempId, server) {
        ReplaceKeepsUniquePairs(connections, tempId, server);
        ReplaceKeepsUniqueConnectionIds(connections, tempId, server);
      }
      connections := ReplaceConnectionById(connections, tempId, server);
    }

    /** The create failed: the optimistic edge is removed. */
    method FailAddConnection(tempId: string)
      modifies this
      ensures connections == RemoveConnectionById(old(connections), tempId)
      ensures memories == old(memories) && darkMode == old(darkMode)
      ensures token == old(token) && cache == old(cache)
      ensures old(UniquePairs(connections)) ==> UniquePairs(connections)
      ensures old(UniqueConnectionIds(connections)) ==> UniqueConnectionIds(connections)
    {
      RemoveKeepsUniqueConnections(connections, tempId);
      connections := RemoveConnectionById(connections, tempId);
    }

    /**
     * `addConnection` run to completion. An existing pair changes nothing; otherwise, with a
     * fresh temporary id, success appends the server's edge and failure restores the
     * collection and rethrows.
     */
    method AddConnection(source: string, target: string, now: nat, nonce: string, response: Response<Connection>)
      returns (outcome: Response<()>)
      modifies this
      ensures ConnectionExists(old(connections), source, target) ==>
        connections == old(connections) && outcome == Success(())
      ensures !ConnectionExists(old(connections), source, target) && HasSession() &&
              !HasConnectionId(old(connections), TempConnectionId(now, nonce)) ==>
        (response.Success? ==> connections == old(connections) + [response.value] && outcome == Success(())) &&
        (response.Failure? ==> connections == old(connections) && outcome == Failure(response.error))
      ensures !ConnectionExists(old(connections), source, target) && !HasSession() ==>
        connections == old(connections) + [Connection(OfflineConnectionId(now, nonce), source, target)] &&
        outcome == Success(())
      ensures memories == old(memories) && darkMode == old(darkMode)
      ensures token == old(token) && cache == old(cache)
      ensures old(Valid()) && !HasConnectionId(old(connections), NewConnectionId(now, nonce)) &&
              (response.Success? ==> ServerConnectionFits(old(connections), source, target, response.value)) ==>
        Valid()
    {
      var before := connections;
      var pending := BeginAddConnection(source, target, now, nonce);
      outcome := Success(());
      if pending.Some? {
        var optimistic := Connection(pending.value, source, target);
        match response
        case Success(server) =>
          CommitAddConnection(pending.value, server);
          if !HasConnectionId(before, pending.value) {
            CommitAppendConnection(before, optimistic, server);
            if old(Valid()) && ServerConnectionFits(before, source, target, server) {
              AppendKeepsUniquePairs(before, server);
              AppendKeepsUniqueConnectionIds(before, server);
            }
          }
        case Failure(e) =>
          FailAddConnection(pending.value);
          if !HasConnectionId(before, pending.value) {
            RollbackAppendConnection(before, optimistic);
          }
          outcome := Failure(e);
      }
    }

    // ---- deleteConnection -----------------------------------------------------------

    /** Removes the connections with id `id`; returns the collection as it was. */
    method BeginDeleteConnection(id: string) returns (snapshot: seq<Connection>)
      modifies this
      ensures snapshot == old(connections)
      ensures connections == RemoveConnectionById(old(connections), id)
      ensures memories == old(memories) && darkMode == old(darkMode)
      ensures token == old(token) && cache == old(cache)
      ensures old(Valid()) ==> Valid()
      ensures old(ClosedGraph(memories, connections)) ==> ClosedGraph(memories, connections)
    {
      snapshot := connections;
      RemoveKeepsUniqueConnections(connections, id);
      if ClosedGraph(memories, connections) {
        DeleteConnectionKeepsClosedGraph(memories, connections, id);
      }
      connections := RemoveConnectionById(connections, id);
    }

    /** The delete failed: the snapshot comes back verbatim. */
    method FailDeleteConnection(snapshot: seq<Connection>)
      modifies this
      ensures connections == snapshot
      ensures memories == old(memories) && darkMode == old(darkMode)
      ensures token == old(token) && cache == old(cache)
    {
      connections := snapshot;
    }

    /** `deleteConnection` run to completion; a failure restores the collection and rethrows. */
    method DeleteConnection(id: string, response: Response<()>) returns (outcome: Response<()>)
      modifies this
      ensures HasSession() && response.Failure? ==>
        connections == old(connections) && outcome == Failure(response.error)
      ensures !HasSession() || response.Success? ==>
        connections == RemoveConnectionById(old(connections), id) && outcome == Success(())
      ensures memories == old(memories) && darkMode == old(darkMode)
      ensures token == old(token) && cache == old(cache)
    {
      var snapshot := BeginDeleteConnection(id);
      outcome := Success(());
      if HasSession() && response.Failure? {
        FailDeleteConnection(snapshot);
        outcome := Failure(response.error);
      }
    }

    // ---- settings and logout --------------------------------------------------------

    method ToggleDarkMode()
      modifies this
      ensures darkMode == !old(darkMode)
      ensures memories == old(memories) && connections == old(connections)
      ensures token == old(token) && cache == old(cache)
    {
      darkMode := !darkMode;
    }

    /**
     * What `clearAllData` leaves behind, given the storage entries and the key before the
     * call: no memories, no connections, and neither the user's entry nor the shared one.
     */
    predicate ClearedFrom(before: map<string, Option<AppState>>, key: string)
      reads this
    {
      memories == [] && connections == [] && cache == before - {key, StorageKey}
    }

    /** Empties both collections and drops the per-user and the legacy cache entries. */
    method ClearAllData()
      modifies this
      ensures ClearedFrom(old(cache), old(Key()))
      ensures memories == [] && connections == []
      ensures cache == old(cache) - {old(Key()), StorageKey}
      ensures Key() !in cache && StorageKey !in cache
      ensures darkMode == old(darkMode) && token == old(token)
    {
      memories := [];
      connections := [];
      cache := cache - {Key(), StorageKey};
    }

    /**
     * `clearAllData` followed by the backup effect, which runs after the next render because
     * both collections were replaced by new arrays. While a token is still stored, the
     * user's entry is written again, with empty collections and the current theme, so a
     * later start reads back an empty store rather than finding no entry.
     */
    method ClearAllDataAndBackUp()
      modifies this
      ensures memories == [] && connections == []
      ensures HasSession() ==>
        cache == (old(cache) - {old(Key()), StorageKey})[Key() := Some(AppState(Some([]), Some([]), Some(darkMode)))]
      ensures HasSession() ==> Key() in cache && CachedState(cache, Key()) == ([], [], darkMode)
      ensures !HasSession() ==> cache == old(cache) - {old(Key()), StorageKey} && Key() !in cache
      ensures darkMode == old(darkMode) && token == old(token)
    {
      ClearAllData();
      PersistCache();
      CacheRoundTrip(old(cache) - {old(Key()), StorageKey}, Key(), [], [], darkMode);
    }
  }
}
