/** The entities shared by the client: memories, connections, drafts, partial updates, cached state. */
module Types {
  import opened Wrappers

  /** Milliseconds since the epoch; stands in for the ISO `createdAt` string. */
  type Timestamp = int

  /** A node position on the graph canvas (coordinates treated as opaque numbers). */
  datatype Position = Position(x: int, y: int)

  datatype Memory = Memory(
    id: string,
    title: string,
    description: string,
    image: string,
    createdAt: Timestamp,
    position: Option<Position>,
    tags: Option<seq<string>>,
    date: Option<string>)

  /** A directed edge between two memory ids. */
  datatype Connection = Connection(id: string, source: string, target: string)

  /** A memory without `id` and `createdAt`, as given to `addMemory`. */
  datatype MemoryDraft = MemoryDraft(
    title: string,
    description: string,
    image: string,
    position: Option<Position>,
    tags: Option<seq<string>>,
    date: Option<string>)

  /** A partial memory: each present field overrides the stored one. */
  datatype MemoryUpdate = MemoryUpdate(
    id: Option<string>,
    title: Option<string>,
    description: Option<string>,
    image: Option<string>,
    createdAt: Option<Timestamp>,
    position: Option<Position>,
    tags: Option<seq<string>>,
    date: Option<string>)

  /** The JSON object kept in the browser cache; absent fields read as `undefined`. */
  datatype AppState = AppState(
    memories: Option<seq<Memory>>,
    connections: Option<seq<Connection>>,
    darkMode: Option<bool>)

  /** The decoded payload of a session token. */
  datatype TokenPayload = TokenPayload(sub: Option<string>)

  /** A JavaScript string is truthy when present and non-empty. */
  predicate TruthyString(s: Option<string>) {
    s.Some? && s.value != []
  }

  /** `v || d` on a string: an absent or empty `v` falls back to `d`. */
  function StringOr(v: Option<string>, d: string): (r: string)
    ensures TruthyString(v) ==> r == v.value
    ensures !TruthyString(v) ==> r == d
  {
    if TruthyString(v) then v.value else d
  }

  /** `v || d` on a number: an absent `v` or `0` falls back to `d`. */
  function IntOr(v: Option<int>, d: int): (r: int)
    ensures v.Some? && v.value != 0 ==> r == v.value
    ensures v.None? || v.value == 0 ==> r == d
  {
    if v.Some? && v.value != 0 then v.value else d
  }

  /** `v || false` on a flag: only a present `true` is true. */
  function FlagOr(v: Option<bool>): (r: bool)
    ensures r <==> v == Some(true)
  {
    v.Some? && v.value
  }

  /** Object spread `{...m, ...u}`: every field present in `u` wins. */
  function Merge(m: Memory, u: MemoryUpdate): (r: Memory)
    ensures u.id.Some? ==> r.id == u.id.value
    ensures u.id.None? ==> r.id == m.id
    ensures u.title.Some? ==> r.title == u.title.value
    ensures u.title.None? ==> r.title == m.title
    ensures u.description.Some? ==> r.description == u.description.value
    ensures u.description.None? ==> r.description == m.description
    ensures u.image.Some? ==> r.image == u.image.value
    ensures u.image.None? ==> r.image == m.image
    ensures u.createdAt.Some? ==> r.createdAt == u.createdAt.value
    ensures u.createdAt.None? ==> r.createdAt == m.createdAt
    ensures u.position.Some? ==> r.position == u.position
    ensures u.position.None? ==> r.position == m.position
    ensures u.tags.Some? ==> r.tags == u.tags
    ensures u.tags.None? ==> r.tags == m.tags
    ensures u.date.Some? ==> r.date == u.date
    ensures u.date.None? ==> r.date == m.date
    ensures u == MemoryUpdate(None, None, None, None, None, None, None, None) ==> r == m
  {
    Memory(
      u.id.GetOr(m.id),
      u.title.GetOr(m.title),
      u.description.GetOr(m.description),
      u.image.GetOr(m.image),
      u.createdAt.GetOr(m.createdAt),
      if u.position.Some? then u.position else m.position,
      if u.tags.Some? then u.tags else m.tags,
      if u.date.Some? then u.date else m.date)
  }

  /**
   * Spreading the same update twice is spreading it once, and an update that carries every
   * field of `n` turns any memory into `n`.
   */
  lemma MergeOverrides(m: Memory, n: Memory, u: MemoryUpdate)
    ensures Merge(Merge(m, u), u) == Merge(m, u)
    ensures Merge(m, MemoryUpdate(Some(n.id), Some(n.title), Some(n.description), Some(n.image),
                                  Some(n.createdAt), n.position, n.tags, n.date)) ==
            n.(position := if n.position.Some? then n.position else m.position,
               tags := if n.tags.Some? then n.tags else m.tags,
               date := if n.date.Some? then n.date else m.date)
  {
  }
}
