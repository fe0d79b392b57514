/**
 * The client's translation between its own records and the backend's: the user, node and
 * link records the server returns become `Memory`, `Connection` and user values through
 * JavaScript `||` fallbacks, and requests are built the same way. A string is falsy when
 * absent or empty, a number when absent or `0`; arrays are always truthy. The clock that
 * fills a missing `created_at` arrives as `now`.
 */
module Api {
  import opened Wrappers
  import opened Text
  import opened Types
  import MemorySync
  import Auth

  // ---- users -------------------------------------------------------------------------

  /** The body of `create_user`. */
  datatype CreateUserRequest = CreateUserRequest(first_name: string, surname: string, email: string, password: string)

  /**
   * `register`'s body: the first space-separated word, or the whole name when that word is
   * empty; and the second word, or `''`.
   */
  function RegisterRequest(name: string, email: string, password: string): (r: CreateUserRequest)
    ensures r.email == email && r.password == password
    ensures ' ' !in name ==> r.first_name == name && r.surname == ""
    ensures name != [] && name[0] == ' ' ==> r.first_name == name
    ensures r.first_name == name ||
            (0 < |r.first_name| < |name| && r.first_name == name[..|r.first_name|] && name[|r.first_name|] == ' ')
    ensures ' ' !in r.surname
  {
    var words := Split(name, ' ');
    SplitFirst(name, ' ');
    SplitWithoutSeparator(name, ' ');
    CreateUserRequest(if words[0] != [] then words[0] else name,
                      if |words| > 1 then words[1] else "",
                      email, password)
  }

  /**
   * A name made of words without spaces, the first non-empty, is sent as its first word and
   * its second word (or `''` for a single word); any further words are dropped.
   */
  lemma RegisterNameWords(words: seq<string>, email: string, password: string)
    requires |words| >= 1 && words[0] != []
    requires forall k :: 0 <= k < |words| ==> ' ' !in words[k]
    ensures var r := RegisterRequest(Join(words, ' '), email, password);
      r.first_name == words[0] && r.surname == (if |words| > 1 then words[1] else "")
  {
    SplitJoin(words, ' ');
  }

  /**
   * A name that starts with a space has an empty first word, so the whole name, space
   * included, is sent as `first_name`, and the word after the space is sent again as `surname`.
   */
  lemma LeadingSpaceName(email: string, password: string)
    ensures RegisterRequest(" Ann", email, password) == CreateUserRequest(" Ann", "Ann", email, password)
  {
    assert Split("Ann", ' ') == ["Ann"] by { SplitWithoutSeparator("Ann", ' '); }
    assert " Ann"[1..] == "Ann";
  }

  /** The user record of `get_user_info`; absent fields are `None`. */
  datatype UserRecord = UserRecord(
    user_id: Option<string>,
    first_name: Option<string>,
    surname: Option<string>,
    email: Option<string>,
    created_at: Option<string>,
    is_premium: Option<bool>,
    memory_limit: Option<int>)

  /** The user as the client keeps it. */
  datatype CurrentUser = CurrentUser(
    id: Option<string>,
    name: string,
    email: Option<string>,
    createdAt: Option<string>,
    is_premium: bool,
    memory_limit: int)

  const DefaultMemoryLimit := 30

  /** The display name: both parts joined by a space and trimmed, else whichever is set, else `User`. */
  function UserName(first: Option<string>, surname: Option<string>): string {
    if TruthyString(first) && TruthyString(surname) then Trim(first.value + " " + surname.value)
    else StringOr(first, StringOr(surname, "User"))
  }

  /**
   * `User` stands in exactly when neither part is set; a part set alone is the name as it
   * is; and the name comes out empty only when both parts are white space.
   */
  lemma UserNameCases(first: Option<string>, surname: Option<string>)
    ensures !TruthyString(first) && !TruthyString(surname) ==> UserName(first, surname) == "User"
    ensures TruthyString(first) != TruthyString(surname) ==>
      UserName(first, surname) == (if TruthyString(first) then first.value else surname.value)
    ensures UserName(first, surname) == [] <==>
      TruthyString(first) && TruthyString(surname) && AllWhitespace(first.value + " " + surname.value)
  {
    if TruthyString(first) && TruthyString(surname) {
      TrimEmptyIff(first.value + " " + surname.value);
    }
  }

  /** Trimming leaves a string that neither starts nor ends with white space as it is. */
  lemma TrimUnchanged(s: string)
    requires s != [] && !IsWhitespace(s[0]) && !IsWhitespace(s[|s| - 1])
    ensures Trim(s) == s
  {
    assert LeadingSpace(s) == 0;
    assert TrimStart(s) == s;
    assert TrailingSpace(s) == 0;
  }

  /**
   * A two-word name with no white space at its ends comes back unchanged as the user's name
   * after registering, and so does a single word.
   */
  lemma RegisteredNameReadsBack(first: string, second: string, email: string, password: string)
    requires first != [] && second != [] && ' ' !in first && ' ' !in second
    requires !IsWhitespace(first[0]) && !IsWhitespace(second[|second| - 1])
    ensures var r := RegisterRequest(first + " " + second, email, password);
      UserName(Some(r.first_name), Some(r.surname)) == first + " " + second
    ensures var r := RegisterRequest(first, email, password);
      UserName(Some(r.first_name), Some(r.surname)) == first
  {
    RegisterNameWords([first, second], email, password);
    assert Join([first, second], ' ') == first + " " + second by {
      assert Join([second], ' ') == second;
    }
    var s := first + " " + second;
    assert s[0] == first[0] && s[|s| - 1] == second[|second| - 1];
    TrimUnchanged(s);
    RegisterNameWords([first], email, password);
  }

  /** `getCurrentUser`'s mapping: the display name, and `false` and `30` for a falsy premium flag and limit. */
  function UserFromRecord(u: UserRecord): (r: CurrentUser)
    ensures r.id == u.user_id && r.email == u.email && r.createdAt == u.created_at
    ensures r.is_premium <==> u.is_premium == Some(true)
    ensures u.memory_limit.Some? && u.memory_limit.value != 0 ==> r.memory_limit == u.memory_limit.value
    ensures u.memory_limit.None? || u.memory_limit.value == 0 ==> r.memory_limit == DefaultMemoryLimit
  {
    CurrentUser(u.user_id, UserName(u.first_name, u.surname), u.email, u.created_at,
                FlagOr(u.is_premium), IntOr(u.memory_limit, DefaultMemoryLimit))
  }

  /** A record stating a limit of 0 gets the same quota as one stating none. */
  lemma ZeroLimitIsDefault(u: UserRecord)
    ensures UserFromRecord(u.(memory_limit := Some(0))) == UserFromRecord(u.(memory_limit := None))
    ensures UserFromRecord(u.(memory_limit := None)).memory_limit == 30
  {
  }

  // ---- password reset ----------------------------------------------------------------

  /** `forgotPassword`: not implemented; it throws an error without a response. */
  function ForgotPassword(email: string): Auth.Outcome<string> {
    Failure(Auth.RequestError(None))
  }

  /** `resetPassword`: not implemented; it throws an error without a response. */
  function ResetPassword(token: string, password: string): Auth.Outcome<()> {
    Failure(Auth.RequestError(None))
  }

  /** Both reset requests fail for every input, and their error always shows the page's own text. */
  lemma ResetFlowUnavailable(token: string, password: string, email: string)
    ensures ForgotPassword(email).Failure? && ForgotPassword(email).error.detail.None?
    ensures ResetPassword(token, password).Failure? && ResetPassword(token, password).error.detail.None?
  {
  }

  // ---- nodes -------------------------------------------------------------------------

  /** A node record of the backend; absent fields are `None`. */
  datatype Node = Node(
    node_id: Option<string>,
    id: Option<string>,
    title: Option<string>,
    description: Option<string>,
    image_data: Option<string>,
    image_id: Option<string>,
    created_at: Option<Timestamp>,
    tags: Option<seq<string>>,
    custom_date: Option<string>,
    position_x: Option<int>,
    position_y: Option<int>)

  /** A number is truthy when present and not `0`. */
  predicate TruthyNumber(v: Option<int>) {
    v.Some? && v.value != 0
  }

  /** `node.node_id || node.id`; an absent id reads as `""`. */
  function NodeId(n: Node): string {
    StringOr(n.node_id, n.id.GetOr(""))
  }

  /** `node.position_x && node.position_y ? {x, y} : fallback`. */
  function NodePosition(n: Node, fallback: Option<Position>): Option<Position> {
    if TruthyNumber(n.position_x) && TruthyNumber(n.position_y) then
      Some(Position(n.position_x.value, n.position_y.value))
    else fallback
  }

  /** A node's stored position is used exactly when both coordinates are truthy, so a `0` coordinate loses it. */
  lemma PositionNeedsBothCoordinates(n: Node, fallback: Option<Position>)
    ensures NodePosition(n, fallback) == Some(Position(n.position_x.GetOr(0), n.position_y.GetOr(0))) ||
            NodePosition(n, fallback) == fallback
    ensures TruthyNumber(n.position_x) && TruthyNumber(n.position_y) ==>
      NodePosition(n, fallback) == Some(Position(n.position_x.value, n.position_y.value))
    ensures n.position_x == Some(0) || n.position_y == Some(0) ==> NodePosition(n, fallback) == fallback
    ensures n.position_x.None? || n.position_y.None? ==> NodePosition(n, fallback) == fallback
  {
  }

  /** The mapping of `getMemories` and `getMemory`. */
  function MemoryFromNode(n: Node, now: Timestamp): Memory {
    Memory(NodeId(n), StringOr(n.title, "Memory"), StringOr(n.description, ""),
           StringOr(n.image_data, StringOr(n.image_id, "")), n.created_at.GetOr(now),
           NodePosition(n, None), Some(n.tags.GetOr([])), n.custom_date)
  }

  /** The mapping of `createMemory`: a falsy field falls back to what was sent. */
  function CreatedMemory(n: Node, sent: MemoryDraft, now: Timestamp): Memory {
    Memory(NodeId(n), StringOr(n.title, StringOr(Some(sent.title), "Untitled")), StringOr(n.description, ""),
           StringOr(n.image_data, StringOr(n.image_id, sent.image)), n.created_at.GetOr(now),
           NodePosition(n, sent.position), Some(n.tags.GetOr([])),
           if TruthyString(n.custom_date) then n.custom_date else sent.date)
  }

  /** The mapping of `updateMemory`: only `image_id` is read for the image, and a falsy field falls back to the update. */
  function UpdatedMemory(n: Node, u: MemoryUpdate, now: Timestamp): Memory {
    Memory(NodeId(n), StringOr(n.title, StringOr(u.title, "Memory")), StringOr(n.description, ""),
           StringOr(n.image_id, ""), n.created_at.GetOr(now),
           NodePosition(n, u.position), Some(if n.tags.Some? then n.tags.value else u.tags.GetOr([])),
           if TruthyString(n.custom_date) then n.custom_date else u.date)
  }

  /**
   * Whatever the server returns, a mapped memory has a non-empty title and a tag list, and
   * the record's own truthy `node_id`, title and creation time are kept.
   */
  lemma MappedMemoryShape(n: Node, sent: MemoryDraft, u: MemoryUpdate, now: Timestamp)
    ensures forall m | m in [MemoryFromNode(n, now), CreatedMemory(n, sent, now), UpdatedMemory(n, u, now)] ::
      m.title != [] && m.tags.Some? &&
      (TruthyString(n.node_id) ==> m.id == n.node_id.value) &&
      (TruthyString(n.title) ==> m.title == n.title.value) &&
      (n.created_at.Some? ==> m.createdAt == n.created_at.value) &&
      (n.created_at.None? ==> m.createdAt == now)
  {
  }

  /** The node with nothing but an id: what a server that stores nothing else would return. */
  function BareNode(id: string): Node {
    Node(Some(id), None, None, None, None, None, None, None, None, None, None)
  }

  /**
   * When the server answers `createMemory` or `updateMemory` with a bare record, the client
   * keeps what it sent: the title (or its default), the image it sent when creating, the date
   * and the position.
   */
  lemma BareRecordKeepsRequest(id: string, sent: MemoryDraft, u: MemoryUpdate, now: Timestamp)
    requires id != []
    ensures var m := CreatedMemory(BareNode(id), sent, now);
      m.id == id && m.title == (if sent.title != [] then sent.title else "Untitled") &&
      m.image == sent.image && m.date == sent.date && m.position == sent.position &&
      m.tags == Some([]) && m.description == "" && m.createdAt == now
    ensures var m := UpdatedMemory(BareNode(id), u, now);
      m.id == id && m.title == StringOr(u.title, "Memory") && m.image == "" &&
      m.date == u.date && m.position == u.position && m.tags == Some(u.tags.GetOr([]))
  {
  }

  /**
   * The stored image data wins over the image id when reading or creating, but the update
   * mapping never looks at it.
   */
  lemma ImageDataOnlyWhenRead(n: Node, data: string, sent: MemoryDraft, u: MemoryUpdate, now: Timestamp)
    requires data != []
    ensures MemoryFromNode(n.(image_data := Some(data)), now).image == data
    ensures CreatedMemory(n.(image_data := Some(data)), sent, now).image == data
    ensures UpdatedMemory(n.(image_data := Some(data)), u, now) == UpdatedMemory(n, u, now)
  {
  }

  /** What `list_nodes` answers: the envelope with a count, or a bare array. */
  datatype NodeList = Envelope(nodes: seq<Node>, total_count: Option<int>) | Bare(items: seq<Node>)

  function NodesOf(data: NodeList): seq<Node> {
    if data.Envelope? then data.nodes else data.items
  }

  datatype MemoryPage = MemoryPage(memories: seq<Memory>, totalCount: int)

  /**
   * `getMemories`: every node is mapped, in order; the count is `total_count` when truthy
   * and otherwise the number of nodes received.
   */
  function MemoriesFromList(data: NodeList, now: Timestamp): (r: MemoryPage)
    ensures |r.memories| == |NodesOf(data)|
    ensures forall k :: 0 <= k < |r.memories| ==> r.memories[k] == MemoryFromNode(NodesOf(data)[k], now)
    ensures data.Bare? || !TruthyNumber(data.total_count) ==> r.totalCount == |r.memories|
    ensures data.Envelope? && TruthyNumber(data.total_count) ==> r.totalCount == data.total_count.value
  {
    var nodes := NodesOf(data);
    MemoryPage(seq(|nodes|, k requires 0 <= k < |nodes| => MemoryFromNode(nodes[k], now)),
               if data.Envelope? then IntOr(data.total_count, |nodes|) else |nodes|)
  }

  /** An envelope without a usable count reads exactly like the bare array of its nodes. */
  lemma EnvelopeWithoutCountIsBare(nodes: seq<Node>, count: Option<int>, now: Timestamp)
    requires !TruthyNumber(count)
    ensures MemoriesFromList(Envelope(nodes, count), now) == MemoriesFromList(Bare(nodes), now)
  {
  }

  /** The body of `create_node`: an empty title becomes `Untitled`, absent tags `[]`. */
  datatype NodeRequest = NodeRequest(
    image_id: string,
    description: string,
    title: string,
    tags: seq<string>,
    position: Option<Position>,
    date: Option<string>)

  function CreateNodeRequest(d: MemoryDraft): (r: NodeRequest)
    ensures r.title != [] && (d.title != [] ==> r.title == d.title)
    ensures r.image_id == d.image && r.description == d.description
    ensures r.position == d.position && r.date == d.date
    ensures d.tags.Some? ==> r.tags == d.tags.value
    ensures d.tags.None? ==> r.tags == []
  {
    NodeRequest(d.image, d.description, StringOr(Some(d.title), "Untitled"), d.tags.GetOr([]), d.position, d.date)
  }

  /** The body of `update_node`. */
  datatype UpdateNodeRequest = UpdateNodeRequest(
    node_id: string,
    image_id: string,
    description: string,
    title: Option<string>,
    tags: Option<seq<string>>,
    position: Option<Position>,
    date: Option<string>)

  /**
   * `updateMemory`'s body: the optional fields are passed on, except that an absent image
   * or description is sent as `''`.
   */
  function UpdateRequest(id: string, u: MemoryUpdate): (r: UpdateNodeRequest)
    ensures r.node_id == id && r.title == u.title && r.tags == u.tags
    ensures r.position == u.position && r.date == u.date
    ensures TruthyString(u.image) ==> r.image_id == u.image.value
    ensures !TruthyString(u.image) ==> r.image_id == ""
    ensures !TruthyString(u.description) ==> r.description == ""
    ensures TruthyString(u.description) ==> r.description == u.description.value
  {
    UpdateNodeRequest(id, StringOr(u.image, ""), StringOr(u.description, ""), u.title, u.tags, u.position, u.date)
  }

  /**
   * An update that only moves a memory, as dragging a node does, sends an empty image and
   * description alongside the new position.
   */
  lemma PositionUpdateSendsEmptyFields(id: string, p: Position)
    ensures var r := UpdateRequest(id, MemoryUpdate(None, None, None, None, None, Some(p), None, None));
      r.image_id == "" && r.description == "" && r.position == Some(p) && r.title.None?
  {
  }

  // ---- links -------------------------------------------------------------------------

  /** A link record of the backend; absent fields are `None`. */
  datatype Link = Link(
    link_id: Option<string>,
    id: Option<string>,
    source_node_id: Option<string>,
    target_node_id: Option<string>,
    source: Option<string>,
    target: Option<string>)

  /** The mapping of `createConnection`: the ends fall back to the ids that were sent. */
  function CreatedConnection(l: Link, source: string, target: string): Connection {
    Connection(StringOr(l.link_id, l.id.GetOr("")), StringOr(l.source_node_id, source),
               StringOr(l.target_node_id, target))
  }

  /** The mapping of one element of `getConnections`: the ends fall back to the record's own `source` and `target`. */
  function ConnectionFromLink(l: Link): Connection {
    Connection(StringOr(l.link_id, l.id.GetOr("")), StringOr(l.source_node_id, l.source.GetOr("")),
               StringOr(l.target_node_id, l.target.GetOr("")))
  }

  /**
   * Creating reads a link as listing would read it with the sent ids as its own ends, and a
   * link naming its ends keeps them either way.
   */
  lemma CreatedConnectionAgreesWithList(l: Link, source: string, target: string)
    ensures CreatedConnection(l, source, target) == ConnectionFromLink(l.(source := Some(source), target := Some(target)))
    ensures TruthyString(l.source_node_id) && TruthyString(l.target_node_id) ==>
      CreatedConnection(l, source, target) == ConnectionFromLink(l) &&
      CreatedConnection(l, source, target).source == l.source_node_id.value &&
      CreatedConnection(l, source, target).target == l.target_node_id.value
  {
  }

  /** `getConnections`: every link is mapped, in order. */
  function ConnectionsFromList(links: seq<Link>): (r: seq<Connection>)
    ensures |r| == |links|
    ensures forall k :: 0 <= k < |r| ==> r[k] == ConnectionFromLink(links[k])
  {
    seq(|links|, k requires 0 <= k < |links| => ConnectionFromLink(links[k]))
  }

  /** `deleteConnection`'s `link_id`: the id read with `parseInt`, `None` standing for `NaN`. */
  function DeleteLinkParam(id: string): Option<int> {
    ParseInt(id)
  }

  /**
   * A server id in decimal is sent as its number, while the ids the client makes up for
   * connections it has not saved do not parse and are sent as `NaN`.
   */
  lemma DeleteLinkParamOfIds(n: nat, now: nat, nonce: string)
    ensures DeleteLinkParam(NatToString(n)) == Some(n)
    ensures DeleteLinkParam(MemorySync.TempConnectionId(now, nonce)).None?
    ensures DeleteLinkParam(MemorySync.OfflineConnectionId(now, nonce)).None?
  {
    ParseIntNatToString(n);
    assert MemorySync.TempConnectionId(now, nonce)[0] == 't';
    assert MemorySync.OfflineConnectionId(now, nonce)[0] == 'c';
    NotANumber(MemorySync.TempConnectionId(now, nonce));
    NotANumber(MemorySync.OfflineConnectionId(now, nonce));
  }

  /** A string starting with a lower-case letter does not parse. */
  lemma NotANumber(s: string)
    requires s != [] && 'a' <= s[0] <= 'z'
    ensures ParseInt(s).None?
  {
    assert LeadingSpace(s) == 0;
    assert TrimStart(s) == s;
    assert LeadingDigits(s, 10) == 0;
  }
}
