/**
 * The album page: search and tag filtering, sorting, twelve-per-page pagination with its
 * navigation buttons, the tag filter bar, the neighbours of a memory, and the view state
 * of the memory popup.
 */
module Album {
  import opened Wrappers
  import opened Text
  import opened Lists
  import opened Types
  import opened Sorting
  import opened TagEditing
  import MemorySync

  // ---- filtering ----------------------------------------------------------------------

  /** The lower-cased query occurs in the lower-cased title, description or one of the tags. */
  predicate MatchesSearch(m: Memory, query: string) {
    var q := ToLower(query);
    Contains(ToLower(m.title), q) || Contains(ToLower(m.description), q) ||
    exists i :: 0 <= i < |m.tags.GetOr([])| && Contains(ToLower(m.tags.GetOr([])[i]), q)
  }

  /** No tag is selected (`''` is falsy), or the memory carries the selected one. */
  predicate MatchesTag(m: Memory, selectedTag: string) {
    selectedTag == [] || selectedTag in m.tags.GetOr([])
  }

  predicate Shown(m: Memory, query: string, selectedTag: string) {
    MatchesSearch(m, query) && MatchesTag(m, selectedTag)
  }

  function FilterMemories(ms: seq<Memory>, query: string, selectedTag: string): (r: seq<Memory>)
    ensures forall m :: m in r <==> m in ms && Shown(m, query, selectedTag)
    ensures IsSubsequence(r, ms)
  {
    var keep := (m: Memory) => Shown(m, query, selectedTag);
    FilterSpec(ms, keep);
    Filter(ms, keep)
  }

  /** The empty query matches every memory, so with no tag selected nothing is filtered out. */
  lemma EmptyQueryShowsAll(ms: seq<Memory>)
    ensures FilterMemories(ms, "", "") == ms
  {
    forall i | 0 <= i < |ms| ensures Shown(ms[i], "", "") {
      assert OccursAt(ToLower(ms[i].title), ToLower(""), 0);
    }
    FilterAllPass(ms, (m: Memory) => Shown(m, "", ""));
  }

  /** `sortedAndFilteredMemories`. */
  function SortedAndFiltered(ms: seq<Memory>, query: string, selectedTag: string, sortOption: string): (r: seq<Memory>)
    ensures multiset(r) == multiset(FilterMemories(ms, query, selectedTag))
    ensures Sorted(ParseSortOption(sortOption), r)
    ensures forall m :: m in r <==> m in ms && Shown(m, query, selectedTag)
  {
    var f := FilterMemories(ms, query, selectedTag);
    SortBySorted(ParseSortOption(sortOption), f);
    var r := SortBy(ParseSortOption(sortOption), f);
    assert forall m :: m in r <==> m in multiset(f);
    r
  }

  /** An unrecognised sort value leaves the filtered memories in their stored order. */
  lemma UnrecognisedSortKeepsOrder(ms: seq<Memory>, query: string, selectedTag: string, sortOption: string)
    requires ParseSortOption(sortOption) == Unrecognised
    ensures SortedAndFiltered(ms, query, selectedTag, sortOption) == FilterMemories(ms, query, selectedTag)
  {
    UnrecognisedKeepsOrder(FilterMemories(ms, query, selectedTag));
  }

  // ---- pagination ---------------------------------------------------------------------

  const MemoriesPerPage := 12

  /** `Math.ceil(n / 12)`. */
  function TotalPages(n: nat): (t: nat)
    ensures t * MemoriesPerPage >= n
    ensures t > 0 ==> (t - 1) * MemoriesPerPage < n
    ensures t == 0 <==> n == 0
  {
    (n + MemoriesPerPage - 1) / MemoriesPerPage
  }

  /** How `Array.prototype.slice` resolves an index: negative ones count from the end. */
  function SliceIndex(i: int, len: nat): (k: nat)
    ensures k <= len
    ensures 0 <= i <= len ==> k == i
  {
    if i < 0 then (if len + i < 0 then 0 else len + i)
    else if i > len then len else i
  }

  /** `s.slice(start, end)`. */
  function Slice<T>(s: seq<T>, start: int, end: int): (r: seq<T>)
    ensures |r| <= |s|
  {
    var a := SliceIndex(start, |s|);
    var b := SliceIndex(end, |s|);
    if a < b then s[a..b] else []
  }

  /** `currentMemories`: the slice the page shows. */
  function PageItems<T>(s: seq<T>, page: int): seq<T> {
    Slice(s, (page - 1) * MemoriesPerPage, (page - 1) * MemoriesPerPage + MemoriesPerPage)
  }

  /** A page in range shows the next run of at most twelve items and at least one. */
  lemma PageInRange<T>(s: seq<T>, page: int)
    requires 1 <= page <= TotalPages(|s|)
    ensures var start := (page - 1) * MemoriesPerPage;
      var end := if start + MemoriesPerPage <= |s| then start + MemoriesPerPage else |s|;
      0 <= start < end <= |s| && PageItems(s, page) == s[start..end]
    ensures 1 <= |PageItems(s, page)| <= MemoriesPerPage
  {
  }

  /** Past the last page nothing is shown. */
  lemma PageBeyondEnd<T>(s: seq<T>, page: int)
    requires page > TotalPages(|s|)
    ensures PageItems(s, page) == []
  {
  }

  /** Pages 1 to `k` one after another. */
  function FirstPages<T>(s: seq<T>, k: nat): seq<T> {
    if k == 0 then [] else FirstPages(s, k - 1) + PageItems(s, k)
  }

  lemma {:induction false} FirstPagesPrefix<T>(s: seq<T>, k: nat)
    requires k <= TotalPages(|s|)
    ensures FirstPages(s, k) == s[..if k * MemoriesPerPage <= |s| then k * MemoriesPerPage else |s|]
  {
    if k > 0 {
      FirstPagesPrefix(s, k - 1);
      PageInRange(s, k);
      var start := (k - 1) * MemoriesPerPage;
      var end := if start + MemoriesPerPage <= |s| then start + MemoriesPerPage else |s|;
      assert s[..start] + s[start..end] == s[..end];
    }
  }

  /** The pages partition the list: read in order, pages 1 to `totalPages` are the list itself. */
  lemma PagesPartition<T>(s: seq<T>)
    ensures FirstPages(s, TotalPages(|s|)) == s
  {
    FirstPagesPrefix(s, TotalPages(|s|));
  }

  // ---- page navigation ----------------------------------------------------------------

  /** The Previous button: `Math.max(1, prev - 1)`. */
  function PrevPage(page: int): (p: int)
    ensures p >= 1
    ensures page > 1 ==> p == page - 1
    ensures page <= 1 ==> p == 1
  {
    if page - 1 > 1 then page - 1 else 1
  }

  /** The Next button: `Math.min(totalPages, prev + 1)`. */
  function NextPage(page: int, totalPages: nat): (p: int)
    ensures p <= totalPages
    ensures page < totalPages ==> p == page + 1
    ensures page >= totalPages ==> p == totalPages
  {
    if page + 1 < totalPages then page + 1 else totalPages
  }

  /** Previous and Next keep an in-range page in range. */
  lemma NavigationStaysInRange(page: int, totalPages: nat)
    requires 1 <= page <= totalPages
    ensures 1 <= PrevPage(page) <= totalPages
    ensures 1 <= NextPage(page, totalPages) <= totalPages
  {
  }

  /** The numbered buttons: the pages 1..`totalPages` within distance 2 of the current page. */
  function NearbyPages(page: int, totalPages: nat): (r: seq<int>)
    ensures forall p :: p in r <==> 1 <= p <= totalPages && -2 <= p - page <= 2
    ensures forall i, j :: 0 <= i < j < |r| ==> r[i] < r[j]
  {
    NearbyFrom(1, page, totalPages)
  }

  function NearbyFrom(from: int, page: int, totalPages: nat): (r: seq<int>)
    requires from >= 1
    ensures forall p :: p in r <==> from <= p <= totalPages && -2 <= p - page <= 2
    ensures forall i, j :: 0 <= i < j < |r| ==> r[i] < r[j]
    ensures forall i :: 0 <= i < |r| ==> r[i] >= from
    decreases totalPages - from
  {
    if from > totalPages then []
    else
      var rest := NearbyFrom(from + 1, page, totalPages);
      if -2 <= from - page <= 2 then [from] + rest else rest
  }

  /** All page buttons in display order: page 1 when the current page is past 3, the nearby
      pages, and the last page when the current page is more than two before it. */
  function PageButtons(page: int, totalPages: nat): seq<int> {
    (if page > 3 then [1] else []) + NearbyPages(page, totalPages) +
    (if page < totalPages - 2 then [totalPages] else [])
  }

  /** From any in-range page the first and the last page each have a button, and the buttons
      appear in increasing order, so none is shown twice. */
  lemma PageButtonsReachEnds(page: int, totalPages: nat)
    requires 1 <= page <= totalPages
    ensures 1 in PageButtons(page, totalPages) && totalPages in PageButtons(page, totalPages)
    ensures var b := PageButtons(page, totalPages);
      forall i, j :: 0 <= i < j < |b| ==> b[i] < b[j]
  {
    var first: seq<int> := if page > 3 then [1] else [];
    var near := NearbyPages(page, totalPages);
    var last: seq<int> := if page < totalPages - 2 then [totalPages] else [];
    var b := first + near + last;
    assert page <= 3 ==> 1 in near;
    assert page >= totalPages - 2 ==> totalPages in near;
    assert forall i :: 0 <= i < |near| ==> near[i] in near;
    forall i, j | 0 <= i < j < |b| ensures b[i] < b[j] {
      if i < |first| && j < |first| + |near| {
        assert near[j - |first|] in near;
      } else if |first| <= i < |first| + |near| && j == |first| + |near| {
        assert near[i - |first|] in near;
      }
    }
  }

  /** Every page button, whatever the current page, names an existing page. */
  lemma PageButtonsInRange(page: int, totalPages: nat)
    requires totalPages >= 1
    ensures forall p :: p in PageButtons(page, totalPages) ==> 1 <= p <= totalPages
  {
  }

  // ---- tags and neighbours ------------------------------------------------------------

  /** `memories.flatMap(m => m.tags || [])`. */
  function FlatTags(ms: seq<Memory>): (r: seq<string>)
    ensures forall t :: t in r <==> exists i :: 0 <= i < |ms| && t in ms[i].tags.GetOr([])
  {
    if ms == [] then []
    else
      var rest := FlatTags(ms[1..]);
      assert forall t :: (exists i :: 0 <= i < |ms| && t in ms[i].tags.GetOr([])) <==>
        t in ms[0].tags.GetOr([]) || exists i :: 0 <= i < |ms[1..]| && t in ms[1..][i].tags.GetOr([]) by {
        forall t | exists i :: 0 <= i < |ms| && t in ms[i].tags.GetOr([])
          ensures t in ms[0].tags.GetOr([]) || exists i :: 0 <= i < |ms[1..]| && t in ms[1..][i].tags.GetOr([])
        {
          var i :| 0 <= i < |ms| && t in ms[i].tags.GetOr([]);
          if i > 0 {
            assert ms[1..][i - 1] == ms[i];
          }
        }
      }
      ms[0].tags.GetOr([]) + rest
  }

  /** `allTags`: each tag carried by some memory, exactly once, in order of first appearance. */
  function AllTags(ms: seq<Memory>): (r: seq<string>)
    ensures NoDuplicates(r)
    ensures forall t :: t in r <==> exists i :: 0 <= i < |ms| && t in ms[i].tags.GetOr([])
  {
    Distinct(FlatTags(ms))
  }

  /** `filteredMemories.findIndex(m => m.id === id)`: the first index with that id, or -1. */
  function FindIndex(ms: seq<Memory>, id: Option<string>): (k: int)
    ensures -1 <= k < |ms|
    ensures k >= 0 ==> Some(ms[k].id) == id && forall j :: 0 <= j < k ==> Some(ms[j].id) != id
    ensures k == -1 ==> forall j :: 0 <= j < |ms| ==> Some(ms[j].id) != id
  {
    if ms == [] then -1
    else if Some(ms[0].id) == id then 0
    else
      var k := FindIndex(ms[1..], id);
      assert forall j :: 0 < j < |ms| ==> ms[j] == ms[1..][j - 1];
      if k == -1 then -1 else k + 1
  }

  /** `memories.find(m => m.id === id)`: the memory at the first index with that id. */
  function Find(ms: seq<Memory>, id: string): (r: Option<Memory>)
    ensures r.Some? <==> MemorySync.HasId(ms, id)
    ensures r.Some? ==> r.value in ms && r.value.id == id
    ensures var k := FindIndex(ms, Some(id)); r == if k >= 0 then Some(ms[k]) else None
  {
    if ms == [] then None
    else if ms[0].id == id then Some(ms[0])
    else
      assert forall j :: 0 < j < |ms| ==> ms[j] == ms[1..][j - 1];
      Find(ms[1..], id)
  }

  /** The memories reached by connections leaving `id`, in connection order; dangling targets are dropped. */
  function Outgoing(ms: seq<Memory>, cs: seq<Connection>, id: string): (r: seq<Memory>)
    ensures |r| <= |cs|
    ensures forall m :: m in r <==>
      exists i :: 0 <= i < |cs| && cs[i].source == id && Find(ms, cs[i].target) == Some(m)
  {
    if cs == [] then []
    else
      var rest := Outgoing(ms, cs[1..], id);
      assert forall i :: 0 < i < |cs| ==> cs[i] == cs[1..][i - 1];
      var here := Find(ms, cs[0].target);
      if cs[0].source == id && here.Some? then [here.value] + rest else rest
  }

  /** The memories whose connections arrive at `id`, in connection order; dangling sources are dropped. */
  function Incoming(ms: seq<Memory>, cs: seq<Connection>, id: string): (r: seq<Memory>)
    ensures |r| <= |cs|
    ensures forall m :: m in r <==>
      exists i :: 0 <= i < |cs| && cs[i].target == id && Find(ms, cs[i].source) == Some(m)
  {
    if cs == [] then []
    else
      var rest := Incoming(ms, cs[1..], id);
      assert forall i :: 0 < i < |cs| ==> cs[i] == cs[1..][i - 1];
      var here := Find(ms, cs[0].source);
      if cs[0].target == id && here.Some? then [here.value] + rest else rest
  }

  /** `getConnectedMemories(id)`. */
  function ConnectedMemories(ms: seq<Memory>, cs: seq<Connection>, id: string): (r: (seq<Memory>, seq<Memory>)) {
    (Outgoing(ms, cs, id), Incoming(ms, cs, id))
  }

  /**
   * With unique ids, a memory is an outgoing neighbour exactly when it is stored and some
   * connection runs from `id` to it, and an incoming one exactly when some connection runs
   * from it to `id`.
   */
  lemma ConnectedMemoriesIff(ms: seq<Memory>, cs: seq<Connection>, id: string, m: Memory)
    requires MemorySync.UniqueIds(ms)
    ensures m in ConnectedMemories(ms, cs, id).0 <==>
      m in ms && exists i :: 0 <= i < |cs| && cs[i].source == id && cs[i].target == m.id
    ensures m in ConnectedMemories(ms, cs, id).1 <==>
      m in ms && exists i :: 0 <= i < |cs| && cs[i].target == id && cs[i].source == m.id
  {
    if m in ms {
      FindUnique(ms, m);
    }
  }

  /** With unique ids, looking up a stored memory's id finds that memory. */
  /** Looking up the id of a stored memory succeeds, and with unique ids finds that memory. */
  lemma Stored(ms: seq<Memory>, m: Memory)
    requires m in ms
    ensures Find(ms, m.id).Some?
    ensures MemorySync.UniqueIds(ms) ==> Find(ms, m.id) == Some(m)
  {
    var k :| 0 <= k < |ms| && ms[k] == m;
    assert MemorySync.HasId(ms, m.id);
    if MemorySync.UniqueIds(ms) {
      FindUnique(ms, m);
    }
  }

  lemma FindUnique(ms: seq<Memory>, m: Memory)
    requires MemorySync.UniqueIds(ms) && m in ms
    ensures Find(ms, m.id) == Some(m)
  {
    var k :| 0 <= k < |ms| && ms[k] == m;
    var j := FindIndex(ms, Some(m.id));
    assert MemorySync.DifferentIds(ms[j], ms[k]) || j == k;
  }

  // ---- the page's view state ----------------------------------------------------------

  /** The state of the album page; the memories and connections come from the store. */
  class AlbumView {
    var selectedMemory: Option<string>
    var isEditMode: bool
    var editTitle: string
    var editDescription: string
    var editTags: seq<string>
    var newTag: string
    var searchQuery: string
    var selectedTag: string
    var sortOption: string
    var currentPage: int

    constructor ()
      ensures selectedMemory == None && !isEditMode
      ensures editTitle == "" && editDescription == "" && editTags == [] && newTag == ""
      ensures searchQuery == "" && selectedTag == "" && sortOption == "date-newest" && currentPage == 1
    {
      selectedMemory := None;
      isEditMode := false;
      editTitle, editDescription, editTags, newTag := "", "", [], "";
      searchQuery, selectedTag, sortOption := "", "", "date-newest";
      currentPage := 1;
    }

    /** The edit form of the popup: its mode, the three edited fields and the tag input. */
    function EditFields(): (bool, string, string, seq<string>, string)
      reads this
    {
      (isEditMode, editTitle, editDescription, editTags, newTag)
    }

    /** The search box, the tag filter and the sort select. */
    function Controls(): (string, string, string)
      reads this
    {
      (searchQuery, selectedTag, sortOption)
    }

    /** The popup shows `m` in view mode, its fields loaded into the edit form. */
    predicate Loaded(m: Memory)
      reads this
    {
      editTitle == m.title && editDescription == m.description && editTags == m.tags.GetOr([]) && !isEditMode
    }

    /** The memories the popup steps through: filtered and sorted by the current controls. */
    function Visible(ms: seq<Memory>): seq<Memory>
      reads this
    {
      SortedAndFiltered(ms, searchQuery, selectedTag, sortOption)
    }

    /** `currentMemories`: the slice of the visible memories shown on the current page. */
    function CurrentMemories(ms: seq<Memory>): seq<Memory>
      reads this
    {
      PageItems(Visible(ms), currentPage)
    }

    /** `openMemory`: selects a stored memory and loads its fields into the edit form. */
    method OpenMemory(ms: seq<Memory>, id: string)
      modifies this
      ensures Find(ms, id).Some? ==> selectedMemory == Some(id) && Loaded(Find(ms, id).value)
      ensures Find(ms, id).None? ==> selectedMemory == old(selectedMemory) && EditFields() == old(EditFields())
      ensures newTag == old(newTag) && Controls() == old(Controls()) && currentPage == old(currentPage)
    {
      var found := Find(ms, id);
      if found.Some? {
        var m := found.value;
        selectedMemory := Some(id);
        editTitle := m.title;
        editDescription := m.description;
        editTags := m.tags.GetOr([]);
        isEditMode := false;
      }
    }

    /**
     * `handleNextMemory`: opens the memory one place further in the visible list; at the
     * last place nothing happens. A selection that is not visible counts as index -1, so
     * the first memory opens.
     */
    method NextMemory(ms: seq<Memory>)
      modifies this
      ensures var v := old(Visible(ms)); var i := FindIndex(v, old(selectedMemory));
        i < |v| - 1 ==>
          Find(ms, v[i + 1].id).Some? && selectedMemory == Some(v[i + 1].id) && Loaded(Find(ms, v[i + 1].id).value)
      ensures var v := old(Visible(ms)); var i := FindIndex(v, old(selectedMemory));
        i < |v| - 1 && MemorySync.UniqueIds(ms) ==> Loaded(v[i + 1])
      ensures var v := old(Visible(ms)); var i := FindIndex(v, old(selectedMemory));
        i >= |v| - 1 ==> selectedMemory == old(selectedMemory) && EditFields() == old(EditFields())
      ensures newTag == old(newTag) && Controls() == old(Controls()) && currentPage == old(currentPage)
    {
      var v := Visible(ms);
      var i := FindIndex(v, selectedMemory);
      if i < |v| - 1 {
        assert v[i + 1] in v;
        Stored(ms, v[i + 1]);
        OpenMemory(ms, v[i + 1].id);
      }
    }

    /** `handlePrevMemory`: opens the memory one place back; at the first place, or when the
        selection is not visible, nothing happens. */
    method PrevMemory(ms: seq<Memory>)
      modifies this
      ensures var v := old(Visible(ms)); var i := FindIndex(v, old(selectedMemory));
        i > 0 ==>
          Find(ms, v[i - 1].id).Some? && selectedMemory == Some(v[i - 1].id) && Loaded(Find(ms, v[i - 1].id).value)
      ensures var v := old(Visible(ms)); var i := FindIndex(v, old(selectedMemory));
        i > 0 && MemorySync.UniqueIds(ms) ==> Loaded(v[i - 1])
      ensures var v := old(Visible(ms)); var i := FindIndex(v, old(selectedMemory));
        i <= 0 ==> selectedMemory == old(selectedMemory) && EditFields() == old(EditFields())
      ensures newTag == old(newTag) && Controls() == old(Controls()) && currentPage == old(currentPage)
    {
      var v := Visible(ms);
      var i := FindIndex(v, selectedMemory);
      if i > 0 {
        assert v[i - 1] in v;
        Stored(ms, v[i - 1]);
        OpenMemory(ms, v[i - 1].id);
      }
    }

    /** `handleAddTag` on the edit form. */
    method AddEditTag()
      modifies this
      ensures (editTags, newTag) == TagEditing.AddTag(old(editTags), old(newTag))
      ensures NoDuplicates(old(editTags)) ==> NoDuplicates(editTags)
      ensures selectedMemory == old(selectedMemory) && editTitle == old(editTitle)
      ensures editDescription == old(editDescription) && isEditMode == old(isEditMode)
      ensures searchQuery == old(searchQuery) && selectedTag == old(selectedTag)
      ensures sortOption == old(sortOption) && currentPage == old(currentPage)
    {
      var r := TagEditing.AddTag(editTags, newTag);
      editTags, newTag := r.0, r.1;
    }

    /** `handleRemoveTag` on the edit form. */
    method RemoveEditTag(tag: string)
      modifies this
      ensures editTags == TagEditing.RemoveTag(old(editTags), tag)
      ensures newTag == old(newTag) && selectedMemory == old(selectedMemory) && editTitle == old(editTitle)
      ensures editDescription == old(editDescription) && isEditMode == old(isEditMode)
      ensures searchQuery == old(searchQuery) && selectedTag == old(selectedTag)
      ensures sortOption == old(sortOption) && currentPage == old(currentPage)
    {
      editTags := TagEditing.RemoveTag(editTags, tag);
    }

    /**
     * Setting the search, the tag filter and the sort order. The page-reset effect fires only
     * when one of the three changes, and then returns to page 1.
     */
    method SetFilters(query: string, tag: string, sort: string)
      modifies this
      ensures Controls() == (query, tag, sort)
      ensures currentPage == if (query, tag, sort) == old(Controls()) then old(currentPage) else 1
      ensures selectedMemory == old(selectedMemory) && isEditMode == old(isEditMode)
      ensures editTitle == old(editTitle) && editDescription == old(editDescription)
      ensures editTags == old(editTags) && newTag == old(newTag)
    {
      if (query, tag, sort) != Controls() {
        currentPage := 1;
      }
      searchQuery, selectedTag, sortOption := query, tag, sort;
    }

    /** The First, Previous, Next and Last buttons. */
    method GoToFirstPage()
      modifies this
      ensures currentPage == 1
      ensures Controls() == old(Controls()) && EditFields() == old(EditFields())
      ensures selectedMemory == old(selectedMemory)
    {
      currentPage := 1;
    }

    method GoToPrevPage()
      modifies this
      ensures currentPage == PrevPage(old(currentPage))
      ensures Controls() == old(Controls()) && EditFields() == old(EditFields())
      ensures selectedMemory == old(selectedMemory)
    {
      currentPage := PrevPage(currentPage);
    }

    method GoToNextPage(ms: seq<Memory>)
      modifies this
      ensures currentPage == NextPage(old(currentPage), TotalPages(|old(Visible(ms))|))
      ensures Controls() == old(Controls()) && EditFields() == old(EditFields())
      ensures selectedMemory == old(selectedMemory)
      ensures 1 <= old(currentPage) <= TotalPages(|old(Visible(ms))|) ==>
        1 <= currentPage <= TotalPages(|Visible(ms)|)
    {
      currentPage := NextPage(currentPage, TotalPages(|Visible(ms)|));
    }

    method GoToLastPage(ms: seq<Memory>)
      modifies this
      ensures currentPage == TotalPages(|old(Visible(ms))|)
      ensures Controls() == old(Controls()) && EditFields() == old(EditFields())
      ensures selectedMemory == old(selectedMemory)
    {
      currentPage := TotalPages(|Visible(ms)|);
    }

    /** A numbered page button. */
    method GoToPage(ms: seq<Memory>, page: int)
      requires TotalPages(|Visible(ms)|) > 1 && page in PageButtons(currentPage, TotalPages(|Visible(ms)|))
      modifies this
      ensures currentPage == page && 1 <= currentPage <= TotalPages(|old(Visible(ms))|)
      ensures Controls() == old(Controls()) && EditFields() == old(EditFields())
      ensures selectedMemory == old(selectedMemory)
    {
      PageButtonsInRange(currentPage, TotalPages(|Visible(ms)|));
      currentPage := page;
    }
  }
}
