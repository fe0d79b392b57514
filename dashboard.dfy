/**
 * The dashboard: the free-tier quota gate in front of the new-memory form, the four most
 * recently created memories, the small graph preview grid and the two counters.
 */
module Dashboard {
  import opened Wrappers
  import opened Types
  import opened Sorting

  /** `memory_limit || 30`: the quota when the user record gives none. */
  const DefaultMemoryLimit := 30
  const RecentCount := 4
  const PreviewCount := 10

  /** The two premium fields of a user record, as cached or as fetched; absent fields are `None`. */
  datatype PremiumFields = PremiumFields(isPremium: Option<bool>, memoryLimit: Option<int>)

  /** `isAtLimit`: a free account holding at least its quota of memories. */
  predicate IsAtLimit(isPremium: bool, count: nat, limit: int) {
    !isPremium && count >= limit
  }

  /** A premium account is never at its limit; a free one stays there as memories are added. */
  lemma AtLimitMonotone(isPremium: bool, count: nat, more: nat, limit: int)
    ensures isPremium ==> !IsAtLimit(isPremium, count, limit)
    ensures IsAtLimit(isPremium, count, limit) ==> IsAtLimit(isPremium, count + more, limit)
  {
  }

  /** With no usable limit on record, a free account reaches its quota at exactly 30 memories. */
  lemma DefaultQuota(count: nat)
    ensures IsAtLimit(FlagOr(None), count, IntOr(Some(0), DefaultMemoryLimit)) <==> count >= 30
    ensures IsAtLimit(FlagOr(None), count, IntOr(None, DefaultMemoryLimit)) <==> count >= 30
  {
  }

  // ---- recently added ----------------------------------------------------------------

  function Min(a: int, b: int): int {
    if a <= b then a else b
  }

  /** `recentMemories`: a copy sorted newest `createdAt` first, cut to its first four. */
  function RecentMemories(ms: seq<Memory>): (r: seq<Memory>)
    ensures |r| == Min(RecentCount, |ms|)
  {
    var s := SortBy(DateNewest, ms);
    assert |s| == |multiset(s)| == |ms|;
    s[..Min(RecentCount, |ms|)]
  }

  /**
   * The recent memories are memories of the album, newest first, and no memory left out is
   * newer than any memory shown.
   */
  lemma RecentMemoriesSpec(ms: seq<Memory>)
    ensures multiset(RecentMemories(ms)) <= multiset(ms)
    ensures var r := RecentMemories(ms);
      forall i, j :: 0 <= i < j < |r| ==> r[i].createdAt >= r[j].createdAt
    ensures var r := RecentMemories(ms);
      forall x, y :: x in multiset(ms) - multiset(r) && y in r ==> x.createdAt <= y.createdAt
  {
    var s := SortBy(DateNewest, ms);
    assert |s| == |multiset(s)| == |ms|;
    var k := Min(RecentCount, |ms|);
    SortBySorted(DateNewest, ms);
    SplitNewest(s, k);
    assert s == s[..k] + s[k..];
    assert multiset(ms) == multiset(s[..k]) + multiset(s[k..]);
  }

  /** Cutting a newest-first list leaves a newest-first head no older than anything in the rest. */
  lemma SplitNewest(s: seq<Memory>, k: nat)
    requires Sorted(DateNewest, s) && k <= |s|
    ensures forall i, j :: 0 <= i < j < k ==> s[..k][i].createdAt >= s[..k][j].createdAt
    ensures forall x, y :: x in s[k..] && y in s[..k] ==> x.createdAt <= y.createdAt
  {
    forall x, y | x in s[k..] && y in s[..k]
      ensures x.createdAt <= y.createdAt
    {
      var a :| k <= a < |s| && s[a] == x;
      var b :| 0 <= b < k && s[b] == y;
      assert Le(DateNewest, s[b], s[a]);
    }
    forall i, j | 0 <= i < j < k
      ensures s[..k][i].createdAt >= s[..k][j].createdAt
    {
      assert Le(DateNewest, s[i], s[j]);
    }
  }

  // ---- graph preview -----------------------------------------------------------------

  /** The memories drawn in the preview: the first ten, in album order. */
  function PreviewNodes(ms: seq<Memory>): (r: seq<Memory>)
    ensures |r| == Min(PreviewCount, |ms|) && r == ms[..|r|]
  {
    ms[..Min(PreviewCount, |ms|)]
  }

  /** Horizontal position of preview item `i`, in percent: four columns 25 apart. */
  function Left(i: nat): int {
    (i % 4) * 25 + 10
  }

  /** Vertical position of preview item `i`, in percent: rows of four, 30 apart. */
  function Top(i: nat): int {
    (i / 4) * 30 + 20
  }

  /** Every preview item lies inside the card and no two share a spot. */
  lemma PreviewLayout(i: nat, j: nat)
    requires i < PreviewCount && j < PreviewCount
    ensures 10 <= Left(i) <= 85 && 20 <= Top(i) <= 80
    ensures (Left(i), Top(i)) == (Left(j), Top(j)) ==> i == j
  {
    assert i == (i / 4) * 4 + i % 4;
    assert j == (j / 4) * 4 + j % 4;
  }

  /** The two counters: memories added and connections drawn. */
  function Statistics(ms: seq<Memory>, cs: seq<Connection>): (r: (nat, nat))
    ensures r.0 == |ms| && r.1 == |cs|
  {
    (|ms|, |cs|)
  }

  // ---- the page's state ------------------------------------------------------------

  class DashboardView {
    var isPremium: bool
    var memoryLimit: int
    var isModalOpen: bool
    var showPremiumModal: bool

    /** The premium state starts from the cached user record, with the `||` fallbacks. */
    constructor (cached: PremiumFields)
      ensures isPremium == FlagOr(cached.isPremium)
      ensures memoryLimit == IntOr(cached.memoryLimit, DefaultMemoryLimit)
      ensures !isModalOpen && !showPremiumModal
    {
      isPremium := FlagOr(cached.isPremium);
      memoryLimit := IntOr(cached.memoryLimit, DefaultMemoryLimit);
      isModalOpen, showPremiumModal := false, false;
    }

    /** `checkPremiumStatus`: a fetched user record replaces both fields; a failed fetch keeps them. */
    method CheckPremiumStatus(response: Result<PremiumFields, string>)
      modifies this
      ensures response.Success? ==>
        isPremium == FlagOr(response.value.isPremium) &&
        memoryLimit == IntOr(response.value.memoryLimit, DefaultMemoryLimit)
      ensures response.Failure? ==> isPremium == old(isPremium) && memoryLimit == old(memoryLimit)
      ensures isModalOpen == old(isModalOpen) && showPremiumModal == old(showPremiumModal)
    {
      if response.Success? {
        isPremium := FlagOr(response.value.isPremium);
        memoryLimit := IntOr(response.value.memoryLimit, DefaultMemoryLimit);
      }
    }

    /** `handleAddMemoryClick`: the premium offer at the quota, the new-memory form below it. */
    method AddMemoryClick(count: nat)
      modifies this
      ensures IsAtLimit(isPremium, count, memoryLimit) ==>
        showPremiumModal && isModalOpen == old(isModalOpen)
      ensures !IsAtLimit(isPremium, count, memoryLimit) ==>
        isModalOpen && showPremiumModal == old(showPremiumModal)
      ensures isPremium == old(isPremium) && memoryLimit == old(memoryLimit)
    {
      if IsAtLimit(isPremium, count, memoryLimit) {
        showPremiumModal := true;
      } else {
        isModalOpen := true;
      }
    }

    /**
     * `handleUpgrade`: once the upgrade request succeeds the account is premium and the offer
     * closes; a failed request changes nothing. Returns whether the upgrade went through.
     */
    method Upgrade(response: Result<(), string>) returns (upgraded: bool)
      modifies this
      ensures upgraded <==> response.Success?
      ensures upgraded ==> isPremium && !showPremiumModal
      ensures !upgraded ==> isPremium == old(isPremium) && showPremiumModal == old(showPremiumModal)
      ensures memoryLimit == old(memoryLimit) && isModalOpen == old(isModalOpen)
    {
      upgraded := response.Success?;
      if upgraded {
        isPremium := true;
        showPremiumModal := false;
      }
    }

    /** The form's `onClose`. */
    method CloseModal()
      modifies this
      ensures !isModalOpen
      ensures isPremium == old(isPremium) && memoryLimit == old(memoryLimit)
      ensures showPremiumModal == old(showPremiumModal)
    {
      isModalOpen := false;
    }

    /** The premium offer's `onClose`. */
    method ClosePremiumModal()
      modifies this
      ensures !showPremiumModal
      ensures isPremium == old(isPremium) && memoryLimit == old(memoryLimit)
      ensures isModalOpen == old(isModalOpen)
    {
      showPremiumModal := false;
    }
  }
}
