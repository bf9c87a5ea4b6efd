/**
  The news list's feed: a page cursor, the window of top-story ids that a
  page covers, the all-or-nothing resolution of those ids to stories, and the
  merge that appends each fetched page to the accumulated list.
 */
module Feed {
  import opened Wrappers
  import opened JsArray
  import opened Stories

  const StoriesPerPage: nat := 10

  /** First id position of a page; pages are numbered from 1. */
  function PageStart(page: int): int {
    (page - 1) * StoriesPerPage
  }

  /**
    The ids a page covers: `storyIds.slice(start, start + 10)`, or nothing
    while the id list has not arrived.
   */
  function PageIds(storyIds: Option<seq<int>>, page: int): (w: seq<int>)
    ensures storyIds.None? ==> w == []
    ensures storyIds.Some? && page >= 1 ==>
      var ids := storyIds.value;
      var from := Min(PageStart(page), |ids|);
      && |w| == Min(StoriesPerPage, Max(0, |ids| - PageStart(page)))
      && w == ids[from..from + |w|]
  {
    match storyIds
    case None => []
    case Some(ids) => Slice(ids, PageStart(page), PageStart(page) + StoriesPerPage)
  }

  /** Page k covers id positions 10(k-1) up to 10k, clipped to the list. */
  lemma PageWindow(ids: seq<int>, k: nat)
    requires k >= 1
    ensures PageIds(Some(ids), k) == ids[Min(StoriesPerPage * (k - 1), |ids|)..Min(StoriesPerPage * k, |ids|)]
  {
  }

  /** Pages 1..k of the id list, in order. */
  function PagesUpTo(ids: seq<int>, k: nat): seq<int> {
    if k == 0 then [] else PagesUpTo(ids, k - 1) + PageIds(Some(ids), k)
  }

  /** Page p ends exactly where page p + 1 starts. */
  lemma PagesAdjacent(ids: seq<int>, p: int)
    requires p >= 1
    ensures PageIds(Some(ids), p) + PageIds(Some(ids), p + 1)
         == ids[Min(PageStart(p), |ids|)..Min(PageStart(p) + 2 * StoriesPerPage, |ids|)]
  {
  }

  /**
    Distinct pages read disjoint stretches of the id list: the earlier window
    ends where or before the later one starts, so with distinct ids no id is
    fetched by two pages.
   */
  lemma PagesDisjoint(ids: seq<int>, p: int, q: int)
    requires 1 <= p < q
    ensures Min(PageStart(p) + StoriesPerPage, |ids|) <= Min(PageStart(q), |ids|)
    ensures Distinct(ids) ==>
      forall x :: x in PageIds(Some(ids), p) ==> x !in PageIds(Some(ids), q)
  {
    var wp, wq := PageIds(Some(ids), p), PageIds(Some(ids), q);
    var sp, sq := Min(PageStart(p), |ids|), Min(PageStart(q), |ids|);
    if Distinct(ids) {
      forall x | x in wp ensures x !in wq {
        var a :| 0 <= a < |wp| && wp[a] == x;
        forall b | 0 <= b < |wq| ensures wq[b] != x {
          assert wp[a] == ids[sp + a] && wq[b] == ids[sq + b];
        }
      }
    }
  }

  /** Loading pages 1..k reads exactly the first min(10k, |ids|) ids. */
  lemma {:induction false} PagesUpToIsPrefix(ids: seq<int>, k: nat)
    ensures PagesUpTo(ids, k) == ids[..Min(StoriesPerPage * k, |ids|)]
  {
    if k > 0 {
      var before := Min(StoriesPerPage * (k - 1), |ids|);
      var after := Min(StoriesPerPage * k, |ids|);
      assert PagesUpTo(ids, k - 1) == ids[..before] by {
        PagesUpToIsPrefix(ids, k - 1);
      }
      assert PageIds(Some(ids), k) == ids[before..after] by {
        PageWindow(ids, k);
      }
      assert StoriesPerPage * k == StoriesPerPage * (k - 1) + StoriesPerPage;
      assert 0 <= before <= after <= |ids|;
      assert ids[..before] + ids[before..after] == ids[..after];
    }
  }

  /** Every lookup of the list succeeds. */
  predicate AllResolve(ids: seq<int>, lookup: int -> Option<Story>) {
    forall k :: 0 <= k < |ids| ==> lookup(ids[k]).Some?
  }

  /**
    `Promise.all` over the per-id lookups: every lookup must succeed, and the
    stories come back in id order. `lookup` stands for one item request.
   */
  function ResolveAll(ids: seq<int>, lookup: int -> Option<Story>): (r: Option<seq<Story>>)
    ensures r.Some? <==> AllResolve(ids, lookup)
    ensures r.Some? ==> |r.value| == |ids|
    ensures r.Some? ==> forall k :: 0 <= k < |ids| ==> lookup(ids[k]) == Some(r.value[k])
    decreases |ids|
  {
    if ids == [] then Some([])
    else
      match lookup(ids[0])
      case None => None
      case Some(s) =>
        match ResolveAll(ids[1..], lookup)
        case None => None
        case Some(rest) => Some([s] + rest)
  }

  /** The page query: no ids yet gives an empty page; otherwise resolve the window. */
  function FetchPage(storyIds: Option<seq<int>>, page: int, lookup: int -> Option<Story>): (r: Option<seq<Story>>)
    ensures storyIds.None? ==> r == Some([])
    ensures r.Some? ==> |r.value| == |PageIds(storyIds, page)| <= StoriesPerPage
  {
    ResolveAll(PageIds(storyIds, page), lookup)
  }

  /** The stories of `incoming` whose id is not already in `prev`, in order. */
  function Fresh(prev: seq<Story>, incoming: seq<Story>): (r: seq<Story>)
    ensures |r| <= |incoming|
    ensures forall k :: 0 <= k < |r| ==> r[k].id !in Ids(prev) && r[k] in incoming
    ensures forall s :: s in incoming && s.id !in Ids(prev) ==> s in r
    decreases |incoming|
  {
    if incoming == [] then []
    else
      var rest := Fresh(prev, incoming[1..]);
      if incoming[0].id in Ids(prev) then rest else [incoming[0]] + rest
  }

  /** The `setStories` updater: `prev` followed by the page's new stories. */
  function Merge(prev: seq<Story>, incoming: seq<Story>): (r: seq<Story>)
    ensures |prev| <= |r| <= |prev| + |incoming|
    ensures r[..|prev|] == prev
    ensures forall k :: |prev| <= k < |r| ==> r[k].id !in Ids(prev) && r[k] in incoming
  {
    prev + Fresh(prev, incoming)
  }

  /** Fresh is the order-preserving filter: it keeps or drops each story on its own. */
  lemma {:induction false} FreshIsFilter(prev: seq<Story>, a: seq<Story>, b: seq<Story>)
    ensures Fresh(prev, a + b) == Fresh(prev, a) + Fresh(prev, b)
    decreases |a|
  {
    if a == [] {
      assert a + b == b;
    } else {
      assert (a + b)[1..] == a[1..] + b;
      FreshIsFilter(prev, a[1..], b);
    }
  }

  lemma FreshSingle(prev: seq<Story>, s: Story)
    ensures Fresh(prev, [s]) == if s.id in Ids(prev) then [] else [s]
  {
    assert [s][1..] == [];
  }

  /** The ids the merge adds are exactly the page's ids that were not there yet. */
  lemma FreshIds(prev: seq<Story>, incoming: seq<Story>)
    ensures Ids(Fresh(prev, incoming)) == Ids(incoming) - Ids(prev)
  {
  }

  lemma MergeIds(prev: seq<Story>, incoming: seq<Story>)
    ensures Ids(Merge(prev, incoming)) == Ids(prev) + Ids(incoming)
  {
    FreshIds(prev, incoming);
    IdsConcat(prev, Fresh(prev, incoming));
  }

  lemma {:induction false} FreshUnique(prev: seq<Story>, incoming: seq<Story>)
    requires UniqueIds(incoming)
    ensures UniqueIds(Fresh(prev, incoming))
    decreases |incoming|
  {
    if incoming != [] {
      var tail := incoming[1..];
      assert UniqueIds(tail) by {
        forall i, j | 0 <= i < j < |tail| ensures tail[i].id != tail[j].id {
          assert tail[i] == incoming[i + 1] && tail[j] == incoming[j + 1];
        }
      }
      FreshUnique(prev, tail);
      var rest := Fresh(prev, tail);
      forall k | 0 <= k < |rest| ensures rest[k].id != incoming[0].id {
        var m :| 0 <= m < |tail| && tail[m] == rest[k];
        assert tail[m] == incoming[m + 1];
      }
    }
  }

  /** With no duplicates in either input, the merged list has none. */
  lemma MergeUnique(prev: seq<Story>, incoming: seq<Story>)
    requires UniqueIds(prev) && UniqueIds(incoming)
    ensures UniqueIds(Merge(prev, incoming))
  {
    FreshUnique(prev, incoming);
    var added := Fresh(prev, incoming);
    var r := Merge(prev, incoming);
    forall i, j | 0 <= i < j < |r| ensures r[i].id != r[j].id {
      if j < |prev| {
        assert r[i] == prev[i] && r[j] == prev[j];
      } else if i < |prev| {
        assert r[i] == prev[i];
        assert r[i].id in Ids(prev);
      } else {
        assert r[i] == added[i - |prev|] && r[j] == added[j - |prev|];
      }
    }
  }

  /** The filter only looks at `prev`: a page holding one story twice keeps both copies. */
  lemma MergeKeepsRepeatsWithinPage(s: Story)
    ensures Merge([], [s, s]) == [s, s]
    ensures !UniqueIds(Merge([], [s, s]))
  {
    assert Ids([]) == {};
    assert [s, s][1..] == [s];
    assert [s][1..] == [];
  }

  lemma FreshEmpty(prev: seq<Story>, incoming: seq<Story>)
    requires Ids(incoming) <= Ids(prev)
    ensures Fresh(prev, incoming) == []
  {
  }

  /** Receiving the same page again (a refetch) changes nothing. */
  lemma MergeIdempotent(prev: seq<Story>, incoming: seq<Story>)
    ensures Merge(Merge(prev, incoming), incoming) == Merge(prev, incoming)
  {
    var once := Merge(prev, incoming);
    MergeIds(prev, incoming);
    FreshEmpty(once, incoming);
  }

  /** A page whose ids are all new is appended whole. */
  lemma {:induction false} FreshAllNew(prev: seq<Story>, incoming: seq<Story>)
    requires forall k :: 0 <= k < |incoming| ==> incoming[k].id !in Ids(prev)
    ensures Fresh(prev, incoming) == incoming
    decreases |incoming|
  {
    if incoming != [] {
      FreshAllNew(prev, incoming[1..]);
      assert incoming == [incoming[0]] + incoming[1..];
    }
  }

  /** The list's state: the page cursor and the accumulated stories. */
  datatype FeedState = FeedState(page: int, stories: seq<Story>)

  const Initial := FeedState(1, [])

  /** `loadMore`: the cursor moves on by one, the stories stay. */
  function LoadMore(f: FeedState): (r: FeedState)
    ensures r.page == f.page + 1
    ensures r.stories == f.stories
  {
    f.(page := f.page + 1)
  }

  function LoadMoreTimes(f: FeedState, k: nat): (r: FeedState)
    ensures r.page == f.page + k
    ensures r.stories == f.stories
    decreases k
  {
    if k == 0 then f else LoadMore(LoadMoreTimes(f, k - 1))
  }

  /** The effect on new page data: a failed or absent page leaves the list alone. */
  function Receive(f: FeedState, pageStories: Option<seq<Story>>): (r: FeedState)
    ensures r.page == f.page
    ensures pageStories.None? ==> r == f
    ensures pageStories.Some? ==> r.stories == Merge(f.stories, pageStories.value)
  {
    match pageStories
    case None => f
    case Some(p) => f.(stories := Merge(f.stories, p))
  }

  /** The current page's query resolves and its result is received. */
  function Visit(f: FeedState, ids: seq<int>, lookup: int -> Option<Story>): (r: FeedState)
    ensures r.page == f.page
    ensures |r.stories| >= |f.stories| && r.stories[..|f.stories|] == f.stories
  {
    Receive(f, FetchPage(Some(ids), f.page, lookup))
  }

  /** The list after k pages have been shown: page 1 on mount, then one per `loadMore`. */
  function Loaded(ids: seq<int>, lookup: int -> Option<Story>, k: nat): FeedState
    decreases k
  {
    if k == 0 then Initial
    else if k == 1 then Visit(Initial, ids, lookup)
    else Visit(LoadMore(Loaded(ids, lookup, k - 1)), ids, lookup)
  }

  predicate Distinct(ids: seq<int>) {
    forall i, j :: 0 <= i < j < |ids| ==> ids[i] != ids[j]
  }

  /** Every id resolves, to a story carrying that id. */
  predicate ResolvesToOwnIds(ids: seq<int>, lookup: int -> Option<Story>) {
    forall k :: 0 <= k < |ids| ==> lookup(ids[k]).Some? && lookup(ids[k]).value.id == ids[k]
  }

  lemma ResolvesToOwnIdsSlice(ids: seq<int>, lookup: int -> Option<Story>, i: nat, j: nat)
    requires ResolvesToOwnIds(ids, lookup)
    requires i <= j <= |ids|
    ensures ResolvesToOwnIds(ids[i..j], lookup)
  {
    forall k | 0 <= k < j - i ensures ids[i..j][k] == ids[i + k] { }
  }

  lemma ResolvedIds(xs: seq<int>, lookup: int -> Option<Story>)
    requires ResolvesToOwnIds(xs, lookup)
    ensures ResolveAll(xs, lookup).Some?
    ensures forall k :: 0 <= k < |xs| ==> ResolveAll(xs, lookup).value[k].id == xs[k]
  {
  }

  /** Resolving two lists one after the other is resolving their concatenation. */
  lemma ResolveAllConcat(a: seq<int>, b: seq<int>, lookup: int -> Option<Story>)
    requires ResolveAll(a, lookup).Some? && ResolveAll(b, lookup).Some?
    ensures ResolveAll(a + b, lookup) == Some(ResolveAll(a, lookup).value + ResolveAll(b, lookup).value)
  {
    var ra := ResolveAll(a, lookup).value;
    var rb := ResolveAll(b, lookup).value;
    var ab := a + b;
    assert AllResolve(ab, lookup) by {
      forall k | 0 <= k < |ab| ensures lookup(ab[k]).Some? {
        if k < |a| {
          assert ab[k] == a[k];
        } else {
          assert ab[k] == b[k - |a|];
        }
      }
    }
    var r := ResolveAll(ab, lookup).value;
    forall k | 0 <= k < |ab| ensures r[k] == (ra + rb)[k] {
      if k < |a| {
        assert ab[k] == a[k];
      } else {
        assert ab[k] == b[k - |a|];
      }
    }
    assert r == ra + rb;
  }

  /** The next page's stories all carry ids not seen on earlier pages, so the merge keeps them all. */
  lemma MergeNextPage(ids: seq<int>, lookup: int -> Option<Story>, m: nat, n: nat)
    requires Distinct(ids) && ResolvesToOwnIds(ids, lookup)
    requires m <= n <= |ids|
    ensures ResolveAll(ids[..m], lookup).Some? && ResolveAll(ids[m..n], lookup).Some?
    ensures ResolveAll(ids[..n], lookup).Some?
    ensures Merge(ResolveAll(ids[..m], lookup).value, ResolveAll(ids[m..n], lookup).value)
         == ResolveAll(ids[..n], lookup).value
  {
    assert ids[..n] == ids[..m] + ids[m..n];
    ResolvesToOwnIdsSlice(ids, lookup, 0, m);
    ResolvesToOwnIdsSlice(ids, lookup, m, n);
    ResolvedIds(ids[..m], lookup);
    ResolvedIds(ids[m..n], lookup);
    ResolveAllConcat(ids[..m], ids[m..n], lookup);
    var prev := ResolveAll(ids[..m], lookup).value;
    var page := ResolveAll(ids[m..n], lookup).value;
    forall j | 0 <= j < |page| ensures page[j].id !in Ids(prev) {
      assert page[j].id == ids[m + j];
      assert forall i :: 0 <= i < |prev| ==> prev[i].id == ids[i] != ids[m + j];
    }
    FreshAllNew(prev, page);
  }

  lemma ResolvedUnique(ids: seq<int>, lookup: int -> Option<Story>, n: nat)
    requires Distinct(ids) && ResolvesToOwnIds(ids, lookup)
    requires n <= |ids|
    ensures ResolveAll(ids[..n], lookup).Some?
    ensures UniqueIds(ResolveAll(ids[..n], lookup).value)
  {
    ResolvesToOwnIdsSlice(ids, lookup, 0, n);
    ResolvedIds(ids[..n], lookup);
  }

  /** The cursor after k pages is on page k (page 1 before anything is shown). */
  lemma {:induction false} LoadedPage(ids: seq<int>, lookup: int -> Option<Story>, k: nat)
    ensures Loaded(ids, lookup, k).page == Max(1, k)
    decreases k
  {
    if k > 1 {
      LoadedPage(ids, lookup, k - 1);
    }
  }

  /** The state a page's query starts from: the initial list, or the list after `loadMore`. */
  function Before(ids: seq<int>, lookup: int -> Option<Story>, k: nat): FeedState
    requires k >= 1
  {
    if k == 1 then Initial else LoadMore(Loaded(ids, lookup, k - 1))
  }

  lemma LoadedStep(ids: seq<int>, lookup: int -> Option<Story>, k: nat)
    requires k >= 1
    ensures Before(ids, lookup, k).page == k
    ensures Loaded(ids, lookup, k) == Receive(Before(ids, lookup, k), ResolveAll(PageIds(Some(ids), k), lookup))
  {
    if k > 1 {
      LoadedPage(ids, lookup, k - 1);
    }
  }

  lemma BeforeStories(ids: seq<int>, lookup: int -> Option<Story>, k: nat)
    requires k > 1
    ensures Before(ids, lookup, k).stories == Loaded(ids, lookup, k - 1).stories
  {
  }

  /** One more page: if the list held the first m ids' stories, it now holds the first n. */
  lemma LoadedNextPage(ids: seq<int>, lookup: int -> Option<Story>, k: nat)
    requires Distinct(ids) && ResolvesToOwnIds(ids, lookup)
    requires k >= 1
    requires Before(ids, lookup, k).stories == ResolveAll(ids[..Min(StoriesPerPage * (k - 1), |ids|)], lookup).value
    ensures ResolveAll(ids[..Min(StoriesPerPage * k, |ids|)], lookup).Some?
    ensures Loaded(ids, lookup, k).stories == ResolveAll(ids[..Min(StoriesPerPage * k, |ids|)], lookup).value
  {
    var m := Min(StoriesPerPage * (k - 1), |ids|);
    var n := Min(StoriesPerPage * k, |ids|);
    LoadedStep(ids, lookup, k);
    PageWindow(ids, k);
    MergeNextPage(ids, lookup, m, n);
  }

  /**
    With distinct top-story ids and lookups that succeed, after k pages the
    list is exactly the stories of the first min(10k, |ids|) ids, in order,
    with no repeated id.
   */
  lemma {:induction false} LoadedIsPrefix(ids: seq<int>, lookup: int -> Option<Story>, k: nat)
    requires Distinct(ids) && ResolvesToOwnIds(ids, lookup)
    ensures ResolveAll(ids[..Min(StoriesPerPage * k, |ids|)], lookup).Some?
    ensures Loaded(ids, lookup, k).stories == ResolveAll(ids[..Min(StoriesPerPage * k, |ids|)], lookup).value
    ensures UniqueIds(Loaded(ids, lookup, k).stories)
    decreases k
  {
    var n := Min(StoriesPerPage * k, |ids|);
    ResolvedUnique(ids, lookup, n);
    if k == 0 {
      assert ids[..n] == [];
    } else {
      if k == 1 {
        assert ids[..0] == [];
      } else {
        var m := Min(StoriesPerPage * (k - 1), |ids|);
        assert Loaded(ids, lookup, k - 1).stories == ResolveAll(ids[..m], lookup).value by {
          LoadedIsPrefix(ids, lookup, k - 1);
        }
        BeforeStories(ids, lookup, k);
      }
      LoadedNextPage(ids, lookup, k);
    }
  }
}
