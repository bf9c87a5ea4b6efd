# Hacker News Enhanced: feed, vote and carousel logic in Dafny

This project models the logic inside the components of a Hacker News reader
written in React. The model covers:

* **The news list's feed** (`NewsList`). A page cursor starts at 1. Each page
  is a window of ten ids into the top-story id list, and its ids resolve to
  stories all-or-nothing. A de-duplicating merge appends each page to the
  accumulated list.
* **The upvote hook** (`useVote`). The hook holds the displayed vote and score,
  plus the browser's key/value storage, modelled as a `map<string, string>`.
  The mount effect restores a saved vote, and `vote('up')` toggles the vote.
* **The two bento carousels** (`BentoGrid`, `EnhancedBentoGrid`). Stories are
  split into two rows of up to ten. The enhanced grid pads a short second row.
  Each row is drawn twice for the seamless loop. The model also covers the
  per-card React keys and row-wide indices, the link target of each card and
  the "trending" badge.

Every operation is a pure function over immutable values. A React updater or
effect is one function application. JavaScript behaviour that matters is
written out:
* `Array.prototype.slice` with clipping and negative bounds (`JsArray.Slice`);
* truthiness, where an empty `url` or an empty saved vote counts as absent;
* decimal printing of ids and positions inside template-literal keys
  (`Decimal`).

The network is a parameter. `lookup: int -> Option<Story>` stands for one item
request, and `None` stands for a failed request.

Modules: `Wrappers`, `Decimal`, `JsArray`, `Stories`, `Feed`, `Votes`,
`Carousel`, `BentoGrid`, `EnhancedBentoGrid`, one file each.

Three behaviours of the code are kept as written:

* The merge filters incoming stories only against the list it already holds,
  not within the page itself. The merged list has distinct ids when both the
  list held so far and the page do (`Feed.MergeUnique`); a page that repeats a
  story not yet held keeps both copies (`Feed.MergeKeepsRepeatsWithinPage`).
* A reload restores a saved upvote but not the score. The restored card shows
  the server's score with the vote marked up. Clicking it then withdraws the
  vote without lowering the score (`Votes.ReloadedVoteNotCounted`). Two clicks
  restore the vote, the score and the storage only from a state whose score
  and stored key agree (`Votes.VoteUpTwice`).
* A non-empty stored vote other than `"up"` is adopted unchecked by the cast
  `savedVote as 'up'`. It is kept as `Vote.Unrecognized(tag)`. It is not an
  upvote, so the next click casts one.

## Model

| member | source | states |
|---|---|---|
| `Stories.CardLink` | src/components/BentoGrid.tsx:108-110 | a card links to the story's URL with target `_blank` and rel `noopener noreferrer` when the URL is truthy; otherwise it links to the in-app route `#/item/<id>`, with target and rel unset |
| `Stories.ItemRouteNamesStory` | src/components/EnhancedBentoGrid.tsx:289 | the id can be read back from an in-app link |
| `Stories.ItemRoutesDistinct` | src/components/EnhancedBentoGrid.tsx:289-291 | two URL-less stories share an in-app link iff they share an id |
| `Stories.IsTrending` | src/components/EnhancedBentoGrid.tsx:205 | a story earns the trending badge iff its score is above 100 |
| `Decimal.IntToString` | src/hooks/useVote.tsx:15 | a story id prints as a non-empty string, all digits iff the id is non-negative |
| `Decimal.NatToString` | src/components/BentoGrid.tsx:79 | a position prints as a non-empty string of digits, with no leading zero unless it is 0 |
| `Decimal.ParseNatToString` | src/components/BentoGrid.tsx:79 | parsing the printed digits gives the number back |
| `Decimal.IntToStringInjective` | src/hooks/useVote.tsx:15 | two integers print the same iff they are equal |
| `Decimal.DigitTailAfterDash` | src/components/BentoGrid.tsx:79 | in `x-<digits>`, the digits after the last dash are determined by the string |
| `JsArray.Min` | src/components/BentoGrid.tsx:62-63 | `Math.min` is at most both arguments and equal to one of them |
| `JsArray.Slice` | src/components/NewsList.tsx:49 | for non-negative bounds, `slice` is the subsequence clipped to the list, with length max(0, min(end, n) - start); it is empty when end <= start |
| `Feed.PageIds` | src/components/NewsList.tsx:44-49 | with no id list the page is empty; page p >= 1 has length min(10, max(0, n - 10(p-1))) and equals the ids from position 10(p-1) onwards, up to that length |
| `Feed.PageWindow` | src/components/NewsList.tsx:47-49 | page k covers positions min(10(k-1), n) up to min(10k, n) |
| `Feed.PagesAdjacent` | src/components/NewsList.tsx:47-49 | page p followed by page p+1 is one contiguous stretch of the id list |
| `Feed.PagesDisjoint` | src/components/NewsList.tsx:47-49 | the clipped window of an earlier page ends where or before a later page's starts, so with distinct ids no id is fetched by two pages |
| `Feed.PagesUpToIsPrefix` | src/components/NewsList.tsx:47-49 | pages 1..k together are exactly the first min(10k, n) ids |
| `Feed.ResolveAll` | src/components/NewsList.tsx:51 | the page's stories exist iff every lookup succeeds; they come in id order, one per id |
| `Feed.FetchPage` | src/components/NewsList.tsx:44-53 | before the id list arrives the page is empty; a fetched page has at most ten stories, one per id of its window |
| `Feed.Fresh` | src/components/NewsList.tsx:63-65 | the kept stories have ids absent from the previous list and all come from the page; every page story with a new id is kept |
| `Feed.FreshIsFilter` | src/components/NewsList.tsx:63-65 | the filter distributes over concatenation, so it keeps the page's order |
| `Feed.FreshSingle` | src/components/NewsList.tsx:64 | a single story is kept iff its id is not in the previous list |
| `Feed.FreshIds` | src/components/NewsList.tsx:63-65 | the ids added are the page's ids minus the previous list's |
| `Feed.Merge` | src/components/NewsList.tsx:61-67 | the previous list is an unchanged prefix; everything after it comes from the page and has an id not in the previous list |
| `Feed.MergeIds` | src/components/NewsList.tsx:61-67 | the merged ids are the union of the previous list's and the page's |
| `Feed.MergeUnique` | src/components/NewsList.tsx:61-67 | if both the previous list and the page have distinct ids, so does the result |
| `Feed.MergeKeepsRepeatsWithinPage` | src/components/NewsList.tsx:63-66 | a page holding one story twice is appended with both copies, because the filter consults only the previous list |
| `Feed.MergeIdempotent` | src/components/NewsList.tsx:62-66 | merging the same page a second time changes nothing |
| `Feed.FreshAllNew` | src/components/NewsList.tsx:63-65 | a page whose ids are all new is appended whole |
| `Feed.LoadMore` | src/components/NewsList.tsx:71-73 | `loadMore` advances the cursor by exactly one and keeps the stories |
| `Feed.LoadMoreTimes` | src/components/NewsList.tsx:71-73 | k calls of `loadMore` advance the cursor by k |
| `Feed.Receive` | src/components/NewsList.tsx:59-69 | absent or failed page data leaves the list unchanged; page data is merged in; the cursor does not move |
| `Feed.Visit` | src/components/NewsList.tsx:44-69 | showing the current page keeps the cursor and keeps the list held so far as a prefix |
| `Feed.Loaded` | src/components/NewsList.tsx:29-73 | the state after k pages: page 1 on mount, then one `loadMore` and one received page at a time (its properties are `Feed.LoadedPage` and `Feed.LoadedIsPrefix`) |
| `Feed.LoadedPage` | src/components/NewsList.tsx:29 | the cursor starts at 1 and stands at k after k pages |
| `Feed.LoadedNextPage` | src/components/NewsList.tsx:44-69 | a list holding the stories of the first 10(k-1) ids, once page k is received, holds those of the first 10k ids |
| `Feed.LoadedIsPrefix` | src/components/NewsList.tsx:29-73 | with distinct ids and successful lookups, after k pages the list is exactly the stories of the first min(10k, n) ids, in order, with no repeated id |
| `Votes.Get` | src/hooks/useVote.tsx:15 | reading a key gives its stored value, or null exactly when the key is absent |
| `Votes.Mount` | src/hooks/useVote.tsx:10-11 | the first render shows no vote and the server's score, with storage as it was |
| `Votes.VoteKey` | src/hooks/useVote.tsx:15 | a storage key is `vote-` followed by text that parses back to the story id |
| `Votes.VoteKeyInjective` | src/hooks/useVote.tsx:26 | two stories share a storage key iff they are the same story |
| `Votes.SavedVote` | src/hooks/useVote.tsx:16-17 | a non-empty saved string replaces the null vote; it is an upvote iff it is `"up"` |
| `Votes.MountConsistent` | src/hooks/useVote.tsx:10-11 | a new card starts with no vote and the server's score, consistent with a storage that holds no vote for it |
| `Votes.Load` | src/hooks/useVote.tsx:14-21 | a non-empty saved value wins over `initialVote`; without one, an up `initialVote` is adopted; otherwise the vote is unchanged; score and storage are never touched |
| `Votes.VoteUp` | src/hooks/useVote.tsx:23-41 | voting up when already up clears the vote, resets the score and deletes the key; otherwise it casts the vote, sets score+1 and stores `"up"`; every other key is unchanged |
| `Votes.VoteUpConsistent` | src/hooks/useVote.tsx:26-28 | after any vote the score is the server's or one more, and the key is present with `"up"` exactly when the vote is up |
| `Votes.VoteUpTwice` | src/hooks/useVote.tsx:23-41 | from a consistent state, two votes restore the vote, the score and the storage exactly |
| `Votes.VoteUpOtherStory` | src/hooks/useVote.tsx:26 | voting on one story leaves another story's stored vote as it was |
| `Votes.ReloadRestoresVote` | src/hooks/useVote.tsx:15-17 | after a vote is cast, a freshly mounted card shows it as up, whatever `initialVote` says |
| `Votes.ReloadedVoteNotCounted` | src/hooks/useVote.tsx:14-30 | a restored upvote is shown with the unchanged server score; the next click withdraws it without lowering the score |
| `Carousel.Track` | src/components/BentoGrid.tsx:78 | a track is twice the row's length; position i shows row slot i mod the row length, and position i plus the row length repeats position i |
| `Carousel.CardKey` | src/components/BentoGrid.tsx:79 | a key starts with its prefix and is longer than it |
| `Carousel.CardKeyReadsBack` | src/components/BentoGrid.tsx:79 | after the prefix, a key holds text parsing back to the story id, a dash, and digits parsing back to the position |
| `Carousel.CardKeyPosition` | src/components/BentoGrid.tsx:79 | equal keys have equal positions |
| `Carousel.TrackKeys` | src/components/BentoGrid.tsx:94 | a track has one key per card, built from the card's story id and position |
| `Carousel.TrackKeysDistinct` | src/components/BentoGrid.tsx:78-79 | keys within a track are pairwise distinct even though each story appears twice |
| `Carousel.CardIndex` | src/components/EnhancedBentoGrid.tsx:147-174 | a card's index is its position modulo the row length plus the offset; it lies in [offset, offset + row length) and names the row slot whose story the card shows |
| `BentoGrid.SplitRows` | src/components/BentoGrid.tsx:62-63 | the first row is the first min(10, n) stories and the second the next ones up to 20, unpadded; together they are the first min(20, n) stories; a non-empty second row means a full first row |
| `BentoGrid.RenderTrack` | src/components/BentoGrid.tsx:93-94 | a track has one card per doubled-row position, with that story, its position key and its link |
| `BentoGrid.Render` | src/components/BentoGrid.tsx:65-98 | the tracks have twice the length of each row; an empty list gives two empty tracks |
| `BentoGrid.TrackShowsRow` | src/components/BentoGrid.tsx:78 | a track shows only its row's stories, each at its slot and again one row length later |
| `BentoGrid.RenderShowsFirstTwenty` | src/components/BentoGrid.tsx:62-63 | the first track shows only stories 1-10 and the second only stories 11-20 |
| `BentoGrid.RenderKeysDistinct` | src/components/BentoGrid.tsx:78-94 | no two cards of one track share a key |
| `EnhancedBentoGrid.SplitRows` | src/components/EnhancedBentoGrid.tsx:117-125 | an empty list draws nothing; the first row is the first min(10, n) stories; a base second row under 5 with a first row over 5 is padded with the first row's head to exactly 5; otherwise it is the base slice; it never exceeds 10 |
| `EnhancedBentoGrid.PaddingRange` | src/components/EnhancedBentoGrid.tsx:120-125 | padding happens iff there are 6 to 14 stories |
| `EnhancedBentoGrid.SecondRowFilled` | src/components/EnhancedBentoGrid.tsx:120-125 | more than five stories give a second row of 5 to 10; five or fewer leave it empty; it holds only stories from the first twenty |
| `EnhancedBentoGrid.CardAt` | src/components/EnhancedBentoGrid.tsx:140-148 | the card at a track position shows row slot position mod row length, with index that slot plus the offset, the key built from prefix, id and position, its link, and the badge iff the story is trending |
| `EnhancedBentoGrid.RenderTrack` | src/components/EnhancedBentoGrid.tsx:167-174 | each card shows its track position's story, with index equal to its position modulo the row length plus the offset, naming that story's slot, its prefixed key, its link and the trending badge iff score > 100 |
| `EnhancedBentoGrid.ShownStoryBadged` | src/components/EnhancedBentoGrid.tsx:205 | every story among the first twenty is drawn by some card, which shows the trending badge iff its score is above 100 |
| `EnhancedBentoGrid.FirstRowBadged` | src/components/EnhancedBentoGrid.tsx:140-148 | story k of the first ten is drawn at position k of the first track, with the badge iff its score is above 100 |
| `EnhancedBentoGrid.SecondRowBadged` | src/components/EnhancedBentoGrid.tsx:167-175 | story k of stories 11-20 is drawn at position k - 10 of the second track, with the badge iff its score is above 100 |
| `EnhancedBentoGrid.Render` | src/components/EnhancedBentoGrid.tsx:140-174 | nothing is drawn iff the list is empty; first-row indices lie in [0, first-row length); second-row indices continue from there up to the sum of both lengths |
| `EnhancedBentoGrid.RenderKeysDistinct` | src/components/EnhancedBentoGrid.tsx:141-168 | no two cards of the grid share a key, within a track or across the two |

## Left out

- The network: fetching the top-story id list and each item through axios, and react-query's caching, `staleTime`, `enabled` flag and retries. The id list is an `Option<seq<int>>` and each item request a `lookup` parameter.
- Concurrency: `Promise.all` is modelled by its result only, which is all stories in id order or a failure. The order in which requests complete and re-render scheduling are not modelled; each updater or effect is one atomic step.
- The list/bento view toggle, the loading spinner, the error banner and the reload button of the news list: these are rendering only.
- Toast notifications of the vote hook: a side channel with no effect on state.
- Real `localStorage` and its failure modes: storage is a finite map whose reads and writes never fail.
- All GSAP and ScrollTrigger animation, including the enhanced grid's early exit for an empty list in its animation effect, row widths, tween durations, pause/resume on hover, and the scroll parallax. These are third-party animation calls over floating-point layout values.
- Stories.CardLink: a truthy url that `new URL` rejects (one that is not an absolute URL, such as `"foo"`) makes the card's domain computation throw, so the grid fails to render and no card is drawn (BentoGrid.tsx:103, EnhancedBentoGrid.tsx:201). The model assumes every truthy url parses; under that assumption `BentoGrid.Render` and `EnhancedBentoGrid.ShownStoryBadged` draw every card.
- The hovered-card state of the enhanced grid, the card sizes and styles, the domain shown on a card (`new URL(...).hostname`) and the relative time (date-fns): foreign library calls or presentation.
- `Decimal.IntToString`: JavaScript numbers are doubles; ids and positions are modelled as integers, so non-integral or very large ids, which print in other formats, are not covered.
- The header, footer, sidebar, pages, smooth-scroll hook and the story card's own markup: presentation with no logic beyond trivial conditionals.
