/**
  The enhanced bento grid: the same two looping rows, but a short second row
  is topped up from the head of the first, and each card carries a row-wide
  index and a "trending" badge.
 */
module EnhancedBentoGrid {
  import opened Wrappers
  import opened JsArray
  import opened Stories
  import opened Carousel

  /** A second row shorter than this is padded, when the first row can spare stories. */
  const PadTarget: nat := 5

  /** The rows, or `None` when there is nothing to draw (the component returns null). */
  function SplitRows(stories: seq<Story>): (r: Option<Rows>)
    ensures r.None? <==> |stories| == 0
    ensures r.Some? ==> r.value.first == stories[..Min(RowCapacity, |stories|)]
    ensures r.Some? ==>
      var base := stories[Min(RowCapacity, |stories|)..Min(2 * RowCapacity, |stories|)];
      if |base| < PadTarget && |r.value.first| > PadTarget
      then r.value.second == base + r.value.first[..PadTarget - |base|] && |r.value.second| == PadTarget
      else r.value.second == base
    ensures r.Some? ==> |r.value.second| <= RowCapacity
  {
    var n := |stories|;
    if n == 0 then None
    else
      var first := Slice(stories, 0, Min(10, n));
      var second := Slice(stories, Min(10, n), Min(20, n));
      if |second| < 5 && |first| > 5 then
        Some(Rows(first, second + Slice(first, 0, 5 - |second|)))
      else
        Some(Rows(first, second))
  }

  /** Padding happens exactly for 6 to 14 stories. */
  lemma PaddingRange(stories: seq<Story>)
    requires |stories| > 0
    ensures var base := stories[Min(RowCapacity, |stories|)..Min(2 * RowCapacity, |stories|)];
      SplitRows(stories).value.second != base <==> PadTarget < |stories| < 3 * PadTarget
  {
  }

  /**
    More than five stories always give a second row of five to ten stories;
    five or fewer leave it empty. Its stories all come from the first twenty.
   */
  lemma SecondRowFilled(stories: seq<Story>)
    requires |stories| > 0
    ensures |stories| > PadTarget ==> PadTarget <= |SplitRows(stories).value.second| <= RowCapacity
    ensures |stories| <= PadTarget ==> SplitRows(stories).value.second == []
    ensures forall s :: s in SplitRows(stories).value.second ==> s in stories[..Min(2 * RowCapacity, |stories|)]
  {
    var n := |stories|;
    var rows := SplitRows(stories).value;
    var shown := stories[..Min(20, n)];
    forall s | s in rows.second ensures s in shown {
      var i :| 0 <= i < |rows.second| && rows.second[i] == s;
      var base := stories[Min(10, n)..Min(20, n)];
      if i < |base| {
        assert s == shown[Min(10, n) + i];
      } else {
        assert s == rows.first[i - |base|] == shown[i - |base|];
      }
    }
  }

  /** One card: its story, key, row-wide index, anchor and badge. */
  datatype Card = Card(story: Story, key: string, index: int, link: Link, trending: bool)

  /** The card at `position` of a row's track. */
  function CardAt(row: seq<Story>, keyPrefix: string, offset: int, position: nat): (c: Card)
    requires position < 2 * |row|
    ensures c.story == Track(row)[position]
    ensures c.index == position % |row| + offset
    ensures offset <= c.index < offset + |row| && c.story == row[c.index - offset]
    ensures c.key == CardKey(keyPrefix, c.story.id, position)
    ensures c.link == CardLink(c.story) && (c.trending <==> IsTrending(c.story))
  {
    var s := Track(row)[position];
    Card(s, CardKey(keyPrefix, s.id, position), CardIndex(row, position, offset), CardLink(s), IsTrending(s))
  }

  /**
    A row drawn as a looping track, keys prefixed by `keyPrefix`; card indices
    start at `offset`, so the second row continues the first row's numbering.
   */
  function RenderTrack(row: seq<Story>, keyPrefix: string, offset: int): (cards: seq<Card>)
    ensures |cards| == 2 * |row|
    ensures forall i :: 0 <= i < |cards| ==> cards[i].story == Track(row)[i]
    ensures forall i :: 0 <= i < |cards| ==>
              offset <= cards[i].index < offset + |row| && cards[i].story == row[cards[i].index - offset]
    ensures forall i :: 0 <= i < |cards| ==> cards[i].index == i % |row| + offset
    ensures forall i :: 0 <= i < |cards| ==> cards[i].key == TrackKeys(keyPrefix, Track(row))[i]
    ensures forall i :: 0 <= i < |cards| ==>
              cards[i].link == CardLink(cards[i].story) && (cards[i].trending <==> IsTrending(cards[i].story))
  {
    seq(2 * |row|, i requires 0 <= i < 2 * |row| => CardAt(row, keyPrefix, offset, i))
  }

  datatype Grid = Grid(firstTrack: seq<Card>, secondTrack: seq<Card>)

  const FirstKeyPrefix := "first-"
  const SecondKeyPrefix := "second-"

  /** The whole grid, or nothing for an empty list. */
  function Render(stories: seq<Story>): (g: Option<Grid>)
    ensures g.None? <==> |stories| == 0
    ensures g.Some? ==> |g.value.firstTrack| == 2 * Min(RowCapacity, |stories|)
    ensures g.Some? ==> forall i :: 0 <= i < |g.value.firstTrack| ==>
              0 <= g.value.firstTrack[i].index < Min(RowCapacity, |stories|)
    ensures g.Some? ==> forall i :: 0 <= i < |g.value.secondTrack| ==>
              Min(RowCapacity, |stories|) <= g.value.secondTrack[i].index
                < Min(RowCapacity, |stories|) + |SplitRows(stories).value.second|
  {
    match SplitRows(stories)
    case None => None
    case Some(rows) =>
      Some(Grid(RenderTrack(rows.first, FirstKeyPrefix, 0),
                RenderTrack(rows.second, SecondKeyPrefix, |rows.first|)))
  }

  /**
    Every story among the first twenty is drawn somewhere in the grid, and the
    card drawing it carries the badge exactly when its score exceeds 100.
   */
  lemma ShownStoryBadged(stories: seq<Story>, k: nat)
    requires 0 <= k < Min(2 * RowCapacity, |stories|)
    ensures var g := Render(stories).value;
      exists c :: ((c in g.firstTrack || c in g.secondTrack) && c.story == stories[k]
                   && (c.trending <==> stories[k].score > TrendingThreshold))
  {
    if k < Min(RowCapacity, |stories|) {
      FirstRowBadged(stories, k);
    } else {
      SecondRowBadged(stories, k);
    }
  }

  /** A story of the first row is drawn in the first track. */
  lemma FirstRowBadged(stories: seq<Story>, k: nat)
    requires 0 <= k < Min(RowCapacity, |stories|)
    ensures var cards := Render(stories).value.firstTrack;
      k < |cards| && cards[k].story == stories[k]
      && (cards[k].trending <==> stories[k].score > TrendingThreshold)
  {
    var rows := SplitRows(stories).value;
    assert rows.first[k] == stories[k];
    TrackDraws(rows.first, FirstKeyPrefix, 0, k);
  }

  /** A story among the next ten is drawn in the second track. */
  lemma SecondRowBadged(stories: seq<Story>, k: nat)
    requires Min(RowCapacity, |stories|) <= k < Min(2 * RowCapacity, |stories|)
    ensures var cards := Render(stories).value.secondTrack;
      k - RowCapacity < |cards| && cards[k - RowCapacity].story == stories[k]
      && (cards[k - RowCapacity].trending <==> stories[k].score > TrendingThreshold)
  {
    var n := |stories|;
    var rows := SplitRows(stories).value;
    assert rows.second[k - 10] == stories[k] by {
      var base := stories[Min(10, n)..Min(20, n)];
      assert rows.second[..|base|] == base;
    }
    TrackDraws(rows.second, SecondKeyPrefix, |rows.first|, k - 10);
  }

  /** Slot `j` of a row is drawn in its track with the badge its score earns. */
  lemma TrackDraws(row: seq<Story>, keyPrefix: string, offset: int, j: nat)
    requires j < |row|
    ensures var cards := RenderTrack(row, keyPrefix, offset);
      cards[j].story == row[j]
      && (cards[j].trending <==> row[j].score > TrendingThreshold)
  {
  }

  /**
    No two cards of the grid share a key: within a track the positions differ,
    across tracks the prefixes do.
   */
  lemma RenderKeysDistinct(stories: seq<Story>)
    requires |stories| > 0
    ensures var g := Render(stories).value;
      forall i, j :: 0 <= i < j < |g.firstTrack| ==> g.firstTrack[i].key != g.firstTrack[j].key
    ensures var g := Render(stories).value;
      forall i, j :: 0 <= i < j < |g.secondTrack| ==> g.secondTrack[i].key != g.secondTrack[j].key
    ensures var g := Render(stories).value;
      forall i, j :: 0 <= i < |g.firstTrack| && 0 <= j < |g.secondTrack| ==> g.firstTrack[i].key != g.secondTrack[j].key
  {
    var rows := SplitRows(stories).value;
    var g := Render(stories).value;
    TrackKeysDistinct(FirstKeyPrefix, Track(rows.first));
    TrackKeysDistinct(SecondKeyPrefix, Track(rows.second));
    forall i, j | 0 <= i < |g.firstTrack| && 0 <= j < |g.secondTrack|
      ensures g.firstTrack[i].key != g.secondTrack[j].key
    {
      assert g.firstTrack[i].key[0] == 'f';
      assert g.secondTrack[j].key[0] == 's';
    }
  }
}
