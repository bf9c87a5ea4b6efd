/** The plain bento grid: two rows of up to ten stories, each drawn as a looping track. */
module BentoGrid {
  import opened JsArray
  import opened Stories
  import opened Carousel

  /** The first ten stories, then the next ten; the second row may be short or empty. */
  function SplitRows(stories: seq<Story>): (r: Rows)
    ensures r.first == stories[..Min(RowCapacity, |stories|)]
    ensures r.second == stories[Min(RowCapacity, |stories|)..Min(2 * RowCapacity, |stories|)]
    ensures r.first + r.second == stories[..Min(2 * RowCapacity, |stories|)]
    ensures |r.second| > 0 ==> |r.first| == RowCapacity
  {
    var n := |stories|;
    var r := Rows(Slice(stories, 0, Min(10, n)), Slice(stories, Min(10, n), Min(20, n)));
    assert r.first + r.second == stories[..Min(20, n)];
    r
  }

  /** One card of a track: its story, its React key and its anchor. */
  datatype Card = Card(story: Story, key: string, link: Link)

  function RenderTrack(row: seq<Story>): (cards: seq<Card>)
    ensures |cards| == 2 * |row|
    ensures forall i :: 0 <= i < |cards| ==> cards[i].story == Track(row)[i]
    ensures forall i :: 0 <= i < |cards| ==> cards[i].link == CardLink(cards[i].story)
    ensures forall i :: 0 <= i < |cards| ==> cards[i].key == TrackKeys("", Track(row))[i]
  {
    var track := Track(row);
    var keys := TrackKeys("", track);
    seq(|track|, i requires 0 <= i < |track| => Card(track[i], keys[i], CardLink(track[i])))
  }

  datatype Grid = Grid(firstTrack: seq<Card>, secondTrack: seq<Card>)

  /** The whole grid; an empty list draws two empty tracks. */
  function Render(stories: seq<Story>): (g: Grid)
    ensures |g.firstTrack| == 2 * Min(RowCapacity, |stories|)
    ensures |g.secondTrack| == 2 * (Min(2 * RowCapacity, |stories|) - Min(RowCapacity, |stories|))
  {
    var rows := SplitRows(stories);
    Grid(RenderTrack(rows.first), RenderTrack(rows.second))
  }

  /** A track shows exactly its row's stories, each at its slot and once more a row length on. */
  lemma TrackShowsRow(row: seq<Story>)
    ensures forall c :: c in RenderTrack(row) ==> c.story in row
    ensures forall k :: 0 <= k < |row| ==>
              RenderTrack(row)[k].story == row[k] && RenderTrack(row)[k + |row|].story == row[k]
  {
    var cards := RenderTrack(row);
    forall c | c in cards ensures c.story in row {
      var i :| 0 <= i < |cards| && cards[i] == c;
      assert c.story == Track(row)[i] == row[i % |row|];
    }
    forall k | 0 <= k < |row| ensures cards[k].story == row[k] && cards[k + |row|].story == row[k] {
      assert Track(row) == row + row;
    }
  }

  /** The first track shows stories 1-10, the second stories 11-20, nothing else. */
  lemma RenderShowsFirstTwenty(stories: seq<Story>)
    ensures forall c :: c in Render(stories).firstTrack ==> c.story in stories[..Min(RowCapacity, |stories|)]
    ensures forall c :: c in Render(stories).secondTrack ==>
              c.story in stories[Min(RowCapacity, |stories|)..Min(2 * RowCapacity, |stories|)]
  {
    var rows := SplitRows(stories);
    TrackShowsRow(rows.first);
    TrackShowsRow(rows.second);
  }

  /** Within each track no two cards share a key. */
  lemma RenderKeysDistinct(stories: seq<Story>)
    ensures forall i, j :: 0 <= i < j < |Render(stories).firstTrack| ==>
              Render(stories).firstTrack[i].key != Render(stories).firstTrack[j].key
    ensures forall i, j :: 0 <= i < j < |Render(stories).secondTrack| ==>
              Render(stories).secondTrack[i].key != Render(stories).secondTrack[j].key
  {
    var rows := SplitRows(stories);
    TrackKeysDistinct("", Track(rows.first));
    TrackKeysDistinct("", Track(rows.second));
  }
}
