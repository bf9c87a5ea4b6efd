/**
  The `Story` record every component receives (the Hacker News item as the
  API returns it) and the per-card decisions made from a story alone: the
  link a card points to and the "trending" badge.
 */
module Stories {
  import opened Wrappers
  import Decimal

  /**
    A vote direction as the vote hook holds it. `NoVote` is JavaScript's
    `null`/`undefined`; `Unrecognized` is any other non-empty string read back
    from storage, which the hook adopts unchecked.
   */
  datatype Vote = NoVote | Up | Unrecognized(tag: string)

  /** `by` in the source is a Dafny keyword, so the author field is `author`. */
  datatype Story = Story(
    id: int,
    title: string,
    url: Option<string>,
    score: int,
    author: string,
    time: int,
    descendants: int,
    voted: Vote)

  /** Ids of a list of stories. */
  function Ids(stories: seq<Story>): set<int> {
    set k | 0 <= k < |stories| :: stories[k].id
  }

  lemma IdsConcat(a: seq<Story>, b: seq<Story>)
    ensures Ids(a + b) == Ids(a) + Ids(b)
  {
    var ab := a + b;
    forall id | id in Ids(a) + Ids(b) ensures id in Ids(ab) {
      if id in Ids(a) {
        var k :| 0 <= k < |a| && a[k].id == id;
        assert ab[k].id == id;
      } else {
        var k :| 0 <= k < |b| && b[k].id == id;
        assert ab[|a| + k].id == id;
      }
    }
  }

  /** No two entries share an id. */
  predicate UniqueIds(stories: seq<Story>) {
    forall i, j :: 0 <= i < j < |stories| ==> stories[i].id != stories[j].id
  }

  /** `story.url` is truthy: present and not the empty string. */
  predicate HasUrl(s: Story) {
    s.url.Some? && s.url.value != ""
  }

  const ItemRoute := "#/item/"
  const NewTab := "_blank"
  const ExternalRel := "noopener noreferrer"

  /** The attributes of a card's anchor; `None` leaves the attribute unset. */
  datatype Link = Link(href: string, target: Option<string>, rel: Option<string>)

  /**
    The anchor of a bento card: the story's own URL, opened in a new tab, or
    the in-app item route when the story has no URL.
   */
  function CardLink(s: Story): (l: Link)
    ensures l.target.Some? <==> HasUrl(s)
    ensures l.rel.Some? <==> HasUrl(s)
    ensures HasUrl(s) ==> l.href == s.url.value && l.target == Some(NewTab) && l.rel == Some(ExternalRel)
    ensures !HasUrl(s) ==> |l.href| > |ItemRoute| && l.href[..|ItemRoute|] == ItemRoute
  {
    if HasUrl(s) then
      Link(s.url.value, Some(NewTab), Some(ExternalRel))
    else
      Link(ItemRoute + Decimal.IntToString(s.id), None, None)
  }

  /** An in-app link names its story: the id is read back from the route. */
  lemma ItemRouteNamesStory(s: Story)
    requires !HasUrl(s)
    ensures Decimal.ParseInt(CardLink(s).href[|ItemRoute|..]) == s.id
  {
    assert CardLink(s).href[|ItemRoute|..] == Decimal.IntToString(s.id);
    Decimal.ParseIntToString(s.id);
  }

  /** Two URL-less stories share an in-app link only if they share an id. */
  lemma ItemRoutesDistinct(s: Story, t: Story)
    requires !HasUrl(s) && !HasUrl(t)
    ensures CardLink(s).href == CardLink(t).href <==> s.id == t.id
  {
    if CardLink(s).href == CardLink(t).href {
      ItemRouteNamesStory(s);
      ItemRouteNamesStory(t);
    }
  }

  const TrendingThreshold := 100

  /** The enhanced grid's badge: strictly more than the threshold. */
  predicate IsTrending(s: Story) {
    s.score > TrendingThreshold
  }

}
