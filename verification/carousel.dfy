/**
  What both bento grids share: each row is drawn twice, back to back, so that
  sliding it by half its width loops seamlessly; each card gets a React key
  built from the story id and its position in the doubled track.
 */
module Carousel {
  import opened Stories
  import Decimal

  /** The most stories a row takes. */
  const RowCapacity: nat := 10

  /** The two rows of a grid, top and bottom. */
  datatype Rows = Rows(first: seq<Story>, second: seq<Story>)

  /** `[...row, ...row]`: the row followed by itself. */
  function Track<T>(row: seq<T>): (t: seq<T>)
    ensures |t| == 2 * |row|
    ensures forall i :: 0 <= i < |t| ==> t[i] == row[i % |row|]
    ensures forall i :: 0 <= i < |row| ==> t[i + |row|] == t[i]
  {
    row + row
  }

  /** The key of the card at `position`: prefix, story id, a dash, the position. */
  function CardKey(prefix: string, id: int, position: nat): (k: string)
    ensures |k| > |prefix| && k[..|prefix|] == prefix
  {
    prefix + Decimal.IntToString(id) + "-" + Decimal.NatToString(position)
  }

  /**
    A key reads back: after the prefix comes text parsing to the story id, then
    a dash, then digits parsing to the position.
   */
  lemma CardKeyReadsBack(prefix: string, id: int, position: nat)
    ensures var k, p := CardKey(prefix, id, position), Decimal.NatToString(position);
      && |k| == |prefix| + |Decimal.IntToString(id)| + 1 + |p|
      && Decimal.ParseInt(k[|prefix|..|k| - |p| - 1]) == id
      && k[|k| - |p| - 1] == '-'
      && Decimal.ParseDigits(k[|k| - |p|..]) == position
  {
    var idText, posText := Decimal.IntToString(id), Decimal.NatToString(position);
    var k := CardKey(prefix, id, position);
    var a, b := |prefix|, |prefix| + |idText|;
    assert k == prefix + idText + ("-" + posText);
    assert k[a..b] == idText;
    assert k[b + 1..] == posText;
    Decimal.ParseIntToString(id);
    Decimal.ParseNatToString(position);
  }

  /** A key gives its position back: cards at different positions never share a key. */
  lemma CardKeyPosition(prefix: string, id: int, i: nat, prefix': string, id': int, j: nat)
    requires CardKey(prefix, id, i) == CardKey(prefix', id', j)
    ensures i == j
  {
    var x := prefix + Decimal.IntToString(id);
    var y := prefix' + Decimal.IntToString(id');
    assert x + "-" + Decimal.NatToString(i) == y + "-" + Decimal.NatToString(j);
    Decimal.DigitTailAfterDash(x, Decimal.NatToString(i), y, Decimal.NatToString(j));
    Decimal.NatToStringInjective(i, j);
  }

  /** The keys of a rendered track, one per card, in track order. */
  function TrackKeys(prefix: string, track: seq<Story>): (keys: seq<string>)
    ensures |keys| == |track|
    ensures forall i :: 0 <= i < |track| ==> keys[i] == CardKey(prefix, track[i].id, i)
  {
    seq(|track|, i requires 0 <= i < |track| => CardKey(prefix, track[i].id, i))
  }

  /** Keys within one track are pairwise distinct, although every story appears twice. */
  lemma TrackKeysDistinct(prefix: string, track: seq<Story>)
    ensures forall i, j :: 0 <= i < j < |track| ==> TrackKeys(prefix, track)[i] != TrackKeys(prefix, track)[j]
  {
    var keys := TrackKeys(prefix, track);
    forall i, j | 0 <= i < j < |track| ensures keys[i] != keys[j] {
      if keys[i] == keys[j] {
        CardKeyPosition(prefix, track[i].id, i, prefix, track[j].id, j);
      }
    }
  }

  /**
    The `index` given to the card at `position` of a row's track:
    `position % |row|` shifted by `offset`. It names the row slot whose story
    the card shows.
   */
  function CardIndex(row: seq<Story>, position: nat, offset: int): (index: int)
    requires position < 2 * |row|
    ensures offset <= index < offset + |row|
    ensures index - offset == position % |row|
    ensures index - offset == if position < |row| then position else position - |row|
    ensures Track(row)[position] == row[index - offset]
  {
    position % |row| + offset
  }
}
