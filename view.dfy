/** The cards the page renders for the records it currently shows: the
    entity map, ranked by count and cut to the display limit. */
module View {
  import opened Validation
  import opened Aggregation
  import opened Ranking

  /** `Object.entries(convertEntityMap(metas)).sort(...).slice(0, 100)`. */
  method Cards(metas: seq<Meta>) returns (cards: seq<Item>)
    ensures |cards| == Min(DisplayLimit, |Entities(metas)|)
    ensures NonIncreasing(cards)
    ensures forall i :: 0 <= i < |cards| ==> EntryRepresents(cards[i].1, metas, cards[i].0)
    ensures DistinctNames(cards)
    ensures exists acc :: Represents(acc, metas) && DistinctKeys(acc.order) && cards == Rank(acc)
    ensures forall e, i :: e in Entities(metas) && 0 <= i < |cards| &&
                           (forall j :: 0 <= j < |cards| ==> cards[j].0 != e) ==>
                             |PairsOf(metas, e)| <= CountOf(cards[i])
  {
    var acc := ConvertEntityMap(metas);
    EntitiesDistinct(metas);
    cards := Rank(acc);
    forall e, i | e in Entities(metas) && 0 <= i < |cards| && (forall j :: 0 <= j < |cards| ==> cards[j].0 != e)
      ensures |PairsOf(metas, e)| <= CountOf(cards[i])
    {
      RankKeepsLargest(acc, e, i);
    }
    assert Represents(acc, metas) && DistinctKeys(acc.order) && cards == Rank(acc);
  }
}
