/**
 * The dashboard's listing cards. Their filter is the analytics panel's, word for word; the list adds
 * the message shown when nothing matches.
 */
module PropertyList {
  import opened Seqs
  import opened FilterRules
  import HousingAnalytics

  /** The "No properties match your current filters." message is shown. */
  predicate ShowsNoMatchMessage(env: Env, f: Filters, data: seq<Property>)
  {
    |HousingAnalytics.FilteredData(env, f, data)| == 0
  }

  /**
   * The list shows, in their order, exactly the rows that match, and the message appears exactly
   * when no row matches.
   */
  lemma ListSpec(env: Env, f: Filters, data: seq<Property>)
    ensures IsSubsequence(HousingAnalytics.FilteredData(env, f, data), data)
    ensures forall i :: 0 <= i < |data| && HousingAnalytics.Matches(env, f, data[i]) ==>
              data[i] in HousingAnalytics.FilteredData(env, f, data)
    ensures ShowsNoMatchMessage(env, f, data) <==>
              forall i :: 0 <= i < |data| ==> !HousingAnalytics.Matches(env, f, data[i])
  {
    HousingAnalytics.FilteredDataSpec(env, f, data);
    FilterKeepsNone(data, (p: Property) => HousingAnalytics.Matches(env, f, p));
  }

  /** With neither status selected the list is empty and the message is shown. */
  lemma NoStatusShowsMessage(env: Env, f: Filters, data: seq<Property>)
    requires !f.listingStatus.active && !f.listingStatus.closed
    ensures ShowsNoMatchMessage(env, f, data)
  {
    forall i | 0 <= i < |data|
      ensures !HousingAnalytics.Matches(env, f, data[i])
    {
      StatusOkMeans(f.listingStatus, HasClosedDate(data[i]));
    }
    ListSpec(env, f, data);
  }
}
