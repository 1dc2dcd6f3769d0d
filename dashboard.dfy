/**
 * The state of the `DisasterInfoVerificationUI` component and its event
 * handlers. Each `useState` field is a field of the class; each handler
 * replaces fields with values computed by the pure functions of `Claims`,
 * `Filters` and `Incidents`, one update after another.
 */
module Dashboard {
  import opened Wrappers
  import opened Claims
  import opened Filters
  import opened Incidents

  const InitialVerified: seq<Info> := [
    Info(1, "Emergency shelters open at City Hall", 0, 0),
    Info(2, "Highway 16 closed due to flooding", 0, 0)
  ]

  const InitialPending: seq<Info> := [
    Info(3, "Reports of power outages in downtown area", 0, 0),
    Info(4, "Unconfirmed sightings of structural damage", 0, 0)
  ]

  const InitialIncidents: seq<Incident> := [
    Incident(1, 30.0, 40.0, "Flooding near Athabasca River", "flooding"),
    Incident(2, 60.0, 70.0, "Wildfire spotted in Jasper National Park", "fire")
  ]

  class VerificationUI {
    var activeFilters: seq<string>
    var verifiedInfo: seq<Info>
    var pendingInfo: seq<Info>
    var incidents: seq<Incident>
    var showReportForm: bool

    /** Incident ids are their positions; no claim id appears twice across the two columns. */
    ghost predicate Valid()
      reads this
    {
      SequentialIds(incidents) && UniqueIds(verifiedInfo + pendingInfo)
    }

    /** The initial state of the component. */
    constructor ()
      ensures Valid()
      ensures activeFilters == []
      ensures verifiedInfo == InitialVerified && pendingInfo == InitialPending
      ensures incidents == InitialIncidents && !showReportForm
    {
      activeFilters := [];
      verifiedInfo := InitialVerified;
      pendingInfo := InitialPending;
      incidents := InitialIncidents;
      showReportForm := false;
    }

    /** `handleAddFilter`, given what the prompt returned. */
    method AddFilter(input: Option<string>)
      requires Valid()
      modifies this
      ensures Valid()
      ensures activeFilters == WithFilter(old(activeFilters), input)
      ensures verifiedInfo == old(verifiedInfo) && pendingInfo == old(pendingInfo)
      ensures incidents == old(incidents) && showReportForm == old(showReportForm)
    {
      activeFilters := WithFilter(activeFilters, input);
    }

    /** `handleRemoveFilter`. */
    method RemoveFilter(filter: string)
      requires Valid()
      modifies this
      ensures Valid()
      ensures activeFilters == Filters.RemoveFilter(old(activeFilters), filter)
      ensures filter !in activeFilters
      ensures verifiedInfo == old(verifiedInfo) && pendingInfo == old(pendingInfo)
      ensures incidents == old(incidents) && showReportForm == old(showReportForm)
    {
      activeFilters := Filters.RemoveFilter(activeFilters, filter);
    }

    /**
     * `handleVerifyInfo`, using the corrected `Claims.Verify`: the first pending
     * claim with this id moves to the end of the verified column, and an
     * absent id changes nothing. The handler as written appends `undefined`
     * for an absent id; `Claims.VerifyAsWritten` models that.
     */
    method VerifyInfo(id: int)
      requires Valid()
      modifies this
      ensures Valid()
      ensures (verifiedInfo, pendingInfo) == Verify(old(verifiedInfo), old(pendingInfo), id)
      ensures multiset(verifiedInfo + pendingInfo) == multiset(old(verifiedInfo) + old(pendingInfo))
      ensures activeFilters == old(activeFilters)
      ensures incidents == old(incidents) && showReportForm == old(showReportForm)
    {
      UniqueIdsSuffix(verifiedInfo, pendingInfo);
      VerifyConservesClaims(verifiedInfo, pendingInfo, id);
      VerifyPreservesUniqueIds(verifiedInfo, pendingInfo, id);
      var r := Verify(verifiedInfo, pendingInfo, id);
      verifiedInfo, pendingInfo := r.0, r.1;
    }

    /** `handleVote`: the column chosen by `isPending` gets the vote; the other is untouched. */
    method Vote(id: int, voteType: string, isPending: bool)
      requires Valid()
      modifies this
      ensures Valid()
      ensures pendingInfo == if isPending then UpdateVotes(old(pendingInfo), id, voteType) else old(pendingInfo)
      ensures verifiedInfo == if isPending then old(verifiedInfo) else UpdateVotes(old(verifiedInfo), id, voteType)
      ensures activeFilters == old(activeFilters)
      ensures incidents == old(incidents) && showReportForm == old(showReportForm)
    {
      if isPending {
        assert verifiedInfo + pendingInfo + [] == verifiedInfo + pendingInfo;
        VotePreservesUniqueIds(verifiedInfo, pendingInfo, [], id, voteType);
        pendingInfo := UpdateVotes(pendingInfo, id, voteType);
        assert verifiedInfo + pendingInfo + [] == verifiedInfo + pendingInfo;
      } else {
        assert [] + verifiedInfo + pendingInfo == verifiedInfo + pendingInfo;
        VotePreservesUniqueIds([], verifiedInfo, pendingInfo, id, voteType);
        verifiedInfo := UpdateVotes(verifiedInfo, id, voteType);
        assert [] + verifiedInfo + pendingInfo == verifiedInfo + pendingInfo;
      }
    }

    /** `handleAddIncident`: opens the report form. */
    method OpenReportForm()
      requires Valid()
      modifies this
      ensures Valid() && showReportForm
      ensures activeFilters == old(activeFilters) && incidents == old(incidents)
      ensures verifiedInfo == old(verifiedInfo) && pendingInfo == old(pendingInfo)
    {
      showReportForm := true;
    }

    /** The form's `onCancel`: closes the report form. */
    method CancelReport()
      requires Valid()
      modifies this
      ensures Valid() && !showReportForm
      ensures activeFilters == old(activeFilters) && incidents == old(incidents)
      ensures verifiedInfo == old(verifiedInfo) && pendingInfo == old(pendingInfo)
    {
      showReportForm := false;
    }

    /**
     * `handleSubmitIncident`: appends the reported incident, with id
     * `old length + 1` and the coordinates `x`, `y`, and closes the form.
     */
    method SubmitIncident(report: Report, x: real, y: real)
      requires Valid()
      modifies this
      ensures Valid() && !showReportForm
      ensures incidents == AddIncident(old(incidents), report, x, y)
      ensures forall c ::
                CategoryCount(incidents, c) ==
                CategoryCount(old(incidents), c) + (if report.category == c then 1 else 0)
      ensures activeFilters == old(activeFilters)
      ensures verifiedInfo == old(verifiedInfo) && pendingInfo == old(pendingInfo)
    {
      AddIncidentKeepsSequentialIds(incidents, report, x, y);
      forall c ensures CategoryCount(AddIncident(incidents, report, x, y), c) ==
        CategoryCount(incidents, c) + (if report.category == c then 1 else 0)
      {
        AddIncidentCounts(incidents, report, x, y, c);
      }
      incidents := AddIncident(incidents, report, x, y);
      showReportForm := false;
    }

    /**
     * Submitting the report form: `handleSubmit` hands the report on to
     * `handleSubmitIncident` only when description and category are both
     * non-empty; otherwise nothing changes.
     */
    method SubmitReportForm(description: string, category: string, x: real, y: real) returns (submitted: bool)
      requires Valid()
      modifies this
      ensures Valid()
      ensures submitted <==> description != "" && category != ""
      ensures submitted ==>
                incidents == AddIncident(old(incidents), Report(description, category), x, y) &&
                !showReportForm
      ensures !submitted ==> incidents == old(incidents) && showReportForm == old(showReportForm)
      ensures activeFilters == old(activeFilters)
      ensures verifiedInfo == old(verifiedInfo) && pendingInfo == old(pendingInfo)
    {
      match HandleSubmit(description, category)
      case None =>
        submitted := false;
      case Some(report) =>
        SubmitIncident(report, x, y);
        submitted := true;
    }

    /** The counts on the "Incident Categories" card, read from the current state. */
    method CategoryCountsShown() returns (counts: seq<nat>)
      requires Valid()
      ensures |counts| == |IncidentCategories|
      ensures forall k :: 0 <= k < |counts| ==> counts[k] == CategoryCount(incidents, IncidentCategories[k].value)
      ensures KnownCategories(incidents) ==> Sum(counts) == |incidents|
    {
      counts := CategoryCounts(incidents);
      if KnownCategories(incidents) {
        CategoryCountsSum(incidents);
      }
    }
  }

  /** The component starts with known categories, so its category card adds up. */
  lemma InitialCountsAddUp()
    ensures KnownCategories(InitialIncidents)
    ensures Sum(CategoryCounts(InitialIncidents)) == |InitialIncidents|
  {
    assert KnownCategories(InitialIncidents) by {
      assert InitialIncidents[0].category == CategoryValues()[0];
      assert InitialIncidents[1].category == CategoryValues()[1];
    }
    CategoryCountsSum(InitialIncidents);
  }
}
