/**
 * The incident board of the web UI: an empty-state panel for no incidents, otherwise four
 * counters and the incidents split into a critical section and a section for the rest.
 */
module IncidentListView {
  import opened Wrappers
  import opened Sequences
  import opened IncidentItemView

  predicate IsCritical(inc: IncidentJson) {
    inc.severity == Some("CRITICAL")
  }

  predicate NotCritical(inc: IncidentJson) {
    inc.severity != Some("CRITICAL")
  }

  predicate IsOpen(inc: IncidentJson) {
    inc.status == Some("OPEN")
  }

  predicate IsResolved(inc: IncidentJson) {
    inc.status == Some("RESOLVED")
  }

  /** The four counters: total, critical, open and resolved. */
  datatype Stats = Stats(total: nat, critical: nat, open: nat, resolved: nat)

  /** The rendered board; each section is shown only when it has incidents. */
  datatype Board =
    | EmptyState
    | Dashboard(stats: Stats, critical: seq<IncidentJson>, other: seq<IncidentJson>,
                showCritical: bool, showOther: bool)

  /** `IncidentList({ incidents })`. */
  function Render(incidents: seq<IncidentJson>): (b: Board)
    ensures b.EmptyState? <==> incidents == []
    ensures b.Dashboard? ==>
              && b.critical == Filter(incidents, IsCritical)
              && b.other == Filter(incidents, NotCritical)
              && b.stats.total == |incidents|
              && b.stats.critical == |b.critical|
              && b.stats.open == |Filter(incidents, IsOpen)|
              && b.stats.resolved == |Filter(incidents, IsResolved)|
              && (b.showCritical <==> b.critical != [])
              && (b.showOther <==> b.other != [])
  {
    if |incidents| == 0 then EmptyState
    else
      var critical := Filter(incidents, IsCritical);
      var other := Filter(incidents, NotCritical);
      Dashboard(Stats(|incidents|, |critical|, |Filter(incidents, IsOpen)|, |Filter(incidents, IsResolved)|),
                critical, other, |critical| > 0, |other| > 0)
  }

  /**
   * The two sections partition the incidents: each incident is in exactly the section its
   * severity picks, both keep the input order, and together they hold every incident once.
   */
  lemma RenderPartitions(incidents: seq<IncidentJson>)
    requires incidents != []
    ensures var b := Render(incidents);
            && (forall x :: x in b.critical <==> x in incidents && IsCritical(x))
            && (forall x :: x in b.other <==> x in incidents && !IsCritical(x))
            && IsSubsequence(b.critical, incidents) && IsSubsequence(b.other, incidents)
            && multiset(b.critical) + multiset(b.other) == multiset(incidents)
            && |b.critical| + |b.other| == b.stats.total
  {
    var b := Render(incidents);
    forall x ensures x in b.critical <==> x in incidents && IsCritical(x) {
      FilterMembership(incidents, IsCritical, x);
    }
    forall x ensures x in b.other <==> x in incidents && !IsCritical(x) {
      FilterMembership(incidents, NotCritical, x);
    }
    FilterIsSubsequence(incidents, IsCritical);
    FilterIsSubsequence(incidents, NotCritical);
    FilterPartition(incidents, IsCritical, NotCritical);
  }

  /** No counter exceeds the total, and open and resolved incidents together do not either. */
  lemma StatsBounded(incidents: seq<IncidentJson>)
    requires incidents != []
    ensures var s := Render(incidents).stats;
            s.critical <= s.total && s.open + s.resolved <= s.total
  {
    FilterDisjoint(incidents, IsOpen, IsResolved);
  }

  /** A board is never empty: at least one of its two sections is shown. */
  lemma SomeSectionShown(incidents: seq<IncidentJson>)
    requires incidents != []
    ensures Render(incidents).showCritical || Render(incidents).showOther
  {
    RenderPartitions(incidents);
  }
}
