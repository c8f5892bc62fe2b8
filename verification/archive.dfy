/** The archive page: the archived debtors, and the two actions on them. */
module Archive {
  import opened Wrappers
  import opened Seqs
  import opened Records
  import Dashboard

  /** The debtors the archive lists: archived and not deleted, most recently
      archived first. */
  function ArchivedList(ds: seq<Debtor>): seq<Debtor> {
    SortDesc(Filter(ds, IsArchivedView), ArchivedKey)
  }

  /** The list holds every archived, undeleted debtor of the snapshot and nothing
      else, as often as the snapshot holds it, most recently archived first;
      debtors archived at the same instant keep their snapshot order. */
  lemma {:induction false} ArchivedListCorrect(ds: seq<Debtor>)
    ensures forall d :: d in ArchivedList(ds) <==> d in ds && IsArchivedView(d)
    ensures multiset(ArchivedList(ds)) == multiset(Filter(ds, IsArchivedView))
    ensures SortedDesc(ArchivedList(ds), ArchivedKey)
    ensures forall k :: Filter(ArchivedList(ds), KeyIs(ArchivedKey, k)) == Filter(Filter(ds, IsArchivedView), KeyIs(ArchivedKey, k))
  {
    var f := Filter(ds, IsArchivedView);
    SortDescCorrect(f, ArchivedKey);
    forall d
      ensures d in ArchivedList(ds) <==> d in ds && IsArchivedView(d)
    {
      FilterMember(ds, IsArchivedView, d);
      assert d in ArchivedList(ds) <==> d in multiset(ArchivedList(ds));
    }
    forall k
      ensures Filter(ArchivedList(ds), KeyIs(ArchivedKey, k)) == Filter(f, KeyIs(ArchivedKey, k))
    {
      SortDescStable(f, ArchivedKey, k);
    }
  }

  /** No debtor is on both the dashboard and the archive page. */
  lemma {:induction false} ListsDisjoint(ds: seq<Debtor>, d: Debtor)
    ensures !(d in Dashboard.ActiveList(ds) && d in ArchivedList(ds))
  {
    Dashboard.ActiveListCorrect(ds);
    ArchivedListCorrect(ds);
  }

  /** `unarchive`: clears the archived flag and the archive date; a debtor
      without an identifier is left alone. */
  function Unarchive(d: Debtor): (r: Debtor)
    ensures d.id == "" ==> r == d
    ensures d.id != "" ==> !r.archived && r.archivedAt.None? && !IsArchivedView(r)
    ensures d.id != "" ==> (IsActive(r) <==> IsLive(d))
    ensures r.(archived := d.archived, archivedAt := d.archivedAt) == d
  {
    if d.id == "" then d else d.(archived := false, archivedAt := None)
  }

  /** Unarchiving a listed debtor moves it from the archive page to the dashboard. */
  lemma {:induction false} UnarchiveMovesToDashboard(ds: seq<Debtor>, i: nat)
    requires i < |ds| && ds[i] in ArchivedList(ds) && ds[i].id != ""
    ensures var ds' := ds[i := Unarchive(ds[i])];
      Unarchive(ds[i]) in Dashboard.ActiveList(ds') && Unarchive(ds[i]) !in ArchivedList(ds')
  {
    var ds' := ds[i := Unarchive(ds[i])];
    ArchivedListCorrect(ds);
    ArchivedListCorrect(ds');
    Dashboard.ActiveListCorrect(ds');
    assert ds'[i] == Unarchive(ds[i]);
  }

  /** `softDelete` of the archive page: marks the debtor deleted at `now`; it does
      not record who deleted it. A debtor without an identifier is left alone. */
  function SoftDelete(d: Debtor, now: int): (r: Debtor)
    ensures d.id == "" ==> r == d
    ensures d.id != "" ==> r.deleted && r.deletedAt == Some(now) && !IsLive(r) && !IsArchivedView(r) && !IsActive(r)
    ensures r.(deleted := d.deleted, deletedAt := d.deletedAt) == d
  {
    if d.id == "" then d else d.(deleted := true, deletedAt := Some(now))
  }

  /** A deleted debtor is on neither list, whatever else the snapshot holds. */
  lemma {:induction false} DeletedLeavesLists(ds: seq<Debtor>, d: Debtor)
    requires d.deleted
    ensures d !in Dashboard.ActiveList(ds) && d !in ArchivedList(ds)
  {
    Dashboard.ActiveListCorrect(ds);
    ArchivedListCorrect(ds);
  }
}
