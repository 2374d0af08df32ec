/**
  The projects section: a three-way filter over the catalog, the filter
  buttons (one of which is highlighted) and the agency disclaimer. The only
  state is the current filter, which a button click replaces wholesale.
*/
module ProjectsSection {
  import Catalog = ProjectCatalog

  /** The filter values, `"all" | "personal" | "agency"`. */
  datatype FilterType = All | Personal | Agency

  /** The filter the section opens with. */
  const InitialFilter: FilterType := All

  /** The switch in the component, over a personal list `P` and an agency
      list `A`: the personal list, the agency list, or (the default case)
      personal work followed by agency work. */
  function SwitchOver(P: seq<Catalog.Project>, A: seq<Catalog.Project>, filter: FilterType): (r: seq<Catalog.Project>)
    ensures forall p :: p in r ==> p in P + A
    ensures |r| <= |P| + |A|
    ensures filter != Agency ==> |P| <= |r| && r[..|P|] == P
  {
    match filter
    case Personal => P
    case Agency => A
    case All => P + A
  }

  /** The list the grid shows for a filter: the switch over the catalog's
      two lists. */
  function FilteredProjects(filter: FilterType): (r: seq<Catalog.Project>)
    ensures forall p :: p in r ==> p in Catalog.AllProjects
  {
    SwitchOver(Catalog.PersonalProjects, Catalog.AgencyProjects, filter)
  }

  /** Which catalog entries a filter is meant to select, by project kind. */
  predicate Selects(filter: FilterType, p: Catalog.Project)
  {
    match filter
    case All => true
    case Personal => p.projectType != Catalog.Agency
    case Agency => p.projectType == Catalog.Agency
  }

  function SelectorOf(filter: FilterType): Catalog.Project -> bool
  {
    p => Selects(filter, p)
  }

  /** The agency disclaimer is rendered for `"agency"` and `"all"`. */
  predicate ShowsDisclaimer(filter: FilterType)
  {
    filter == Agency || filter == All
  }

  /** A filter button: the value it sets and its label (`label` is a
      reserved word here, hence `title`). */
  datatype FilterButton = FilterButton(value: FilterType, title: string)

  const FilterButtons: seq<FilterButton> := [
    FilterButton(All, "All Projects"),
    FilterButton(Personal, "Personal & Freelance"),
    FilterButton(Agency, "Agency Work")
  ]

  /** A button is drawn highlighted when its value is the current filter. */
  predicate Highlighted(button: FilterButton, filter: FilterType)
  {
    button.value == filter
  }

  /** Clicking button `i` makes its value the current filter, so that button,
      and no other, is drawn highlighted. */
  function Click(i: nat): (filter: FilterType)
    requires i < |FilterButtons|
    ensures forall j :: 0 <= j < |FilterButtons| ==> (Highlighted(FilterButtons[j], filter) <==> j == i)
  {
    FilterButtons[i].value
  }

  /** Whenever `A` holds only agency work and `P` none, the switch selects
      exactly the entries of the filter's kinds from `P + A`, in order. */
  lemma {:induction false} SwitchSelectsByKind(P: seq<Catalog.Project>, A: seq<Catalog.Project>, filter: FilterType)
    requires Catalog.NoAgencyWork(P) && Catalog.OnlyAgencyWork(A)
    ensures SwitchOver(P, A, filter) == Catalog.Filter(P + A, SelectorOf(filter))
  {
    var keep := SelectorOf(filter);
    Catalog.FilterAppend(P, A, keep);
    match filter
    case All =>
      Catalog.FilterKeepsAll(P, keep);
      Catalog.FilterKeepsAll(A, keep);
    case Personal =>
      Catalog.FilterKeepsAll(P, keep);
      Catalog.FilterDropsAll(A, keep);
      assert P + [] == P;
    case Agency =>
      Catalog.FilterDropsAll(P, keep);
      Catalog.FilterKeepsAll(A, keep);
      assert [] + A == A;
  }

  /** The switch over the two literal lists selects exactly the catalog
      entries of the filter's kinds, in catalog order: `"personal"` gives
      the personal and freelance work, `"agency"` the agency work, `"all"`
      everything. */
  lemma FilteredIsSelectionByKind(filter: FilterType)
    ensures FilteredProjects(filter) == Catalog.Filter(Catalog.AllProjects, SelectorOf(filter))
  {
    Catalog.AgencyProjectsAreAgency();
    Catalog.PersonalProjectsAreNotAgency();
    SwitchSelectsByKind(Catalog.PersonalProjects, Catalog.AgencyProjects, filter);
  }

  /** Every filtered result is part of the `"all"` result, which is the
      personal list followed by the agency list. */
  lemma FilteredWithinAll(filter: FilterType)
    ensures forall p :: p in FilteredProjects(filter) ==> p in FilteredProjects(All)
    ensures FilteredProjects(All) == Catalog.AllProjects
    ensures |FilteredProjects(All)| == |FilteredProjects(Personal)| + |FilteredProjects(Agency)|
  {
  }

  /** The grid keys its items by id, and no filtered list repeats one. */
  lemma FilteredIdsDistinct(filter: FilterType)
    ensures Catalog.DistinctIds(FilteredProjects(filter))
  {
    Catalog.CatalogIdsDistinct();
    Catalog.DistinctIdsOfParts(Catalog.PersonalProjects, Catalog.AgencyProjects);
  }

  /** The disclaimer about agency work is shown exactly when the grid shows
      some agency work. */
  lemma DisclaimerIffAgencyShown(filter: FilterType)
    ensures ShowsDisclaimer(filter) <==>
      exists p :: p in FilteredProjects(filter) && p.projectType == Catalog.Agency
  {
    Catalog.AgencyProjectsAreAgency();
    Catalog.PersonalProjectsAreNotAgency();
    SwitchShowsAgencyIff(Catalog.PersonalProjects, Catalog.AgencyProjects, filter);
  }

  /** The section opens on `"all"`: the grid shows the whole catalog, agency
      work included, and the disclaimer is shown. */
  lemma OpensShowingEverything()
    ensures FilteredProjects(InitialFilter) == Catalog.AllProjects
    ensures ShowsDisclaimer(InitialFilter)
    ensures exists p :: p in FilteredProjects(InitialFilter) && p.projectType == Catalog.Agency
  {
    FilteredWithinAll(InitialFilter);
    DisclaimerIffAgencyShown(InitialFilter);
  }

  /** Over a personal list without agency work and a non-empty agency list,
      agency work is in the switch's result exactly for `"agency"` and
      `"all"`. */
  lemma SwitchShowsAgencyIff(P: seq<Catalog.Project>, A: seq<Catalog.Project>, filter: FilterType)
    requires Catalog.NoAgencyWork(P) && Catalog.OnlyAgencyWork(A)
    requires A != []
    ensures ShowsDisclaimer(filter) <==>
      exists p :: p in SwitchOver(P, A, filter) && p.projectType == Catalog.Agency
  {
    if ShowsDisclaimer(filter) {
      assert A[0] in SwitchOver(P, A, filter);
    }
  }

  /** Every filter value has its button, so exactly one button is
      highlighted whatever the filter. */
  lemma ExactlyOneHighlighted(filter: FilterType)
    ensures exists i :: 0 <= i < |FilterButtons| && Highlighted(FilterButtons[i], filter)
    ensures forall i, j ::
      (0 <= i < |FilterButtons| && 0 <= j < |FilterButtons|
       && Highlighted(FilterButtons[i], filter) && Highlighted(FilterButtons[j], filter)) ==> i == j
  {
    var i := match filter case All => 0 case Personal => 1 case Agency => 2;
    assert Highlighted(FilterButtons[i], filter);
  }
}
