/**
  The project catalog: a hand-written, read-only list of the portfolio's
  projects, split into agency work and personal/freelance work, and the two
  lists derived from it (every project, and the featured ones).
*/
module ProjectCatalog {
  import opened Wrappers

  /** The closed set of project kinds. */
  datatype ProjectType = Agency | PersonalProject | Freelance

  /** One catalog entry. `featured` and `github` are optional fields. */
  datatype Project = Project(
    id: string,
    title: string,
    description: string,
    image: string,
    href: string,
    year: string,
    projectType: ProjectType,
    techStack: seq<string>,
    featured: Option<bool>,
    github: Option<string>)

  const AgencyProjects: seq<Project> := [
    Project(
      id := "munireg",
      title := "MuniReg",
      description := "MuniReg is a modern platform supporting municipal registration and compliance programs for vacant and foreclosed properties. I designed and developed a user-friendly website for easy access to essential services.",
      image := "/images/projects/munireg.webp",
      href := "https://munireg.com/",
      year := "2025",
      projectType := Agency,
      techStack := ["WordPress", "CSS", "JavaScript"],
      featured := None,
      github := None),
    Project(
      id := "mediview",
      title := "MediView",
      description := "MediView is a pioneering medical technology company advancing augmented-reality solutions for surgical navigation. I designed and developed a sleek, modern website to reflect their innovation.",
      image := "/images/projects/mediview.webp",
      href := "https://mediview.com/",
      year := "2024",
      projectType := Agency,
      techStack := ["WordPress", "CSS", "JavaScript"],
      featured := Some(true),
      github := None),
    Project(
      id := "esquiretek",
      title := "EsquireTek",
      description := "EsquireTek is an AI software product that helps attorneys and law firms automate legal tasks. I helped design and build their website to highlight the product's sophistication.",
      image := "/images/projects/esquiretek.webp",
      href := "https://esquiretek.com/alpha",
      year := "2023",
      projectType := Agency,
      techStack := ["WordPress", "CSS", "JavaScript"],
      featured := None,
      github := None),
    Project(
      id := "daniels-amish",
      title := "Daniel's Amish",
      description := "Daniel's Amish is an Amish furniture manufacturer in Ohio. I contributed to their new website design, enhancing their marketing and online presence.",
      image := "/images/projects/daniels-amish.webp",
      href := "https://www.danielsamish.com/",
      year := "2022",
      projectType := Agency,
      techStack := ["WordPress", "WooCommerce", "CSS"],
      featured := None,
      github := None),
    Project(
      id := "datafon",
      title := "Datafon",
      description := "Datafon helps organizations engage audiences and streamline interactions. I designed and built their website to showcase their innovative approach and make complex services feel approachable.",
      image := "/images/projects/datafon.webp",
      href := "https://datafon.co.uk/",
      year := "2024",
      projectType := Agency,
      techStack := ["WordPress", "CSS", "JavaScript"],
      featured := None,
      github := None),
    Project(
      id := "acordis",
      title := "Acordis",
      description := "Acordis is an IT solutions company in Miami, Florida. I worked on a design refresh and modernized their web aesthetic.",
      image := "/images/projects/acordis.webp",
      href := "https://acordiscorp.com/",
      year := "2022",
      projectType := Agency,
      techStack := ["WordPress", "CSS"],
      featured := None,
      github := None),
    Project(
      id := "knk",
      title := "knk Publishing Software",
      description := "The knkPublishing Group, originally from Germany, expanded to North America. I contributed to a website redesign that gave their brand a fresh, modern look.",
      image := "/images/projects/knk.webp",
      href := "https://knkpublishingsoftware.com/",
      year := "2021",
      projectType := Agency,
      techStack := ["WordPress", "CSS", "JavaScript"],
      featured := None,
      github := None),
    Project(
      id := "shenanigans",
      title := "Shenanigans Stables",
      description := "Shenanigans Stables is an equestrian facility in Ohio. I worked on their website to improve online visibility and integrate appointment scheduling.",
      image := "/images/projects/shenanigans.webp",
      href := "https://shenanigansstables.com/",
      year := "2022",
      projectType := Agency,
      techStack := ["WordPress", "CSS"],
      featured := None,
      github := None)
  ]

  const PersonalProjects: seq<Project> := [
    Project(
      id := "netflix-clone",
      title := "Netflix Clone",
      description := "A full-stack Netflix clone with user authentication, real-time updates, Stripe payments, and a responsive UI. Built with modern React patterns and best practices.",
      image := "/images/projects/netflix.webp",
      href := "https://netflix-clone-omega-lac.vercel.app/",
      year := "2026",
      projectType := PersonalProject,
      techStack := ["React", "TypeScript", "Next.js", "Tailwind", "Stripe", "Prisma"],
      featured := Some(true),
      github := None),
    Project(
      id := "slack-clone",
      title := "Slack Clone",
      description := "A real-time messaging application with workspaces, channels, direct messages, and rich text editing. Features real-time updates and modern UI/UX.",
      image := "/images/projects/slack.webp",
      href := "https://slack-clone-622bd.web.app/login",
      year := "2026",
      projectType := PersonalProject,
      techStack := ["React", "TypeScript", "Next.js", "Convex", "Tailwind"],
      featured := Some(true),
      github := None),
    Project(
      id := "analytics-dashboard",
      title := "Analytics Dashboard",
      description := "A React analytics dashboard with interactive charts and tables, visualizing key metrics and trends in real time.",
      image := "/images/projects/dashboard.webp",
      href := "https://analytics-dashboard-jade-six.vercel.app/",
      year := "2025",
      projectType := PersonalProject,
      techStack := ["React", "TypeScript", "Recharts", "Tailwind"],
      featured := Some(true),
      github := None),
    Project(
      id := "pa-realestate",
      title := "PA Premium Real Estate",
      description := "A React real estate mockup with multiple agents, properties, and interactive filtering for exploring and comparing listings.",
      image := "/images/projects/realestate.webp",
      href := "https://react-realestate.vercel.app/",
      year := "2021",
      projectType := PersonalProject,
      techStack := ["React", "CSS", "JavaScript"],
      featured := None,
      github := None),
    Project(
      id := "supreme-contracting",
      title := "Supreme Contracting",
      description := "A roofing and exterior contractor website designed to showcase services including roof replacement, gutter systems, and home protection solutions.",
      image := "/images/projects/supreme.webp",
      href := "https://supremecontractingva.com/",
      year := "2024",
      projectType := Freelance,
      techStack := ["HTML", "CSS", "JavaScript"],
      featured := None,
      github := None),
    Project(
      id := "avellinos",
      title := "Avellino's Italian Cuisine",
      description := "Italian themed restaurant website featuring a unique menu built with React.",
      image := "/images/projects/avellinos.webp",
      href := "https://restaurant-51fd0.web.app/",
      year := "2021",
      projectType := PersonalProject,
      techStack := ["React", "Firebase", "CSS"],
      featured := None,
      github := None),
    Project(
      id := "recipe-app",
      title := "Recipe Search App",
      description := "A simple recipe search application using JavaScript and the Edamam API service.",
      image := "/images/projects/recipe.webp",
      href := "https://qnistico.github.io/Recipe-Search-App/",
      year := "2022",
      projectType := PersonalProject,
      techStack := ["JavaScript", "API", "CSS"],
      featured := None,
      github := None),
    Project(
      id := "cgn-dui",
      title := "CGN DUI Attorney",
      description := "A personalized legal website for a Philadelphia area DUI Attorney named Charles G. Nistico.",
      image := "/images/projects/cgn.webp",
      href := "https://duiattorney.net/",
      year := "2021",
      projectType := Freelance,
      techStack := ["HTML", "CSS", "JavaScript"],
      featured := None,
      github := None)
  ]

  /** Personal and freelance work first, then agency work. */
  const AllProjects: seq<Project> := PersonalProjects + AgencyProjects

  /** JavaScript truthiness of the optional `featured` flag. */
  predicate IsFeatured(p: Project)
  {
    p.featured == Some(true)
  }

  /** The order-preserving sub-list of `ps` whose entries satisfy `keep`. */
  function Filter(ps: seq<Project>, keep: Project -> bool): (r: seq<Project>)
    ensures |r| <= |ps|
    ensures forall p :: p in r <==> p in ps && keep(p)
  {
    if ps == [] then []
    else if keep(ps[0]) then [ps[0]] + Filter(ps[1..], keep)
    else Filter(ps[1..], keep)
  }

  /** The featured projects, in catalog order. */
  const FeaturedProjects: seq<Project> := Filter(AllProjects, IsFeatured)

  function Ids(ps: seq<Project>): (ids: seq<string>)
    ensures |ids| == |ps|
    ensures forall i :: 0 <= i < |ps| ==> ids[i] == ps[i].id
  {
    seq(|ps|, i requires 0 <= i < |ps| => ps[i].id)
  }

  /** No two entries share an `id`, so the ids can key a rendered list. */
  predicate DistinctIds(ps: seq<Project>)
  {
    forall i, j :: 0 <= i < j < |ps| ==> ps[i].id != ps[j].id
  }

  /** Every entry is agency work. */
  predicate OnlyAgencyWork(ps: seq<Project>)
  {
    forall p :: p in ps ==> p.projectType == Agency
  }

  /** Every entry is personal or freelance work. */
  predicate NoAgencyWork(ps: seq<Project>)
  {
    forall p :: p in ps ==> p.projectType == PersonalProject || p.projectType == Freelance
  }

  /** The agency list: eight entries, all of kind `Agency`. */
  lemma AgencyProjectsAreAgency()
    ensures |AgencyProjects| == 8
    ensures OnlyAgencyWork(AgencyProjects)
  {
  }

  /** The personal list: eight entries, each personal or freelance work. */
  lemma PersonalProjectsAreNotAgency()
    ensures |PersonalProjects| == 8
    ensures NoAgencyWork(PersonalProjects)
  {
  }

  /** The ids of the two lists, in order. */
  const PersonalIds: seq<string> := ["netflix-clone", "slack-clone", "analytics-dashboard", "pa-realestate",
    "supreme-contracting", "avellinos", "recipe-app", "cgn-dui"]
  const AgencyIds: seq<string> := ["munireg", "mediview", "esquiretek", "daniels-amish",
    "datafon", "acordis", "knk", "shenanigans"]

  lemma PersonalIdsAre()
    ensures Ids(PersonalProjects) == PersonalIds
  {
  }

  lemma AgencyIdsAre()
    ensures Ids(AgencyProjects) == AgencyIds
  {
  }

  /** Lists whose id lists have no repeat have distinct ids. */
  lemma {:induction false} DistinctIdsOfIds(ps: seq<Project>, ids: seq<string>)
    requires Ids(ps) == ids
    requires forall i, j :: 0 <= i < j < |ids| ==> ids[i] != ids[j]
    ensures DistinctIds(ps)
  {
    forall i, j | 0 <= i < j < |ps|
      ensures ps[i].id != ps[j].id
    {
      assert Ids(ps)[i] == ps[i].id && Ids(ps)[j] == ps[j].id;
    }
  }

  lemma IdsAppend(P: seq<Project>, A: seq<Project>)
    ensures Ids(P + A) == Ids(P) + Ids(A)
  {
  }

  /** No id is written twice in the two id lists together. */
  lemma IdListsDistinct()
    ensures forall i, j :: 0 <= i < j < |PersonalIds + AgencyIds| ==>
      (PersonalIds + AgencyIds)[i] != (PersonalIds + AgencyIds)[j]
  {
  }

  /** A split of a list with distinct ids into two parts leaves each part
      with distinct ids. */
  lemma DistinctIdsOfParts(P: seq<Project>, A: seq<Project>)
    requires DistinctIds(P + A)
    ensures DistinctIds(P) && DistinctIds(A)
  {
    assert forall i :: 0 <= i < |P| ==> P[i] == (P + A)[i];
    assert forall i :: 0 <= i < |A| ==> A[i] == (P + A)[|P| + i];
  }

  /** Ids are unique across the whole catalog. */
  lemma CatalogIdsDistinct()
    ensures |AllProjects| == 16
    ensures DistinctIds(AllProjects)
  {
    PersonalIdsAre();
    AgencyIdsAre();
    IdsAppend(PersonalProjects, AgencyProjects);
    IdListsDistinct();
    DistinctIdsOfIds(AllProjects, PersonalIds + AgencyIds);
  }

  /** Filtering distributes over concatenation, so the order of the parts
      is kept. */
  lemma {:induction false} FilterAppend(xs: seq<Project>, ys: seq<Project>, keep: Project -> bool)
    ensures Filter(xs + ys, keep) == Filter(xs, keep) + Filter(ys, keep)
  {
    if xs == [] {
      assert xs + ys == ys;
    } else {
      assert (xs + ys)[0] == xs[0];
      assert (xs + ys)[1..] == xs[1..] + ys;
      FilterAppend(xs[1..], ys, keep);
    }
  }

  /** A list whose entries all pass comes through whole. */
  lemma {:induction false} FilterKeepsAll(xs: seq<Project>, keep: Project -> bool)
    requires forall i :: 0 <= i < |xs| ==> keep(xs[i])
    ensures Filter(xs, keep) == xs
  {
    if xs != [] {
      FilterKeepsAll(xs[1..], keep);
    }
  }

  /** A list none of whose entries pass is dropped. */
  lemma {:induction false} FilterDropsAll(xs: seq<Project>, keep: Project -> bool)
    requires forall i :: 0 <= i < |xs| ==> !keep(xs[i])
    ensures Filter(xs, keep) == []
  {
    if xs != [] {
      FilterDropsAll(xs[1..], keep);
    }
  }

  /** Where the `featured` flags sit in the personal list: the first three. */
  predicate PersonalFlags(P: seq<Project>)
  {
    && |P| == 8
    && (forall i :: 0 <= i < 3 ==> IsFeatured(P[i]))
    && (forall i :: 3 <= i < 8 ==> !IsFeatured(P[i]))
  }

  /** Where the `featured` flags sit in the agency list: the second. */
  predicate AgencyFlags(A: seq<Project>)
  {
    && |A| == 8
    && !IsFeatured(A[0]) && IsFeatured(A[1])
    && (forall i :: 2 <= i < 8 ==> !IsFeatured(A[i]))
  }

  lemma PersonalFlagsHold()
    ensures PersonalFlags(PersonalProjects)
  {
  }

  lemma AgencyFlagsHold()
    ensures AgencyFlags(AgencyProjects)
  {
  }

  lemma FeaturedOfPersonal(P: seq<Project>)
    requires PersonalFlags(P)
    ensures Filter(P, IsFeatured) == P[..3]
  {
    assert P == P[..3] + P[3..];
    FilterAppend(P[..3], P[3..], IsFeatured);
    FilterKeepsAll(P[..3], IsFeatured);
    FilterDropsAll(P[3..], IsFeatured);
    assert P[..3] + [] == P[..3];
  }

  lemma FeaturedOfAgency(A: seq<Project>)
    requires AgencyFlags(A)
    ensures Filter(A, IsFeatured) == A[1..2]
  {
    var rest := A[1..];
    assert A == A[..1] + rest;
    assert rest == A[1..2] + A[2..];
    FilterDropsAll(A[..1], IsFeatured);
    FilterKeepsAll(A[1..2], IsFeatured);
    FilterDropsAll(A[2..], IsFeatured);
    FilterAppend(A[1..2], A[2..], IsFeatured);
    assert Filter(rest, IsFeatured) == A[1..2] + [];
    FilterAppend(A[..1], rest, IsFeatured);
    assert [] + A[1..2] == A[1..2];
  }

  lemma FeaturedOfParts(P: seq<Project>, A: seq<Project>)
    requires PersonalFlags(P) && AgencyFlags(A)
    ensures Filter(P + A, IsFeatured) == P[..3] + A[1..2]
  {
    FeaturedOfPersonal(P);
    FeaturedOfAgency(A);
    FilterAppend(P, A, IsFeatured);
  }

  /** The featured list, in catalog order: the first three personal
      projects, then the second agency project. */
  lemma FeaturedProjectsAre()
    ensures FeaturedProjects == PersonalProjects[..3] + AgencyProjects[1..2]
  {
    PersonalFlagsHold();
    AgencyFlagsHold();
    FeaturedOfParts(PersonalProjects, AgencyProjects);
  }

  /** An entry is featured exactly when its flag is set to `true`: entries
      without the flag, or with it `false`, are left out. */
  lemma FeaturedOnlyFlagged()
    ensures forall p :: p in FeaturedProjects <==> p in AllProjects && p.featured == Some(true)
  {
  }

  /** The featured list by id. */
  lemma FeaturedProjectIds()
    ensures Ids(FeaturedProjects) == ["netflix-clone", "slack-clone", "analytics-dashboard", "mediview"]
  {
    FeaturedProjectsAre();
    PersonalIdsAre();
    AgencyIdsAre();
    FeaturedIdsOfParts(PersonalProjects, AgencyProjects);
  }

  lemma FeaturedIdsOfParts(P: seq<Project>, A: seq<Project>)
    requires Ids(P) == PersonalIds && Ids(A) == AgencyIds
    ensures Ids(P[..3] + A[1..2]) == ["netflix-clone", "slack-clone", "analytics-dashboard", "mediview"]
  {
    assert Ids(P[..3] + A[1..2]) == Ids(P)[..3] + Ids(A)[1..2];
  }
}
