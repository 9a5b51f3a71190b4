// The project catalogue (lib/projects.ts): the constant table of five
// projects, the slug list and the slug lookup. The record shape follows
// lib/project-types.ts; optional fields are Options, and the fields the
// table never sets (category, tags, editorial, dates, seo) are omitted.

module Projects {
  import opened Common

  datatype MediaType = Video | Image
  datatype ProjectStatus = Live | Draft | Archived

  /** One entry of a project's media stack. */
  datatype MediaItem = MediaItem(kind: MediaType, src: string, poster: Option<string>, alt: Option<string>)

  datatype Project = Project(
    slug: string,
    title: string,
    year: string,
    description: string,
    mediaType: MediaType,
    src: string,
    poster: Option<string>,
    mediaStack: Option<seq<MediaItem>>,
    status: Option<ProjectStatus>)

  const Cdn := "https://cdn.bibekjoshi.com/"

  /** The `projects` table, in source order. */
  const Table: seq<Project> := [
    Project(
      "Feather-Journey", "Feather\U{2019}s Journey", "2026",
      "A single feather, light and fragile yet purposeful, reminds us that true movement is born not from force, but from acceptance.",
      Video, Cdn + "Feather-Journey/web.mp4", Some("/projects/watch-landscape/poster.jpg"),
      Some([
        MediaItem(Video, Cdn + "Feather-Journey/feather.mp4", Some("/projects/watch-landscape/poster.jpg"), Some("Watch landscape hero sequence")),
        MediaItem(Video, Cdn + "Feather-Journey/boat.mp4", Some("/projects/watch-landscape/poster.jpg"), Some("Watch landscape hero sequence"))
      ]),
      None),
    Project(
      "Work-Space", "Work Space", "2025",
      "An exploration of organic motion and spatial balance. Focused on subtle movement, clean forms, and system-driven design.",
      Video, Cdn + "Grass/render_grass.mp4", None,
      None,
      None),
    Project(
      "Watch-Landscape", "Watch Landscape", "2025",
      "An exploration of form, scale, and stillness. Shaped through structure and subtle variation.",
      Video, Cdn + "Grain/final.mov", Some("/projects/watch-landscape/poster.jpg"),
      Some([
        MediaItem(Video, Cdn + "Grain/Compare_1.mp4", Some("/projects/watch-landscape/poster.jpg"), Some("Watch landscape hero sequence")),
        MediaItem(Video, Cdn + "Grain/Compare_2.mp4", Some("/projects/watch-landscape/poster.jpg"), Some("Watch landscape hero sequence"))
      ]),
      None),
    Project(
      "Automobile-Porsche", "Automobile Porsche", "2025",
      "A quiet study of motion and form.",
      Video, Cdn + "Automobile/Final.mp4", Some("/projects/fluid-rituals/poster.jpg"),
      Some([
        MediaItem(Video, Cdn + "Automobile/SH10.mp4", Some("/projects/fluid-rituals/poster.jpg"), Some("Fluid rituals hero sequence")),
        MediaItem(Video, Cdn + "Automobile/sh30.mp4", Some("/projects/fluid-rituals/sequence-01-poster.jpg"), Some("Fluid simulation detail sequence")),
        MediaItem(Video, Cdn + "Automobile/sh31.mp4", Some("/projects/fluid-rituals/sequence-01-poster.jpg"), Some("Fluid simulation detail sequence")),
        MediaItem(Video, Cdn + "Automobile/sh32.mp4", Some("/projects/fluid-rituals/sequence-01-poster.jpg"), Some("Fluid simulation detail sequence"))
      ]),
      None),
    Project(
      "fluid-droplet", "Fluid Droplet", "2025",
      "A quiet observation of surface tension and form.",
      Video, Cdn + "Dropper/Final_Dropper.mp4", Some("/projects/fluid-rituals/poster.jpg"),
      Some([
        MediaItem(Image, Cdn + "Dropper/Dropper_1.png", None, Some("Fluid ritual still frame")),
        MediaItem(Image, Cdn + "Dropper/Dropper_2.png", None, Some("Fluid ritual still frame"))
      ]),
      None)
  ]

  /** projects.map(p => p.slug) over any list: one slug per project, in order. */
  function SlugsOf(ps: seq<Project>): (slugs: seq<string>)
    ensures |slugs| == |ps|
    ensures forall i :: 0 <= i < |ps| ==> slugs[i] == ps[i].slug
  {
    if ps == [] then [] else [ps[0].slug] + SlugsOf(ps[1..])
  }

  /** projects.find(p => p.slug === slug) over any list. */
  function FindBySlug(ps: seq<Project>, slug: string): (r: Option<Project>)
    ensures r.None? <==> forall i :: 0 <= i < |ps| ==> ps[i].slug != slug
    ensures r.Some? ==> r.value in ps && r.value.slug == slug
  {
    if ps == [] then None
    else if ps[0].slug == slug then Some(ps[0])
    else FindBySlug(ps[1..], slug)
  }

  /** The project find returns is the first one carrying the slug. */
  lemma {:induction false} FindIsFirst(ps: seq<Project>, slug: string, i: nat)
    requires i < |ps| && ps[i].slug == slug
    requires forall j :: 0 <= j < i ==> ps[j].slug != slug
    ensures FindBySlug(ps, slug) == Some(ps[i])
    decreases i
  {
    if i > 0 {
      assert ps[1..][i - 1] == ps[i];
      FindIsFirst(ps[1..], slug, i - 1);
    }
  }

  /** getProjectSlugs. */
  function GetProjectSlugs(): (slugs: seq<string>)
    ensures slugs == ["Feather-Journey", "Work-Space", "Watch-Landscape", "Automobile-Porsche", "fluid-droplet"]
  {
    SlugsOf(Table)
  }

  /** getProjectBySlug (None is `undefined`). */
  function GetProjectBySlug(slug: string): (r: Option<Project>)
    ensures r.Some? ==> r.value in Table && r.value.slug == slug
    ensures r.None? <==> slug !in GetProjectSlugs()
  {
    FindBySlug(Table, slug)
  }

  /** Slugs are pairwise distinct in a list. */
  predicate DistinctSlugs(ps: seq<Project>)
  {
    forall i, j :: 0 <= i < j < |ps| ==> ps[i].slug != ps[j].slug
  }

  /** With distinct slugs, looking up a listed project's slug finds that project. */
  lemma FindListed(ps: seq<Project>, i: nat)
    requires DistinctSlugs(ps) && i < |ps|
    ensures FindBySlug(ps, ps[i].slug) == Some(ps[i])
  {
    FindIsFirst(ps, ps[i].slug, i);
  }

  /** The five slugs of the table are pairwise distinct. */
  lemma TableSlugsDistinct()
    ensures DistinctSlugs(Table)
  {
    var s := GetProjectSlugs();
    assert forall i :: 0 <= i < |Table| ==> Table[i].slug == s[i];
  }

  /** Every listed slug looks up the project that carries it, so a slug page always resolves. */
  lemma EverySlugResolves(i: nat)
    requires i < |GetProjectSlugs()|
    ensures GetProjectBySlug(GetProjectSlugs()[i]) == Some(Table[i])
  {
    TableSlugsDistinct();
    FindListed(Table, i);
  }

  /** The comparison is case-sensitive: the lower-cased slug of the first project is not found. */
  lemma LookupIsCaseSensitive()
    ensures GetProjectBySlug("Feather-Journey").Some?
    ensures GetProjectBySlug("feather-journey").None?
  {
    assert "Feather-Journey" == GetProjectSlugs()[0];
    assert "feather-journey"[0] == 'f';
  }
}
