// The project data source (lib/project-source.ts): the list of published
// projects (every project whose status is not "draft") and the slug lookup
// that returns null on a miss. The async wrappers are dropped; both read the
// constant table of the Projects module.

module ProjectSource {
  import opened Common
  import opened Projects

  /** p.status !== "draft": a project with no status is published. */
  predicate Published(p: Project): (b: bool)
    ensures p.status.None? ==> b
    ensures b <==> p.status.None? || p.status.value != Draft
  {
    p.status != Some(Draft)
  }

  /** filter(p => p.status !== "draft") over any list. */
  function PublishedOf(ps: seq<Project>): (r: seq<Project>)
    ensures |r| <= |ps|
    ensures forall k :: 0 <= k < |r| ==> Published(r[k])
  {
    if ps == [] then []
    else if Published(ps[0]) then [ps[0]] + PublishedOf(ps[1..])
    else PublishedOf(ps[1..])
  }

  /** The filter keeps exactly the published projects of the list. */
  lemma {:induction false} PublishedOfMembers(ps: seq<Project>)
    ensures forall p :: p in PublishedOf(ps) <==> p in ps && Published(p)
    decreases |ps|
  {
    if ps != [] {
      PublishedOfMembers(ps[1..]);
      assert ps == [ps[0]] + ps[1..];
    }
  }

  /** The filter distributes over concatenation, so it keeps the table's order. */
  lemma {:induction false} PublishedOfConcat(a: seq<Project>, b: seq<Project>)
    ensures PublishedOf(a + b) == PublishedOf(a) + PublishedOf(b)
    decreases |a|
  {
    if a == [] {
      assert a + b == b;
    } else {
      assert (a + b)[0] == a[0] && (a + b)[1..] == a[1..] + b;
      PublishedOfConcat(a[1..], b);
    }
  }

  /** A list without drafts passes the filter unchanged. */
  lemma {:induction false} NoDraftsKept(ps: seq<Project>)
    requires forall i :: 0 <= i < |ps| ==> Published(ps[i])
    ensures PublishedOf(ps) == ps
    decreases |ps|
  {
    if ps != [] {
      NoDraftsKept(ps[1..]);
    }
  }

  /** getAllProjects. */
  function GetAllProjects(): (r: seq<Project>)
    ensures forall p :: p in r <==> p in Table && Published(p)
  {
    PublishedOfMembers(Table);
    PublishedOf(Table)
  }

  /** None of the five table entries sets a status, so every one is listed, in table order. */
  lemma AllProjectsListed()
    ensures GetAllProjects() == Table
  {
    NoDraftsKept(Table);
  }

  /** getProjectBySlug: the first exact match, or null (None). */
  function GetProjectBySlugOrNull(slug: string): (r: Option<Project>)
    ensures r.Some? ==> r.value in Table && r.value.slug == slug
    ensures r.None? <==> forall i :: 0 <= i < |Table| ==> Table[i].slug != slug
  {
    FindBySlug(Table, slug)
  }

  /**
   * The lookup does not apply the draft filter: over any list, a draft that
   * is the first carrier of its slug is found (DraftFiltered: it is not listed).
   */
  lemma DraftStillRetrievable(ps: seq<Project>, i: nat)
    requires i < |ps| && ps[i].status == Some(Draft)
    requires forall j :: 0 <= j < i ==> ps[j].slug != ps[i].slug
    ensures FindBySlug(ps, ps[i].slug) == Some(ps[i])
  {
    FindIsFirst(ps, ps[i].slug, i);
  }

  /** A draft never passes the filter. */
  lemma DraftFiltered(ps: seq<Project>, d: Project)
    requires d.status == Some(Draft)
    ensures d !in PublishedOf(ps)
  {
  }

  /** Both sources agree: the null-returning lookup and lib/projects' undefined-returning one. */
  lemma LookupsAgree(slug: string)
    ensures GetProjectBySlugOrNull(slug) == GetProjectBySlug(slug)
  {
  }
}
