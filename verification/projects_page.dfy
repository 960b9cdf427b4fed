/** The projects page: a tag filter over a fixed project list, the filter
    buttons' tags (each tag once, in order of first appearance), and the
    split of the visible projects into featured and regular cards. */
module ProjectsPage {
  import opened Common

  /** A project entry; entries without a `featured` key count as not featured. */
  datatype Project = Project(id: int, title: string, tags: seq<string>, featured: bool)

  /** The filter value that shows every project. */
  const AllFilter: string := "all"

  /** The page's project list. */
  function ProjectsData(): seq<Project> {
    [ Project(1, "E-Commerce Website", ["Next.js", "Tailwind CSS", "Stripe", "MongoDB"], true),
      Project(2, "Task Management App", ["React", "Firebase", "Framer Motion", "CSS"], true),
      Project(3, "Weather Dashboard", ["JavaScript", "React", "Weather API", "CSS"], false),
      Project(4, "Social Media App", ["Next.js", "Socket.io", "MongoDB", "Tailwind CSS"], false) ]
  }

  /** `filteredProjects`: everything for `'all'`, otherwise exactly the
      projects carrying the tag, in their original order. */
  function FilteredProjects(projects: seq<Project>, filter: string): (r: seq<Project>)
    ensures filter == AllFilter ==> r == projects
    ensures filter != AllFilter ==>
      && IsSubsequence(r, projects)
      && (forall p :: p in r <==> p in projects && filter in p.tags)
      && (forall p :: multiset(r)[p] == if filter in p.tags then multiset(projects)[p] else 0)
  {
    if filter == AllFilter then projects
    else
      var keep := (p: Project) => filter in p.tags;
      SelectIsSubsequence(projects, keep);
      SelectCount(projects, keep);
      Select(projects, keep)
  }

  /** `projectsData.flatMap(project => project.tags)`. */
  function FlatTags(projects: seq<Project>): (tags: seq<string>)
    ensures forall t :: t in tags <==> exists p :: p in projects && t in p.tags
  {
    if projects == [] then []
    else
      assert forall p :: p in projects <==> p == projects[0] || p in projects[1..];
      projects[0].tags + FlatTags(projects[1..])
  }

  /** No value occurs twice. */
  predicate NoDuplicates(s: seq<string>) {
    forall i, j | 0 <= i < j < |s| :: s[i] != s[j]
  }

  /** Position of the first occurrence of `x` in `s`. */
  function FirstIndex(s: seq<string>, x: string): (i: nat)
    requires x in s
    ensures i < |s| && s[i] == x && x !in s[..i]
  {
    if s[0] == x then 0 else 1 + FirstIndex(s[1..], x)
  }

  /** `[...new Set(s)]`: each value once, at the place of its first occurrence. */
  function Dedup(s: seq<string>): (r: seq<string>)
    ensures forall x :: x in r <==> x in s
    ensures NoDuplicates(r)
  {
    if s == [] then []
    else
      var d := Dedup(s[..|s| - 1]);
      assert forall x :: x in s <==> x in s[..|s| - 1] || x == s[|s| - 1];
      if s[|s| - 1] in d then d else d + [s[|s| - 1]]
  }

  /** The first occurrence of a value in a prefix is its first occurrence in the whole. */
  lemma {:induction false} FirstIndexOfPrefix(s: seq<string>, m: nat, x: string)
    requires m <= |s| && x in s[..m]
    ensures FirstIndex(s, x) == FirstIndex(s[..m], x)
  {
    if s[0] != x {
      assert s[..m][1..] == s[1..][..m - 1];
      FirstIndexOfPrefix(s[1..], m - 1, x);
    }
  }

  /** The de-duplicated values appear in the order of their first occurrences. */
  lemma {:induction false} DedupOrdered(s: seq<string>)
    ensures forall i, j | 0 <= i < j < |Dedup(s)| :: FirstIndex(s, Dedup(s)[i]) < FirstIndex(s, Dedup(s)[j])
  {
    if s != [] {
      var m := |s| - 1;
      var init := s[..m];
      DedupOrdered(init);
      var d := Dedup(init);
      forall x | x in d ensures FirstIndex(s, x) == FirstIndex(init, x) < m {
        FirstIndexOfPrefix(s, m, x);
      }
      if s[m] !in d {
        assert s[m] !in init;
        assert s[..m] == init;
        assert FirstIndex(s, s[m]) == m;
        var r := d + [s[m]];
        forall i, j | 0 <= i < j < |r| ensures r[i] in s && r[j] in s && FirstIndex(s, r[i]) < FirstIndex(s, r[j]) {
          assert r[i] in d && r[i] in init;
          assert r[j] in init || r[j] == s[m];
          if j < |d| {
            assert r[i] == d[i] && r[j] == d[j];
          }
        }
      }
    }
  }

  /** `allTags`: the tags of all projects, each once, in order of first appearance. */
  function AllTags(projects: seq<Project>): seq<string> {
    Dedup(FlatTags(projects))
  }

  /** The filter buttons list every tag of every project exactly once,
      ordered by where each tag first appears. */
  lemma AllTagsSpec(projects: seq<Project>)
    ensures NoDuplicates(AllTags(projects))
    ensures forall p, t | p in projects && t in p.tags :: t in AllTags(projects)
    ensures forall t | t in AllTags(projects) :: exists p :: p in projects && t in p.tags
    ensures forall i, j | 0 <= i < j < |AllTags(projects)| ::
      FirstIndex(FlatTags(projects), AllTags(projects)[i]) < FirstIndex(FlatTags(projects), AllTags(projects)[j])
  {
    DedupOrdered(FlatTags(projects));
  }

  /** No filter button leads to an empty page. */
  lemma TagButtonSelectsSomething(projects: seq<Project>, tag: string)
    requires tag in AllTags(projects)
    ensures FilteredProjects(projects, tag) != []
  {
    var p :| p in projects && tag in p.tags;
    if tag != AllFilter {
      assert p in FilteredProjects(projects, tag);
    }
  }

  predicate IsFeatured(p: Project) { p.featured }

  predicate IsRegular(p: Project) { !p.featured }

  /** The featured cards: the featured projects of the filtered list, in order. */
  function FeaturedProjects(filtered: seq<Project>): seq<Project> {
    Select(filtered, IsFeatured)
  }

  /** The regular cards: the other projects of the filtered list, in order. */
  function RegularProjects(filtered: seq<Project>): seq<Project> {
    Select(filtered, IsRegular)
  }

  /** The two card grids split the filtered list: every occurrence of a
      project lands in exactly one of them, and each grid keeps the
      filtered order. */
  lemma CardGridsPartition(filtered: seq<Project>)
    ensures multiset(FeaturedProjects(filtered)) + multiset(RegularProjects(filtered)) == multiset(filtered)
    ensures forall p :: p in FeaturedProjects(filtered) <==> p in filtered && p.featured
    ensures forall p :: p in RegularProjects(filtered) <==> p in filtered && !p.featured
    ensures IsSubsequence(FeaturedProjects(filtered), filtered)
    ensures IsSubsequence(RegularProjects(filtered), filtered)
  {
    SelectPartition(filtered, IsFeatured, IsRegular);
    SelectIsSubsequence(filtered, IsFeatured);
    SelectIsSubsequence(filtered, IsRegular);
  }

  /** The page's filter state, set by the filter buttons. */
  class ProjectsView {
    var filter: string

    constructor ()
      ensures filter == AllFilter
    {
      filter := AllFilter;
    }

    /** The "All" button. */
    method ClickAll()
      modifies this
      ensures filter == AllFilter
    {
      filter := AllFilter;
    }

    /** The button of one of the page's tags. */
    method ClickTag(tag: string)
      requires tag in AllTags(ProjectsData())
      modifies this
      ensures filter == tag
      ensures FilteredProjects(ProjectsData(), filter) != []
    {
      filter := tag;
      TagButtonSelectsSomething(ProjectsData(), tag);
    }
  }
}
