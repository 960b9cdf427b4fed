/** The home page's projects section: an optional `limit` cuts the project
    list to a prefix, and a "View All" link is shown unless turned off. */
module ProjectsSection {
  import opened Common

  /** `Array.prototype.slice`'s reading of an end position for a list of
      length `len`: a negative one counts back from the end, and the result
      is clamped to `[0, len]`. */
  function SliceEnd(len: nat, end: int): (k: nat)
    ensures k <= len
    ensures end >= 0 ==> k == (if end < len then end else len)
    ensures end < 0 ==> k == (if len + end < 0 then 0 else len + end)
  {
    if end < 0 then (if len + end < 0 then 0 else len + end)
    else if end < len then end
    else len
  }

  /** `limit ? projectsData.slice(0, limit) : projectsData`. An absent limit
      and a limit of 0 are falsy and show every project; any other limit
      shows a prefix, counted from the end when the limit is negative. */
  function DisplayedProjects<T>(projects: seq<T>, limit: Option<int>): (shown: seq<T>)
    ensures limit == None || limit == Some(0) ==> shown == projects
    ensures |shown| <= |projects| && shown == projects[..|shown|]
    ensures limit.Some? && limit.value > 0 ==>
      |shown| == (if limit.value < |projects| then limit.value else |projects|)
    ensures limit.Some? && limit.value < 0 ==>
      |shown| == (if |projects| + limit.value < 0 then 0 else |projects| + limit.value)
  {
    if limit.None? || limit.value == 0 then projects
    else projects[..SliceEnd(|projects|, limit.value)]
  }

  /** A positive limit at least as large as the list shows the whole list. */
  lemma LargeLimitShowsAll<T>(projects: seq<T>, limit: int)
    requires limit >= |projects|
    ensures DisplayedProjects(projects, Some(limit)) == projects
  {
  }

  /** The `showViewAll` prop, which defaults to showing the link. */
  function ShowViewAll(prop: Option<bool>): (show: bool)
    ensures prop == None ==> show
    ensures show <==> prop != Some(false)
  {
    prop.GetOr(true)
  }
}
