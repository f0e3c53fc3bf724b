/** The work index of pages/Work.tsx: a list of project rows, and a preview
    of the hovered project, or of the first project when none is. */
module WorkIndex {
  import opened Wrappers
  import opened ProjectData

  /** The page's only state: the id of the hovered row, `null` at first. */
  datatype WorkState = WorkState(hovered: Option<string>)

  const InitialState: WorkState := WorkState(None)

  /** `activeProject` (line 9): the first project with the hovered id, or
      else `PROJECTS[0]`, which is `undefined` for an empty list. */
  function ActiveProject(projects: seq<Project>, hovered: Option<string>): (r: Option<Project>)
    ensures r.Some? <==> |projects| > 0
    ensures r.Some? ==> r.value in projects
    ensures hovered.None? && |projects| > 0 ==> r == Some(projects[0])
    ensures |projects| > 0 && (forall i :: 0 <= i < |projects| ==> hovered != Some(projects[i].id)) ==>
              r == Some(projects[0])
    ensures forall i :: 0 <= i < |projects| && hovered == Some(projects[i].id)
                        && (forall j :: 0 <= j < i ==> projects[j].id != projects[i].id) ==>
              r == Some(projects[i])
  {
    var found := FindById(projects, hovered);
    assert forall i :: 0 <= i < |projects| && hovered == Some(projects[i].id)
                       && (forall j :: 0 <= j < i ==> projects[j].id != projects[i].id) ==>
             found == Some(projects[i]) by {
      forall i | 0 <= i < |projects| && hovered == Some(projects[i].id)
                 && (forall j :: 0 <= j < i ==> projects[j].id != projects[i].id)
        ensures found == Some(projects[i])
      {
        FindByIdFirst(projects, projects[i].id, i);
      }
    }
    if found.Some? then found
    else if |projects| > 0 then Some(projects[0])
    else None
  }

  /** `onMouseEnter` of the row showing `project` (line 42): with distinct
      ids, the preview then shows that very project. */
  function HoverRow(projects: seq<Project>, project: Project): (r: WorkState)
    ensures r.hovered == Some(project.id)
    ensures DistinctIds(projects) && project in projects ==>
              ActiveProject(projects, r.hovered) == Some(project)
  {
    var r := WorkState(Some(project.id));
    assert DistinctIds(projects) && project in projects ==>
             ActiveProject(projects, r.hovered) == Some(project) by {
      if DistinctIds(projects) && project in projects {
        var i :| 0 <= i < |projects| && projects[i] == project;
        assert forall j :: 0 <= j < i ==> projects[j].id != projects[i].id;
      }
    }
    r
  }

  /** With distinct ids, hovering a row makes the preview show that row's
      project. */
  lemma HoverPreviewsRow(projects: seq<Project>, i: int)
    requires DistinctIds(projects) && 0 <= i < |projects|
    ensures ActiveProject(projects, HoverRow(projects, projects[i]).hovered) == Some(projects[i])
  {
    assert forall j :: 0 <= j < i ==> projects[j].id != projects[i].id;
  }

  /** On the static list, the page opens on the first project, and hovering
      any row previews that row. */
  lemma StaticPreview(i: int)
    requires 0 <= i < |Projects|
    ensures ActiveProject(Projects, InitialState.hovered) == Some(Projects[0])
    ensures ActiveProject(Projects, HoverRow(Projects, Projects[i]).hovered) == Some(Projects[i])
  {
    StaticProjectsWellFormed();
    HoverPreviewsRow(Projects, i);
  }
}
