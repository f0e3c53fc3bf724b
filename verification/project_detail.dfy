/** The project detail page of src/pages/ProjectDetail.tsx: it resolves the
    project to show, then dispatches on its layout type. */
module ProjectDetail {
  import opened Wrappers
  import opened ProjectData

  /** The layout components the page can fill its shell with. */
  datatype Layout = ClassicLayout | ImmersiveLayout | TechnicalLayout | ModernLayout | AgenticLayout

  /** What the page renders: the "Signal Lost" view, or a layout given the
      project. */
  datatype DetailView = NotFound | Shell(layout: Layout, project: Project)

  /** The memoised `project` (lines 18-21): a project carried in the
      navigation state wins; otherwise the first static project whose id is
      the route parameter. */
  function ResolveProject(carried: Option<Project>, staticProjects: seq<Project>,
                          projectId: Option<string>): (r: Option<Project>)
    ensures carried.Some? ==> r == carried
    ensures carried.None? && r.Some? ==>
              projectId == Some(r.value.id) && r.value in staticProjects
    ensures carried.None? ==>
              (r.None? <==> forall i :: 0 <= i < |staticProjects| ==> projectId != Some(staticProjects[i].id))
  {
    if carried.Some? then carried
    else FindById(staticProjects, projectId)
  }

  /** `renderLayout` (lines 43-56): four layout types select their own
      layout; "classic" and an absent layout type fall to the default. */
  function LayoutFor(layoutType: Option<LayoutType>): (r: Layout)
    ensures r == ImmersiveLayout <==> layoutType == Some(Immersive)
    ensures r == TechnicalLayout <==> layoutType == Some(Technical)
    ensures r == ModernLayout <==> layoutType == Some(Modern)
    ensures r == AgenticLayout <==> layoutType == Some(Agentic)
    ensures r == ClassicLayout <==> layoutType == None || layoutType == Some(Classic)
  {
    match layoutType
    case Some(Immersive) => ImmersiveLayout
    case Some(Technical) => TechnicalLayout
    case Some(Modern) => ModernLayout
    case Some(Agentic) => AgenticLayout
    case _ => ClassicLayout
  }

  /** The page (lines 14-59). */
  function RenderDetail(carried: Option<Project>, staticProjects: seq<Project>,
                        projectId: Option<string>): (v: DetailView)
    ensures v == NotFound <==>
              carried.None? && forall i :: 0 <= i < |staticProjects| ==> projectId != Some(staticProjects[i].id)
    ensures v.Shell? && carried.Some? ==> v.project == carried.value
    ensures v.Shell? && carried.None? ==>
              projectId == Some(v.project.id) && v.project in staticProjects
    ensures v.Shell? ==> v.layout == LayoutFor(v.project.layoutType)
  {
    match ResolveProject(carried, staticProjects, projectId)
    case None => NotFound
    case Some(project) => Shell(LayoutFor(project.layoutType), project)
  }

  /** A carried project is shown, unchanged, in the layout it asks for,
      whatever the route parameter says. */
  lemma CarriedProjectWins(project: Project, staticProjects: seq<Project>, projectId: Option<string>)
    ensures RenderDetail(Some(project), staticProjects, projectId)
              == Shell(LayoutFor(project.layoutType), project)
  {
  }

  /** Without a carried project, the page shows the first static project
      whose id is the route parameter. */
  lemma RouteLookup(staticProjects: seq<Project>, projectId: string, i: int)
    requires 0 <= i < |staticProjects| && staticProjects[i].id == projectId
    requires forall j :: 0 <= j < i ==> staticProjects[j].id != projectId
    ensures RenderDetail(None, staticProjects, Some(projectId))
              == Shell(LayoutFor(staticProjects[i].layoutType), staticProjects[i])
  {
    FindByIdFirst(staticProjects, projectId, i);
  }
}
