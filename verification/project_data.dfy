/** The project records shown by the work index and the project detail
    page (types.ts, src/types.ts), and the static list of constants.ts. */
module ProjectData {
  import opened Wrappers
  import opened Seqs

  /** The layouts a project may ask for. */
  datatype LayoutType = Classic | Immersive | Technical | Modern | Agentic

  /** A project. The records of constants.ts carry neither a layout type
      nor a repository URL; both are optional in src/types.ts. */
  datatype Project = Project(
    id: string,
    title: string,
    category: string,
    description: string,
    year: string,
    color: string,
    layoutType: Option<LayoutType>,
    githubUrl: Option<string>
  )

  /** No two projects of the list share an id. */
  predicate DistinctIds(projects: seq<Project>) {
    forall i, j :: 0 <= i < j < |projects| ==> projects[i].id != projects[j].id
  }

  /** `projects.find(p => p.id === id)`; an absent id (`undefined` or
      `null`) equals no project's id. */
  function FindById(projects: seq<Project>, id: Option<string>): (r: Option<Project>)
    ensures r.Some? ==> id == Some(r.value.id)
    ensures r.Some? ==> exists i :: 0 <= i < |projects| && projects[i] == r.value
                                    && forall j :: 0 <= j < i ==> projects[j].id != r.value.id
    ensures r.None? <==> forall i :: 0 <= i < |projects| ==> id != Some(projects[i].id)
  {
    Find(projects, (p: Project) => id == Some(p.id))
  }

  /** Looking an id up finds the first project carrying it. */
  lemma FindByIdFirst(projects: seq<Project>, id: string, i: int)
    requires 0 <= i < |projects| && projects[i].id == id
    requires forall j :: 0 <= j < i ==> projects[j].id != id
    ensures FindById(projects, Some(id)) == Some(projects[i])
  {
    FindFirst(projects, (p: Project) => Some(id) == Some(p.id), i);
  }

  /** With distinct ids, looking up a project's id finds that project. */
  lemma FindOwnId(projects: seq<Project>, i: int)
    requires DistinctIds(projects) && 0 <= i < |projects|
    ensures FindById(projects, Some(projects[i].id)) == Some(projects[i])
  {
    FindByIdFirst(projects, projects[i].id, i);
  }

  function StaticProject(id: string, title: string, category: string, description: string,
                         year: string, color: string): Project
  {
    Project(id, title, category, description, year, color, None, None)
  }

  /** The six projects of constants.ts, in order. */
  const Projects: seq<Project> := [
    StaticProject("01", "The Silent Signal", "Audio Spectrum",
      "Visualizing the background radiation of the universe as an endless loop.", "UNKNOWN", "#ef4444"),
    StaticProject("02", "Glass Cathedral", "Virtual Monument",
      "A procedural structure that only exists when no one is looking.", "2025", "#ffffff"),
    StaticProject("03", "Echo Chamber", "Social Sculpture",
      "An infinite recursive mirror of digital discourse.", "2024", "#64748b"),
    StaticProject("04", "Obsidian Monolith", "Data Storage",
      "The final repository of deleted secrets.", "ETERNAL", "#000000"),
    StaticProject("05", "Red Horizon", "Simulation",
      "A sunset that never completes its descent.", "2024", "#f87171"),
    StaticProject("06", "Void State", "Anti-Matter",
      "The absence of interface. Pure interaction.", "NULL", "#cbd5e1")
  ]

  /** The static list has six projects with distinct ids and no layout
      type. */
  lemma StaticProjectsWellFormed()
    ensures |Projects| == 6 && DistinctIds(Projects)
    ensures forall i :: 0 <= i < |Projects| ==> Projects[i].layoutType == None
  {
  }
}
