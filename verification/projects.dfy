/** The projects editor of the profile page. */
module ProjectsView {
  import opened Common
  import opened ProfileLists

  datatype Project = Project(title: string, image: string, description: string, link: string)

  /** The form after a submit or a reset: all four fields empty. */
  const BlankProject: Entry<Project> := Entry(None, Project("", "", "", ""))

  /** The header's count label: `project` for exactly one, `projects` otherwise. */
  function CountLabel(count: nat): (text: string)
    ensures text == "project" <==> count == 1
    ensures text == "projects" <==> count != 1
  {
    if count == 1 then "project" else "projects"
  }

  /**
   * The link as displayed: `link.replace(/^https?:\/\//, '')` drops one leading `http://` or
   * `https://` and leaves everything else.
   */
  function StripScheme(link: string): (shown: string)
    ensures exists scheme :: scheme in {"", "http://", "https://"} && link == scheme + shown
  {
    if StartsWith(link, "https://") then
      assert link == "https://" + link[8..];
      link[8..]
    else if StartsWith(link, "http://") then
      assert link == "http://" + link[7..];
      link[7..]
    else
      assert link == "" + link;
      link
  }

  /** Only the first scheme goes: the rest of the link is shown as written. */
  lemma StripSchemeOnce(rest: string)
    ensures StripScheme("https://" + rest) == rest
    ensures StripScheme("http://" + rest) == rest
  {
    var s, t := "https://" + rest, "http://" + rest;
    assert s[..8] == "https://" && s[8..] == rest;
    assert t[..7] == "http://" && t[7..] == rest;
    assert !StartsWith(t, "https://") by {
      assert |t| >= 8 ==> t[..8][4] == ':' && "https://"[4] == 's';
    }
  }

  /** A link that does not start with a scheme is shown unchanged. */
  lemma StripSchemeNoScheme(link: string)
    requires !StartsWith(link, "http://") && !StartsWith(link, "https://")
    ensures StripScheme(link) == link
  {
  }

  /** The state of the projects editor. */
  class ProjectsEditor {
    var projects: seq<Entry<Project>>
    var isAddingNew: bool
    var editingId: Option<string>
    var formData: Entry<Project>

    constructor(initialProjects: seq<Entry<Project>>)
      ensures projects == initialProjects && !isAddingNew && editingId == None && formData == BlankProject
    {
      projects := initialProjects;
      isAddingNew := false;
      editingId := None;
      formData := BlankProject;
    }

    /**
     * Saves the form: while editing, the projects with the edited id take the form's fields
     * and keep that id; otherwise the form is appended under an id made from the clock.  The
     * form is then blank and closed.
     */
    method HandleSubmit(now: nat)
      modifies this
      ensures Truthy(old(editingId)) ==>
        projects == ReplaceById(old(projects), old(editingId).value, old(formData).data) && editingId == None
      ensures !Truthy(old(editingId)) ==>
        projects == old(projects) + [Entry(Some(ClockId("project-", now)), old(formData).data)] &&
        editingId == old(editingId)
      ensures formData == BlankProject && !isAddingNew
    {
      if Truthy(editingId) {
        projects := ReplaceById(projects, editingId.value, formData.data);
        editingId := None;
      } else {
        projects := projects + [Entry(Some(ClockId("project-", now)), formData.data)];
      }
      formData := BlankProject;
      isAddingNew := false;
    }

    /** Loads a project into the form and opens it; an id that is absent or empty edits nothing. */
    method StartEditing(project: Entry<Project>)
      modifies this
      ensures formData == project && isAddingNew && projects == old(projects)
      ensures editingId == if Truthy(project.id) then project.id else None
    {
      formData := project;
      editingId := if Truthy(project.id) then project.id else None;
      isAddingNew := true;
    }

    /** Removes every project with the id; an absent or empty id returns early. */
    method HandleDelete(id: Option<string>)
      modifies this
      ensures projects == if Truthy(id) then RemoveById(old(projects), id.value) else old(projects)
      ensures formData == old(formData) && editingId == old(editingId) && isAddingNew == old(isAddingNew)
    {
      if !Truthy(id) {
        return;
      }
      projects := RemoveById(projects, id.value);
    }

    method ResetForm()
      modifies this
      ensures formData == BlankProject && editingId == None && !isAddingNew && projects == old(projects)
    {
      formData := BlankProject;
      editingId := None;
      isAddingNew := false;
    }
  }
}
