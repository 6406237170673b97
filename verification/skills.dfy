/** The skills editor of the profile page: its list state, its handlers and its views. */
module SkillsView {
  import opened Common
  import opened ProfileLists

  datatype Skill = Skill(name: string, level: int)

  /** The form after a submit or a reset: no name, level 5. */
  const BlankSkill: Entry<Skill> := Entry(None, Skill("", 5))

  function Level(s: Entry<Skill>): int {
    s.data.level
  }

  /** The three tiers, as the filters of the view test them. */
  predicate ExpertLevel(level: int) {
    level >= 8
  }

  predicate IntermediateLevel(level: int) {
    level >= 5 && level < 8
  }

  predicate BeginnerLevel(level: int) {
    level < 5
  }

  predicate IsExpert(s: Entry<Skill>) {
    ExpertLevel(s.data.level)
  }

  predicate IsIntermediate(s: Entry<Skill>) {
    IntermediateLevel(s.data.level)
  }

  predicate IsBeginner(s: Entry<Skill>) {
    BeginnerLevel(s.data.level)
  }

  /** `sortedSkills`: a copy of the skills, highest level first. */
  function SortedSkills(skills: seq<Entry<Skill>>): (r: seq<Entry<Skill>>)
    ensures multiset(r) == multiset(skills)
    ensures SortedDesc(r, Level)
  {
    SortDescSorted(skills, Level);
    SortDesc(skills, Level)
  }

  function ExpertSkills(sorted: seq<Entry<Skill>>): (r: seq<Entry<Skill>>)
    ensures forall s :: s in r <==> s in sorted && IsExpert(s)
    ensures SortedDesc(sorted, Level) ==> SortedDesc(r, Level)
  {
    FilterKeepsOrder(sorted, IsExpert, Level);
    Filter(sorted, IsExpert)
  }

  function IntermediateSkills(sorted: seq<Entry<Skill>>): (r: seq<Entry<Skill>>)
    ensures forall s :: s in r <==> s in sorted && IsIntermediate(s)
    ensures SortedDesc(sorted, Level) ==> SortedDesc(r, Level)
  {
    FilterKeepsOrder(sorted, IsIntermediate, Level);
    Filter(sorted, IsIntermediate)
  }

  function BeginnerSkills(sorted: seq<Entry<Skill>>): (r: seq<Entry<Skill>>)
    ensures forall s :: s in r <==> s in sorted && IsBeginner(s)
    ensures SortedDesc(sorted, Level) ==> SortedDesc(r, Level)
  {
    FilterKeepsOrder(sorted, IsBeginner, Level);
    Filter(sorted, IsBeginner)
  }

  /**
   * The three tier lists split the sorted list: every skill is in exactly one of them, and
   * together they hold each skill as often as the list does.
   */
  lemma {:induction false} TiersPartition(sorted: seq<Entry<Skill>>)
    ensures multiset(ExpertSkills(sorted)) + multiset(IntermediateSkills(sorted)) + multiset(BeginnerSkills(sorted))
            == multiset(sorted)
    ensures forall s :: s in sorted ==>
              (s in ExpertSkills(sorted) <==> !(s in IntermediateSkills(sorted) || s in BeginnerSkills(sorted)))
    ensures forall s :: !(s in IntermediateSkills(sorted) && s in BeginnerSkills(sorted))
    decreases |sorted|
  {
    if sorted != [] {
      TiersPartition(sorted[1..]);
      assert sorted == [sorted[0]] + sorted[1..];
    }
  }

  const ExpertGradient := "from-emerald-500 to-green-600"
  const IntermediateGradient := "from-blue-500 to-cyan-600"
  const BeginnerGradient := "from-amber-500 to-orange-600"

  /** `getSkillColor`: the gradient of the skill's tier. */
  function SkillColor(level: int): (c: string)
    ensures c == ExpertGradient <==> ExpertLevel(level)
    ensures c == IntermediateGradient <==> IntermediateLevel(level)
    ensures c == BeginnerGradient <==> BeginnerLevel(level)
  {
    if level >= 8 then ExpertGradient
    else if level >= 5 then IntermediateGradient
    else BeginnerGradient
  }

  const ExpertBackground := "bg-emerald-500/10 border-emerald-500/30 hover:bg-emerald-500/20"
  const IntermediateBackground := "bg-blue-500/10 border-blue-500/30 hover:bg-blue-500/20"
  const BeginnerBackground := "bg-amber-500/10 border-amber-500/30 hover:bg-amber-500/20"

  /** `getSkillBgColor`: the background of the skill's tier. */
  function SkillBgColor(level: int): (c: string)
    ensures c == ExpertBackground <==> ExpertLevel(level)
    ensures c == IntermediateBackground <==> IntermediateLevel(level)
    ensures c == BeginnerBackground <==> BeginnerLevel(level)
  {
    if level >= 8 then ExpertBackground
    else if level >= 5 then IntermediateBackground
    else BeginnerBackground
  }

  const ExpertText := "text-emerald-400"
  const IntermediateText := "text-blue-400"
  const BeginnerText := "text-amber-400"

  /** `getSkillTextColor`: the text colour of the skill's tier. */
  function SkillTextColor(level: int): (c: string)
    ensures c == ExpertText <==> ExpertLevel(level)
    ensures c == IntermediateText <==> IntermediateLevel(level)
    ensures c == BeginnerText <==> BeginnerLevel(level)
  {
    if level >= 8 then ExpertText
    else if level >= 5 then IntermediateText
    else BeginnerText
  }

  /**
   * The stars shown for a level: `Array(Math.floor(level / 2))`, so half the level rounded
   * down; a negative count makes the `Array` constructor throw, which is `None` here.
   */
  function StarCount(level: int): (r: Option<nat>)
    ensures r.Some? <==> level >= 0
    ensures r.Some? ==> 2 * r.value <= level < 2 * r.value + 2
  {
    if level / 2 < 0 then None else Some(level / 2)
  }

  /** The state of the skills editor. */
  class SkillsEditor {
    var skills: seq<Entry<Skill>>
    var isAddingNew: bool
    var editingId: Option<string>
    var formData: Entry<Skill>

    constructor(initialSkills: seq<Entry<Skill>>)
      ensures skills == initialSkills && !isAddingNew && editingId == None && formData == BlankSkill
    {
      skills := initialSkills;
      isAddingNew := false;
      editingId := None;
      formData := BlankSkill;
    }

    /**
     * Saves the form: while editing, the skills with the edited id take the form's fields and
     * keep that id; otherwise the form is appended under an id made from the clock.  The form
     * is then blank and closed.
     */
    method HandleSubmit(now: nat)
      modifies this
      ensures Truthy(old(editingId)) ==>
        skills == ReplaceById(old(skills), old(editingId).value, old(formData).data) && editingId == None
      ensures !Truthy(old(editingId)) ==>
        skills == old(skills) + [Entry(Some(ClockId("skill-", now)), old(formData).data)] &&
        editingId == old(editingId)
      ensures formData == BlankSkill && !isAddingNew
    {
      if Truthy(editingId) {
        skills := ReplaceById(skills, editingId.value, formData.data);
        editingId := None;
      } else {
        skills := skills + [Entry(Some(ClockId("skill-", now)), formData.data)];
      }
      formData := BlankSkill;
      isAddingNew := false;
    }

    /** Loads a skill into the form and opens it; an id that is absent or empty edits nothing. */
    method StartEditing(skill: Entry<Skill>)
      modifies this
      ensures formData == skill && isAddingNew && skills == old(skills)
      ensures editingId == if Truthy(skill.id) then skill.id else None
    {
      formData := skill;
      editingId := if Truthy(skill.id) then skill.id else None;
      isAddingNew := true;
    }

    /** Removes every skill with the id; an absent or empty id returns early. */
    method HandleDelete(id: Option<string>)
      modifies this
      ensures skills == if Truthy(id) then RemoveById(old(skills), id.value) else old(skills)
      ensures formData == old(formData) && editingId == old(editingId) && isAddingNew == old(isAddingNew)
    {
      if !Truthy(id) {
        return;
      }
      skills := RemoveById(skills, id.value);
    }

    method ResetForm()
      modifies this
      ensures formData == BlankSkill && editingId == None && !isAddingNew && skills == old(skills)
    {
      formData := BlankSkill;
      editingId := None;
      isAddingNew := false;
    }
  }
}
