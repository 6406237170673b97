/**
 * The achievements editor of the profile page.  A date is kept as the number its `Date`
 * object stands for (a larger number is a later date); parsing and formatting are not part
 * of this model.
 */
module AchievementsView {
  import opened Common
  import opened ProfileLists

  datatype Achievement = Achievement(title: string, description: string, date: int)

  /** The form after a submit or a reset: no title or description, dated `today`. */
  function BlankAchievement(today: int): Entry<Achievement> {
    Entry(None, Achievement("", "", today))
  }

  function Date(a: Entry<Achievement>): int {
    a.data.date
  }

  /** `sortedAchievements`: a copy of the list, newest first. */
  function SortedAchievements(achievements: seq<Entry<Achievement>>): (r: seq<Entry<Achievement>>)
    ensures multiset(r) == multiset(achievements)
    ensures SortedDesc(r, Date)
  {
    SortDescSorted(achievements, Date);
    SortDesc(achievements, Date)
  }

  /** The suffix of "milestone" in the header: `s` unless there is exactly one. */
  function PluralSuffix(count: nat): (suffix: string)
    ensures suffix == "s" <==> count != 1
    ensures suffix == "" <==> count == 1
  {
    if count != 1 then "s" else ""
  }

  datatype Side = Left | Right

  /** The side of a card's accent bar: left for even positions, right for odd ones. */
  function AccentSide(index: nat): Side {
    if index % 2 == 0 then Left else Right
  }

  /** Neighbouring cards have their accents on opposite sides, and the first one on the left. */
  lemma AccentAlternates(index: nat)
    ensures AccentSide(0) == Left
    ensures AccentSide(index + 1) != AccentSide(index)
    ensures AccentSide(index + 2) == AccentSide(index)
  {
  }

  /** The state of the achievements editor. */
  class AchievementsEditor {
    var achievements: seq<Entry<Achievement>>
    var isAddingNew: bool
    var editingId: Option<string>
    var formData: Entry<Achievement>

    constructor(initialAchievements: seq<Entry<Achievement>>, today: int)
      ensures achievements == initialAchievements && !isAddingNew && editingId == None
      ensures formData == BlankAchievement(today)
    {
      achievements := initialAchievements;
      isAddingNew := false;
      editingId := None;
      formData := BlankAchievement(today);
    }

    /**
     * Saves the form: while editing, the achievements with the edited id take the form's
     * fields and keep that id; otherwise the form is appended under an id made from the clock.
     * The form is then blank, dated `today`, and closed.
     */
    method HandleSubmit(now: nat, today: int)
      modifies this
      ensures Truthy(old(editingId)) ==>
        achievements == ReplaceById(old(achievements), old(editingId).value, old(formData).data) &&
        editingId == None
      ensures !Truthy(old(editingId)) ==>
        achievements == old(achievements) + [Entry(Some(ClockId("achievement-", now)), old(formData).data)] &&
        editingId == old(editingId)
      ensures formData == BlankAchievement(today) && !isAddingNew
    {
      if Truthy(editingId) {
        achievements := ReplaceById(achievements, editingId.value, formData.data);
        editingId := None;
      } else {
        achievements := achievements + [Entry(Some(ClockId("achievement-", now)), formData.data)];
      }
      formData := BlankAchievement(today);
      isAddingNew := false;
    }

    /** Loads an achievement into the form and opens it; an absent or empty id edits nothing. */
    method StartEditing(achievement: Entry<Achievement>)
      modifies this
      ensures formData == achievement && isAddingNew && achievements == old(achievements)
      ensures editingId == if Truthy(achievement.id) then achievement.id else None
    {
      formData := achievement;
      editingId := if Truthy(achievement.id) then achievement.id else None;
      isAddingNew := true;
    }

    /** Removes every achievement with the id; an absent or empty id returns early. */
    method HandleDelete(id: Option<string>)
      modifies this
      ensures achievements == if Truthy(id) then RemoveById(old(achievements), id.value) else old(achievements)
      ensures formData == old(formData) && editingId == old(editingId) && isAddingNew == old(isAddingNew)
    {
      if !Truthy(id) {
        return;
      }
      achievements := RemoveById(achievements, id.value);
    }

    method ResetForm(today: int)
      modifies this
      ensures formData == BlankAchievement(today) && editingId == None && !isAddingNew
      ensures achievements == old(achievements)
    {
      formData := BlankAchievement(today);
      editingId := None;
      isAddingNew := false;
    }
  }
}
