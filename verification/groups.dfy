/** `GroupValidator`: the set of validation groups that are active, fixed at construction. A group
    is a `Class<?>`, named here by its fully qualified name. */
module Groups {

  datatype GroupValidator = GroupValidator(activeGroups: set<string>)

  /** The constructor: the distinct groups among the arguments. */
  function NewGroupValidator(groups: seq<string>): (g: GroupValidator)
    ensures forall x :: x in g.activeGroups <==> x in groups
  {
    GroupValidator(set x | x in groups)
  }

  predicate IsGroupActive(g: GroupValidator, group: string)
  {
    group in g.activeGroups
  }

  /** A group is active exactly when it was among the constructor's arguments. */
  lemma ActiveExactlyWhenGiven(groups: seq<string>, group: string)
    ensures IsGroupActive(NewGroupValidator(groups), group) <==> exists i :: 0 <= i < |groups| && groups[i] == group
  {
    if group in groups {
      var i :| 0 <= i < |groups| && groups[i] == group;
    }
  }

  /** Repeating an argument, or reordering the arguments, changes nothing. */
  lemma DuplicatesCollapse(groups: seq<string>, more: seq<string>)
    requires forall x :: x in more ==> x in groups
    ensures NewGroupValidator(groups + more) == NewGroupValidator(groups)
    ensures NewGroupValidator(more + groups) == NewGroupValidator(groups)
  {
    var a, b, c := NewGroupValidator(groups + more), NewGroupValidator(more + groups), NewGroupValidator(groups);
    assert forall x :: x in a.activeGroups <==> x in c.activeGroups;
    assert forall x :: x in b.activeGroups <==> x in c.activeGroups;
  }

  /** With no arguments, no group is active. */
  lemma NoArgumentsNothingActive(group: string)
    ensures !IsGroupActive(NewGroupValidator([]), group)
  {
  }
}
