/** Choosing an element of a non-empty set, as a loop over a dictionary's keys does. */
module Sets {

  lemma NoMembersEmpty<T>(s: set<T>)
    requires forall x :: x !in s
    ensures s == {}
  {
    assert forall x :: (x in s) == (x in {});
  }

  /** A non-empty set has a member, so `var x :| x in s` can pick one. */
  lemma NonEmptyHasMember<T>(s: set<T>)
    requires s != {}
    ensures exists x :: x in s
  {
    if forall x :: x !in s {
      NoMembersEmpty(s);
      assert false;
    }
  }

  /** Some member of a non-empty set. */
  lemma Pick<T>(s: set<T>) returns (x: T)
    requires s != {}
    ensures x in s
  {
    NonEmptyHasMember(s);
    x :| x in s;
  }
}
