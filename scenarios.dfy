/**
 * Client code showing what callers can conclude from the model manager's
 * contracts alone: a person Alice tagged "Smith-Jones" takes part in the
 * wedding of that name.
 */
module Scenarios {
  import opened Entities
  import opened UniqueList
  import opened Views
  import opened Model

  function Alice(): Person
  {
    Person("Alice", "91234567", "alice@example.com", "1 Main Street", "florist", {Tag("Smith-Jones")})
  }

  function SmithJones(): Wedding
  {
    Wedding("Smith-Jones", {Alice()})
  }

  /** Editing Alice's phone and syncing the weddings leaves only the new Alice in the wedding. */
  method EditSync()
  {
    var m := new ModelManager([Alice()], [SmithJones()]);
    var edited := Alice().(phone := "98765432");
    var o := m.SetPerson(Alice(), edited);
    assert PersonKey(edited) != PersonKey(Alice());
    assert o == Pass;
    assert m.persons == [edited];
    assert FilteredIndices(m.weddings, m.weddingPred) == [0];
    m.UpdatePersonInWedding(edited, Alice());
    assert m.weddings[0].participants == {edited};
  }

  /** Clearing Alice's tags removes her from the wedding named by her tag. */
  method ClearTags()
  {
    var m := new ModelManager([Alice()], [SmithJones()]);
    var r := m.PersonWithAllTagsRemoved(Alice());
    assert m.weddingPred(SmithJones());
    assert "Smith-Jones" in TagNameSet(Alice().tags);
    assert m.weddings[0].participants == {};
    assert Contains([Alice()], Alice(), PersonKey);
    assert r.Ok? && r.value.tags == {} && r.value.name == "Alice";
  }

  /** Of two tags, only the one naming a wedding selects it. */
  method MatchTags()
  {
    var m := new ModelManager([Alice()], [SmithJones()]);
    var refs := m.GetWeddingFromTags({Tag("Smith-Jones"), Tag("Unrelated")});
    var p := Both(m.weddingPred, NamedIn(TagNameSet({Tag("Smith-Jones"), Tag("Unrelated")})));
    assert p(SmithJones());
    assert FilteredIndices([SmithJones()], p) == [0];
    assert refs == [0];
  }

  /** A person with Alice's identity but another job is a duplicate, yet not an exact match. */
  method DuplicateAdd()
  {
    var m := new ModelManager([Alice()], []);
    var other := Alice().(job := "baker");
    assert m.persons[0] == Alice();
    var o := m.AddPerson(other);
    assert o == Fail(DuplicateEntity);
    assert m.HasPerson(other);
    assert other != Alice();
    assert !m.HasExactPerson(other);
  }

  /** Setting the same predicate twice shows what setting it once shows. */
  method SameFilterTwice(p: Person -> bool)
  {
    var m := new ModelManager([Alice()], []);
    m.UpdateFilteredPersonList(p);
    var once := m.FilteredPersonList();
    assert once == Filter([Alice()], p);
    m.UpdateFilteredPersonList(p);
    assert m.FilteredPersonList() == Filter([Alice()], p);
  }
}
