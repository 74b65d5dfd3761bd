/**
 * The in-memory model of the contact and wedding manager: an address book of
 * persons, a wedding book, and one filtered view over each, given by the
 * current predicate of that view.
 *
 * A wedding is referred to by its position in the wedding book; a list of such
 * positions plays the part of a list of wedding objects whose participant sets
 * are then changed in place.
 */
module Model {
  import opened Entities
  import opened UniqueList
  import opened Views

  /** The predicate that shows every person. */
  const PredicateShowAllPersons: Person -> bool := _ => true

  /** The predicate that shows every wedding. */
  const PredicateShowAllWeddings: Wedding -> bool := _ => true

  /** A keyword predicate over a person's job; its matching rule is not part of this model. */
  datatype JobContainsKeywordsPredicate = JobContainsKeywordsPredicate(test: Person -> bool)

  /** A keyword predicate over a wedding's name; its matching rule is not part of this model. */
  datatype WeddingNameContainsKeywordsPredicate = WeddingNameContainsKeywordsPredicate(test: Wedding -> bool)

  /** Holds of the weddings whose name is one of `names`. */
  function NamedIn(names: set<string>): (r: Wedding -> bool)
    ensures forall w :: r(w) == (w.name in names)
  {
    (w: Wedding) => w.name in names
  }

  /** The wedding with `personToEdit` swapped for `editedPerson`, if it took part. */
  function SwapParticipant(w: Wedding, personToEdit: Person, editedPerson: Person): (r: Wedding)
    ensures r.name == w.name
    ensures personToEdit !in w.participants ==> r == w
    ensures personToEdit in w.participants ==>
      editedPerson in r.participants && (personToEdit in r.participants <==> personToEdit == editedPerson)
    ensures forall q :: q != personToEdit && q != editedPerson ==> (q in r.participants <==> q in w.participants)
  {
    if personToEdit in w.participants then
      w.(participants := w.participants - {personToEdit} + {editedPerson})
    else w
  }

  /** The wedding without `person` among its participants. */
  function WithoutParticipant(w: Wedding, person: Person): (r: Wedding)
    ensures r.name == w.name
    ensures person !in r.participants
    ensures forall q :: q != person ==> (q in r.participants <==> q in w.participants)
  {
    w.(participants := w.participants - {person})
  }

  /** The wedding book after swapping participants in every wedding that `inView` shows. */
  function ReplaceParticipant(ws: seq<Wedding>, inView: Wedding -> bool, personToEdit: Person, editedPerson: Person)
    : (r: seq<Wedding>)
    ensures |r| == |ws|
    ensures forall i :: 0 <= i < |ws| ==> r[i].name == ws[i].name
    ensures forall i :: 0 <= i < |ws| && (!inView(ws[i]) || personToEdit !in ws[i].participants) ==> r[i] == ws[i]
    ensures forall i :: 0 <= i < |ws| && inView(ws[i]) && personToEdit in ws[i].participants ==>
      editedPerson in r[i].participants && (personToEdit in r[i].participants <==> personToEdit == editedPerson)
    ensures forall i :: 0 <= i < |ws| && inView(ws[i]) ==> r[i] == SwapParticipant(ws[i], personToEdit, editedPerson)
  {
    seq(|ws|, i requires 0 <= i < |ws| =>
      if inView(ws[i]) then SwapParticipant(ws[i], personToEdit, editedPerson) else ws[i])
  }

  /** The wedding book after removing `person` from every wedding that `selected` holds of. */
  function RemoveParticipant(ws: seq<Wedding>, selected: Wedding -> bool, person: Person): (r: seq<Wedding>)
    ensures |r| == |ws|
    ensures forall i :: 0 <= i < |ws| ==> r[i].name == ws[i].name
    ensures forall i :: 0 <= i < |ws| && selected(ws[i]) ==>
      person !in r[i].participants &&
      forall q :: q != person ==> (q in r[i].participants <==> q in ws[i].participants)
    ensures forall i :: 0 <= i < |ws| && !selected(ws[i]) ==> r[i] == ws[i]
  {
    seq(|ws|, i requires 0 <= i < |ws| => if selected(ws[i]) then WithoutParticipant(ws[i], person) else ws[i])
  }

  /**
   * The weddings at the positions returned for a set of tag names are the
   * filtered view, filtered again by those names, in view order.
   */
  lemma WeddingsFromTagsInViewOrder(ws: seq<Wedding>, inView: Wedding -> bool, names: set<string>)
    ensures Select(ws, FilteredIndices(ws, Both(inView, NamedIn(names)))) == Filter(Filter(ws, inView), NamedIn(names))
  {
    SelectFilteredIndices(ws, Both(inView, NamedIn(names)));
    FilterBoth(ws, inView, NamedIn(names));
  }

  /**
   * Removing `person` at exactly the positions `refs` where `selected` holds
   * is RemoveParticipant, and keeps the wedding names unique.
   */
  lemma RemovedAtRefs(ws: seq<Wedding>, ws': seq<Wedding>, refs: seq<nat>, selected: Wedding -> bool, person: Person)
    requires |ws'| == |ws|
    requires forall i: nat :: i in refs <==> i < |ws| && selected(ws[i])
    requires forall i :: 0 <= i < |ws| ==> ws'[i] == if i in refs then WithoutParticipant(ws[i], person) else ws[i]
    ensures ws' == RemoveParticipant(ws, selected, person)
    ensures Unique(ws, WeddingKey) ==> Unique(ws', WeddingKey)
  {
  }

  /** A copy of `p` with no tags and every other field kept. */
  function PersonWithoutTags(p: Person): (r: Person)
    ensures r.tags == {}
    ensures r.name == p.name && r.phone == p.phone && r.email == p.email
    ensures r.address == p.address && r.job == p.job
    ensures PersonKey(r) == PersonKey(p)
  {
    Person(p.name, p.phone, p.email, p.address, p.job, {})
  }

  /** Lists the texts of `tags`, once each, in no particular order. */
  method TagNames(tags: set<Tag>) returns (names: seq<string>)
    ensures forall n :: n in names <==> n in TagNameSet(tags)
    ensures forall a, b :: 0 <= a < b < |names| ==> names[a] != names[b]
  {
    names := [];
    var rest := tags;
    while rest != {}
      invariant rest <= tags
      invariant forall n :: n in names <==> n in TagNameSet(tags - rest)
      invariant forall a, b :: 0 <= a < b < |names| ==> names[a] != names[b]
      decreases |rest|
    {
      var t :| t in rest;
      assert t.tagName !in TagNameSet(tags - rest);
      names := names + [t.tagName];
      rest := rest - {t};
    }
  }

  class ModelManager {
    var persons: seq<Person>
    var weddings: seq<Wedding>
    var personPred: Person -> bool
    var weddingPred: Wedding -> bool

    /** Neither book holds two entities with the same identity. */
    ghost predicate Valid()
      reads this`persons, this`weddings
    {
      Unique(persons, PersonKey) && Unique(weddings, WeddingKey)
    }

    /** A model over copies of the two books, showing everything. */
    constructor (addressBook: seq<Person>, weddingBook: seq<Wedding>)
      requires Unique(addressBook, PersonKey) && Unique(weddingBook, WeddingKey)
      ensures Valid()
      ensures persons == addressBook && weddings == weddingBook
      ensures personPred == PredicateShowAllPersons && weddingPred == PredicateShowAllWeddings
      ensures FilteredPersonList() == persons && FilteredWeddingList() == weddings
    {
      persons := addressBook;
      weddings := weddingBook;
      personPred := PredicateShowAllPersons;
      weddingPred := PredicateShowAllWeddings;
      new;
      FilterAll(addressBook, PredicateShowAllPersons);
      FilterAll(weddingBook, PredicateShowAllWeddings);
    }

    /** A model over two empty books. */
    constructor Empty()
      ensures Valid()
      ensures persons == [] && weddings == []
      ensures personPred == PredicateShowAllPersons && weddingPred == PredicateShowAllWeddings
    {
      persons := [];
      weddings := [];
      personPred := PredicateShowAllPersons;
      weddingPred := PredicateShowAllWeddings;
    }

    //=========== Address book ===========

    /** Whether some person in the address book has the identity of `person`. */
    function HasPerson(person: Person): (r: bool)
      reads this`persons
      ensures r <==> exists q :: q in persons && PersonKey(q) == PersonKey(person)
    {
      Contains(persons, person, PersonKey)
    }

    /** Whether the address book holds a person equal to `person` in every field. */
    function HasExactPerson(person: Person): (r: bool)
      reads this`persons
      ensures r <==> exists i :: 0 <= i < |persons| && persons[i] == person
      ensures r ==> HasPerson(person)
    {
      person in persons
    }

    /** Removes `target` from the address book; the person view keeps its predicate. */
    method DeletePerson(target: Person) returns (o: Outcome)
      requires Valid()
      modifies this`persons
      ensures Valid()
      ensures o.Pass? <==> old(HasPerson(target))
      ensures o.Pass? ==> !HasPerson(target) && Remove(old(persons), target, PersonKey) == Ok(persons)
      ensures o.Fail? ==> o.error == EntityNotFound && persons == old(persons)
    {
      var r := Remove(persons, target, PersonKey);
      if r.Err? {
        return Fail(r.error);
      }
      persons := r.value;
      o := Pass;
    }

    /** Appends `person` to the address book, then shows every person. */
    method AddPerson(person: Person) returns (o: Outcome)
      requires Valid()
      modifies this`persons, this`personPred
      ensures Valid()
      ensures o.Pass? <==> !old(HasPerson(person))
      ensures o.Pass? ==> persons == old(persons) + [person] && personPred == PredicateShowAllPersons
      ensures o.Pass? ==> FilteredPersonList() == persons
      ensures o.Fail? ==> o.error == DuplicateEntity && persons == old(persons) && personPred == old(personPred)
    {
      var r := Add(persons, person, PersonKey);
      if r.Err? {
        return Fail(r.error);
      }
      persons := r.value;
      assert Valid();
      UpdateFilteredPersonList(PredicateShowAllPersons);
      FilterAll(persons, PredicateShowAllPersons);
      o := Pass;
    }

    /** Replaces `target` by `editedPerson` in place; wedding memberships are not touched. */
    method SetPerson(target: Person, editedPerson: Person) returns (o: Outcome)
      requires Valid()
      modifies this`persons
      ensures Valid()
      ensures o.Pass? ==> Replace(old(persons), target, editedPerson, PersonKey) == Ok(persons)
      ensures o.Fail? ==>
        Replace(old(persons), target, editedPerson, PersonKey) == Err(o.error) && persons == old(persons)
      ensures o == Fail(EntityNotFound) <==> !old(HasPerson(target))
    {
      var r := Replace(persons, target, editedPerson, PersonKey);
      if r.Err? {
        return Fail(r.error);
      }
      persons := r.value;
      o := Pass;
    }

    //=========== Filtered person list ===========

    /** The persons the current predicate shows, in address book order. */
    function FilteredPersonList(): (r: seq<Person>)
      reads this`persons, this`personPred
      ensures forall p {:trigger p in r} :: p in r <==> p in persons && personPred(p)
    {
      Filter(persons, personPred)
    }

    /** Installs `pred` as the person view's predicate. */
    method UpdateFilteredPersonList(pred: Person -> bool)
      modifies this`personPred
      ensures Valid() <==> old(Valid())
      ensures personPred == pred
      ensures FilteredPersonList() == Filter(persons, pred)
    {
      personPred := pred;
    }

    /** Installs a job keyword predicate as the person view's predicate. */
    method UpdateFilteredPersonListByJob(pred: JobContainsKeywordsPredicate)
      modifies this`personPred
      ensures Valid() <==> old(Valid())
      ensures personPred == pred.test
      ensures FilteredPersonList() == Filter(persons, pred.test)
    {
      personPred := pred.test;
    }

    //=========== Wedding book ===========

    /** Whether some wedding in the wedding book has the name of `wedding`. */
    function HasWedding(wedding: Wedding): (r: bool)
      reads this`weddings
      ensures r <==> exists w :: w in weddings && w.name == wedding.name
    {
      Contains(weddings, wedding, WeddingKey)
    }

    /** Removes `target` from the wedding book; the wedding view keeps its predicate. */
    method DeleteWedding(target: Wedding) returns (o: Outcome)
      requires Valid()
      modifies this`weddings
      ensures Valid()
      ensures o.Pass? <==> old(HasWedding(target))
      ensures o.Pass? ==> !HasWedding(target) && Remove(old(weddings), target, WeddingKey) == Ok(weddings)
      ensures o.Fail? ==> o.error == EntityNotFound && weddings == old(weddings)
    {
      var r := Remove(weddings, target, WeddingKey);
      if r.Err? {
        return Fail(r.error);
      }
      weddings := r.value;
      o := Pass;
    }

    /** Appends `wedding` to the wedding book, then shows every wedding. */
    method AddWedding(wedding: Wedding) returns (o: Outcome)
      requires Valid()
      modifies this`weddings, this`weddingPred
      ensures Valid()
      ensures o.Pass? <==> !old(HasWedding(wedding))
      ensures o.Pass? ==> weddings == old(weddings) + [wedding] && weddingPred == PredicateShowAllWeddings
      ensures o.Pass? ==> FilteredWeddingList() == weddings
      ensures o.Fail? ==> o.error == DuplicateEntity && weddings == old(weddings) && weddingPred == old(weddingPred)
    {
      var r := Add(weddings, wedding, WeddingKey);
      if r.Err? {
        return Fail(r.error);
      }
      weddings := r.value;
      assert Valid();
      UpdateFilteredWeddingList(PredicateShowAllWeddings);
      FilterAll(weddings, PredicateShowAllWeddings);
      o := Pass;
    }

    /** Replaces `target` by `editedWedding` in place. */
    method SetWedding(target: Wedding, editedWedding: Wedding) returns (o: Outcome)
      requires Valid()
      modifies this`weddings
      ensures Valid()
      ensures o.Pass? ==> Replace(old(weddings), target, editedWedding, WeddingKey) == Ok(weddings)
      ensures o.Fail? ==>
        Replace(old(weddings), target, editedWedding, WeddingKey) == Err(o.error) && weddings == old(weddings)
      ensures o == Fail(EntityNotFound) <==> !old(HasWedding(target))
    {
      var r := Replace(weddings, target, editedWedding, WeddingKey);
      if r.Err? {
        return Fail(r.error);
      }
      weddings := r.value;
      o := Pass;
    }

    //=========== Filtered wedding list ===========

    /** The weddings the current predicate shows, in wedding book order. */
    function FilteredWeddingList(): (r: seq<Wedding>)
      reads this`weddings, this`weddingPred
      ensures forall w {:trigger w in r} :: w in r <==> w in weddings && weddingPred(w)
    {
      Filter(weddings, weddingPred)
    }

    /** Installs `pred` as the wedding view's predicate. */
    method UpdateFilteredWeddingList(pred: Wedding -> bool)
      modifies this`weddingPred
      ensures Valid() <==> old(Valid())
      ensures weddingPred == pred
      ensures FilteredWeddingList() == Filter(weddings, pred)
    {
      weddingPred := pred;
    }

    /** Installs a wedding name keyword predicate as the wedding view's predicate. */
    method UpdateFilteredWeddingListByName(pred: WeddingNameContainsKeywordsPredicate)
      modifies this`weddingPred
      ensures Valid() <==> old(Valid())
      ensures weddingPred == pred.test
      ensures FilteredWeddingList() == Filter(weddings, pred.test)
    {
      weddingPred := pred.test;
    }

    //=========== Persons, weddings and tags ===========

    /**
     * The positions of the shown weddings whose name is the text of one of
     * `tags`, in view order.
     */
    method GetWeddingFromTags(tags: set<Tag>) returns (refs: seq<nat>)
      ensures refs == FilteredIndices(weddings, Both(weddingPred, NamedIn(TagNameSet(tags))))
      ensures forall k :: 0 <= k < |refs| ==> refs[k] < |weddings|
    {
      var names := TagNames(tags);
      var view := FilteredIndices(weddings, weddingPred);
      refs := [];
      var k := 0;
      while k < |view|
        invariant 0 <= k <= |view|
        invariant Increasing(refs)
        invariant forall i: nat :: i in refs <==> i in view[..k] && i < |weddings| && weddings[i].name in names
        invariant forall m :: 0 <= m < |refs| ==> refs[m] < (if k < |view| then view[k] else |weddings|)
      {
        var v := view[k];
        ghost var before := refs;
        var j := 0;
        while j < |names|
          invariant 0 <= j <= |names|
          invariant refs == before + (if weddings[v].name in names[..j] then [v] else [])
        {
          if weddings[v].name == names[j] {
            refs := refs + [v];
          }
          PrefixStep(names, j);
          j := j + 1;
        }
        assert names[..j] == names;
        PrefixStep(view, k);
        k := k + 1;
      }
      assert view[..k] == view;
      var p := Both(weddingPred, NamedIn(TagNameSet(tags)));
      IncreasingUnique(refs, FilteredIndices(weddings, p));
    }

    /**
     * In every shown wedding that has `personToEdit` among its participants,
     * puts `editedPerson` in its place.
     */
    method UpdatePersonInWedding(editedPerson: Person, personToEdit: Person)
      requires Valid()
      modifies this`weddings
      ensures Valid()
      ensures weddings == ReplaceParticipant(old(weddings), weddingPred, personToEdit, editedPerson)
      ensures persons == old(persons)
    {
      var view := FilteredIndices(weddings, weddingPred);
      ghost var ws := weddings;
      var k := 0;
      while k < |view|
        invariant 0 <= k <= |view|
        invariant |weddings| == |ws|
        invariant forall i :: 0 <= i < |ws| ==>
          weddings[i] == if i in view[..k] then SwapParticipant(ws[i], personToEdit, editedPerson) else ws[i]
      {
        var v := view[k];
        var participants := weddings[v].participants;
        if personToEdit in participants {
          weddings := weddings[v := weddings[v].(participants := participants - {personToEdit} + {editedPerson})];
        }
        PrefixStep(view, k);
        k := k + 1;
      }
      assert view[..k] == view;
      UniqueSameKeys(weddings, WeddingKey, ws, WeddingKey);
    }

    /**
     * Removes `editedPerson` from the participants of every wedding that
     * GetWeddingFromTags(editedTags) returns.
     */
    method DeletePersonInWedding(editedPerson: Person, editedTags: set<Tag>)
      requires Valid()
      modifies this`weddings
      ensures Valid()
      ensures weddings == RemoveParticipant(old(weddings), Both(weddingPred, NamedIn(TagNameSet(editedTags))), editedPerson)
      ensures persons == old(persons)
    {
      var refs := GetWeddingFromTags(editedTags);
      ghost var ws := weddings;
      var k := 0;
      while k < |refs|
        invariant 0 <= k <= |refs|
        invariant |weddings| == |ws|
        invariant forall i :: 0 <= i < |ws| ==>
          weddings[i] == if i in refs[..k] then WithoutParticipant(ws[i], editedPerson) else ws[i]
      {
        var r := refs[k];
        weddings := weddings[r := weddings[r].(participants := weddings[r].participants - {editedPerson})];
        assert weddings[r] == WithoutParticipant(ws[r], editedPerson);
        PrefixStep(refs, k);
        k := k + 1;
      }
      assert refs[..k] == refs;
      RemovedAtRefs(ws, weddings, refs, Both(weddingPred, NamedIn(TagNameSet(editedTags))), editedPerson);
    }

    /**
     * Removes `personToEdit` from every shown wedding named by one of its tags,
     * then replaces it in the address book by a copy without tags and shows
     * every person. The wedding memberships are pruned even when the
     * replacement then fails.
     */
    method PersonWithAllTagsRemoved(personToEdit: Person) returns (r: Result<Person>)
      requires Valid()
      modifies this`weddings, this`persons, this`personPred
      ensures Valid()
      ensures weddings ==
        RemoveParticipant(old(weddings), Both(weddingPred, NamedIn(TagNameSet(personToEdit.tags))), personToEdit)
      ensures r.Ok? <==> old(HasPerson(personToEdit))
      ensures r.Ok? ==> r.value == PersonWithoutTags(personToEdit)
      ensures r.Ok? ==> Replace(old(persons), personToEdit, r.value, PersonKey) == Ok(persons)
      ensures r.Ok? ==> personPred == PredicateShowAllPersons
      ensures r.Err? ==> r.error == EntityNotFound && persons == old(persons) && personPred == old(personPred)
    {
      var currentTags := personToEdit.tags;
      DeletePersonInWedding(personToEdit, currentTags);
      var editedPerson := PersonWithoutTags(personToEdit);
      var o := SetPerson(personToEdit, editedPerson);
      if o.Fail? {
        return Err(o.error);
      }
      UpdateFilteredPersonList(PredicateShowAllPersons);
      r := Ok(editedPerson);
    }
  }
}
