# ModelManager of the contact and wedding manager, in Dafny

This project models the in-memory model of a contact manager for wedding planners.
The model holds:
- an address book of persons;
- a wedding book of weddings, where each wedding has its own participant set;
- one filtered view over each book, given by the current predicate of that view.

The project models three parts of it:

- **Tag-to-wedding linkage.** A person's tag whose text equals a wedding's name marks that person as a
  participant of that wedding. One query finds such weddings, and three operations keep the
  participant sets right:
  - `GetWeddingFromTags` is the query; it changes nothing and finds the weddings named by a set of tags.
  - `UpdatePersonInWedding` puts an edited person in place of the old one.
  - `DeletePersonInWedding` removes a person from the weddings named by some tags.
  - `PersonWithAllTagsRemoved` clears all of a person's tags and cuts every membership they implied.
  All four look only at the weddings that the current wedding view shows. A wedding hidden by the
  wedding predicate keeps its participants.
- **Filtered views.** A view is never stored. It is the backing sequence filtered by the current
  predicate (`Views.Filter`). `Views.FilteredIndices` gives the same view as positions in the book.
  Installing a predicate changes nothing else. Adding an entity shows everything again.
- **Delegating mutations.** Add, delete and set for persons and weddings pass through to the two
  books. Only the two adds reset a predicate, and only when the add succeeds.

Layout:
- `entities.dfy` (module `Entities`): the value types `Tag`, `Person` and `Wedding`, and the identity
  keys.
- `unique_list.dfy` (module `UniqueList`): the address book and the wedding book as sequences without
  two elements of the same identity. Errors are returned as `Result`/`Outcome` values, not thrown.
- `views.dfy` (module `Views`): filtering, filtered positions and the lemmas relating them.
- `model_manager.dfy` (module `Model`): the class `ModelManager`, with fields `persons`, `weddings`,
  `personPred` and `weddingPred`. It also holds the functions that specify its linkage methods.
- `scenarios.dfy` (module `Scenarios`): client methods showing what callers can derive from the
  contracts. They cover an edit followed by a resync, clearing a person's tags, matching tags to
  weddings, a duplicate add, and installing the same predicate twice.

Modelling choices:
- A Java reference to a wedding object is modelled as the wedding's position in the wedding book. So
  `GetWeddingFromTags` returns positions. Its callers then change the participant sets at those
  positions, as the Java code changes the sets of the returned objects in place.
- The linkage methods compute the view once, before they loop, as the Java code does with `toList()`.
- Weak equality is equality of an identity key:
  - for a person, name, phone, email and address;
  - for a wedding, its name.
  Exact equality is Dafny's `==`.
- A `Tag` carries only its text. So the tag names of a tag set are distinct, and each wedding in the
  view appears at most once in the result of `GetWeddingFromTags`.
- The `model` parameter of the linkage methods is always the current model, so it is `this` here.

Two behaviours of the code that a caller might not expect, and that the model keeps:
- `updatePersonInWedding` visits only the weddings the current view shows, so a hidden wedding keeps
  a superseded person. `Model.ReplaceParticipant` states that the hidden weddings stay exactly as they
  were.
- `personWithAllTagsRemoved` prunes wedding memberships before it replaces the person. If the person
  is not in the address book, the replacement fails after the pruning. `PersonWithAllTagsRemoved`
  states that the weddings are pruned in both outcomes.

## Model

| member | source | states |
|---|---|---|
| `Model.ModelManager.constructor` | src/main/java/seedu/address/model/ModelManager.java:41-51 | the books are the given snapshots, both predicates show everything, and both views equal their books |
| `Model.ModelManager.Empty` | src/main/java/seedu/address/model/ModelManager.java:53-55 | the model starts with two empty books and show-all predicates |
| `Model.ModelManager.HasPerson` | src/main/java/seedu/address/model/ModelManager.java:115-119 | true exactly when some stored person has the identity of the argument |
| `Model.ModelManager.HasExactPerson` | src/main/java/seedu/address/model/ModelManager.java:131-134 | true exactly when a stored person equals the argument in every field; an exact match is also a weak match |
| `Model.ModelManager.DeletePerson` | src/main/java/seedu/address/model/ModelManager.java:136-139 | succeeds exactly when a person of that identity is stored; it then removes that one, keeps the others in order and leaves the predicate; otherwise not-found and nothing changes |
| `Model.ModelManager.AddPerson` | src/main/java/seedu/address/model/ModelManager.java:141-145 | succeeds exactly when no person of that identity is stored; it then appends the person and shows every person; on a duplicate the list and the predicate are unchanged |
| `Model.ModelManager.SetPerson` | src/main/java/seedu/address/model/ModelManager.java:147-152 | the address book becomes the in-place replacement of the target's slot, or stays unchanged with the replacement's error; not-found exactly when the target's identity is absent |
| `Model.ModelManager.FilteredPersonList` | src/main/java/seedu/address/model/ModelManager.java:160-163 | the view holds exactly the stored persons the current predicate accepts |
| `Model.ModelManager.UpdateFilteredPersonList` | src/main/java/seedu/address/model/ModelManager.java:165-169 | only the person predicate changes; the view is the address book filtered by the new predicate, whatever the old one was |
| `Model.ModelManager.UpdateFilteredPersonListByJob` | src/main/java/seedu/address/model/ModelManager.java:171-175 | the job keyword overload installs the keyword predicate in the same way |
| `Model.ModelManager.HasWedding` | src/main/java/seedu/address/model/ModelManager.java:189-193 | true exactly when some stored wedding has the argument's name |
| `Model.ModelManager.DeleteWedding` | src/main/java/seedu/address/model/ModelManager.java:195-198 | succeeds exactly when a wedding of that name is stored and removes it keeping order; the predicate is left alone |
| `Model.ModelManager.AddWedding` | src/main/java/seedu/address/model/ModelManager.java:200-204 | succeeds exactly when no wedding of that name is stored; it then appends it and shows every wedding; on a duplicate nothing changes |
| `Model.ModelManager.SetWedding` | src/main/java/seedu/address/model/ModelManager.java:206-211 | the wedding book becomes the in-place replacement, or stays unchanged with the error; not-found exactly when the target's name is absent |
| `Model.ModelManager.FilteredWeddingList` | src/main/java/seedu/address/model/ModelManager.java:219-222 | the view holds exactly the stored weddings the current predicate accepts |
| `Model.ModelManager.UpdateFilteredWeddingList` | src/main/java/seedu/address/model/ModelManager.java:224-228 | only the wedding predicate changes; the view is the wedding book filtered by the new predicate |
| `Model.ModelManager.UpdateFilteredWeddingListByName` | src/main/java/seedu/address/model/ModelManager.java:230-234 | the wedding name keyword overload installs the keyword predicate in the same way |
| `Model.TagNames` | src/main/java/seedu/address/model/ModelManager.java:265-266 | the listed names are exactly the texts of the tags, each once |
| `Model.ModelManager.GetWeddingFromTags` | src/main/java/seedu/address/model/ModelManager.java:264-278 | the result is exactly the positions, in increasing view order and without repeats, of the shown weddings whose name is some tag's text |
| `Model.WeddingsFromTagsInViewOrder` | src/main/java/seedu/address/model/ModelManager.java:267-275 | the weddings at those positions are the filtered view filtered again by the tag names |
| `Model.SwapParticipant` | src/main/java/seedu/address/model/ModelManager.java:293-297 | a wedding that had the old person afterwards has the edited one, and the old one only if the two are equal; other participants and the name are kept; a wedding without the old person is unchanged |
| `Model.ReplaceParticipant` | src/main/java/seedu/address/model/ModelManager.java:287-299 | across the wedding book, only shown weddings that had the old person change, each as SwapParticipant says; names and order are kept |
| `Model.ModelManager.UpdatePersonInWedding` | src/main/java/seedu/address/model/ModelManager.java:287-299 | the wedding book becomes ReplaceParticipant of the old book under the current view; the address book is unchanged and uniqueness is kept |
| `Model.WithoutParticipant` | src/main/java/seedu/address/model/ModelManager.java:315 | the person is no longer a participant; every other participant and the name are kept |
| `Model.RemoveParticipant` | src/main/java/seedu/address/model/ModelManager.java:308-317 | in every selected wedding the person is absent and all other members are kept; unselected weddings are unchanged |
| `Model.RemovedAtRefs` | src/main/java/seedu/address/model/ModelManager.java:314-316 | removing the person at exactly the selected positions is RemoveParticipant and keeps wedding names unique |
| `Model.ModelManager.DeletePersonInWedding` | src/main/java/seedu/address/model/ModelManager.java:308-317 | the person leaves exactly the shown weddings named by the given tags, nothing else in the wedding book changes, and the address book is unchanged |
| `Model.PersonWithoutTags` | src/main/java/seedu/address/model/ModelManager.java:328-329 | the copy has no tags and the same name, phone, email, address and job, hence the same identity |
| `Model.ModelManager.PersonWithAllTagsRemoved` | src/main/java/seedu/address/model/ModelManager.java:324-333 | the person leaves every shown wedding named by one of its tags; it succeeds exactly when the person's identity is stored, and then returns the tag-less copy, puts it in the person's slot and shows every person; otherwise the address book and predicate are unchanged, but the weddings are pruned all the same |
| `UniqueList.IndexOfKey` | src/main/java/seedu/address/model/ModelManager.java:151 | finds the first position holding the key, or reports that no position does |
| `UniqueList.Contains` | src/main/java/seedu/address/model/ModelManager.java:118 | weak membership holds exactly when some element shares the key |
| `UniqueList.Add` | src/main/java/seedu/address/model/ModelManager.java:143 | appends exactly when the key is absent, else a duplicate error; uniqueness is kept and the element is then present |
| `UniqueList.Remove` | src/main/java/seedu/address/model/ModelManager.java:138 | removes the element with the key, keeping the rest in order, exactly when it is present; afterwards no element has the key |
| `UniqueList.Replace` | src/main/java/seedu/address/model/ModelManager.java:210 | overwrites the target's slot in place; not-found exactly when the target is absent; a duplicate exactly when the replacement has the identity of another element; uniqueness is kept |
| `Views.Filter` | src/main/java/seedu/address/model/ModelManager.java:49-50 | the view holds exactly the elements the predicate accepts and is no longer than the book |
| `Views.FilteredIndices` | src/main/java/seedu/address/model/ModelManager.java:269 | the view's positions are increasing and are exactly those whose element the predicate accepts |
| `Views.SelectFilteredIndices` | src/main/java/seedu/address/model/ModelManager.java:288-291 | the elements at the view's positions are the view, in order |
| `Views.FilterBoth` | src/main/java/seedu/address/model/ModelManager.java:269-271 | filtering the view again is filtering the book by both predicates |
| `Views.FilterAll` | src/main/java/seedu/address/model/ModelManager.java:144 | a predicate accepting everything shows the whole book, in order |
| `Views.IncreasingUnique` | src/main/java/seedu/address/model/ModelManager.java:267-275 | an increasing list of positions is determined by which positions it holds |
| `Entities.TagNameSet` | src/main/java/seedu/address/model/ModelManager.java:265-266 | every tag's text is a name, and every name is the text of a tag in the set |

## Left out

- User preferences, GUI settings and the file-path getters and setters (ModelManager.java:57-101) are opaque stored settings with no logic.
- The logger (ModelManager.java:30, 44) is an I/O side effect.
- `setAddressBook`, `getAddressBook`, `setWeddingBook` and `getWeddingBook` (ModelManager.java:105-113, 179-187) reset from a snapshot or hand out the book. They are outside the modelled core.
- `equals` (ModelManager.java:236-253) is structural comparison with no logic of its own.
- The null checks (`requireNonNull`, `requireAllNonNull`) are not modelled. Dafny values are never null, so the exception for a null argument cannot arise, and the checks happen before any state change anyway.
- JavaFX `FilteredList` is replaced by recomputing the view from the book and the predicate on each read. The Java view re-evaluates its predicate only when the backing list or the predicate changes. A wedding predicate that looks at participant sets could therefore show a stale view in Java after an in-place participant change. The model does not capture that staleness.
- The Java code of `AddressBook`, `WeddingBook`, `Person`, `Wedding`, `Tag` and the two keyword predicates is not part of this model. They are modelled abstractly, as follows:
  - The two books are the unique lists of `UniqueList`. Their list operations are assumed to look up remove and replace targets by identity key and to check duplicates against a different element.
  - The identity key of a person (name and contact fields) is an assumption about `isSamePerson`.
  - Wedding fields other than the name and the participants are not modelled.
  - A keyword predicate is carried as an opaque test, and its matching rule is not modelled.
- Participant sets hold person values compared by full equality. This matches Java's `Set.contains`, which uses `equals`. Sharing of `Person` objects between books is not modelled.
- The order in which the Java stream lists a tag set is unspecified. `TagNames` picks an arbitrary order. The names are distinct, so the result of `GetWeddingFromTags` does not depend on that order.
- Model.ModelManager.constructor: requires both snapshots to be free of duplicate identities, so it does not model a duplicate error raised while copying a book. The requires stands for the uniqueness that every read-only book already has, and the only call in the class (ModelManager.java:54) passes empty books.
