/**
 * An ordered collection whose elements are pairwise distinct under a "weak"
 * equality, given as equality of an identity key. The address book (persons)
 * and the wedding book (weddings) are both such lists; their operations keep
 * insertion order and fail, leaving the list unchanged, on a duplicate or a
 * missing element.
 */
module UniqueList {

  datatype Error = DuplicateEntity | EntityNotFound

  datatype Option<T> = None | Some(value: T)

  datatype Result<T> = Ok(value: T) | Err(error: Error)

  datatype Outcome = Pass | Fail(error: Error)

  /** No two elements of `s` share a key. */
  predicate Unique<T, K(==)>(s: seq<T>, key: T -> K)
  {
    forall a, b :: 0 <= a < b < |s| ==> key(s[a]) != key(s[b])
  }

  /** The position of the first element whose key is `k`, if any. */
  function IndexOfKey<T, K(==)>(s: seq<T>, k: K, key: T -> K): (r: Option<nat>)
    ensures r.Some? ==> r.value < |s| && key(s[r.value]) == k
    ensures r.Some? ==> forall i :: 0 <= i < r.value ==> key(s[i]) != k
    ensures r.None? <==> forall i :: 0 <= i < |s| ==> key(s[i]) != k
    decreases |s|
  {
    if s == [] then None
    else if key(s[0]) == k then Some(0)
    else match IndexOfKey(s[1..], k, key)
      case None => None
      case Some(i) => Some(i + 1)
  }

  /** Weak membership: some element has the same key as `x`. */
  function Contains<T, K(==)>(s: seq<T>, x: T, key: T -> K): (r: bool)
    ensures r <==> exists i :: 0 <= i < |s| && key(s[i]) == key(x)
  {
    IndexOfKey(s, key(x), key).Some?
  }

  /** Appends `x`, unless an element with its key is already present. */
  function Add<T, K(==)>(s: seq<T>, x: T, key: T -> K): (r: Result<seq<T>>)
    ensures r.Ok? <==> !Contains(s, x, key)
    ensures r.Ok? ==> r.value == s + [x]
    ensures r.Err? ==> r.error == DuplicateEntity
    ensures Unique(s, key) && r.Ok? ==> Unique(r.value, key) && Contains(r.value, x, key)
  {
    if Contains(s, x, key) then Err(DuplicateEntity)
    else
      assert (s + [x])[|s|] == x;
      Ok(s + [x])
  }

  /** Removes the element with the key of `x`, keeping the others in order. */
  function Remove<T, K(==)>(s: seq<T>, x: T, key: T -> K): (r: Result<seq<T>>)
    ensures r.Ok? <==> Contains(s, x, key)
    ensures r.Err? ==> r.error == EntityNotFound
    ensures r.Ok? ==> exists i :: 0 <= i < |s| && key(s[i]) == key(x) && r.value == s[..i] + s[i + 1..]
    ensures Unique(s, key) && r.Ok? ==> Unique(r.value, key) && !Contains(r.value, x, key)
  {
    match IndexOfKey(s, key(x), key)
    case None => Err(EntityNotFound)
    case Some(i) =>
      var t := s[..i] + s[i + 1..];
      assert forall j :: 0 <= j < |t| ==> t[j] == s[if j < i then j else j + 1];
      Ok(t)
  }

  /**
   * Puts `replacement` in the slot of the element with the key of `target`.
   * Fails when there is no such element, or when `replacement` has the key
   * of some other element.
   */
  function Replace<T, K(==)>(s: seq<T>, target: T, replacement: T, key: T -> K): (r: Result<seq<T>>)
    ensures r.Err? && r.error == EntityNotFound <==> !Contains(s, target, key)
    ensures r.Ok? ==> exists i :: 0 <= i < |s| && key(s[i]) == key(target) && r.value == s[i := replacement]
    ensures Unique(s, key) ==>
      (r.Err? && r.error == DuplicateEntity <==>
        Contains(s, target, key) && key(replacement) != key(target) && Contains(s, replacement, key))
    ensures Unique(s, key) && r.Ok? ==> Unique(r.value, key)
  {
    match IndexOfKey(s, key(target), key)
    case None => Err(EntityNotFound)
    case Some(i) =>
      if exists j :: 0 <= j < |s| && j != i && key(s[j]) == key(replacement) then Err(DuplicateEntity)
      else Ok(s[i := replacement])
  }

  /** Uniqueness depends only on the keys, position by position. */
  lemma UniqueSameKeys<T, U, K>(a: seq<T>, keyA: T -> K, b: seq<U>, keyB: U -> K)
    requires |a| == |b|
    requires forall i :: 0 <= i < |a| ==> keyA(a[i]) == keyB(b[i])
    ensures Unique(a, keyA) <==> Unique(b, keyB)
  {
  }
}
