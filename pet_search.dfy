/**
 * Searching an owner's pets by type and maximum age, ordered by name, as the
 * tests do it three ways: in application code (a filtering loop, then a sort
 * by `Comparator.comparing(Pet::getName)`), as a JPQL string, and as a
 * Criteria query; the join-fetch variant states the same query again. One
 * specification, QueryResult, describes what all of them return.
 */
module PetSearch {
  import opened Wrappers
  import opened Text
  import opened Entities

  /** The literals of the in-memory filter. */
  const Dog: string := "dog"
  const AgeLimit: int32 := 5

  /** `pet.getType().equals(type) && pet.getAge() < maxAge`: the age bound is strict. */
  predicate Matches(p: Pet, kind: string, maxAge: int32)
    reads p
    ensures p.kind != kind ==> !Matches(p, kind, maxAge)
    ensures p.age >= maxAge ==> !Matches(p, kind, maxAge)
  {
    p.kind == kind && p.age < maxAge
  }

  /** The pets of `ps` that match, in their order in `ps`. */
  function Filtered(ps: seq<Pet>, kind: string, maxAge: int32): (r: seq<Pet>)
    reads (set x | x in ps)
    ensures forall p :: p in r ==> p in ps
  {
    if ps == [] then []
    else
      var last := ps[|ps| - 1];
      Filtered(ps[..|ps| - 1], kind, maxAge) + (if Matches(last, kind, maxAge) then [last] else [])
  }

  /** `a` is `b` with some elements left out, the rest in the same order. */
  predicate IsSubsequence<T(==)>(a: seq<T>, b: seq<T>)
  {
    if a == [] then true
    else if b == [] then false
    else if a[|a| - 1] == b[|b| - 1] then IsSubsequence(a[..|a| - 1], b[..|b| - 1])
    else IsSubsequence(a, b[..|b| - 1])
  }

  /**
   * Lines 57-62 of the in-memory test: walk the pets, append each one that
   * matches to a fresh list.
   */
  method FilterPets(source: seq<Pet>, kind: string, maxAge: int32) returns (kept: seq<Pet>)
    ensures kept == Filtered(source, kind, maxAge)
  {
    kept := [];
    var i := 0;
    while i < |source|
      invariant 0 <= i <= |source|
      invariant kept == Filtered(source[..i], kind, maxAge)
    {
      assert source[..i + 1][..i] == source[..i];
      var pet := source[i];
      if pet.kind == kind && pet.age < maxAge {
        kept := kept + [pet];
      }
      i := i + 1;
    }
    assert source[..i] == source;
  }

  /** Every pet kept matches, comes from the input, and no more pets come out than went in. */
  lemma {:induction false} FilteredSound(ps: seq<Pet>, kind: string, maxAge: int32)
    ensures |Filtered(ps, kind, maxAge)| <= |ps|
    ensures forall p :: p in Filtered(ps, kind, maxAge) ==> p in ps && Matches(p, kind, maxAge)
  {
    if ps != [] {
      FilteredSound(ps[..|ps| - 1], kind, maxAge);
    }
  }

  /** No matching pet is dropped. */
  lemma {:induction false} FilteredComplete(ps: seq<Pet>, kind: string, maxAge: int32)
    ensures forall p :: p in ps && Matches(p, kind, maxAge) ==> p in Filtered(ps, kind, maxAge)
  {
    if ps != [] {
      FilteredComplete(ps[..|ps| - 1], kind, maxAge);
      assert forall p :: p in ps ==> p in ps[..|ps| - 1] || p == ps[|ps| - 1];
    }
  }

  /**
   * Each pet is kept exactly as often as it occurs in the input when it
   * matches, and never otherwise: a pet added twice is kept twice.
   */
  lemma {:induction false} FilteredCounts(ps: seq<Pet>, kind: string, maxAge: int32)
    ensures forall p :: multiset(Filtered(ps, kind, maxAge))[p]
                          == if Matches(p, kind, maxAge) then multiset(ps)[p] else 0
  {
    if ps != [] {
      var init, last := ps[..|ps| - 1], ps[|ps| - 1];
      FilteredCounts(init, kind, maxAge);
      assert ps == init + [last];
      assert multiset(ps) == multiset(init) + multiset{last};
    }
  }

  /** The pets kept keep their relative order from the owner's list. */
  lemma {:induction false} FilteredKeepsOrder(ps: seq<Pet>, kind: string, maxAge: int32)
    ensures IsSubsequence(Filtered(ps, kind, maxAge), ps)
  {
    if ps != [] {
      var init := ps[..|ps| - 1];
      FilteredKeepsOrder(init, kind, maxAge);
      var f := Filtered(init, kind, maxAge);
      if Matches(ps[|ps| - 1], kind, maxAge) {
        assert (f + [ps[|ps| - 1]])[..|f|] == f;
      } else {
        assert Filtered(ps, kind, maxAge) == f;
        assert init + [ps[|ps| - 1]] == ps;
        SubsequenceOfPrefix(f, init, ps[|ps| - 1]);
      }
    }
  }

  /** Appending to the longer sequence keeps a subsequence one. */
  lemma {:induction false} SubsequenceOfPrefix<T>(a: seq<T>, b: seq<T>, x: T)
    requires IsSubsequence(a, b)
    ensures IsSubsequence(a, b + [x])
    decreases |a| + |b| + 1
  {
    assert (b + [x])[..|b|] == b;
    if a != [] && a[|a| - 1] == x {
      SubsequenceDropLast(a, b);
    }
  }

  /** Dropping the last element of the shorter sequence keeps a subsequence one. */
  lemma {:induction false} SubsequenceDropLast<T>(a: seq<T>, b: seq<T>)
    requires a != [] && IsSubsequence(a, b)
    ensures IsSubsequence(a[..|a| - 1], b)
    decreases |a| + |b|
  {
    var init, last := b[..|b| - 1], b[|b| - 1];
    assert init + [last] == b;
    if a[|a| - 1] == last {
      SubsequenceOfPrefix(a[..|a| - 1], init, last);
    } else {
      SubsequenceDropLast(a, init);
      SubsequenceOfPrefix(a[..|a| - 1], init, last);
    }
  }

  /** A pet exactly at the limit age is excluded, one year younger with the right type is kept. */
  lemma {:induction false} AgeBoundIsStrict(ps: seq<Pet>, p: Pet, kind: string, maxAge: int32)
    requires p in ps && p.kind == kind
    ensures p.age == maxAge ==> p !in Filtered(ps, kind, maxAge)
    ensures p.age as int == maxAge as int - 1 ==> p in Filtered(ps, kind, maxAge)
  {
    FilteredSound(ps, kind, maxAge);
    FilteredComplete(ps, kind, maxAge);
  }

  /*
   * Sorting by name. `pets.sort(Comparator.comparing(Pet::getName))` is a
   * stable sort under String.compareTo; ByName is the insertion sort that
   * defines that result, SortByName computes it.
   */

  /** Puts `p` into a by-name list after every pet whose name does not compare greater. */
  function Insert(p: Pet, s: seq<Pet>): (r: seq<Pet>)
    reads p, (set x | x in s)
    ensures forall x :: x in r ==> x == p || x in s
  {
    if s == [] then [p]
    else if CompareTo(p.name, s[0].name) < 0 then [p] + s
    else [s[0]] + Insert(p, s[1..])
  }

  /** The pets ordered by name; pets with equal names keep their input order. */
  function ByName(s: seq<Pet>): (r: seq<Pet>)
    reads (set x | x in s)
    ensures forall x :: x in r ==> x in s
  {
    if s == [] then [] else Insert(s[|s| - 1], ByName(s[..|s| - 1]))
  }

  predicate SortedByName(s: seq<Pet>)
    reads (set x | x in s)
  {
    forall i, j :: 0 <= i < j < |s| ==> CompareTo(s[i].name, s[j].name) <= 0
  }

  /** The pets of `s` named `n`, in their order in `s`. */
  function WithName(s: seq<Pet>, n: string): seq<Pet>
    reads (set x | x in s)
  {
    if s == [] then [] else (if s[0].name == n then [s[0]] else []) + WithName(s[1..], n)
  }

  lemma {:induction false} InsertPermutes(p: Pet, s: seq<Pet>)
    ensures multiset(Insert(p, s)) == multiset(s) + multiset{p}
  {
    if s != [] {
      assert s == [s[0]] + s[1..];
      if CompareTo(p.name, s[0].name) >= 0 {
        InsertPermutes(p, s[1..]);
      }
    }
  }

  lemma {:induction false} InsertSorted(p: Pet, s: seq<Pet>)
    requires SortedByName(s)
    ensures SortedByName(Insert(p, s))
  {
    if s == [] {
    } else if CompareTo(p.name, s[0].name) < 0 {
      forall j | 0 <= j < |s|
        ensures CompareTo(p.name, s[j].name) <= 0
      {
        if j > 0 { CompareToTransitive(p.name, s[0].name, s[j].name); }
      }
      SortedCons(p, s);
    } else {
      var r := Insert(p, s[1..]);
      assert SortedByName(s[1..]);
      InsertSorted(p, s[1..]);
      forall j | 0 <= j < |r|
        ensures CompareTo(s[0].name, r[j].name) <= 0
      {
        assert r[j] in r;
        if r[j] == p {
          CompareToFlip(p.name, s[0].name);
        } else {
          var k :| 0 <= k < |s| - 1 && s[1..][k] == r[j];
          assert s[k + 1] == r[j];
        }
      }
      SortedCons(s[0], r);
    }
  }

  /** A pet that compares at most every pet of a sorted list can go in front of it. */
  lemma SortedCons(x: Pet, r: seq<Pet>)
    requires SortedByName(r)
    requires forall j :: 0 <= j < |r| ==> CompareTo(x.name, r[j].name) <= 0
    ensures SortedByName([x] + r)
  {
    var t := [x] + r;
    forall i, j | 0 <= i < j < |t|
      ensures CompareTo(t[i].name, t[j].name) <= 0
    {
      assert t[j] == r[j - 1];
      if i > 0 { assert t[i] == r[i - 1]; }
    }
  }

  /** A pet that compares strictly before the head of a sorted list shares its name with none of it. */
  lemma {:induction false} NoneNamedBelowHead(p: Pet, s: seq<Pet>)
    requires SortedByName(s) && s != [] && CompareTo(p.name, s[0].name) < 0
    ensures WithName(s, p.name) == []
  {
    CompareToFlip(p.name, s[0].name);
    assert s[0].name != p.name;
    if |s| > 1 {
      CompareToTransitive(p.name, s[0].name, s[1].name);
      CompareToZero(p.name, s[1].name);
      assert CompareTo(p.name, s[1].name) < 0;
      NoneNamedBelowHead(p, s[1..]);
    }
  }

  /** Inserting keeps the same-named pets in order and puts `p` after them. */
  lemma {:induction false} InsertStable(p: Pet, s: seq<Pet>, n: string)
    requires SortedByName(s)
    ensures WithName(Insert(p, s), n) == WithName(s, n) + (if p.name == n then [p] else [])
  {
    if s == [] {
      assert Insert(p, s) == [p];
    } else if CompareTo(p.name, s[0].name) < 0 {
      if p.name == n { NoneNamedBelowHead(p, s); }
      InsertStableFront(p, s, n);
    } else {
      assert SortedByName(s[1..]);
      InsertStable(p, s[1..], n);
      InsertStableSkip(p, s, n);
    }
  }

  lemma InsertStableFront(p: Pet, s: seq<Pet>, n: string)
    requires s != [] && CompareTo(p.name, s[0].name) < 0
    requires p.name == n ==> WithName(s, n) == []
    ensures WithName(Insert(p, s), n) == WithName(s, n) + (if p.name == n then [p] else [])
  {
    assert ([p] + s)[1..] == s;
  }

  lemma InsertStableSkip(p: Pet, s: seq<Pet>, n: string)
    requires s != [] && CompareTo(p.name, s[0].name) >= 0
    requires WithName(Insert(p, s[1..]), n) == WithName(s[1..], n) + (if p.name == n then [p] else [])
    ensures WithName(Insert(p, s), n) == WithName(s, n) + (if p.name == n then [p] else [])
  {
    var r := Insert(p, s[1..]);
    var head := if s[0].name == n then [s[0]] else [];
    var mine := if p.name == n then [p] else [];
    assert Insert(p, s) == [s[0]] + r;
    assert ([s[0]] + r)[1..] == r;
    assert WithName([s[0]] + r, n) == head + WithName(r, n);
    assert WithName(s, n) == head + WithName(s[1..], n);
    assert head + (WithName(s[1..], n) + mine) == (head + WithName(s[1..], n)) + mine;
  }

  lemma {:induction false} WithNameAppend(a: seq<Pet>, b: seq<Pet>, n: string)
    ensures WithName(a + b, n) == WithName(a, n) + WithName(b, n)
  {
    if a != [] {
      assert (a + b)[0] == a[0] && (a + b)[1..] == a[1..] + b;
      WithNameAppend(a[1..], b, n);
    } else {
      assert a + b == b;
    }
  }

  /** The sort yields an ascending list by name. */
  lemma {:induction false} ByNameSorted(s: seq<Pet>)
    ensures SortedByName(ByName(s))
  {
    if s != [] {
      ByNameSorted(s[..|s| - 1]);
      InsertSorted(s[|s| - 1], ByName(s[..|s| - 1]));
    }
  }

  /** The sort neither adds nor drops pets. */
  lemma {:induction false} ByNamePermutes(s: seq<Pet>)
    ensures multiset(ByName(s)) == multiset(s)
  {
    if s != [] {
      var init, last := s[..|s| - 1], s[|s| - 1];
      ByNamePermutes(init);
      InsertPermutes(last, ByName(init));
      assert ByName(s) == Insert(last, ByName(init));
      assert s == init + [last];
      assert multiset(s) == multiset(init) + multiset{last};
    }
  }

  /** The sort is stable: the pets sharing any one name come out in their input order. */
  lemma {:induction false} ByNameStable(s: seq<Pet>, n: string)
    ensures WithName(ByName(s), n) == WithName(s, n)
  {
    if s != [] {
      var init, last := s[..|s| - 1], s[|s| - 1];
      var tail := if last.name == n then [last] else [];
      ByNameStable(init, n);
      ByNameSorted(init);
      InsertStable(last, ByName(init), n);
      assert WithName(ByName(s), n) == WithName(init, n) + tail;
      assert init + [last] == s;
      WithNameAppend(init, [last], n);
      assert WithName([last], n) == tail;
    }
  }

  /** Scanning past a pet whose name does not compare greater. */
  lemma InsertPast(p: Pet, s: seq<Pet>, j: nat)
    requires j < |s| && CompareTo(p.name, s[j].name) >= 0
    ensures s[..j] + Insert(p, s[j..]) == s[..j + 1] + Insert(p, s[j + 1..])
  {
    assert s[j..][0] == s[j] && s[j..][1..] == s[j + 1..];
    assert s[..j] + [s[j]] == s[..j + 1];
  }

  /** Inserting in front of the first pet whose name compares greater, or at the end. */
  lemma InsertHere(p: Pet, s: seq<Pet>, j: nat)
    requires j <= |s| && (j == |s| || CompareTo(p.name, s[j].name) < 0)
    ensures s[..j] + Insert(p, s[j..]) == s[..j] + [p] + s[j..]
  {
  }

  lemma ByNameStep(s: seq<Pet>, i: nat)
    requires i < |s|
    ensures ByName(s[..i + 1]) == Insert(s[i], ByName(s[..i]))
  {
    assert s[..i + 1][..i] == s[..i] && s[..i + 1][i] == s[i];
  }

  /** Where `pet` goes in a by-name list: in front of the first pet whose name compares greater. */
  method InsertionPoint(pet: Pet, sorted: seq<Pet>) returns (j: nat)
    ensures j <= |sorted|
    ensures Insert(pet, sorted) == sorted[..j] + [pet] + sorted[j..]
  {
    j := 0;
    while j < |sorted| && CompareTo(pet.name, sorted[j].name) >= 0
      invariant 0 <= j <= |sorted|
      invariant Insert(pet, sorted) == sorted[..j] + Insert(pet, sorted[j..])
    {
      InsertPast(pet, sorted, j);
      j := j + 1;
    }
    InsertHere(pet, sorted, j);
  }

  /** Insertion sort of the filtered list by name. */
  method SortByName(pets: seq<Pet>) returns (sorted: seq<Pet>)
    ensures sorted == ByName(pets)
  {
    sorted := [];
    var i := 0;
    while i < |pets|
      invariant 0 <= i <= |pets|
      invariant sorted == ByName(pets[..i])
    {
      var j := InsertionPoint(pets[i], sorted);
      ByNameStep(pets, i);
      sorted := sorted[..j] + [pets[i]] + sorted[j..];
      i := i + 1;
    }
    assert pets[..i] == pets;
  }

  /*
   * The one result all three strategies are meant to return.
   */

  /** The in-memory strategy: filter the owner's pets, then sort the survivors by name. */
  function Selected(ps: seq<Pet>, kind: string, maxAge: int32): seq<Pet>
    reads (set x | x in ps)
  {
    ByName(Filtered(ps, kind, maxAge))
  }

  /**
   * What the result means: ascending by name, exactly the matching pets of
   * the list (as a multiset), and among equal names the list's own order.
   */
  lemma SelectedMeaning(ps: seq<Pet>, kind: string, maxAge: int32, n: string)
    ensures SortedByName(Selected(ps, kind, maxAge))
    ensures multiset(Selected(ps, kind, maxAge)) == multiset(Filtered(ps, kind, maxAge))
    ensures forall p :: p in Selected(ps, kind, maxAge) <==> p in ps && Matches(p, kind, maxAge)
    ensures WithName(Selected(ps, kind, maxAge), n) == WithName(Filtered(ps, kind, maxAge), n)
  {
    var f := Filtered(ps, kind, maxAge);
    ByNameSorted(f);
    ByNamePermutes(f);
    ByNameStable(f, n);
    FilteredSound(ps, kind, maxAge);
    FilteredComplete(ps, kind, maxAge);
    forall p ensures p in ByName(f) <==> p in f {
      assert p in ByName(f) <==> p in multiset(ByName(f));
    }
  }

  /** Lines 57-65 of the in-memory test: filter the owner's pets, then sort by name. */
  method FilterAndSortInJava(owner: Owner) returns (pets: seq<Pet>)
    ensures pets == Selected(owner.pets, Dog, AgeLimit)
  {
    pets := FilterPets(owner.pets, Dog, AgeLimit);
    pets := SortByName(pets);
  }

  /** `p.owner.id = :ownerId`, the join condition of both queries. */
  predicate HasOwnerId(p: Pet, ownerId: int64)
    reads p, p.owner
  {
    p.owner != null && p.owner.id == Some(ownerId)
  }

  /** The rows of the pet table whose owner has the given id, in table order. */
  function OwnedBy(table: seq<Pet>, ownerId: int64): seq<Pet>
    reads (set x | x in table), (set p | p in table :: p.owner)
  {
    if table == [] then []
    else
      var last := table[|table| - 1];
      OwnedBy(table[..|table| - 1], ownerId) + (if HasOwnerId(last, ownerId) then [last] else [])
  }

  /** `WHERE p.type = :type AND p.age < :age AND p.owner.id = :ownerId`, in table order. */
  function Rows(table: seq<Pet>, ownerId: int64, kind: string, maxAge: int32): (r: seq<Pet>)
    reads (set x | x in table), (set p | p in table :: p.owner)
    ensures forall p :: p in r ==> p in table && p.kind == kind && p.age < maxAge && HasOwnerId(p, ownerId)
  {
    if table == [] then []
    else
      var last := table[|table| - 1];
      Rows(table[..|table| - 1], ownerId, kind, maxAge)
        + (if last.kind == kind && last.age < maxAge && HasOwnerId(last, ownerId) then [last] else [])
  }

  /**
   * The JPQL query, the Criteria query and the join-fetch query: the
   * matching rows `ORDER BY p.name ASC`, ties in table order.
   */
  function QueryResult(table: seq<Pet>, ownerId: int64, kind: string, maxAge: int32): (r: seq<Pet>)
    reads (set x | x in table), (set p | p in table :: p.owner)
    ensures SortedByName(r)
    ensures multiset(r) == multiset(Rows(table, ownerId, kind, maxAge))
    ensures forall p :: p in r ==> p in table && p.kind == kind && p.age < maxAge && HasOwnerId(p, ownerId)
    ensures forall p :: p in table && p.kind == kind && p.age < maxAge && HasOwnerId(p, ownerId) ==> p in r
  {
    var rows := Rows(table, ownerId, kind, maxAge);
    ByNameSorted(rows);
    ByNamePermutes(rows);
    ByNameKeepsAll(rows);
    RowsComplete(table, ownerId, kind, maxAge);
    ByName(rows)
  }

  /** Sorting drops no pet. */
  lemma ByNameKeepsAll(s: seq<Pet>)
    ensures forall p :: p in s ==> p in ByName(s)
  {
    ByNamePermutes(s);
    forall p | p in s
      ensures p in ByName(s)
    {
      assert multiset(s)[p] > 0;
    }
  }

  /** Every row of the table that satisfies the WHERE clause is returned. */
  lemma {:induction false} RowsComplete(table: seq<Pet>, ownerId: int64, kind: string, maxAge: int32)
    ensures forall p :: p in table && p.kind == kind && p.age < maxAge && HasOwnerId(p, ownerId) ==>
                          p in Rows(table, ownerId, kind, maxAge)
  {
    if table != [] {
      RowsComplete(table[..|table| - 1], ownerId, kind, maxAge);
      assert forall p :: p in table ==> p in table[..|table| - 1] || p == table[|table| - 1];
    }
  }

  /** Filtering the whole table at once is filtering the owner's rows by type and age. */
  lemma {:induction false} RowsAreFilteredOwned(table: seq<Pet>, ownerId: int64, kind: string, maxAge: int32)
    ensures Rows(table, ownerId, kind, maxAge) == Filtered(OwnedBy(table, ownerId), kind, maxAge)
  {
    if table != [] {
      var init, last := table[..|table| - 1], table[|table| - 1];
      RowsAreFilteredOwned(init, ownerId, kind, maxAge);
      var o := OwnedBy(init, ownerId);
      if HasOwnerId(last, ownerId) {
        assert (o + [last])[..|o|] == o;
      } else {
        assert o + [] == o;
      }
    }
  }

  /** When every pet of a list points back at an owner with id `ownerId`, the join keeps them all. */
  lemma {:induction false} AllOwnedBy(ps: seq<Pet>, owner: Owner, ownerId: int64)
    requires owner.id == Some(ownerId)
    requires forall p :: p in ps ==> p.owner == owner
    ensures OwnedBy(ps, ownerId) == ps
  {
    if ps != [] {
      var init, last := ps[..|ps| - 1], ps[|ps| - 1];
      assert forall p :: p in init ==> p in ps;
      AllOwnedBy(init, owner, ownerId);
      assert HasOwnerId(last, ownerId);
      assert OwnedBy(ps, ownerId) == init + [last];
      assert init + [last] == ps;
    }
  }

  /**
   * The in-memory strategy and the queries agree whenever the owner's rows
   * in the table are exactly its pet list, in list order.
   */
  lemma InMemoryAgreesWithQuery(owner: Owner, table: seq<Pet>, ownerId: int64, kind: string, maxAge: int32)
    requires OwnedBy(table, ownerId) == owner.pets
    ensures Selected(owner.pets, kind, maxAge) == QueryResult(table, ownerId, kind, maxAge)
  {
    RowsAreFilteredOwned(table, ownerId, kind, maxAge);
  }

  /**
   * For a consistent owner (every pet points back at it) whose id is
   * `ownerId`, querying a table that holds its pets gives the in-memory result.
   */
  lemma ConsistentOwnerQueryAgrees(owner: Owner, ownerId: int64, kind: string, maxAge: int32)
    requires owner.Consistent() && owner.id == Some(ownerId)
    ensures Selected(owner.pets, kind, maxAge) == QueryResult(owner.pets, ownerId, kind, maxAge)
  {
    AllOwnedBy(owner.pets, owner, ownerId);
    InMemoryAgreesWithQuery(owner, owner.pets, ownerId, kind, maxAge);
  }

  /*
   * The data of the tests: owner "John Doe" with Buddy (dog, 3),
   * Charlie (dog, 4) and Max (cat, 2).
   */

  function Names(ps: seq<Pet>): seq<string>
    reads (set x | x in ps)
  {
    if ps == [] then [] else Names(ps[..|ps| - 1]) + [ps[|ps| - 1].name]
  }

  /** The pets of the tests, in the order they were added. */
  predicate IsJohnDoesPets(buddy: Pet, charlie: Pet, max: Pet)
    reads buddy, charlie, max
  {
    && buddy.name == "Buddy" && buddy.kind == "dog" && buddy.age == 3
    && charlie.name == "Charlie" && charlie.kind == "dog" && charlie.age == 4
    && max.name == "Max" && max.kind == "cat" && max.age == 2
  }

  /** Dogs under 5: Buddy and Charlie, in that order. */
  lemma DogsUnderFive(buddy: Pet, charlie: Pet, max: Pet)
    requires IsJohnDoesPets(buddy, charlie, max)
    ensures Names(Selected([buddy, charlie, max], Dog, AgeLimit)) == ["Buddy", "Charlie"]
  {
    var pets := [buddy, charlie, max];
    assert pets[..2] == [buddy, charlie] && pets[..1] == [buddy];
    assert Filtered(pets[..1], Dog, AgeLimit) == [buddy];
    assert Filtered(pets[..2], Dog, AgeLimit) == [buddy, charlie];
    assert Filtered(pets, Dog, AgeLimit) == [buddy, charlie];
    assert CompareTo("Charlie", "Buddy") > 0;
    assert [buddy, charlie][..1] == [buddy];
    assert ByName([buddy]) == [buddy];
    assert Insert(charlie, [buddy]) == [buddy, charlie];
    assert Names([buddy]) == ["Buddy"];
  }

  /** Cats under 5: Max alone. */
  lemma CatsUnderFive(buddy: Pet, charlie: Pet, max: Pet)
    requires IsJohnDoesPets(buddy, charlie, max)
    ensures Names(Selected([buddy, charlie, max], "cat", 5)) == ["Max"]
  {
    var pets := [buddy, charlie, max];
    assert pets[..2] == [buddy, charlie] && pets[..1] == [buddy];
    assert Filtered(pets[..1], "cat", 5) == [];
    assert Filtered(pets[..2], "cat", 5) == [];
    assert Filtered(pets, "cat", 5) == [max];
    assert ByName([max]) == [max] && [max][..0] == [];
  }

  /** Dogs under 3: none, since Buddy's age 3 is not below 3. */
  lemma DogsUnderThree(buddy: Pet, charlie: Pet, max: Pet)
    requires IsJohnDoesPets(buddy, charlie, max)
    ensures Selected([buddy, charlie, max], "dog", 3) == []
  {
    var pets := [buddy, charlie, max];
    assert pets[..2] == [buddy, charlie] && pets[..1] == [buddy];
    assert Filtered(pets[..1], "dog", 3) == [];
    assert Filtered(pets[..2], "dog", 3) == [];
  }

  /** Lines 34-42 of each test, with the id the storage layer generates on insert. */
  method JohnDoe() returns (owner: Owner, buddy: Pet, charlie: Pet, max: Pet)
    ensures fresh(owner) && owner.name == "John Doe" && owner.id == Some(1)
    ensures owner.pets == [buddy, charlie, max] && owner.Consistent()
    ensures IsJohnDoesPets(buddy, charlie, max)
  {
    owner := new Owner("John Doe");
    buddy := new Pet("Buddy", "dog", 3);
    charlie := new Pet("Charlie", "dog", 4);
    max := new Pet("Max", "cat", 2);
    owner.AddPet(buddy);
    owner.AddPet(charlie);
    owner.AddPet(max);
    owner.SetId(Some(1));
  }

  /** The in-memory test keeps Buddy and Charlie, in that order. */
  method FilterAndSortScenario() returns (names: seq<string>)
    ensures names == ["Buddy", "Charlie"]
  {
    var owner, buddy, charlie, max := JohnDoe();
    var found := FilterAndSortInJava(owner);
    DogsUnderFive(buddy, charlie, max);
    names := Names(found);
  }

  /**
   * The JPQL, Criteria and join-fetch queries on the same data: dogs under 5
   * as the tests ask, and cats under 5 and dogs under 3 besides.
   */
  method QueryScenario() returns (dogs: seq<string>, cats: seq<string>, puppies: seq<Pet>)
    ensures dogs == ["Buddy", "Charlie"]
    ensures cats == ["Max"] && puppies == []
  {
    var owner, buddy, charlie, max := JohnDoe();
    ConsistentOwnerQueryAgrees(owner, 1, Dog, AgeLimit);
    DogsUnderFive(buddy, charlie, max);
    dogs := Names(QueryResult(owner.pets, 1, Dog, AgeLimit));
    ConsistentOwnerQueryAgrees(owner, 1, "cat", 5);
    ConsistentOwnerQueryAgrees(owner, 1, "dog", 3);
    CatsUnderFive(buddy, charlie, max);
    DogsUnderThree(buddy, charlie, max);
    cats := Names(QueryResult(owner.pets, 1, "cat", 5));
    puppies := QueryResult(owner.pets, 1, "dog", 3);
  }

  /**
   * `addPet` sets the back-reference and appends, but never removes the pet
   * from a previous owner's list: handing a pet to a second owner leaves the
   * first owner listing a pet that no longer points back at it.
   */
  method SecondOwnerScenario() returns (first: Owner, second: Owner, pet: Pet)
    ensures pet in first.pets && pet in second.pets
    ensures pet.owner == second && second.Consistent()
    ensures !first.Consistent()
  {
    first := new Owner("John Doe");
    second := new Owner("Jane Roe");
    pet := new Pet("Buddy", "dog", 3);
    first.AddPet(pet);
    second.AddPet(pet);
    assert first.pets == [pet];
  }
}
