# Owners, pets and the pet search — a Dafny model

This project models a small object-relational persistence example. The example
has two entities, an `Owner` and its `Pet`s, linked in both directions. It then
looks up an owner's pets of one type below an age limit, ordered by name, in
three ways:

- filtering and sorting in application code;
- a JPQL query string;
- a Criteria query, plus a JPQL variant that join-fetches the owner.

The model has four modules, each in its own file:

- `Wrappers` (wrappers.dfy): `Option`, which stands for Java's nullable `Long` ids.
- `Text` (text.dfy): what the entities and the sort need from `java.lang.String`.
  This is `String.compareTo`, the natural order behind
  `Comparator.comparing(Pet::getName)`. It also covers the decimal text that
  `"" + n` gives for an `int` or a `Long`, and proves that this text reads back
  as the same number. Java's `int` and `long` are the newtypes `int32` and `int64`.
- `Entities` (entities.dfy): the classes `Pet` and `Owner`. They refer to each
  other, so they share a module. Each setter is a method whose `modifies`
  frame names only the field it assigns, so every other field is provably
  unchanged. `Owner.AddPet` writes `pet.owner` on another object and appends
  to the owner's `pets` list. The bidirectional invariant is
  `Owner.Consistent()`: every pet in `pets` points back at the owner.
- `PetSearch` (pet_search.dfy): the test code of PetTest.java.
  - `FilterPets` is the filtering loop. It is proved equal to the
    specification `Filtered`.
  - `SortByName` is a stable insertion sort. It is proved equal to the
    specification `ByName`, and lemmas show that `ByName` is ascending by
    name, a permutation and stable.
  - `Selected` is the in-memory result: filter, then sort.
  - `QueryResult` is the one specification for the JPQL, Criteria and
    join-fetch queries. It uses the same predicate plus the join condition
    `p.owner.id = :ownerId` over a table of pets, ordered by name.
  - Lemmas prove that, for an existing owner, the in-memory strategy and the
    queries return the same list. One condition is enough: the owner's rows
    in the table are its pet list. A consistent owner whose id is the one
    queried meets it.
  - Scenario methods and lemmas replay the tests' data: owner "John Doe"
    with Buddy/dog/3, Charlie/dog/4 and Max/cat/2.

The Java field `type` is called `kind` in the model, because `type` is a
Dafny keyword.

## Model

| member | source | states |
|---|---|---|
| `Entities.Pet.constructor` | src/main/java/fr/adriencaubel/Pet.java:24-28 | `new Pet(name, type, age)` stores exactly the given name, type and age; the id stays unassigned (None) and the owner stays null |
| `Entities.Pet.SetId` | src/main/java/fr/adriencaubel/Pet.java:35-37 | after `setId(i)` the id is `i`; the frame `this`id` leaves every other field unchanged |
| `Entities.Pet.SetName` | src/main/java/fr/adriencaubel/Pet.java:43-45 | after `setName(n)` the name is `n`; only `name` may change |
| `Entities.Pet.SetKind` | src/main/java/fr/adriencaubel/Pet.java:51-53 | after `setType(t)` the type is `t`; only `type` may change |
| `Entities.Pet.SetAge` | src/main/java/fr/adriencaubel/Pet.java:59-61 | after `setAge(a)` the age is `a`; only `age` may change |
| `Entities.Pet.SetOwner` | src/main/java/fr/adriencaubel/Pet.java:67-69 | after `setOwner(o)` the owner is `o`; name, type, age and id are unchanged (frame `this`owner`) |
| `Entities.PetTextReadBack` | src/main/java/fr/adriencaubel/Pet.java:71-74 | `toString()` starts with `Pet{id=` and ends with `}`; the text up to the first comma after the prefix is the id's text, "null" exactly when the id is unassigned and otherwise parsing back to the id; the text after the last `=` parses back to the age |
| `Entities.PetTextAmbiguous` | src/main/java/fr/adriencaubel/Pet.java:71-74 | name and type are quoted without escaping, so two pets with different names and types (a name holding `', type='`) print the same text |
| `Entities.Owner.constructor` | src/main/java/fr/adriencaubel/Owner.java:24-26 | `new Owner(name)` has the given name, an empty pet list (the field initialiser at line 19) and no id |
| `Entities.Owner.SetId` | src/main/java/fr/adriencaubel/Owner.java:33-35 | after `setId(i)` the id is `i`; name and pets unchanged |
| `Entities.Owner.SetName` | src/main/java/fr/adriencaubel/Owner.java:41-43 | after `setName(n)` the name is `n`; `pets` and `id` unchanged |
| `Entities.Owner.AddPet` | src/main/java/fr/adriencaubel/Owner.java:49-52 | the new list is the old list with `pet` appended; `pet.owner` is this owner; every pet already linked to this owner stays linked, so `Consistent()` is preserved; nothing but `pet.owner` and `pets` changes (owner's id and name, the pet's other fields, all other pets) |
| `Entities.Owner.Consistent` | src/main/java/fr/adriencaubel/Owner.java:49-52 | the bidirectional link that `addPet` maintains: an owner with no pets is consistent, and in a consistent owner no listed pet has a null owner |
| `Entities.OwnerTextReadBack` | src/main/java/fr/adriencaubel/Owner.java:54-57 | `toString()` is `Owner{id=` + the id's text + `, name='` + the name + `'}`, read back field by field: the id's text up to the first comma ("null" exactly when unassigned, otherwise parsing back to the id), the name between `name='` and the closing `'}`; the pets are not part of it |
| `Entities.OwnerTextDetermines` | src/main/java/fr/adriencaubel/Owner.java:54-57 | two owners with the same text have the same id and the same name |
| `Text.CompareToFlip` | src/test/java/PetTest.java:65 | `String.compareTo` used by the name comparator: swapping the operands negates the result |
| `Text.CompareToZero` | src/test/java/PetTest.java:65 | two names compare as 0 exactly when they are equal |
| `Text.CompareToTransitive` | src/test/java/PetTest.java:65 | "compares at most" is transitive, so ordering by name is a total preorder |
| `Text.NatText` | src/main/java/fr/adriencaubel/Pet.java:73 | the decimal text of a number is non-empty, all digits, and has no leading zero except "0" |
| `Text.NatTextValue` | src/main/java/fr/adriencaubel/Pet.java:73 | the digits of a natural number read back as that number |
| `Text.IntTextRoundTrip` | src/main/java/fr/adriencaubel/Pet.java:73 | `"" + age` loses nothing: the text of any integer, negative ones included, parses back to it |
| `Text.LongText` | src/main/java/fr/adriencaubel/Owner.java:56 | `"" + id` for a `Long` is "null" exactly when the id is unassigned; an assigned id's text parses back to the id |
| `PetSearch.Matches` | src/test/java/PetTest.java:59 | a pet of another type, or one whose age is at or above the limit, never matches: the bound is strict |
| `PetSearch.FilterPets` | src/test/java/PetTest.java:57-62 | the loop's result is `Filtered(source)`: the matching pets in source order |
| `PetSearch.FilteredSound` | src/test/java/PetTest.java:57-62 | the filtered list is never longer than the pet list; each element comes from the list and has type `kind` and age `< maxAge` |
| `PetSearch.FilteredComplete` | src/test/java/PetTest.java:58-60 | no pet of the list that has the type and is younger than the limit is dropped |
| `PetSearch.FilteredCounts` | src/test/java/PetTest.java:57-62 | each pet is kept exactly as many times as it occurs in the list when it matches, and never otherwise (a pet added twice is kept twice) |
| `PetSearch.FilteredKeepsOrder` | src/test/java/PetTest.java:57-62 | the filtered list is a subsequence of the pet list: original order is kept |
| `PetSearch.AgeBoundIsStrict` | src/test/java/PetTest.java:59 | a pet of the right type whose age equals the limit is excluded; one a year younger is kept |
| `PetSearch.InsertPermutes` | src/test/java/PetTest.java:65 | inserting a pet into a by-name list adds exactly that pet |
| `PetSearch.InsertSorted` | src/test/java/PetTest.java:65 | inserting into a list ascending by name keeps it ascending |
| `PetSearch.InsertStable` | src/test/java/PetTest.java:65 | inserting keeps the same-named pets in order and puts the new pet after them |
| `PetSearch.ByNameSorted` | src/test/java/PetTest.java:65 | after the sort the list is ascending by name (every pair, by `compareTo <= 0`) |
| `PetSearch.ByNamePermutes` | src/test/java/PetTest.java:65 | the sort is a permutation: it neither adds nor drops pets |
| `PetSearch.ByNameStable` | src/test/java/PetTest.java:65 | the sort is stable: for every name, the pets carrying it appear in input order |
| `PetSearch.InsertionPoint` | src/test/java/PetTest.java:65 | finds the position in front of the first pet whose name compares greater, where inserting gives `Insert`'s result |
| `PetSearch.SortByName` | src/test/java/PetTest.java:65 | the in-place sort's result equals `ByName(pets)`: sorted, a permutation, stable by the lemmas above |
| `PetSearch.SelectedMeaning` | src/test/java/PetTest.java:57-65 | the final list is ascending by name, holds exactly the owner's pets with the type and age below the limit (membership in both directions, and the multiset of the filtered list), with equal names in list order |
| `PetSearch.FilterAndSortInJava` | src/test/java/PetTest.java:57-65 | the test's filter ("dog", age < 5) followed by the sort yields `Selected(owner.pets, "dog", 5)` |
| `PetSearch.Rows` | src/test/java/PetTest.java:102 | every row returned by `WHERE p.type = :type AND p.age < :age AND p.owner.id = :ownerId` is a row of the table that satisfies all three conditions |
| `PetSearch.RowsComplete` | src/test/java/PetTest.java:151-156 | every row of the table satisfying the three conditions is returned |
| `PetSearch.QueryResult` | src/test/java/PetTest.java:151-157 | the query's result is ascending by name, holds the matching rows exactly as often as the WHERE clause yields them, and a pet is in it exactly when it is in the table, has the type, is below the age limit and its owner has the id |
| `PetSearch.RowsAreFilteredOwned` | src/test/java/PetTest.java:102 | the query's WHERE clause over the whole table equals filtering the rows whose `owner.id` matches by type and age |
| `PetSearch.AllOwnedBy` | src/main/java/fr/adriencaubel/Owner.java:49-52 | when every pet of a list points back at an owner with id `ownerId`, the join `p.owner.id = :ownerId` keeps all of them, in order |
| `PetSearch.InMemoryAgreesWithQuery` | src/test/java/PetTest.java:151-157 | the in-memory strategy and the JPQL/Criteria/join-fetch query return the same list whenever the owner's rows in the table are its pet list |
| `PetSearch.ConsistentOwnerQueryAgrees` | src/test/java/PetTest.java:197 | for a consistent owner with id `ownerId`, the query over its pets returns the in-memory result |
| `PetSearch.DogsUnderFive` | src/test/java/PetTest.java:34-42 | for Buddy/dog/3, Charlie/dog/4, Max/cat/2, dogs under 5 are named Buddy, Charlie, in that order |
| `PetSearch.CatsUnderFive` | src/test/java/PetTest.java:34-42 | the same pets give only Max for cats under 5 |
| `PetSearch.DogsUnderThree` | src/test/java/PetTest.java:34-42 | the same pets give nothing for dogs under 3: Buddy's age 3 is not below 3 |
| `PetSearch.JohnDoe` | src/test/java/PetTest.java:34-42 | building the test data with `addPet` gives a consistent owner whose pet list is Buddy, Charlie, Max in that order |
| `PetSearch.FilterAndSortScenario` | src/test/java/PetTest.java:57-65 | the in-memory test on that data yields the names ["Buddy", "Charlie"] |
| `PetSearch.QueryScenario` | src/test/java/PetTest.java:101-109 | the tests' query on that data (owner id 1, "dog", age 5) yields ["Buddy", "Charlie"]; as further examples, cats under 5 give ["Max"] and dogs under 3 give nothing |
| `PetSearch.SecondOwnerScenario` | src/main/java/fr/adriencaubel/Owner.java:49-52 | `addPet` does not detach a pet from a previous owner: after a second owner adopts it, the first owner still lists it and is no longer consistent |

## Left out

- Persistence: the entity-manager lifecycle, transactions, `persist`, `find`,
  closing and reopening the session, cascade and orphan removal, lazy loading
  and IDENTITY id generation. These are framework behaviour, not code of the
  repository. The generated id is modelled as a `SetId(Some(1))` call. The
  test assumes the id is `1L`, which depends on the database's state.
- Running the JPQL string and the Criteria API (`createQuery`,
  `getResultList`, `cb.equal`, `cb.lessThan`, `cb.asc`). These are library
  calls. Only the predicate and the ordering they state are modelled, in
  `QueryResult`.
- `QueryResult`: a SQL `ORDER BY` leaves the order of rows with equal names
  unspecified. The model breaks ties in table order. The in-memory strategy
  does the same, because `List.sort` is stable.
- `QueryResult`: the database's collation is not modelled. The model compares
  types with exact equality and orders names by `String.compareTo`, as a
  binary collation would. Under a case-insensitive collation a pet of type
  "Dog" passes the query but not `equals("dog")`, and "bella" sorts before
  "Max" in the query but after it in Java. The agreement lemmas
  (`InMemoryAgreesWithQuery`, `ConsistentOwnerQueryAgrees`) hold only under a
  binary collation.
- An unknown owner id: `em.find` then returns `null` (PetTest.java:54), and the
  in-memory test throws at `foundOwner.getPets()` (line 58), while the queries
  return an empty list. `FilterAndSortInJava` takes an existing `Owner`, so
  the model has no counterpart of that exception, and the agreement lemmas
  cover existing owners only.
- The join fetch at line 197 is modelled by the same `QueryResult`. In the
  model the owner reference is always loaded, so the fetch strategy has no
  counterpart.
- `SortByName`: Java sorts the local `ArrayList` in place with TimSort. The
  model sorts a `seq` with an insertion sort and returns the result. The list
  is a fresh local that nothing else refers to, so no aliasing is lost. Only
  the result (stable by name) is claimed to agree, not the algorithm.
- `Text.CompareTo` compares Dafny `char`s, which are Unicode scalar values.
  Java compares UTF-16 code units, and the two orders differ only between
  supplementary characters and U+E000–U+FFFF.
- Java `null` strings are not modelled: names and types are always character
  sequences. A `null` type would make the filter's `equals` call throw, and a
  `null` name would make the comparator throw. The no-argument constructors
  `Pet()` and `Owner()` exist only for the persistence framework and would
  leave these fields null, so they are left out too.
- Getters (`getId`, `getName`, `getType`, `getAge`, `getOwner`, `getPets`) are
  plain field reads in Dafny. The setter contracts state the round trip
  directly. `getPets` returns the live list in Java, and a caller could
  mutate it. The model reads the `pets` value instead, so that aliasing is not
  modelled.
- `Entities.Owner.AddPet`: the parameter is a non-null `Pet`. In Java,
  `addPet(null)` throws a `NullPointerException` at `pet.setOwner(this)`
  (Owner.java:50) before the list changes; that exception is not modelled.
- `System.out.println` output in the tests.
- The owner column is declared `@JoinColumn(name = "owner_id", nullable =
  false)` (Pet.java:18), but the constructor at Pet.java:24-28 leaves `owner`
  null, so only the database refuses a pet without an owner at flush time.
  The model follows the code: `owner` is `Owner?` and starts as `null`; the
  database constraint is not modelled.
