/**
 * The two persistent entities, `Pet` and `Owner`. They refer to each other
 * (a pet's owner, an owner's pets), so both live in one module. Each Java
 * setter becomes a method whose frame names the one field it assigns; each
 * getter is a read of the field.
 */
module Entities {
  import opened Wrappers
  import opened Text

  class Pet {
    var id: Option<int64>      // null until the storage layer assigns one
    var name: string
    var kind: string           // the Java field `type`
    var age: int32
    var owner: Owner?

    /** `new Pet(name, type, age)`: the id and the owner stay unset. */
    constructor (name: string, kind: string, age: int32)
      ensures this.name == name && this.kind == kind && this.age == age
      ensures id == None && owner == null
    {
      this.name := name;
      this.kind := kind;
      this.age := age;
      id := None;
      owner := null;
    }

    method SetId(id: Option<int64>)
      modifies this`id
      ensures this.id == id
    {
      this.id := id;
    }

    method SetName(name: string)
      modifies this`name
      ensures this.name == name
    {
      this.name := name;
    }

    method SetKind(kind: string)
      modifies this`kind
      ensures this.kind == kind
    {
      this.kind := kind;
    }

    method SetAge(age: int32)
      modifies this`age
      ensures this.age == age
    {
      this.age := age;
    }

    method SetOwner(owner: Owner?)
      modifies this`owner
      ensures this.owner == owner
    {
      this.owner := owner;
    }

    /**
     * `toString()`: the id reads "null" while unassigned; name and type are
     * quoted but not escaped. PetTextReadBack and PetTextAmbiguous below say
     * what can be read back from it.
     */
    function ToString(): string
      reads this
    {
      "Pet{id=" + LongText(id) + ", name='" + name + "', type='" + kind
        + "', age=" + IntText(age as int) + "}"
    }
  }

  class Owner {
    var id: Option<int64>      // null until the storage layer assigns one
    var name: string
    var pets: seq<Pet>

    /** `new Owner(name)`: no id yet and an empty pet list. */
    constructor (name: string)
      ensures this.name == name && pets == [] && id == None
    {
      this.name := name;
      pets := [];
      id := None;
    }

    method SetId(id: Option<int64>)
      modifies this`id
      ensures this.id == id
    {
      this.id := id;
    }

    method SetName(name: string)
      modifies this`name
      ensures this.name == name
    {
      this.name := name;
    }

    /** The bidirectional link: every pet in the list points back at this owner. */
    predicate Consistent()
      reads this, pets
      ensures pets == [] ==> Consistent()
      ensures Consistent() ==> forall i :: 0 <= i < |pets| ==> pets[i].owner != null
    {
      forall p :: p in pets ==> p.owner == this
    }

    /**
     * `addPet(pet)`: sets the pet's back-reference, then appends the pet to
     * the list. Only `pet.owner` and `pets` change; pets already linked to
     * this owner stay linked, so the bidirectional invariant is preserved.
     */
    method AddPet(pet: Pet)
      modifies pet`owner, this`pets
      ensures pet.owner == this
      ensures pets == old(pets) + [pet]
      ensures forall p :: p in old(pets) && old(p.owner) == this ==> p.owner == this
      ensures old(Consistent()) ==> Consistent()
    {
      pet.SetOwner(this);
      pets := pets + [pet];
    }

    /** `toString()`: the pets are not part of the text (see OwnerTextReadBack). */
    function ToString(): string
      reads this
    {
      "Owner{id=" + LongText(id) + ", name='" + name + "'}"
    }
  }

  /**
   * A pet's text gives back its id and its age: the id is everything between
   * "Pet{id=" and the first comma (an id's text has no comma), the age
   * everything after the last '=' before the closing brace (a number's text
   * has no '=').
   */
  lemma PetTextReadBack(p: Pet)
    ensures |p.ToString()| >= 8 && p.ToString()[..7] == "Pet{id="
    ensures p.ToString()[|p.ToString()| - 1] == '}'
    ensures UpTo(p.ToString()[7..], ',') == LongText(p.id)
    ensures p.id.None? <==> UpTo(p.ToString()[7..], ',') == "null"
    ensures p.id.Some? ==> ParseInt(UpTo(p.ToString()[7..], ',')) == Some(p.id.value as int)
    ensures ParseInt(AfterLast(p.ToString()[..|p.ToString()| - 1], '=')) == Some(p.age as int)
  {
    PetTextId(p);
    PetTextAge(p);
    IntTextRoundTrip(p.age as int);
  }

  lemma PetTextId(p: Pet)
    ensures |p.ToString()| >= 8 && p.ToString()[..7] == "Pet{id="
    ensures UpTo(p.ToString()[7..], ',') == LongText(p.id)
  {
    var s, idText := p.ToString(), LongText(p.id);
    var rest := " name='" + p.name + "', type='" + p.kind + "', age=" + IntText(p.age as int) + "}";
    assert s == "Pet{id=" + (idText + [','] + rest);
    UpToSeparator(idText, ',', rest);
  }

  lemma PetTextAge(p: Pet)
    ensures |p.ToString()| >= 1 && p.ToString()[|p.ToString()| - 1] == '}'
    ensures AfterLast(p.ToString()[..|p.ToString()| - 1], '=') == IntText(p.age as int)
  {
    var s, ageText := p.ToString(), IntText(p.age as int);
    var front := "Pet{id=" + LongText(p.id) + ", name='" + p.name + "', type='" + p.kind + "', age";
    assert s == (front + ['='] + ageText) + "}";
    assert '=' !in ageText;
    AfterLastSeparator(front, '=', ageText);
  }

  /**
   * Name and type are quoted without escaping, so the text does not determine
   * them: a name holding the separator `', type='` prints like a different
   * split of the same characters.
   */
  lemma PetTextAmbiguous(p: Pet, q: Pet)
    requires p.id == q.id && p.age == q.age
    requires p.name == "a', type='b" && p.kind == "c"
    requires q.name == "a" && q.kind == "b', type='c"
    ensures p.name != q.name && p.kind != q.kind
    ensures p.ToString() == q.ToString()
  {
    assert p.name + "', type='" + p.kind == q.name + "', type='" + q.kind;
  }

  /**
   * An owner's text gives back its id (between "Owner{id=" and the first
   * comma) and its name (between ", name='" and the closing "'}"), so two
   * owners with the same text have the same id and name.
   */
  lemma OwnerTextReadBack(o: Owner)
    ensures |o.ToString()| == 19 + |LongText(o.id)| + |o.name|
    ensures o.ToString()[..9] == "Owner{id=" && o.ToString()[|o.ToString()| - 2..] == "'}"
    ensures UpTo(o.ToString()[9..], ',') == LongText(o.id)
    ensures o.id.None? <==> UpTo(o.ToString()[9..], ',') == "null"
    ensures o.id.Some? ==> ParseInt(UpTo(o.ToString()[9..], ',')) == Some(o.id.value as int)
    ensures o.ToString()[17 + |LongText(o.id)|..|o.ToString()| - 2] == o.name
  {
    var s := o.ToString();
    var idText := LongText(o.id);
    var rest := " name='" + o.name + "'}";
    assert s == "Owner{id=" + idText + ", name='" + o.name + "'}";
    assert s[9..] == idText + [','] + rest;
    UpToSeparator(idText, ',', rest);
    assert s[17 + |idText|..|s| - 2] == o.name;
  }

  /** Equal texts mean equal ids and names. */
  lemma OwnerTextDetermines(o1: Owner, o2: Owner)
    requires o1.ToString() == o2.ToString()
    ensures o1.id == o2.id && o1.name == o2.name
  {
    OwnerTextReadBack(o1);
    OwnerTextReadBack(o2);
    if o1.id.Some? != o2.id.Some? {
      assert LongText(o1.id) == LongText(o2.id);
    }
  }
}
