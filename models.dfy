/** The three tables `heroes`, `powers` and `hero_powers` as one value, the
    invariant the mapping keeps between them, every operation on them as a
    function, and the properties of those operations.

    A Hero or Power owns its `hero_powers` collection: an ordered sequence of
    join-row ids (append order). A join row holds plain foreign-key values,
    either of which may be null. `Valid` ties the two views together in both
    directions, which is what the relationship with its backref maintains. */
module Models {
  import opened Wrappers
  import opened Validators

  type Id = int

  datatype Hero = Hero(name: string, superName: string, heroPowers: seq<Id>)

  /** `description` is None while it has never been assigned (the column is
      nullable and the validator only runs on assignment). */
  datatype Power = Power(name: string, description: Option<string>, heroPowers: seq<Id>)

  /** A join row: "this hero has this power at this strength". */
  datatype HeroPower = HeroPower(strength: string, hero: Option<Id>, power: Option<Id>)

  /** The three tables, each keyed by its primary key. */
  datatype Db = Db(heroes: map<Id, Hero>, powers: map<Id, Power>, heroPowers: map<Id, HeroPower>)

  /** Why an operation on the tables is refused. */
  datatype StoreError =
    | Invalid(reason: ValidationError)  // a validator raised
    | DuplicateId                       // the primary key is already taken
    | NoSuchHero
    | NoSuchPower
    | NoSuchHeroPower
    | NotInCollection                   // removing from a collection a row it does not hold

  const Empty: Db := Db(map[], map[], map[])

  // ---------------------------------------------------------------------------
  // Sequences of join-row ids

  function Elems(s: seq<Id>): set<Id> {
    set x | x in s
  }

  ghost predicate NoDup(s: seq<Id>) {
    forall i, j :: 0 <= i < j < |s| ==> s[i] != s[j]
  }

  /** `s` without the ids in `dead`, order kept. */
  function Drop(s: seq<Id>, dead: set<Id>): (r: seq<Id>)
    ensures forall x :: x in r <==> x in s && x !in dead
    ensures NoDup(s) ==> NoDup(r)
  {
    if s == [] then []
    else if s[0] in dead then Drop(s[1..], dead)
    else [s[0]] + Drop(s[1..], dead)
  }

  lemma {:induction false} DropNothing(s: seq<Id>, dead: set<Id>)
    requires Elems(s) !! dead
    ensures Drop(s, dead) == s
  {
    if s != [] {
      DropNothing(s[1..], dead);
    }
  }

  lemma {:induction false} DropTwice(s: seq<Id>, a: set<Id>, b: set<Id>)
    ensures Drop(Drop(s, a), b) == Drop(s, a + b)
  {
    if s != [] {
      DropTwice(s[1..], a, b);
    }
  }

  lemma {:induction false} NoDupSize(s: seq<Id>)
    requires NoDup(s)
    ensures |Elems(s)| == |s|
  {
    if s != [] {
      NoDupSize(s[1..]);
      assert Elems(s) == {s[0]} + Elems(s[1..]);
      assert s[0] !in Elems(s[1..]);
    }
  }

  // ---------------------------------------------------------------------------
  // The invariant

  /** Every description ever assigned and every strength passed its
      validator. */
  ghost predicate FieldsValid(db: Db) {
    && (forall p :: p in db.powers && db.powers[p].description.Some? ==>
          IsValidDescription(db.powers[p].description.value))
    && (forall j :: j in db.heroPowers ==> IsValidStrength(db.heroPowers[j].strength))
  }

  /** A join row naming a hero is in that hero's collection, and a hero's
      collection holds exactly once each row that names it. */
  ghost predicate HeroLinks(db: Db) {
    && (forall j :: j in db.heroPowers && db.heroPowers[j].hero.Some? ==>
          db.heroPowers[j].hero.value in db.heroes &&
          j in db.heroes[db.heroPowers[j].hero.value].heroPowers)
    && (forall h :: h in db.heroes ==> NoDup(db.heroes[h].heroPowers))
    && (forall h, j :: h in db.heroes && j in db.heroes[h].heroPowers ==>
          j in db.heroPowers && db.heroPowers[j].hero == Some(h))
  }

  /** The same for powers. */
  ghost predicate PowerLinks(db: Db) {
    && (forall j :: j in db.heroPowers && db.heroPowers[j].power.Some? ==>
          db.heroPowers[j].power.value in db.powers &&
          j in db.powers[db.heroPowers[j].power.value].heroPowers)
    && (forall p :: p in db.powers ==> NoDup(db.powers[p].heroPowers))
    && (forall p, j :: p in db.powers && j in db.powers[p].heroPowers ==>
          j in db.heroPowers && db.heroPowers[j].power == Some(p))
  }

  /** The invariant. Among its consequences: no join row names a hero or a
      power that is not stored. */
  ghost predicate Valid(db: Db)
    ensures Valid(db) ==> forall j :: j in db.heroPowers ==>
              && (db.heroPowers[j].hero.Some? ==> db.heroPowers[j].hero.value in db.heroes)
              && (db.heroPowers[j].power.Some? ==> db.heroPowers[j].power.value in db.powers)
  {
    FieldsValid(db) && HeroLinks(db) && PowerLinks(db)
  }

  lemma EmptyIsValid()
    ensures Valid(Empty)
  {
  }

  /** The rows whose foreign key names hero `h`. */
  ghost function RowsOfHero(db: Db, h: Id): set<Id> {
    set j | j in db.heroPowers && db.heroPowers[j].hero == Some(h)
  }

  /** The rows whose foreign key names power `p`. */
  ghost function RowsOfPower(db: Db, p: Id): set<Id> {
    set j | j in db.heroPowers && db.heroPowers[j].power == Some(p)
  }

  lemma HeroCollectionIsRows(db: Db, h: Id)
    requires Valid(db) && h in db.heroes
    ensures Elems(db.heroes[h].heroPowers) == RowsOfHero(db, h)
  {
    forall j ensures j in Elems(db.heroes[h].heroPowers) <==> j in RowsOfHero(db, h) {
    }
  }

  lemma PowerCollectionIsRows(db: Db, p: Id)
    requires Valid(db) && p in db.powers
    ensures Elems(db.powers[p].heroPowers) == RowsOfPower(db, p)
  {
    forall j ensures j in Elems(db.powers[p].heroPowers) <==> j in RowsOfPower(db, p) {
    }
  }

  // ---------------------------------------------------------------------------
  // Inserts

  function InsertHero(db: Db, id: Id, name: string, superName: string): (r: Result<Db, StoreError>)
    ensures r.Err? <==> id in db.heroes
    ensures r.Err? ==> r.error == DuplicateId
    ensures r.Ok? ==> && r.value.heroes == db.heroes[id := Hero(name, superName, [])]
                      && r.value.powers == db.powers && r.value.heroPowers == db.heroPowers
    ensures Valid(db) && r.Ok? ==> Valid(r.value)
  {
    if id in db.heroes then Err(DuplicateId)
    else Ok(db.(heroes := db.heroes[id := Hero(name, superName, [])]))
  }

  /** A Power built with a description runs the validator while it is
      built, so a short description refuses the insert before any key is
      looked at; one built without a description is not validated. */
  function InsertPower(db: Db, id: Id, name: string, description: Option<string>): (r: Result<Db, StoreError>)
    ensures r == Err(Invalid(DescriptionTooShort)) <==> description.Some? && |description.value| < 20
    ensures r.Ok? <==> (description.Some? ==> |description.value| >= 20) && id !in db.powers
    ensures r.Ok? ==> && r.value.powers == db.powers[id := Power(name, description, [])]
                      && r.value.heroes == db.heroes && r.value.heroPowers == db.heroPowers
    ensures Valid(db) && r.Ok? ==> Valid(r.value)
  {
    if description.Some? && ValidateDescription(description.value).Err? then
      Err(Invalid(ValidateDescription(description.value).error))
    else if id in db.powers then Err(DuplicateId)
    else Ok(db.(powers := db.powers[id := Power(name, description, [])]))
  }

  /** Appends join row `j` to the collection of hero `h`, if there is one. */
  function LinkHero(heroes: map<Id, Hero>, h: Option<Id>, j: Id): map<Id, Hero> {
    if h.Some? && h.value in heroes
    then heroes[h.value := heroes[h.value].(heroPowers := heroes[h.value].heroPowers + [j])]
    else heroes
  }

  /** Appends join row `j` to the collection of power `p`, if there is one. */
  function LinkPower(powers: map<Id, Power>, p: Option<Id>, j: Id): map<Id, Power> {
    if p.Some? && p.value in powers
    then powers[p.value := powers[p.value].(heroPowers := powers[p.value].heroPowers + [j])]
    else powers
  }

  /** A new join row: the strength validator runs first, then the key and the
      two references are checked. The row is appended to the collections of
      the hero and the power it names. */
  function InsertHeroPower(db: Db, id: Id, strength: string, hero: Option<Id>, power: Option<Id>)
    : (r: Result<Db, StoreError>)
    ensures r == Err(Invalid(StrengthNotAllowed)) <==> !IsValidStrength(strength)
    ensures r.Ok? <==> && IsValidStrength(strength) && id !in db.heroPowers
                       && (hero.Some? ==> hero.value in db.heroes)
                       && (power.Some? ==> power.value in db.powers)
    ensures r.Ok? ==> && r.value.heroPowers == db.heroPowers[id := HeroPower(strength, hero, power)]
                      && r.value.heroes.Keys == db.heroes.Keys
                      && r.value.powers.Keys == db.powers.Keys
    ensures r.Ok? ==> forall h :: h in db.heroes ==>
              r.value.heroes[h] == if hero == Some(h)
                                   then db.heroes[h].(heroPowers := db.heroes[h].heroPowers + [id])
                                   else db.heroes[h]
    ensures r.Ok? ==> forall p :: p in db.powers ==>
              r.value.powers[p] == if power == Some(p)
                                   then db.powers[p].(heroPowers := db.powers[p].heroPowers + [id])
                                   else db.powers[p]
  {
    match ValidateStrength(strength)
    case Err(e) => Err(Invalid(e))
    case Ok(s) =>
      if id in db.heroPowers then Err(DuplicateId)
      else if hero.Some? && hero.value !in db.heroes then Err(NoSuchHero)
      else if power.Some? && power.value !in db.powers then Err(NoSuchPower)
      else Ok(Db(LinkHero(db.heroes, hero, id), LinkPower(db.powers, power, id),
                 db.heroPowers[id := HeroPower(s, hero, power)]))
  }

  lemma InsertHeroPowerValid(db: Db, id: Id, strength: string, hero: Option<Id>, power: Option<Id>)
    requires Valid(db)
    requires InsertHeroPower(db, id, strength, hero, power).Ok?
    ensures Valid(InsertHeroPower(db, id, strength, hero, power).value)
  {
    var d := InsertHeroPower(db, id, strength, hero, power).value;
    forall h | h in d.heroes ensures NoDup(d.heroes[h].heroPowers) {
      if hero == Some(h) {
        assert id !in db.heroes[h].heroPowers;
      }
    }
    forall p | p in d.powers ensures NoDup(d.powers[p].heroPowers) {
      if power == Some(p) {
        assert id !in db.powers[p].heroPowers;
      }
    }
  }

  // ---------------------------------------------------------------------------
  // Validated assignments

  /** `power.description = d`: refused (store unchanged) when `d` is short,
      otherwise `d` is stored verbatim and nothing else changes. */
  function SetDescription(db: Db, p: Id, d: string): (r: Result<Db, StoreError>)
    ensures r == Err(NoSuchPower) <==> p !in db.powers
    ensures p in db.powers ==> (r == Err(Invalid(DescriptionTooShort)) <==> |d| < 20)
    ensures r.Ok? ==> && p in db.powers
                      && r.value.powers == db.powers[p := db.powers[p].(description := Some(d))]
                      && r.value.powers[p].description == Some(d)
                      && r.value.heroes == db.heroes && r.value.heroPowers == db.heroPowers
    ensures Valid(db) && r.Ok? ==> Valid(r.value)
  {
    if p !in db.powers then Err(NoSuchPower)
    else match ValidateDescription(d)
      case Err(e) => Err(Invalid(e))
      case Ok(v) => Ok(db.(powers := db.powers[p := db.powers[p].(description := Some(v))]))
  }

  /** `hero_power.strength = s`: refused (store unchanged) unless `s` is one of
      the three allowed strengths, otherwise stored verbatim. */
  function SetStrength(db: Db, j: Id, s: string): (r: Result<Db, StoreError>)
    ensures r == Err(NoSuchHeroPower) <==> j !in db.heroPowers
    ensures j in db.heroPowers ==> (r == Err(Invalid(StrengthNotAllowed)) <==> !(s == "Strong" || s == "Weak" || s == "Average"))
    ensures r.Ok? ==> && j in db.heroPowers
                      && r.value.heroPowers == db.heroPowers[j := db.heroPowers[j].(strength := s)]
                      && r.value.heroPowers[j].strength == s
                      && r.value.heroes == db.heroes && r.value.powers == db.powers
    ensures Valid(db) && r.Ok? ==> Valid(r.value)
  {
    if j !in db.heroPowers then Err(NoSuchHeroPower)
    else match ValidateStrength(s)
      case Err(e) => Err(Invalid(e))
      case Ok(v) => Ok(db.(heroPowers := db.heroPowers[j := db.heroPowers[j].(strength := v)]))
  }

  // ---------------------------------------------------------------------------
  // Deletes: one row, and the cascade over a parent's collection

  function DropFromHeroes(heroes: map<Id, Hero>, dead: set<Id>): (r: map<Id, Hero>)
    ensures r.Keys == heroes.Keys
  {
    map h | h in heroes :: heroes[h].(heroPowers := Drop(heroes[h].heroPowers, dead))
  }

  function DropFromPowers(powers: map<Id, Power>, dead: set<Id>): (r: map<Id, Power>)
    ensures r.Keys == powers.Keys
  {
    map p | p in powers :: powers[p].(heroPowers := Drop(powers[p].heroPowers, dead))
  }

  /** The tables with the rows in `dead` deleted: gone from the join table and
      from every collection that held them. */
  function RemoveRows(db: Db, dead: set<Id>): Db {
    Db(DropFromHeroes(db.heroes, dead), DropFromPowers(db.powers, dead), db.heroPowers - dead)
  }

  /** Deleting any set of join rows keeps the tables consistent. */
  lemma RemoveRowsValid(db: Db, dead: set<Id>)
    requires Valid(db)
    ensures Valid(RemoveRows(db, dead))
  {
    var d := RemoveRows(db, dead);
    forall j | j in d.heroPowers && d.heroPowers[j].hero.Some?
      ensures j in d.heroes[d.heroPowers[j].hero.value].heroPowers
    {
      var h := d.heroPowers[j].hero.value;
      assert j in db.heroes[h].heroPowers;
    }
    forall j | j in d.heroPowers && d.heroPowers[j].power.Some?
      ensures j in d.powers[d.heroPowers[j].power.value].heroPowers
    {
      var p := d.heroPowers[j].power.value;
      assert j in db.powers[p].heroPowers;
    }
    forall h | h in d.heroes ensures NoDup(d.heroes[h].heroPowers) {
      assert NoDup(db.heroes[h].heroPowers);
    }
    forall p | p in d.powers ensures NoDup(d.powers[p].heroPowers) {
      assert NoDup(db.powers[p].heroPowers);
    }
  }

  /** Deleting one join row. */
  function DeleteRow(db: Db, j: Id): (r: Db)
    ensures r.heroPowers == db.heroPowers - {j}
    ensures r.heroes.Keys == db.heroes.Keys && r.powers.Keys == db.powers.Keys
  {
    RemoveRows(db, {j})
  }

  /** Deleting the rows of `js` one after another, as the cascade walks a
      parent's collection. */
  function DeleteRows(db: Db, js: seq<Id>): (r: Db)
    ensures r.heroPowers == db.heroPowers - Elems(js)
    ensures r.heroes.Keys == db.heroes.Keys && r.powers.Keys == db.powers.Keys
    decreases |js|
  {
    if js == [] then db
    else
      assert Elems(js) == {js[0]} + Elems(js[1..]);
      DeleteRows(DeleteRow(db, js[0]), js[1..])
  }

  lemma DropFromHeroesNothing(heroes: map<Id, Hero>, dead: set<Id>)
    requires forall h :: h in heroes ==> Elems(heroes[h].heroPowers) !! dead
    ensures DropFromHeroes(heroes, dead) == heroes
  {
    forall h | h in heroes ensures Drop(heroes[h].heroPowers, dead) == heroes[h].heroPowers {
      DropNothing(heroes[h].heroPowers, dead);
    }
  }

  lemma DropFromPowersNothing(powers: map<Id, Power>, dead: set<Id>)
    requires forall p :: p in powers ==> Elems(powers[p].heroPowers) !! dead
    ensures DropFromPowers(powers, dead) == powers
  {
    forall p | p in powers ensures Drop(powers[p].heroPowers, dead) == powers[p].heroPowers {
      DropNothing(powers[p].heroPowers, dead);
    }
  }

  lemma DropFromHeroesTwice(heroes: map<Id, Hero>, a: set<Id>, b: set<Id>)
    ensures DropFromHeroes(DropFromHeroes(heroes, a), b) == DropFromHeroes(heroes, a + b)
  {
    forall h | h in heroes
      ensures Drop(Drop(heroes[h].heroPowers, a), b) == Drop(heroes[h].heroPowers, a + b)
    {
      DropTwice(heroes[h].heroPowers, a, b);
    }
  }

  lemma DropFromPowersTwice(powers: map<Id, Power>, a: set<Id>, b: set<Id>)
    ensures DropFromPowers(DropFromPowers(powers, a), b) == DropFromPowers(powers, a + b)
  {
    forall p | p in powers
      ensures Drop(Drop(powers[p].heroPowers, a), b) == Drop(powers[p].heroPowers, a + b)
    {
      DropTwice(powers[p].heroPowers, a, b);
    }
  }

  /** Whatever the order of the walk, the result is deleting the set of rows
      walked. */
  lemma {:induction false} DeleteRowsIsRemoveRows(db: Db, js: seq<Id>)
    ensures DeleteRows(db, js) == RemoveRows(db, Elems(js))
    decreases |js|
  {
    if js == [] {
      assert Elems(js) == {};
      DropFromHeroesNothing(db.heroes, {});
      DropFromPowersNothing(db.powers, {});
      assert db.heroPowers - {} == db.heroPowers;
    } else {
      var first, rest := {js[0]}, Elems(js[1..]);
      assert Elems(js) == first + rest;
      DeleteRowsIsRemoveRows(DeleteRow(db, js[0]), js[1..]);
      DropFromHeroesTwice(db.heroes, first, rest);
      DropFromPowersTwice(db.powers, first, rest);
      assert db.heroPowers - first - rest == db.heroPowers - (first + rest);
    }
  }

  /** `session.delete(hero)`: the cascade deletes every row of the hero's
      collection, then the hero itself. */
  function DeleteHero(db: Db, h: Id): (r: Result<Db, StoreError>)
    ensures r.Err? <==> h !in db.heroes
    ensures r.Err? ==> r.error == NoSuchHero
  {
    if h !in db.heroes then Err(NoSuchHero)
    else
      var d := DeleteRows(db, db.heroes[h].heroPowers);
      Ok(d.(heroes := d.heroes - {h}))
  }

  /** `session.delete(power)`, symmetric to DeleteHero. */
  function DeletePower(db: Db, p: Id): (r: Result<Db, StoreError>)
    ensures r.Err? <==> p !in db.powers
    ensures r.Err? ==> r.error == NoSuchPower
  {
    if p !in db.powers then Err(NoSuchPower)
    else
      var d := DeleteRows(db, db.powers[p].heroPowers);
      Ok(d.(powers := d.powers - {p}))
  }

  /** After the walk, deleting a hero is one removal of the rows naming it. */
  lemma DeleteHeroIsRemoval(db: Db, h: Id)
    requires Valid(db) && h in db.heroes
    ensures DeleteHero(db, h) ==
              Ok(var d := RemoveRows(db, RowsOfHero(db, h)); d.(heroes := d.heroes - {h}))
  {
    HeroCollectionIsRows(db, h);
    DeleteRowsIsRemoveRows(db, db.heroes[h].heroPowers);
  }

  lemma DeletePowerIsRemoval(db: Db, p: Id)
    requires Valid(db) && p in db.powers
    ensures DeletePower(db, p) ==
              Ok(var d := RemoveRows(db, RowsOfPower(db, p)); d.(powers := d.powers - {p}))
  {
    PowerCollectionIsRows(db, p);
    DeleteRowsIsRemoveRows(db, db.powers[p].heroPowers);
  }

  /** A hero no row names can go without breaking the invariant. */
  lemma ForgetHeroValid(db: Db, h: Id)
    requires Valid(db) && RowsOfHero(db, h) == {}
    ensures Valid(db.(heroes := db.heroes - {h}))
  {
    forall j | j in db.heroPowers ensures db.heroPowers[j].hero != Some(h) {
      assert j !in RowsOfHero(db, h);
    }
  }

  /** A power no row names can go without breaking the invariant. */
  lemma ForgetPowerValid(db: Db, p: Id)
    requires Valid(db) && RowsOfPower(db, p) == {}
    ensures Valid(db.(powers := db.powers - {p}))
  {
    forall j | j in db.heroPowers ensures db.heroPowers[j].power != Some(p) {
      assert j !in RowsOfPower(db, p);
    }
  }

  /** Removing a set of rows from a table of which it is a part shrinks the
      table by its size. */
  lemma RemoveSize(rows: map<Id, HeroPower>, dead: set<Id>)
    requires dead <= rows.Keys
    ensures |rows - dead| == |rows| - |dead|
  {
    assert (rows - dead).Keys == rows.Keys - dead;
    assert rows.Keys == (rows.Keys - dead) + dead;
    assert |rows| == |rows.Keys|;
    assert |rows - dead| == |(rows - dead).Keys|;
  }

  /** The rows left after removing those naming hero `h` are those that do
      not name it. */
  lemma HeroRowsFilter(db: Db, h: Id)
    ensures db.heroPowers - RowsOfHero(db, h) ==
              (map j | j in db.heroPowers && db.heroPowers[j].hero != Some(h) :: db.heroPowers[j])
  {
  }

  lemma PowerRowsFilter(db: Db, p: Id)
    ensures db.heroPowers - RowsOfPower(db, p) ==
              (map j | j in db.heroPowers && db.heroPowers[j].power != Some(p) :: db.heroPowers[j])
  {
  }

  /** A hero's collection holds as many ids as there are rows naming it. */
  lemma HeroRowsCount(db: Db, h: Id)
    requires Valid(db) && h in db.heroes
    ensures |RowsOfHero(db, h)| == |db.heroes[h].heroPowers|
    ensures RowsOfHero(db, h) <= db.heroPowers.Keys
  {
    HeroCollectionIsRows(db, h);
    NoDupSize(db.heroes[h].heroPowers);
  }

  lemma PowerRowsCount(db: Db, p: Id)
    requires Valid(db) && p in db.powers
    ensures |RowsOfPower(db, p)| == |db.powers[p].heroPowers|
    ensures RowsOfPower(db, p) <= db.heroPowers.Keys
  {
    PowerCollectionIsRows(db, p);
    NoDupSize(db.powers[p].heroPowers);
  }

  /** Removing the rows naming `h` leaves every other hero as it was. */
  lemma OtherHeroesUntouched(db: Db, h: Id)
    requires Valid(db) && h in db.heroes
    ensures DropFromHeroes(db.heroes, RowsOfHero(db, h)) - {h} == db.heroes - {h}
  {
    var dead := RowsOfHero(db, h);
    forall h2 | h2 in db.heroes && h2 != h
      ensures Drop(db.heroes[h2].heroPowers, dead) == db.heroes[h2].heroPowers
    {
      HeroCollectionIsRows(db, h2);
      DropNothing(db.heroes[h2].heroPowers, dead);
    }
  }

  lemma OtherPowersUntouched(db: Db, p: Id)
    requires Valid(db) && p in db.powers
    ensures DropFromPowers(db.powers, RowsOfPower(db, p)) - {p} == db.powers - {p}
  {
    var dead := RowsOfPower(db, p);
    forall p2 | p2 in db.powers && p2 != p
      ensures Drop(db.powers[p2].heroPowers, dead) == db.powers[p2].heroPowers
    {
      PowerCollectionIsRows(db, p2);
      DropNothing(db.powers[p2].heroPowers, dead);
    }
  }

  lemma DeleteHeroValid(db: Db, h: Id)
    requires Valid(db) && h in db.heroes
    ensures DeleteHero(db, h).Ok? && Valid(DeleteHero(db, h).value)
  {
    DeleteHeroIsRemoval(db, h);
    var removed := RemoveRows(db, RowsOfHero(db, h));
    RemoveRowsValid(db, RowsOfHero(db, h));
    assert RowsOfHero(removed, h) == {};
    ForgetHeroValid(removed, h);
  }

  lemma DeletePowerValid(db: Db, p: Id)
    requires Valid(db) && p in db.powers
    ensures DeletePower(db, p).Ok? && Valid(DeletePower(db, p).value)
  {
    DeletePowerIsRemoval(db, p);
    var removed := RemoveRows(db, RowsOfPower(db, p));
    RemoveRowsValid(db, RowsOfPower(db, p));
    assert RowsOfPower(removed, p) == {};
    ForgetPowerValid(removed, p);
  }

  /** Deleting a hero removes exactly the join rows that name it (as many
      as its collection holds); the other heroes are untouched, every power
      keeps its columns and loses from its collection only those rows, and the
      tables stay consistent. */
  lemma DeleteHeroCascades(db: Db, h: Id)
    requires Valid(db) && h in db.heroes
    ensures DeleteHero(db, h).Ok?
    ensures var d := DeleteHero(db, h).value;
      && d.heroPowers == (map j | j in db.heroPowers && db.heroPowers[j].hero != Some(h) :: db.heroPowers[j])
      && |d.heroPowers| == |db.heroPowers| - |db.heroes[h].heroPowers|
      && d.heroes == db.heroes - {h}
      && d.powers == DropFromPowers(db.powers, RowsOfHero(db, h))
      && Valid(d)
  {
    DeleteHeroIsRemoval(db, h);
    HeroRowsFilter(db, h);
    HeroRowsCount(db, h);
    RemoveSize(db.heroPowers, RowsOfHero(db, h));
    OtherHeroesUntouched(db, h);
    DeleteHeroValid(db, h);
  }

  /** Deleting a power removes exactly the join rows that name it, and nothing
      else changes but the heroes' collections losing those rows. */
  lemma DeletePowerCascades(db: Db, p: Id)
    requires Valid(db) && p in db.powers
    ensures DeletePower(db, p).Ok?
    ensures var d := DeletePower(db, p).value;
      && d.heroPowers == (map j | j in db.heroPowers && db.heroPowers[j].power != Some(p) :: db.heroPowers[j])
      && |d.heroPowers| == |db.heroPowers| - |db.powers[p].heroPowers|
      && d.powers == db.powers - {p}
      && d.heroes == DropFromHeroes(db.heroes, RowsOfPower(db, p))
      && Valid(d)
  {
    DeletePowerIsRemoval(db, p);
    PowerRowsFilter(db, p);
    PowerRowsCount(db, p);
    RemoveSize(db.heroPowers, RowsOfPower(db, p));
    OtherPowersUntouched(db, p);
    DeletePowerValid(db, p);
  }

  /** `session.delete(hero_power)`. */
  function DeleteHeroPower(db: Db, j: Id): (r: Result<Db, StoreError>)
    ensures r.Err? <==> j !in db.heroPowers
    ensures r.Err? ==> r.error == NoSuchHeroPower
    ensures r.Ok? ==> r.value == DeleteRow(db, j)
  {
    if j !in db.heroPowers then Err(NoSuchHeroPower) else Ok(DeleteRow(db, j))
  }

  /** `hero.hero_powers.remove(hp)`: Python's list removal refuses a row the
      collection does not hold; otherwise delete-orphan deletes the row. */
  function DetachFromHero(db: Db, h: Id, j: Id): (r: Result<Db, StoreError>)
    ensures r.Err? <==> h !in db.heroes || j !in db.heroes[h].heroPowers
    ensures r.Err? ==> r.error == if h in db.heroes then NotInCollection else NoSuchHero
    ensures r.Ok? ==> r.value == DeleteRow(db, j)
  {
    if h !in db.heroes then Err(NoSuchHero)
    else if j !in db.heroes[h].heroPowers then Err(NotInCollection)
    else Ok(DeleteRow(db, j))
  }

  /** `power.hero_powers.remove(hp)`, symmetric to DetachFromHero. */
  function DetachFromPower(db: Db, p: Id, j: Id): (r: Result<Db, StoreError>)
    ensures r.Err? <==> p !in db.powers || j !in db.powers[p].heroPowers
    ensures r.Err? ==> r.error == if p in db.powers then NotInCollection else NoSuchPower
    ensures r.Ok? ==> r.value == DeleteRow(db, j)
  {
    if p !in db.powers then Err(NoSuchPower)
    else if j !in db.powers[p].heroPowers then Err(NotInCollection)
    else Ok(DeleteRow(db, j))
  }

  /** Deleting one join row (directly or as an orphan) removes that row and no
      other, leaves every hero's and power's columns alone, and keeps the
      tables consistent. */
  lemma DeleteRowRemovesOnlyIt(db: Db, j: Id)
    requires Valid(db)
    ensures var d := DeleteRow(db, j);
      && j !in d.heroPowers
      && (forall k :: k in db.heroPowers && k != j ==> k in d.heroPowers && d.heroPowers[k] == db.heroPowers[k])
      && (forall h :: h in db.heroes ==>
            && d.heroes[h].name == db.heroes[h].name
            && d.heroes[h].superName == db.heroes[h].superName
            && (forall k :: k in d.heroes[h].heroPowers <==> k in db.heroes[h].heroPowers && k != j))
      && (forall p :: p in db.powers ==>
            && d.powers[p].name == db.powers[p].name
            && d.powers[p].description == db.powers[p].description
            && (forall k :: k in d.powers[p].heroPowers <==> k in db.powers[p].heroPowers && k != j))
      && Valid(d)
  {
    RemoveRowsValid(db, {j});
  }

  /** Removing a row from its hero's collection deletes the row: it is gone
      from the join table and from its power's collection too. */
  lemma DetachFromHeroDeletesOrphan(db: Db, h: Id, j: Id)
    requires Valid(db) && h in db.heroes && j in db.heroes[h].heroPowers
    ensures DetachFromHero(db, h, j).Ok?
    ensures var d := DetachFromHero(db, h, j).value;
      && j !in d.heroPowers
      && d.heroPowers == db.heroPowers - {j}
      && j !in d.heroes[h].heroPowers
      && (db.heroPowers[j].power.Some? ==> j !in d.powers[db.heroPowers[j].power.value].heroPowers)
      && Valid(d)
  {
    DeleteRowRemovesOnlyIt(db, j);
    var d := DeleteRow(db, j);
    if db.heroPowers[j].power.Some? {
      var p := db.heroPowers[j].power.value;
      assert p in db.powers;
      assert j !in Drop(db.powers[p].heroPowers, {j});
    }
  }

  /** Removing a row from its power's collection deletes the row. */
  lemma DetachFromPowerDeletesOrphan(db: Db, p: Id, j: Id)
    requires Valid(db) && p in db.powers && j in db.powers[p].heroPowers
    ensures DetachFromPower(db, p, j).Ok?
    ensures var d := DetachFromPower(db, p, j).value;
      && j !in d.heroPowers
      && d.heroPowers == db.heroPowers - {j}
      && j !in d.powers[p].heroPowers
      && (db.heroPowers[j].hero.Some? ==> j !in d.heroes[db.heroPowers[j].hero.value].heroPowers)
      && Valid(d)
  {
    DeleteRowRemovesOnlyIt(db, j);
    var d := DeleteRow(db, j);
    if db.heroPowers[j].hero.Some? {
      var h := db.heroPowers[j].hero.value;
      assert h in db.heroes;
      assert j !in Drop(db.heroes[h].heroPowers, {j});
    }
  }

  // ---------------------------------------------------------------------------
  // The association proxies

  /** The `power` of each row of `js`, in order. */
  function PowerIds(js: seq<Id>, rows: map<Id, HeroPower>): (r: seq<Option<Id>>)
    requires forall i :: 0 <= i < |js| ==> js[i] in rows
    ensures |r| == |js|
    ensures forall i :: 0 <= i < |js| ==> r[i] == rows[js[i]].power
  {
    if js == [] then [] else [rows[js[0]].power] + PowerIds(js[1..], rows)
  }

  /** The `hero` of each row of `js`, in order. */
  function HeroIds(js: seq<Id>, rows: map<Id, HeroPower>): (r: seq<Option<Id>>)
    requires forall i :: 0 <= i < |js| ==> js[i] in rows
    ensures |r| == |js|
    ensures forall i :: 0 <= i < |js| ==> r[i] == rows[js[i]].hero
  {
    if js == [] then [] else [rows[js[0]].hero] + HeroIds(js[1..], rows)
  }

  /** Each position of a hero's collection holds a live row naming the hero. */
  lemma HeroRowsLive(db: Db, h: Id)
    requires Valid(db) && h in db.heroes
    ensures forall i :: 0 <= i < |db.heroes[h].heroPowers| ==>
              db.heroes[h].heroPowers[i] in db.heroPowers &&
              db.heroPowers[db.heroes[h].heroPowers[i]].hero == Some(h)
  {
    var js := db.heroes[h].heroPowers;
    assert HeroLinks(db);
    forall i | 0 <= i < |js| ensures js[i] in db.heroPowers && db.heroPowers[js[i]].hero == Some(h) {
      var j := js[i];
      assert j in db.heroes[h].heroPowers;
      assert j in db.heroPowers && db.heroPowers[j].hero == Some(h);
    }
  }

  /** Each position of a power's collection holds a live row naming the power. */
  lemma PowerRowsLive(db: Db, p: Id)
    requires Valid(db) && p in db.powers
    ensures forall i :: 0 <= i < |db.powers[p].heroPowers| ==>
              db.powers[p].heroPowers[i] in db.heroPowers &&
              db.heroPowers[db.powers[p].heroPowers[i]].power == Some(p)
  {
    var js := db.powers[p].heroPowers;
    assert PowerLinks(db);
    forall i | 0 <= i < |js| ensures js[i] in db.heroPowers && db.heroPowers[js[i]].power == Some(p) {
      var j := js[i];
      assert j in db.powers[p].heroPowers;
      assert j in db.heroPowers && db.heroPowers[j].power == Some(p);
    }
  }

  /** `hero.powers`: the power of each row of the hero's collection. */
  function PowersOf(db: Db, h: Id): (r: seq<Option<Id>>)
    requires Valid(db) && h in db.heroes
    ensures |r| == |db.heroes[h].heroPowers|
    ensures forall i :: 0 <= i < |r| ==>
              && db.heroes[h].heroPowers[i] in db.heroPowers
              && r[i] == db.heroPowers[db.heroes[h].heroPowers[i]].power
              && (r[i].Some? ==> r[i].value in db.powers)
  {
    HeroRowsLive(db, h);
    PowerIds(db.heroes[h].heroPowers, db.heroPowers)
  }

  /** `power.heroes`: the hero of each row of the power's collection. */
  function HeroesOf(db: Db, p: Id): (r: seq<Option<Id>>)
    requires Valid(db) && p in db.powers
    ensures |r| == |db.powers[p].heroPowers|
    ensures forall i :: 0 <= i < |r| ==>
              && db.powers[p].heroPowers[i] in db.heroPowers
              && r[i] == db.heroPowers[db.powers[p].heroPowers[i]].hero
              && (r[i].Some? ==> r[i].value in db.heroes)
  {
    PowerRowsLive(db, p);
    HeroIds(db.powers[p].heroPowers, db.heroPowers)
  }

  /** A power is among a hero's powers exactly when some join row links the
      two; such a power exists. */
  lemma PowersOfIsJoin(db: Db, h: Id, p: Id)
    requires Valid(db) && h in db.heroes
    ensures Some(p) in PowersOf(db, h) <==>
              exists j :: j in db.heroPowers && db.heroPowers[j].hero == Some(h) && db.heroPowers[j].power == Some(p)
    ensures Some(p) in PowersOf(db, h) ==> p in db.powers
  {
    var js := db.heroes[h].heroPowers;
    var ps := PowersOf(db, h);
    if Some(p) in ps {
      var i :| 0 <= i < |ps| && ps[i] == Some(p);
      assert db.heroPowers[js[i]].hero == Some(h);
    }
    if exists j :: j in db.heroPowers && db.heroPowers[j].hero == Some(h) && db.heroPowers[j].power == Some(p) {
      var j :| j in db.heroPowers && db.heroPowers[j].hero == Some(h) && db.heroPowers[j].power == Some(p);
      var i :| 0 <= i < |js| && js[i] == j;
      assert ps[i] == Some(p);
    }
  }

  /** A hero is among a power's heroes exactly when some join row links the
      two; such a hero exists. */
  lemma HeroesOfIsJoin(db: Db, p: Id, h: Id)
    requires Valid(db) && p in db.powers
    ensures Some(h) in HeroesOf(db, p) <==>
              exists j :: j in db.heroPowers && db.heroPowers[j].hero == Some(h) && db.heroPowers[j].power == Some(p)
    ensures Some(h) in HeroesOf(db, p) ==> h in db.heroes
  {
    var js := db.powers[p].heroPowers;
    var hs := HeroesOf(db, p);
    if Some(h) in hs {
      var i :| 0 <= i < |hs| && hs[i] == Some(h);
      assert db.heroPowers[js[i]].power == Some(p);
    }
    if exists j :: j in db.heroPowers && db.heroPowers[j].hero == Some(h) && db.heroPowers[j].power == Some(p) {
      var j :| j in db.heroPowers && db.heroPowers[j].hero == Some(h) && db.heroPowers[j].power == Some(p);
      var i :| 0 <= i < |js| && js[i] == j;
      assert hs[i] == Some(h);
    }
  }

  /** The two proxies are mirror images: `power in hero.powers` exactly when
      `hero in power.heroes`. */
  lemma ProxiesAreSymmetric(db: Db, h: Id, p: Id)
    requires Valid(db) && h in db.heroes && p in db.powers
    ensures Some(p) in PowersOf(db, h) <==> Some(h) in HeroesOf(db, p)
  {
    PowersOfIsJoin(db, h, p);
    HeroesOfIsJoin(db, p, h);
  }

  lemma InsertHeroPowerExtendsPowersOf(db: Db, id: Id, strength: string, hero: Option<Id>, power: Option<Id>, h: Id)
    requires Valid(db) && h in db.heroes
    requires InsertHeroPower(db, id, strength, hero, power).Ok?
    requires Valid(InsertHeroPower(db, id, strength, hero, power).value)
    ensures var d := InsertHeroPower(db, id, strength, hero, power).value;
      PowersOf(d, h) == if hero == Some(h) then PowersOf(db, h) + [power] else PowersOf(db, h)
  {
    var d := InsertHeroPower(db, id, strength, hero, power).value;
    var js := db.heroes[h].heroPowers;
    assert id !in js;
    if hero == Some(h) {
      assert d.heroes[h].heroPowers == js + [id];
    } else {
      assert d.heroes[h].heroPowers == js;
    }
  }

  lemma InsertHeroPowerExtendsHeroesOf(db: Db, id: Id, strength: string, hero: Option<Id>, power: Option<Id>, p: Id)
    requires Valid(db) && p in db.powers
    requires InsertHeroPower(db, id, strength, hero, power).Ok?
    requires Valid(InsertHeroPower(db, id, strength, hero, power).value)
    ensures var d := InsertHeroPower(db, id, strength, hero, power).value;
      HeroesOf(d, p) == if power == Some(p) then HeroesOf(db, p) + [hero] else HeroesOf(db, p)
  {
    var d := InsertHeroPower(db, id, strength, hero, power).value;
    var js := db.powers[p].heroPowers;
    assert id !in js;
    if power == Some(p) {
      assert d.powers[p].heroPowers == js + [id];
    } else {
      assert d.powers[p].heroPowers == js;
    }
  }

  /** A new join row shows up at the end of both proxies, in collection
      order. */
  lemma InsertHeroPowerExtendsProxies(db: Db, id: Id, strength: string, hero: Option<Id>, power: Option<Id>)
    requires Valid(db)
    requires InsertHeroPower(db, id, strength, hero, power).Ok?
    ensures var d := InsertHeroPower(db, id, strength, hero, power).value;
      Valid(d) &&
      (forall h :: h in db.heroes ==>
         PowersOf(d, h) == if hero == Some(h) then PowersOf(db, h) + [power] else PowersOf(db, h)) &&
      (forall p :: p in db.powers ==>
         HeroesOf(d, p) == if power == Some(p) then HeroesOf(db, p) + [hero] else HeroesOf(db, p))
  {
    InsertHeroPowerValid(db, id, strength, hero, power);
    forall h | h in db.heroes {
      InsertHeroPowerExtendsPowersOf(db, id, strength, hero, power, h);
    }
    forall p | p in db.powers {
      InsertHeroPowerExtendsHeroesOf(db, id, strength, hero, power, p);
    }
  }

  // ---------------------------------------------------------------------------
  // A worked example

  /** A hero, a power with a long enough description and a join row at
      "Average" are all accepted and the row resolves to both; a short
      description and the strength "Mega" are refused. */
  lemma CreationScenario()
    ensures var s1 := InsertHero(Empty, 1, "Kamala Khan", "Ms. Marvel");
            s1.Ok? &&
            var s2 := InsertPower(s1.value, 1, "Flight", Some("Can fly at supersonic speed."));
            s2.Ok? &&
            var s3 := InsertHeroPower(s2.value, 1, "Average", Some(1), Some(1));
            && s3.Ok?
            && s3.value.heroPowers[1] == HeroPower("Average", Some(1), Some(1))
            && s3.value.heroes[1].name == "Kamala Khan"
            && s3.value.powers[1].name == "Flight"
            && Valid(s3.value)
            && PowersOf(s3.value, 1) == [Some(1)]
            && HeroesOf(s3.value, 1) == [Some(1)]
    ensures InsertPower(Empty, 1, "Flight", Some("too short")) == Err(Invalid(DescriptionTooShort))
    ensures InsertHeroPower(Empty, 1, "Mega", None, None) == Err(Invalid(StrengthNotAllowed))
  {
    EmptyIsValid();
    var s1 := InsertHero(Empty, 1, "Kamala Khan", "Ms. Marvel");
    var s2 := InsertPower(s1.value, 1, "Flight", Some("Can fly at supersonic speed."));
    InsertHeroPowerExtendsProxies(s2.value, 1, "Average", Some(1), Some(1));
  }
}
