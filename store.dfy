/** The in-memory store: one object whose three tables the operations update
    in place. Each mutating method is proved against the matching function in
    Models, which gives its result and the new tables; a refused operation
    leaves every table as it was. */
module HeroStore {
  import opened Wrappers
  import opened Validators
  import opened Models

  /** `after` is what the specification `spec` commits from `before`, and the
      method reported the same outcome. */
  ghost predicate Commits(before: Db, spec: Result<Db, StoreError>, r: Result<(), StoreError>, after: Db) {
    match spec
    case Ok(d) => r == Ok(()) && after == d
    case Err(e) => r == Err(e) && after == before
  }

  class Store {
    var heroes: map<Id, Hero>
    var powers: map<Id, Power>
    var heroPowers: map<Id, HeroPower>

    function Snapshot(): Db
      reads this
    {
      Db(heroes, powers, heroPowers)
    }

    ghost predicate Valid()
      reads this
    {
      Models.Valid(Snapshot())
    }

    constructor ()
      ensures Valid() && Snapshot() == Empty
    {
      heroes, powers, heroPowers := map[], map[], map[];
      EmptyIsValid();
    }

    /** Reading `hero_power.strength`: a stored strength is always one of the
        three allowed values. */
    method GetStrength(j: Id) returns (s: Option<string>)
      requires Valid()
      ensures s.Some? <==> j in heroPowers
      ensures s.Some? ==> s.value == heroPowers[j].strength
      ensures s.Some? ==> s.value == "Strong" || s.value == "Weak" || s.value == "Average"
    {
      if j !in heroPowers {
        return None;
      }
      s := Some(heroPowers[j].strength);
      assert IsValidStrength(s.value);
    }

    /** Reading `power.description`: a description once assigned is always
        at least 20 characters long. */
    method GetDescription(p: Id) returns (d: Option<string>)
      requires Valid()
      ensures d.Some? <==> p in powers && powers[p].description.Some?
      ensures d.Some? ==> Some(d.value) == powers[p].description && |d.value| >= 20
    {
      if p !in powers {
        return None;
      }
      d := powers[p].description;
      assert d.Some? ==> IsValidDescription(d.value);
    }

    method AddHero(id: Id, name: string, superName: string) returns (r: Result<(), StoreError>)
      requires Valid()
      modifies this
      ensures Valid()
      ensures Commits(old(Snapshot()), InsertHero(old(Snapshot()), id, name, superName), r, Snapshot())
    {
      if id in heroes {
        return Err(DuplicateId);
      }
      heroes := heroes[id := Hero(name, superName, [])];
      return Ok(());
    }

    method AddPower(id: Id, name: string, description: Option<string>) returns (r: Result<(), StoreError>)
      requires Valid()
      modifies this
      ensures Valid()
      ensures Commits(old(Snapshot()), InsertPower(old(Snapshot()), id, name, description), r, Snapshot())
    {
      if description.Some? {
        var checked := ValidateDescription(description.value);
        if checked.Err? {
          return Err(Invalid(checked.error));
        }
      }
      if id in powers {
        return Err(DuplicateId);
      }
      powers := powers[id := Power(name, description, [])];
      return Ok(());
    }

    /** Inserts a join row and appends it to the collections of the hero and
        the power it names. */
    method AddHeroPower(id: Id, strength: string, hero: Option<Id>, power: Option<Id>)
      returns (r: Result<(), StoreError>)
      requires Valid()
      modifies this
      ensures Valid()
      ensures Commits(old(Snapshot()), InsertHeroPower(old(Snapshot()), id, strength, hero, power), r, Snapshot())
    {
      var checked := ValidateStrength(strength);
      if checked.Err? {
        return Err(Invalid(checked.error));
      }
      if id in heroPowers {
        return Err(DuplicateId);
      }
      if hero.Some? && hero.value !in heroes {
        return Err(NoSuchHero);
      }
      if power.Some? && power.value !in powers {
        return Err(NoSuchPower);
      }
      InsertHeroPowerValid(Snapshot(), id, strength, hero, power);
      heroPowers := heroPowers[id := HeroPower(checked.value, hero, power)];
      if hero.Some? {
        var h := hero.value;
        heroes := heroes[h := heroes[h].(heroPowers := heroes[h].heroPowers + [id])];
      }
      if power.Some? {
        var p := power.value;
        powers := powers[p := powers[p].(heroPowers := powers[p].heroPowers + [id])];
      }
      return Ok(());
    }

    method SetDescription(p: Id, d: string) returns (r: Result<(), StoreError>)
      requires Valid()
      modifies this
      ensures Valid()
      ensures Commits(old(Snapshot()), Models.SetDescription(old(Snapshot()), p, d), r, Snapshot())
    {
      if p !in powers {
        return Err(NoSuchPower);
      }
      var checked := ValidateDescription(d);
      if checked.Err? {
        return Err(Invalid(checked.error));
      }
      powers := powers[p := powers[p].(description := Some(checked.value))];
      return Ok(());
    }

    method SetStrength(j: Id, s: string) returns (r: Result<(), StoreError>)
      requires Valid()
      modifies this
      ensures Valid()
      ensures Commits(old(Snapshot()), Models.SetStrength(old(Snapshot()), j, s), r, Snapshot())
    {
      if j !in heroPowers {
        return Err(NoSuchHeroPower);
      }
      var checked := ValidateStrength(s);
      if checked.Err? {
        return Err(Invalid(checked.error));
      }
      heroPowers := heroPowers[j := heroPowers[j].(strength := checked.value)];
      return Ok(());
    }

    /** Deletes one join row: out of the join table and out of every
        collection. */
    method RemoveRow(j: Id)
      modifies this
      ensures Snapshot() == DeleteRow(old(Snapshot()), j)
    {
      heroPowers := heroPowers - {j};
      heroes := map h | h in heroes :: heroes[h].(heroPowers := Drop(heroes[h].heroPowers, {j}));
      powers := map p | p in powers :: powers[p].(heroPowers := Drop(powers[p].heroPowers, {j}));
    }

    method DeleteHeroPower(j: Id) returns (r: Result<(), StoreError>)
      requires Valid()
      modifies this
      ensures Valid()
      ensures Commits(old(Snapshot()), Models.DeleteHeroPower(old(Snapshot()), j), r, Snapshot())
    {
      if j !in heroPowers {
        return Err(NoSuchHeroPower);
      }
      DeleteRowRemovesOnlyIt(Snapshot(), j);
      RemoveRow(j);
      return Ok(());
    }

    /** `hero.hero_powers.remove(hp)`: the orphan is deleted. */
    method DetachFromHero(h: Id, j: Id) returns (r: Result<(), StoreError>)
      requires Valid()
      modifies this
      ensures Valid()
      ensures Commits(old(Snapshot()), Models.DetachFromHero(old(Snapshot()), h, j), r, Snapshot())
    {
      if h !in heroes {
        return Err(NoSuchHero);
      }
      if j !in heroes[h].heroPowers {
        return Err(NotInCollection);
      }
      DeleteRowRemovesOnlyIt(Snapshot(), j);
      RemoveRow(j);
      return Ok(());
    }

    /** `power.hero_powers.remove(hp)`: the orphan is deleted. */
    method DetachFromPower(p: Id, j: Id) returns (r: Result<(), StoreError>)
      requires Valid()
      modifies this
      ensures Valid()
      ensures Commits(old(Snapshot()), Models.DetachFromPower(old(Snapshot()), p, j), r, Snapshot())
    {
      if p !in powers {
        return Err(NoSuchPower);
      }
      if j !in powers[p].heroPowers {
        return Err(NotInCollection);
      }
      DeleteRowRemovesOnlyIt(Snapshot(), j);
      RemoveRow(j);
      return Ok(());
    }

    /** Deletes every row of `js` in turn, as the cascade walks a collection. */
    method RemoveRowsInTurn(js: seq<Id>)
      modifies this
      ensures Snapshot() == DeleteRows(old(Snapshot()), js)
    {
      ghost var start := Snapshot();
      var i := 0;
      while i < |js|
        invariant 0 <= i <= |js|
        invariant DeleteRows(start, js) == DeleteRows(Snapshot(), js[i..])
      {
        assert js[i..][0] == js[i] && js[i..][1..] == js[i + 1..];
        RemoveRow(js[i]);
        i := i + 1;
      }
    }

    /** `session.delete(hero)` with `cascade='all, delete-orphan'`: the
        hero's join rows go first, then the hero. */
    method DeleteHero(h: Id) returns (r: Result<(), StoreError>)
      requires Valid()
      modifies this
      ensures Valid()
      ensures Commits(old(Snapshot()), Models.DeleteHero(old(Snapshot()), h), r, Snapshot())
    {
      if h !in heroes {
        return Err(NoSuchHero);
      }
      DeleteHeroValid(Snapshot(), h);
      RemoveRowsInTurn(heroes[h].heroPowers);
      heroes := heroes - {h};
      return Ok(());
    }

    /** `session.delete(power)`, symmetric to DeleteHero. */
    method DeletePower(p: Id) returns (r: Result<(), StoreError>)
      requires Valid()
      modifies this
      ensures Valid()
      ensures Commits(old(Snapshot()), Models.DeletePower(old(Snapshot()), p), r, Snapshot())
    {
      if p !in powers {
        return Err(NoSuchPower);
      }
      DeletePowerValid(Snapshot(), p);
      RemoveRowsInTurn(powers[p].heroPowers);
      powers := powers - {p};
      return Ok(());
    }
  }
}
