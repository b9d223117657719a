# Heroes, powers and their join rows — a Dafny model

This project models the model layer of a small hero/power web application
(`server/models.py`). That layer has three tables:

- `heroes`;
- `powers`;
- the join table `hero_powers`, each row saying "this hero has this power at
  this strength".

The model covers:

- the two validators that run on every assignment: `Power.description` must
  be at least 20 characters long, and `HeroPower.strength` must be exactly
  `'Strong'`, `'Weak'` or `'Average'`;
- the two one-to-many relationships `Hero.hero_powers` and
  `Power.hero_powers`, both declared with `cascade='all, delete-orphan'`;
- the two association proxies `Hero.powers` and `Power.heroes`.

Files and modules:

- `wrappers.dfy` (`Wrappers`): `Option` and `Result`.
- `validators.dfy` (`Validators`): the two validators. Each returns its
  argument or a `ValidationError`. The module also holds the error messages.
- `models.dfy` (`Models`): the three tables as one value, `Db`. It also holds:
  - `Valid`, the invariant that the relationships and their backrefs keep;
  - every operation as a function returning `Result<Db, StoreError>`;
  - the lemmas about those functions: cascade, delete-orphan, projections,
    and preservation of `Valid`.
- `store.dfy` (`HeroStore`): the class `Store`. It holds the three tables as
  `map` fields and updates them in place. Each mutating method is proved
  against the matching `Models` function (`AddHeroPower` against
  `InsertHeroPower`, `RemoveRowsInTurn` against `DeleteRows`, and so on): it
  reports the same outcome, and it
  leaves exactly the tables that function computes. A refused operation
  leaves every table unchanged. The hero cascade deletes the hero's join rows
  one by one in a loop, as the ORM walks the collection. The power cascade
  does the same.

Representation choices:

- Each Hero and each Power holds its `hero_powers` collection as an ordered
  `seq` of join-row ids, in append order.
- A join row holds plain foreign-key values, `hero` and `power`. Each is an
  `Option`, because both columns are nullable (`server/models.py:151-152`).
- `Valid` ties the two views together in both directions:
  - a row that names a hero is in that hero's collection;
  - a hero's collection holds, exactly once each, the rows that name it;
  - the same two rules hold for powers.
- `Valid` also says that every stored strength is one of the three allowed
  values, and that every description ever assigned is at least 20 characters.
- Deleting a join row, whether directly, by cascade or as an orphan, removes
  it from the join table and from every collection. This is the state seen
  after a commit (which expires the loaded objects) or a reload. Until then
  SQLAlchemy leaves the other parent's already loaded `hero_powers` list
  holding the deleted row; that interval is not modelled.

Inputs supplied from outside:

- Ids are assigned by the database. In the model, the id is a parameter of
  each insert. Inserting a primary key that is already taken is refused
  (`DuplicateId`).
- The hero and power given to a new join row must already be stored. In the
  source they are object references. The model refers to them by id and
  refuses an unknown one (`NoSuchHero`, `NoSuchPower`).

Two facts of the code shape the model:

- Both foreign-key columns are nullable (`server/models.py:151-152`), so a
  join row may name no hero or no power. The model allows such a row.
- `description` is a nullable column (`server/models.py:123`) and the
  validator runs only on assignment (`server/models.py:133-137`), so a Power
  built without one is stored with none. The model allows this too.

## Model

| member | source | states |
|---|---|---|
| `Validators.ValidateDescription` | server/models.py:133-137 | accepts exactly the descriptions of 20 or more characters and returns them unchanged (no truncation); otherwise the error is DescriptionTooShort |
| `Validators.ValidateStrength` | server/models.py:158-162 | accepts exactly "Strong", "Weak" and "Average" and returns the value verbatim; anything else is StrengthNotAllowed |
| `Validators.DescriptionMessageNamesMinimum` | server/models.py:136 | the description error's message names the minimum length 20 |
| `Validators.StrengthMessageListsAllowed` | server/models.py:161 | the strength error's message lists each allowed strength, quoted |
| `Validators.StrengthMatchIsExact` | server/models.py:160-161 | "strong", "STRONG", "Strong " (trailing blank), "Mega" and "" are all refused: the match is case-sensitive and nothing is normalised |
| `Models.Valid` | server/models.py:107-127 | the invariant the two relationships and their backrefs keep; it implies that no join row names a hero or a power that is not stored |
| `Models.HeroCollectionIsRows` | server/models.py:107 | under the invariant, a hero's `hero_powers` holds exactly the join rows whose foreign key names that hero |
| `Models.PowerCollectionIsRows` | server/models.py:126 | the same for a power's `hero_powers` |
| `Models.InsertHero` | server/models.py:99-104 | refused exactly when the id is taken; otherwise adds a hero with an empty collection, leaves the other tables alone and keeps the invariant |
| `Models.InsertPower` | server/models.py:118-137 | a description shorter than 20 characters refuses the insert with DescriptionTooShort, before any key is looked at; the insert succeeds exactly when the description (if given) passes and the id is free; nothing else changes; the invariant is kept |
| `Models.InsertHeroPower` | server/models.py:144-162 | a strength outside the allowed three refuses the insert with StrengthNotAllowed; the insert succeeds exactly when the strength passes, the id is free and each named hero and power is stored; on success the new row is stored verbatim, the named hero's and power's collections gain it at the end, and every other hero and power is unchanged |
| `Models.InsertHeroPowerValid` | server/models.py:147-152 | a successful join-row insert keeps the invariant: the row is in exactly the collections of the hero and power it names, once each |
| `Models.SetDescription` | server/models.py:133-137 | an assignment to a missing power is refused; on a stored power, it is refused exactly when the value is shorter than 20 characters, and then the store is unchanged; otherwise the stored description equals the argument exactly and nothing else changes; the invariant is kept |
| `Models.SetStrength` | server/models.py:158-162 | an assignment to a missing row is refused; on a stored row, it is refused exactly when the value is not one of the three strengths; otherwise the value is stored verbatim and nothing else changes; the invariant is kept |
| `Models.RemoveRowsValid` | server/models.py:107 | deleting any set of join rows from the table and from every collection keeps the invariant |
| `Models.DeleteRow` | server/models.py:147 | deleting one join row removes that key from the join table and keeps every hero and power key |
| `Models.DeleteRows` | server/models.py:107 | deleting the rows of a collection in turn removes from the join table exactly the rows in that collection and keeps every hero and power key |
| `Models.DeleteRowsIsRemoveRows` | server/models.py:107 | deleting the rows of a collection one after another, as the cascade walks it, gives the same tables as deleting that set of rows in one step |
| `Models.DeleteHero` | server/models.py:107 | deleting a hero is refused exactly when it is not stored |
| `Models.DeletePower` | server/models.py:126 | deleting a power is refused exactly when it is not stored |
| `Models.DeleteHeroIsRemoval` | server/models.py:107 | the hero cascade equals removing, in one step, the rows whose foreign key names the hero, followed by the hero itself |
| `Models.DeletePowerIsRemoval` | server/models.py:126 | the same for the power cascade |
| `Models.DeleteHeroValid` | server/models.py:107 | deleting a stored hero succeeds and keeps the invariant: no join row is left pointing at it |
| `Models.DeletePowerValid` | server/models.py:126 | deleting a stored power succeeds and keeps the invariant |
| `Models.DeleteHeroCascades` | server/models.py:107 | deleting a hero removes exactly the join rows whose hero is that hero, as many as its collection held; every other hero is untouched; every power keeps its columns and loses from its collection only those rows; the invariant is kept |
| `Models.DeletePowerCascades` | server/models.py:126 | deleting a power removes exactly the join rows whose power is that power; every other power is untouched; the heroes lose only those rows from their collections; the invariant is kept |
| `Models.DeleteHeroPower` | server/models.py:144-152 | deleting a join row directly is refused exactly when it is not stored; otherwise it is the one-row delete |
| `Models.DeleteRowRemovesOnlyIt` | server/models.py:147-152 | deleting a join row removes that row and no other row; no hero or power column changes; each collection loses exactly that id; the invariant is kept |
| `Models.DetachFromHero` | server/models.py:107 | removing a row from a hero's collection is refused exactly when the hero is missing or the row is not in its collection; a missing hero gives NoSuchHero and a row not in the collection NotInCollection; otherwise the row is deleted (delete-orphan) |
| `Models.DetachFromPower` | server/models.py:126 | the same for a power's collection, with NoSuchPower for a missing power |
| `Models.DetachFromHeroDeletesOrphan` | server/models.py:107 | a row removed from its hero's collection is gone from the join table, from that collection and from its power's collection; the invariant is kept |
| `Models.DetachFromPowerDeletesOrphan` | server/models.py:126 | a row removed from its power's collection is gone from the join table, from that collection and from its hero's collection; the invariant is kept |
| `Models.PowerIds` | server/models.py:108 | the projection has one entry per row of the collection, in collection order, and each entry is that row's power |
| `Models.HeroIds` | server/models.py:127 | the projection has one entry per row of the collection, in collection order, and each entry is that row's hero |
| `Models.PowersOf` | server/models.py:108 | `hero.powers` has one entry per row of the hero's collection, in order; each entry is that stored row's power, and any power it names is stored |
| `Models.HeroesOf` | server/models.py:127 | `power.heroes` has one entry per row of the power's collection, in order; each entry is that stored row's hero, and any hero it names is stored |
| `Models.PowersOfIsJoin` | server/models.py:108 | a power is in `hero.powers` exactly when some join row links the hero to it, and such a power is stored |
| `Models.HeroesOfIsJoin` | server/models.py:127 | a hero is in `power.heroes` exactly when some join row links it to the power, and such a hero is stored |
| `Models.ProxiesAreSymmetric` | server/models.py:107-127 | a power is in `hero.powers` exactly when the hero is in `power.heroes` |
| `Models.InsertHeroPowerExtendsProxies` | server/models.py:107-108 | a new join row appears at the end of its hero's `powers` and its power's `heroes`; every other projection is unchanged |
| `Models.CreationScenario` | server/models.py:99-162 | a hero, a power with a 28-character description and an "Average" join row are all accepted, and the row resolves to both; a "too short" description and the strength "Mega" are refused |
| `HeroStore.Store.GetStrength` | server/models.py:148-162 | a stored row's strength is always "Strong", "Weak" or "Average" |
| `HeroStore.Store.GetDescription` | server/models.py:123-137 | a stored power's description, once assigned, is always at least 20 characters |
| `HeroStore.Store.AddHero` | server/models.py:99-104 | in place: the outcome and the new tables are those of `Models.InsertHero`; the invariant is kept |
| `HeroStore.Store.AddPower` | server/models.py:118-137 | in place: as `Models.InsertPower`; a refused insert leaves the tables unchanged |
| `HeroStore.Store.AddHeroPower` | server/models.py:144-162 | in place: as `Models.InsertHeroPower`; the row is appended to both parents' collections |
| `HeroStore.Store.SetDescription` | server/models.py:133-137 | in place: as `Models.SetDescription`; a rejected assignment leaves the previous value |
| `HeroStore.Store.SetStrength` | server/models.py:158-162 | in place: as `Models.SetStrength`; a rejected assignment leaves the previous value |
| `HeroStore.Store.RemoveRow` | server/models.py:147 | in place: the tables become `Models.DeleteRow` of the old tables |
| `HeroStore.Store.DeleteHeroPower` | server/models.py:144-152 | in place: as `Models.DeleteHeroPower` |
| `HeroStore.Store.DetachFromHero` | server/models.py:107 | in place: as `Models.DetachFromHero`; the orphan is deleted |
| `HeroStore.Store.DetachFromPower` | server/models.py:126 | in place: as `Models.DetachFromPower`; the orphan is deleted |
| `HeroStore.Store.RemoveRowsInTurn` | server/models.py:107 | the loop deletes the rows of a collection one at a time and ends in `Models.DeleteRows` of the old tables |
| `HeroStore.Store.DeleteHero` | server/models.py:107 | in place: as `Models.DeleteHero`, by walking the hero's collection and then removing the hero |
| `HeroStore.Store.DeletePower` | server/models.py:126 | in place: as `Models.DeletePower`, by walking the power's collection and then removing the power |

## Left out

- The SQLAlchemy engine, session, flush, commit and transactions (`server/models.py:84-96`). These are a foreign library doing persistence and I/O. Every operation takes effect at once, as though committed.
- `SerializerMixin`, `to_dict` and the `serialize_rules` tuples (`server/models.py:111`, `130`, `155`). The recursion exclusion lives inside `sqlalchemy_serializer`, which is not part of this model.
- The naming convention for foreign-key constraints (`server/models.py:91-93`). It is configuration that the library reads when generating migrations.
- The `__repr__` methods (`server/models.py:113-114`, `139-140`, `164-165`). They only format text.
- The commented-out draft (`server/models.py:1-81`). It is dead code.
- Database-level foreign-key enforcement. A raw `hero_id` or `power_id` integer written straight to the column is not modelled. Join rows name their parents only through the relationship, and the stored parent is checked at insert.
- Assigning `None` to `description`. The validator would raise a `TypeError` from `len(None)`, which is runtime behaviour, not source logic. `SetDescription` therefore takes a string.
- A join row built without a strength. The NOT NULL column refuses it at flush, which is storage behaviour. `InsertHeroPower` always takes a strength.
- The library's flush-time refusal of a new join row that has no hero or no power (a "pending orphan" under delete-orphan). This is internal behaviour of the library. The model accepts such a row, as the nullable columns allow.
- Moving a join row to another hero or power by assigning to its `hero` or `power` attribute. Assigning `None` there is the same as removing the row from the collection, which `DetachFromHero` and `DetachFromPower` model.
- Side effects of a half-built `HeroPower`. If the strength validator raises during construction, the backref may already have attached the object to a parent's collection. The model treats a refused insert as leaving the store unchanged.
- Plain assignments to `Hero.name`, `Hero.super_name` and `Power.name`. No rule applies to them. They are left out, and so is null for these columns.
- The interval between a delete and the next commit or reload. In that interval SQLAlchemy leaves a deleted join row in the other parent's already loaded `hero_powers` list. The model shows every collection as it is after the commit.
- The order in which the database returns a collection when reloading it. The model keeps append order.
