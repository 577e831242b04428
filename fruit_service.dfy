/** The blocking service behind the season detector: the same findAll, add and
    get as FruitSyncService, plus getSeasonOfFruit. */
module FruitService {
  import opened Wrappers
  import opened Errors
  import opened Seasons
  import opened Fruits
  import opened Records
  import opened Store
  import opened AbstractService
  import opened Pipelines

  class FruitService {
    /** The store the injected client talks to. */
    var table: Table

    ghost predicate Valid()
      reads this
    {
      Store.Valid(table)
    }

    constructor (initial: Table)
      requires Store.Valid(initial)
      ensures Valid() && table == initial
    {
      table := initial;
    }

    /** findAll: as in FruitSyncService, empty on an empty table and a
        NullPointerException on any other. */
    method FindAll() returns (r: Result<seq<Fruit>, Error>)
      requires Valid()
      ensures r == FindAllOf(table)
      ensures table.name == TableName ==> (r.Success? <==> |table.items| == 0)
      ensures r.Success? ==> r.value == []
    {
      r := FindAllOf(table);
      FindAllFailsOnNonEmptyTable(table);
    }

    /** add: put, then findAll; as in FruitSyncService a null Fruit or season
        throws before the store is touched, and add never returns a list. */
    method Add(fruit: Option<Fruit>) returns (r: Result<seq<Fruit>, Error>)
      requires Valid()
      modifies this
      ensures Valid()
      ensures fruit.None? ==> table == old(table) && r == Failure(NullPointer)
      ensures fruit.Some? && fruit.value.season.None? ==> table == old(table) && r == Failure(NullPointer)
      ensures fruit.Some? && fruit.value.season.Some? ==>
                var put := PutItem(old(table), PutRequest(fruit.value).value);
                && (put.Failure? ==> table == old(table) && r == Failure(put.error))
                && (put.Success? ==> table == put.value && r == FindAllOf(table))
      ensures r.Failure?
    {
      if fruit.None? {
        return Failure(NullPointer);
      }
      var req := PutRequest(fruit.value);
      if req.Failure? {
        return Failure(req.error);
      }
      var put := PutItem(table, req.value);
      if put.Failure? {
        return Failure(put.error);
      }
      PutItemPreservesValid(table, req.value);
      PutThenFindAllFails(table, fruit.value);
      table := put.value;
      r := FindAll();
    }

    /** get: From of the record fetched by key; a missing key gives the empty Fruit. */
    method Get(name: Option<string>) returns (r: Result<Fruit, Error>)
      ensures r == GetOf(table, name)
      ensures table.name == TableName && name.Some? && name.value !in table.items ==> r == Success(EmptyFruit)
    {
      r := GetOf(table, name);
      GetReadsStoredRecord(table, name);
    }

    /** getSeasonOfFruit: query by name, take the first item's fruitType,
        upper-case it and look it up. No item is "Fruit not found."; an unknown
        type is valueOf's IllegalArgumentException. */
    method GetSeasonOfFruit(name: Option<string>) returns (r: Result<Season, Error>)
      ensures r == SeasonOf(table, name)
      ensures table.name == TableName && name.Some? && name.value !in table.items ==>
                r == Failure(Runtime(FruitNotFoundMessage))
      ensures r.Success? ==>
                && name.Some? && name.value in table.items
                && var rec := table.items[name.value];
                   && FruitTypeCol in rec && rec[FruitTypeCol].s.Some?
                   && ConstantName(r.value) == UpperAscii(rec[FruitTypeCol].s.value)
    {
      r := SeasonOf(table, name);
      if table.name == TableName && name.Some? {
        SeasonOfFailuresAreDistinct(table, name.value);
      }
      if r.Success? {
        SeasonOfReadsStoredType(table, name);
      }
    }
  }
}
