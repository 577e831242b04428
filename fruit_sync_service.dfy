/** The blocking service: findAll, add and get against a table it holds. */
module FruitSyncService {
  import opened Wrappers
  import opened Errors
  import opened Fruits
  import opened Store
  import opened AbstractService
  import opened Pipelines

  class FruitSyncService {
    /** The store the injected client talks to. */
    var table: Table

    ghost predicate Valid()
      reads this
    {
      Store.Valid(table)
    }

    constructor (initial: Table)
      requires Store.Valid(initial)
      ensures Valid() && table == initial
    {
      table := initial;
    }

    /** findAll: scan, then From on every scanned item. Because the scan asks
        for fruitName only, it returns no Fruits on an empty table and throws
        on any other. */
    method FindAll() returns (r: Result<seq<Fruit>, Error>)
      requires Valid()
      ensures r == FindAllOf(table)
      ensures table.name == TableName ==> (r.Success? <==> |table.items| == 0)
      ensures r.Success? ==> r.value == []
    {
      r := FindAllOf(table);
      FindAllFailsOnNonEmptyTable(table);
    }

    /** add: build the put request, put it, then return findAll. A null Fruit
        or a null season throws before the store is touched; a rejected put leaves it as it was;
        a successful put stays done even though the findAll after it throws, so
        add never returns a list. */
    method Add(fruit: Option<Fruit>) returns (r: Result<seq<Fruit>, Error>)
      requires Valid()
      modifies this
      ensures Valid()
      ensures fruit.None? ==> table == old(table) && r == Failure(NullPointer)
      ensures fruit.Some? && fruit.value.season.None? ==> table == old(table) && r == Failure(NullPointer)
      ensures fruit.Some? && fruit.value.season.Some? ==>
                var put := PutItem(old(table), PutRequest(fruit.value).value);
                && (put.Failure? ==> table == old(table) && r == Failure(put.error))
                && (put.Success? ==> table == put.value && r == FindAllOf(table))
      ensures r.Failure?
    {
      if fruit.None? {
        return Failure(NullPointer);
      }
      var req := PutRequest(fruit.value);
      if req.Failure? {
        return Failure(req.error);
      }
      var put := PutItem(table, req.value);
      if put.Failure? {
        return Failure(put.error);
      }
      PutItemPreservesValid(table, req.value);
      PutThenFindAllFails(table, fruit.value);
      table := put.value;
      r := FindAll();
    }

    /** get: fetch by the key fruitName = name and map the record through From;
        a missing key gives the empty Fruit. */
    method Get(name: Option<string>) returns (r: Result<Fruit, Error>)
      ensures r == GetOf(table, name)
      ensures table.name == TableName && name.Some? && name.value !in table.items ==> r == Success(EmptyFruit)
    {
      r := GetOf(table, name);
      GetReadsStoredRecord(table, name);
    }
  }
}
