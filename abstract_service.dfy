/** The request builders shared by the services: the fixed table name, and
    the scan, put, get and query requests built from a Fruit or a name. */
module AbstractService {
  import opened Wrappers
  import opened Errors
  import opened Seasons
  import opened Records
  import opened Fruits
  import opened Store

  /** getTableName(). */
  const TableName: string := "Fruits_TBL"

  /** scanRequest: a full-table scan that asks for the key column alone. */
  function ScanRequest(): (r: ScanInput)
    ensures r.tableName == TableName
    ensures forall c :: c in r.attributesToGet <==> c == FruitNameCol
    ensures FruitTypeCol !in r.attributesToGet
  {
    ScanInput(TableName, [FruitNameCol])
  }

  /** putRequest: a two-column record holding the name and the season's
      constant name; a null season throws before anything is built. */
  function PutRequest(fruit: Fruit): (r: Result<PutItemInput, Error>)
    ensures r.Failure? <==> fruit.season.None?
    ensures r.Failure? ==> r.error == NullPointer
    ensures r.Success? ==>
              && r.value.tableName == TableName
              && r.value.item.Keys == {FruitNameCol, FruitTypeCol}
              && r.value.item[FruitNameCol].s == fruit.name
              && r.value.item[FruitTypeCol].s == Some(ConstantName(fruit.season.value))
  {
    match fruit.season
    case None => Failure(NullPointer)
    case Some(m) =>
      Success(PutItemInput(TableName, map[FruitNameCol := AttributeValue(fruit.name),
                                          FruitTypeCol := AttributeValue(Some(ConstantName(m)))]))
  }

  /** getRequest: a lookup by the single key fruitName = name. */
  function GetRequest(name: Option<string>): (r: GetItemInput)
    ensures r.tableName == TableName
    ensures |r.key| == 1 && FruitNameCol in r.key && r.key[FruitNameCol].s == name
    ensures KeyString(r.key) == name
  {
    GetItemInput(TableName, map[FruitNameCol := AttributeValue(name)])
  }

  /** getQuery: the key condition "fruitName = :name" with :name bound to name and nothing else. */
  function GetQuery(name: Option<string>): (r: QueryInput)
    ensures r.tableName == TableName
    ensures r.keyConditionExpression == "fruitName = :name"
    ensures r.expressionAttributeValues.Keys == {":name"}
    ensures r.expressionAttributeValues[":name"].s == name
  {
    QueryInput(TableName, FruitNameCol + " = :name", map[":name" := AttributeValue(name)])
  }

  /** Writing a Fruit with a season and reading the record back gives the same
      name and season (a null name comes back null). */
  lemma {:induction false} PutThenFromRoundTrip(fruit: Fruit)
    requires fruit.season.Some?
    ensures From(Some(PutRequest(fruit).value.item)) == Success(fruit)
  {
    var item := PutRequest(fruit).value.item;
    assert FruitNameCol in item;
    ValueOfInvertsConstantName(fruit.season.value);
  }
}
