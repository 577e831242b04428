/** The key-value table store the services talk to, reduced to one table
    keyed by fruitName. Requests are plain values; the four operations are
    pure functions from a table snapshot (and, for put, to the next table). */
module Store {
  import opened Wrappers
  import opened Errors
  import opened Records

  datatype ScanInput = ScanInput(tableName: string, attributesToGet: seq<string>)

  datatype PutItemInput = PutItemInput(tableName: string, item: Record)

  datatype GetItemInput = GetItemInput(tableName: string, key: Record)

  datatype QueryInput = QueryInput(
    tableName: string,
    keyConditionExpression: string,
    expressionAttributeValues: map<string, AttributeValue>)

  /** The one key condition this store evaluates: equality of the key with :name. */
  const KeyEqualsName: string := FruitNameCol + " = :name"
  const NamePlaceholder: string := ":name"

  /** A table: its name, its records by key, and the order a scan visits the keys in. */
  datatype Table = Table(name: string, order: seq<string>, items: map<string, Record>)

  /** The key string a record carries, if any. */
  function KeyOf(rec: Record): Option<string>
  {
    if FruitNameCol in rec then rec[FruitNameCol].s else None
  }

  /** The scan order lists every key once, and each record carries its own key. */
  ghost predicate Valid(t: Table)
  {
    && (forall i, j :: 0 <= i < j < |t.order| ==> t.order[i] != t.order[j])
    && (forall k :: k in t.items <==> k in t.order)
    && (forall k :: k in t.items ==> KeyOf(t.items[k]) == Some(k))
  }

  /** In a valid table there are as many keys in scan order as records. */
  lemma {:induction false} OrderCoversItems(t: Table)
    requires Valid(t)
    ensures |t.order| == |t.items|
    ensures |t.items| > 0 ==> |t.order| > 0
  {
    var ks := set i | 0 <= i < |t.order| :: t.order[i];
    assert ks == t.items.Keys;
    DistinctCount(t.order);
  }

  lemma {:induction false} DistinctCount(s: seq<string>)
    requires forall i, j :: 0 <= i < j < |s| ==> s[i] != s[j]
    ensures |set i | 0 <= i < |s| :: s[i]| == |s|
  {
    if |s| > 0 {
      var init := s[..|s| - 1];
      DistinctCount(init);
      var a := set i | 0 <= i < |init| :: init[i];
      var b := set i | 0 <= i < |s| :: s[i];
      assert b == a + {s[|s| - 1]};
      assert s[|s| - 1] !in a;
    }
  }

  /** The attributes of rec that are named in columns. */
  function Project(rec: Record, columns: seq<string>): (r: Record)
    ensures r.Keys == rec.Keys * set c | c in columns
    ensures forall c :: c in r ==> r[c] == rec[c]
  {
    map c | c in rec && c in columns :: rec[c]
  }

  /** Asking for every column a record has returns it whole. */
  lemma {:induction false} ProjectOntoAllColumns(rec: Record, columns: seq<string>)
    requires forall c :: c in rec ==> c in columns
    ensures Project(rec, columns) == rec
  {
    var p := Project(rec, columns);
    assert p.Keys == rec.Keys;
  }

  /** A full scan (every page): each record, in scan order, cut down to the
      requested columns. */
  function Scan(t: Table, req: ScanInput): (r: Result<seq<Record>, Error>)
    requires Valid(t)
    ensures req.tableName != t.name ==> r == Failure(ResourceNotFound)
    ensures req.tableName == t.name ==>
              && r.Success? && |r.value| == |t.order| == |t.items|
              && forall i :: 0 <= i < |r.value| ==>
                   t.order[i] in t.items && r.value[i] == Project(t.items[t.order[i]], req.attributesToGet)
  {
    OrderCoversItems(t);
    if req.tableName != t.name then Failure(ResourceNotFound)
    else Success(seq(|t.order|, i requires 0 <= i < |t.order| => Project(t.items[t.order[i]], req.attributesToGet)))
  }

  /** An item the store accepts: it has a key, and no attribute is empty. */
  predicate WellFormedItem(item: Record)
  {
    KeyOf(item).Some? && forall c :: c in item ==> item[c].s.Some?
  }

  /** PutItem: insert or overwrite the record under its key; a new key goes
      last in scan order. */
  function PutItem(t: Table, req: PutItemInput): (r: Result<Table, Error>)
    ensures req.tableName != t.name ==> r == Failure(ResourceNotFound)
    ensures req.tableName == t.name && !WellFormedItem(req.item) ==> r == Failure(Validation)
    ensures r.Success? ==>
              && req.tableName == t.name && WellFormedItem(req.item)
              && r.value.name == t.name
              && r.value.items == t.items[KeyOf(req.item).value := req.item]
  {
    if req.tableName != t.name then Failure(ResourceNotFound)
    else if !WellFormedItem(req.item) then Failure(Validation)
    else
      var k := KeyOf(req.item).value;
      Success(Table(t.name, if k in t.items then t.order else t.order + [k], t.items[k := req.item]))
  }

  /** A put keeps the table valid. */
  lemma PutItemPreservesValid(t: Table, req: PutItemInput)
    requires Valid(t) && PutItem(t, req).Success?
    ensures Valid(PutItem(t, req).value)
  {
    var k := KeyOf(req.item).value;
    var t' := PutItem(t, req).value;
    if k !in t.items {
      assert k !in t.order;
      assert t'.order == t.order + [k];
      forall i, j | 0 <= i < j < |t'.order| ensures t'.order[i] != t'.order[j] {
        if j == |t.order| {
          assert t'.order[i] == t.order[i];
        }
      }
    }
  }

  /** The key string of a single-key lookup map, when it is well formed. */
  function KeyString(key: Record): Option<string>
  {
    if key.Keys == {FruitNameCol} then key[FruitNameCol].s else None
  }

  /** GetItem: the record under the key, or an empty record when there is none. */
  function GetItem(t: Table, req: GetItemInput): (r: Result<Record, Error>)
    ensures req.tableName != t.name ==> r == Failure(ResourceNotFound)
    ensures req.tableName == t.name && KeyString(req.key).None? ==> r == Failure(Validation)
    ensures req.tableName == t.name && KeyString(req.key).Some? ==>
              var k := KeyString(req.key).value;
              r == Success(if k in t.items then t.items[k] else map[])
  {
    if req.tableName != t.name then Failure(ResourceNotFound)
    else match KeyString(req.key)
      case None => Failure(Validation)
      case Some(k) => Success(if k in t.items then t.items[k] else map[])
  }

  /** Query with the condition "fruitName = :name": the records whose key is
      the bound string (at most one). Any other condition is rejected. */
  function Query(t: Table, req: QueryInput): (r: Result<seq<Record>, Error>)
    ensures req.tableName != t.name ==> r == Failure(ResourceNotFound)
    ensures r.Success? ==>
              && req.keyConditionExpression == KeyEqualsName
              && NamePlaceholder in req.expressionAttributeValues
              && var v := req.expressionAttributeValues[NamePlaceholder].s;
                 v.Some? && r.value == if v.value in t.items then [t.items[v.value]] else []
    ensures (&& req.tableName == t.name && req.keyConditionExpression == KeyEqualsName
             && NamePlaceholder in req.expressionAttributeValues
             && req.expressionAttributeValues[NamePlaceholder].s.Some?) ==> r.Success?
  {
    if req.tableName != t.name then Failure(ResourceNotFound)
    else if req.keyConditionExpression != KeyEqualsName || NamePlaceholder !in req.expressionAttributeValues then Failure(Validation)
    else match req.expressionAttributeValues[NamePlaceholder].s
      case None => Failure(Validation)
      case Some(k) => Success(if k in t.items then [t.items[k]] else [])
  }
}
