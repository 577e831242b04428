/** The read paths FruitService and FruitSyncService share, as pure functions
    of a table snapshot: findAll (scan, then From on every item), get (get by
    key, then From) and getSeasonOfFruit (query, first item's fruitType
    upper-cased, then Season.valueOf). */
module Pipelines {
  import opened Wrappers
  import opened Errors
  import opened Seasons
  import opened Records
  import opened Fruits
  import opened Store
  import opened AbstractService

  /** items.stream().map(Fruit::from).collect(toList()): one Fruit per item in
      order, or the failure of the first item From cannot read. */
  function FromAll(items: seq<Record>): (r: Result<seq<Fruit>, Error>)
    ensures r.Success? <==> forall i :: 0 <= i < |items| ==> From(Some(items[i])).Success?
    ensures r.Success? ==>
              && |r.value| == |items|
              && forall i :: 0 <= i < |items| ==> From(Some(items[i])) == Success(r.value[i])
    ensures r.Failure? ==>
              exists i :: && 0 <= i < |items| && From(Some(items[i])) == Failure(r.error)
                          && forall j :: 0 <= j < i ==> From(Some(items[j])).Success?
  {
    if |items| == 0 then Success([])
    else
      match From(Some(items[0]))
      case Failure(e) => Failure(e)
      case Success(f) =>
        match FromAll(items[1..])
        case Failure(e) =>
          assert forall i :: 0 <= i < |items| - 1 ==> items[1..][i] == items[i + 1];
          Failure(e)
        case Success(fs) => Success([f] + fs)
  }

  /** findAll over a table snapshot. */
  function FindAllOf(t: Table): (r: Result<seq<Fruit>, Error>)
    requires Valid(t)
    ensures t.name != TableName ==> r == Failure(ResourceNotFound)
    ensures r.Success? ==>
              && |r.value| == |t.order| == |t.items|
              && forall i :: 0 <= i < |t.order| ==>
                   t.order[i] in t.items
                   && From(Some(Project(t.items[t.order[i]], [FruitNameCol]))) == Success(r.value[i])
  {
    match Scan(t, ScanRequest())
    case Failure(e) => Failure(e)
    case Success(items) => FromAll(items)
  }

  /** The scan asks for fruitName only, so every scanned item of a valid table
      is a one-entry record that From cannot read: findAll succeeds, with no
      Fruits, exactly when the table is empty, and otherwise throws a
      NullPointerException. */
  lemma {:induction false} FindAllFailsOnNonEmptyTable(t: Table)
    requires Valid(t)
    ensures t.name != TableName ==> FindAllOf(t) == Failure(ResourceNotFound)
    ensures t.name == TableName && |t.items| == 0 ==> FindAllOf(t) == Success([])
    ensures t.name == TableName && |t.items| > 0 ==> FindAllOf(t) == Failure(NullPointer)
  {
    OrderCoversItems(t);
    if t.name == TableName && |t.items| > 0 {
      var items := Scan(t, ScanRequest()).value;
      var k := t.order[0];
      var first := items[0];
      assert first == Project(t.items[k], ScanRequest().attributesToGet);
      assert FruitNameCol in first;
      assert FruitTypeCol !in first;
      assert From(Some(first)) == Failure(NullPointer);
    }
  }

  /** get over a table snapshot. */
  function GetOf(t: Table, name: Option<string>): (r: Result<Fruit, Error>)
    ensures t.name != TableName ==> r == Failure(ResourceNotFound)
    ensures t.name == TableName && name.None? ==> r == Failure(Validation)
    ensures t.name == TableName && name.Some? ==>
              r == From(Some(if name.value in t.items then t.items[name.value] else map[]))
  {
    assert KeyString(GetRequest(name).key) == name;
    match GetItem(t, GetRequest(name))
    case Failure(e) => Failure(e)
    case Success(item) => From(Some(item))
  }

  /** get maps the record stored under the name through From; a missing key
      gives the empty Fruit, not a failure; a null name is rejected by the store. */
  lemma {:induction false} GetReadsStoredRecord(t: Table, name: Option<string>)
    ensures t.name != TableName ==> GetOf(t, name) == Failure(ResourceNotFound)
    ensures t.name == TableName && name.None? ==> GetOf(t, name) == Failure(Validation)
    ensures t.name == TableName && name.Some? && name.value !in t.items ==>
              GetOf(t, name) == Success(EmptyFruit)
    ensures t.name == TableName && name.Some? && name.value in t.items ==>
              GetOf(t, name) == From(Some(t.items[name.value]))
  {
    assert KeyString(GetRequest(name).key) == name;
  }

  /** String.toUpperCase on ASCII letters. */
  function UpperChar(c: char): (u: char)
    ensures 'a' <= c <= 'z' ==> 'A' <= u <= 'Z' && u as int == c as int - 32
    ensures !('a' <= c <= 'z') ==> u == c
  {
    if 'a' <= c <= 'z' then (c as int - 32) as char else c
  }

  function UpperAscii(s: string): (r: string)
    ensures |r| == |s| && forall i :: 0 <= i < |s| ==> r[i] == UpperChar(s[i])
  {
    seq(|s|, i requires 0 <= i < |s| => UpperChar(s[i]))
  }

  /** Constant names are already upper case. */
  lemma {:induction false} UpperAsciiKeepsConstantName(m: Season)
    ensures UpperAscii(ConstantName(m)) == ConstantName(m)
  {
    var n := ConstantName(m);
    forall i | 0 <= i < |n| ensures UpperChar(n[i]) == n[i] {
      assert 'A' <= n[i] <= 'Z';
    }
  }

  /** The season of a query result: the first item's fruitType, upper-cased and
      looked up by constant name; "Fruit not found." when there is no item. */
  function SeasonOfItems(items: seq<Record>): (r: Result<Season, Error>)
    ensures |items| == 0 <==> r == Failure(Runtime(FruitNotFoundMessage))
    ensures r.Success? ==>
              && FruitTypeCol in items[0] && items[0][FruitTypeCol].s.Some?
              && ConstantName(r.value) == UpperAscii(items[0][FruitTypeCol].s.value)
    ensures (&& |items| > 0 && FruitTypeCol in items[0] && items[0][FruitTypeCol].s.Some?
             && ValueOf(UpperAscii(items[0][FruitTypeCol].s.value)).Failure?) ==>
              r == Failure(IllegalArgument(NoEnumConstant(UpperAscii(items[0][FruitTypeCol].s.value))))
    ensures (&& |items| > 0 && FruitTypeCol in items[0] && items[0][FruitTypeCol].s.Some?
             && ValueOf(UpperAscii(items[0][FruitTypeCol].s.value)).Success?) ==> r.Success?
    ensures |items| > 0 && (FruitTypeCol !in items[0] || items[0][FruitTypeCol].s.None?) ==>
              r == Failure(NullPointer)
  {
    if |items| == 0 then Failure(Runtime(FruitNotFoundMessage))
    else if FruitTypeCol !in items[0] then Failure(NullPointer)
    else
      match items[0][FruitTypeCol].s
      case None => Failure(NullPointer)
      case Some(s) => ValueOf(UpperAscii(s))
  }

  /** Only the first item's fruitType counts: other columns and other items are ignored. */
  lemma SeasonReadsFirstTypeOnly(a: Record, b: Record, restA: seq<Record>, restB: seq<Record>)
    requires FruitTypeCol in a <==> FruitTypeCol in b
    requires FruitTypeCol in a ==> a[FruitTypeCol] == b[FruitTypeCol]
    ensures SeasonOfItems([a] + restA) == SeasonOfItems([b] + restB)
  {
    assert ([a] + restA)[0] == a && ([b] + restB)[0] == b;
  }

  /** The lookup folds case: any stored type whose upper-casing is a constant
      name gives that constant, where From accepts only the exact name. */
  lemma {:induction false} SeasonLookupFoldsCase(rec: Record, s: string, m: Season)
    requires FruitTypeCol in rec && rec[FruitTypeCol] == AttributeValue(Some(s))
    requires UpperAscii(s) == ConstantName(m)
    ensures SeasonOfItems([rec]) == Success(m)
  {
    ValueOfInvertsConstantName(m);
  }

  /** A stored "fall" or "Fall" gives FALL. */
  lemma {:induction false} SeasonLookupFoldsFall(rec: Record)
    ensures SeasonOfItems([rec[FruitTypeCol := AttributeValue(Some("fall"))]]) == Success(FALL)
    ensures SeasonOfItems([rec[FruitTypeCol := AttributeValue(Some("Fall"))]]) == Success(FALL)
  {
    assert UpperAscii("fall") == "FALL" by {
      var u := UpperAscii("fall");
      assert u[0] == 'F' && u[1] == 'A' && u[2] == 'L' && u[3] == 'L';
    }
    assert UpperAscii("Fall") == "FALL" by {
      var u := UpperAscii("Fall");
      assert u[0] == 'F' && u[1] == 'A' && u[2] == 'L' && u[3] == 'L';
    }
    SeasonLookupFoldsCase(rec[FruitTypeCol := AttributeValue(Some("fall"))], "fall", FALL);
    SeasonLookupFoldsCase(rec[FruitTypeCol := AttributeValue(Some("Fall"))], "Fall", FALL);
  }

  /** getSeasonOfFruit over a table snapshot. */
  function SeasonOf(t: Table, name: Option<string>): (r: Result<Season, Error>)
    ensures t.name != TableName ==> r == Failure(ResourceNotFound)
    ensures t.name == TableName && name.None? ==> r == Failure(Validation)
    ensures t.name == TableName && name.Some? ==>
              (r == Failure(Runtime(FruitNotFoundMessage)) <==> name.value !in t.items)
  {
    match Query(t, GetQuery(name))
    case Failure(e) => Failure(e)
    case Success(items) => SeasonOfItems(items)
  }

  /** A name with no record is "Fruit not found."; a stored type that is no
      constant name even upper-cased is valueOf's failure, a different error. */
  lemma {:induction false} SeasonOfFailuresAreDistinct(t: Table, n: string)
    requires t.name == TableName
    ensures n !in t.items ==> SeasonOf(t, Some(n)) == Failure(Runtime(FruitNotFoundMessage))
    ensures (&& n in t.items && FruitTypeCol in t.items[n] && t.items[n][FruitTypeCol].s.Some?
             && ValueOf(UpperAscii(t.items[n][FruitTypeCol].s.value)).Failure?) ==>
              && SeasonOf(t, Some(n)).Failure?
              && SeasonOf(t, Some(n)).error != Runtime(FruitNotFoundMessage)
    ensures n in t.items ==> SeasonOf(t, Some(n)) == SeasonOfItems([t.items[n]])
  {
    var q := GetQuery(Some(n));
    assert q.keyConditionExpression == KeyEqualsName;
    assert Query(t, q).Success?;
  }

  /** A season comes back only from the record stored under the name, and it
      is the constant named by that record's upper-cased fruitType. */
  lemma {:induction false} SeasonOfReadsStoredType(t: Table, name: Option<string>)
    requires SeasonOf(t, name).Success?
    ensures t.name == TableName && name.Some? && name.value in t.items
    ensures var rec := t.items[name.value];
            && FruitTypeCol in rec && rec[FruitTypeCol].s.Some?
            && ConstantName(SeasonOf(t, name).value) == UpperAscii(rec[FruitTypeCol].s.value)
  {
    assert t.name == TableName && name.Some?;
    SeasonOfFailuresAreDistinct(t, name.value);
  }

  /** A record written with a lower-case type is one get cannot read but the
      season lookup can. */
  lemma {:induction false} LowerCaseTypeAsymmetry(t: Table, n: string)
    requires t.name == TableName
    requires n in t.items && t.items[n] == map[FruitNameCol := AttributeValue(Some(n)),
                                                FruitTypeCol := AttributeValue(Some("fall"))]
    ensures GetOf(t, Some(n)) == Failure(IllegalArgument(NoEnumConstant("fall")))
    ensures SeasonOf(t, Some(n)) == Success(FALL)
  {
    GetReadsStoredRecord(t, Some(n));
    ValueOfSucceedsExactlyOnConstantNames("fall");
    SeasonOfFailuresAreDistinct(t, n);
    SeasonLookupFoldsFall(t.items[n]);
    assert t.items[n][FruitTypeCol := AttributeValue(Some("fall"))] == t.items[n];
  }

  /** After a successful put of a Fruit with a name and a season, get returns
      that Fruit and the season lookup returns its season. */
  lemma {:induction false} PutThenReadBack(t: Table, fruit: Fruit)
    requires fruit.name.Some? && fruit.season.Some?
    requires PutItem(t, PutRequest(fruit).value).Success?
    ensures GetOf(PutItem(t, PutRequest(fruit).value).value, fruit.name) == Success(fruit)
    ensures SeasonOf(PutItem(t, PutRequest(fruit).value).value, fruit.name) == Success(fruit.season.value)
  {
    var req := PutRequest(fruit).value;
    var t' := PutItem(t, req).value;
    var n := fruit.name.value;
    assert KeyOf(req.item) == Some(n);
    assert t'.items[n] == req.item;
    GetReadsStoredRecord(t', fruit.name);
    PutThenFromRoundTrip(fruit);
    SeasonOfFailuresAreDistinct(t', n);
    UpperAsciiKeepsConstantName(fruit.season.value);
    SeasonLookupFoldsCase(req.item, ConstantName(fruit.season.value), fruit.season.value);
  }

  /** After any successful put, findAll throws: the table is no longer empty. */
  lemma {:induction false} PutThenFindAllFails(t: Table, fruit: Fruit)
    requires Valid(t)
    requires PutRequest(fruit).Success? && PutItem(t, PutRequest(fruit).value).Success?
    ensures FindAllOf(PutItem(t, PutRequest(fruit).value).value) == Failure(NullPointer)
  {
    var req := PutRequest(fruit).value;
    var t' := PutItem(t, req).value;
    PutItemPreservesValid(t, req);
    assert KeyOf(req.item).value in t'.items;
    FindAllFailsOnNonEmptyTable(t');
  }

  // The scan as evidently intended: asking for both columns, so From can read
  // every scanned item.

  function ScanRequestBothColumns(): (r: ScanInput)
    ensures r.tableName == TableName
    ensures forall c :: c in r.attributesToGet <==> c == FruitNameCol || c == FruitTypeCol
  {
    ScanInput(TableName, [FruitNameCol, FruitTypeCol])
  }

  function FindAllCorrectedOf(t: Table): Result<seq<Fruit>, Error>
    requires Valid(t)
  {
    match Scan(t, ScanRequestBothColumns())
    case Failure(e) => Failure(e)
    case Success(items) => FromAll(items)
  }

  /** Every stored record carries a type string that is a constant name. */
  ghost predicate WellTyped(t: Table)
  {
    forall k :: k in t.items ==>
      FruitTypeCol in t.items[k] && t.items[k][FruitTypeCol].s.Some?
      && ValueOf(t.items[k][FruitTypeCol].s.value).Success?
  }

  /** With both columns scanned, the i-th scanned item of a well-typed table
      reads as a Fruit named by the i-th key. */
  lemma {:induction false} CorrectedScanItemReads(t: Table, i: nat)
    requires Valid(t) && WellTyped(t)
    requires i < |t.order|
    ensures t.order[i] in t.items
    ensures var rec := Project(t.items[t.order[i]], ScanRequestBothColumns().attributesToGet);
            && From(Some(rec)).Success?
            && From(Some(rec)).value.name == Some(t.order[i])
            && From(Some(rec)).value.season.Some?
  {
    var k := t.order[i];
    assert k in t.items;
    var item := t.items[k];
    var rec := Project(item, ScanRequestBothColumns().attributesToGet);
    assert KeyOf(item) == Some(k);
    assert FruitNameCol in rec && rec[FruitNameCol] == item[FruitNameCol];
    assert FruitTypeCol in rec && rec[FruitTypeCol] == item[FruitTypeCol];
  }

  /** With both columns scanned, findAll on a well-typed table lists one Fruit
      per key in scan order, named by its key. */
  lemma {:induction false} FindAllCorrectedListsTable(t: Table)
    requires Valid(t) && WellTyped(t) && t.name == TableName
    ensures FindAllCorrectedOf(t).Success?
    ensures |FindAllCorrectedOf(t).value| == |t.order|
    ensures forall i :: 0 <= i < |t.order| ==>
              && FindAllCorrectedOf(t).value[i].name == Some(t.order[i])
              && FindAllCorrectedOf(t).value[i].season.Some?
  {
    var items := Scan(t, ScanRequestBothColumns()).value;
    assert |items| == |t.order|;
    forall i | 0 <= i < |items| ensures From(Some(items[i])).Success? {
      CorrectedScanItemReads(t, i);
    }
    var fs := FromAll(items).value;
    forall i | 0 <= i < |t.order|
      ensures fs[i].name == Some(t.order[i]) && fs[i].season.Some?
    {
      CorrectedScanItemReads(t, i);
      assert From(Some(items[i])) == Success(fs[i]);
    }
  }

  /** The corrected findAll's i-th Fruit is From of the i-th key's record,
      cut down to the two columns. */
  lemma {:induction false} FindAllCorrectedAt(t: Table, i: nat)
    requires Valid(t) && WellTyped(t) && t.name == TableName
    requires i < |t.order|
    ensures FindAllCorrectedOf(t).Success? && |FindAllCorrectedOf(t).value| == |t.order|
    ensures t.order[i] in t.items
    ensures From(Some(Project(t.items[t.order[i]], ScanRequestBothColumns().attributesToGet)))
            == Success(FindAllCorrectedOf(t).value[i])
  {
    FindAllCorrectedListsTable(t);
  }

  /** Putting a Fruit that has a season keeps a table well typed. */
  lemma {:induction false} PutPreservesWellTyped(t: Table, fruit: Fruit)
    requires WellTyped(t) && fruit.season.Some?
    requires PutItem(t, PutRequest(fruit).value).Success?
    ensures WellTyped(PutItem(t, PutRequest(fruit).value).value)
  {
    ValueOfInvertsConstantName(fruit.season.value);
  }

  /** With both columns scanned, add's findAll would contain the added Fruit. */
  lemma {:induction false} PutThenFindAllCorrectedContains(t: Table, fruit: Fruit)
    requires Valid(t) && WellTyped(t)
    requires fruit.name.Some? && fruit.season.Some?
    requires PutItem(t, PutRequest(fruit).value).Success?
    ensures var t' := PutItem(t, PutRequest(fruit).value).value;
            && FindAllCorrectedOf(t').Success?
            && exists i :: 0 <= i < |FindAllCorrectedOf(t').value| && FindAllCorrectedOf(t').value[i] == fruit
  {
    var req := PutRequest(fruit).value;
    var t' := PutItem(t, req).value;
    var n := fruit.name.value;
    PutItemPreservesValid(t, req);
    PutPreservesWellTyped(t, fruit);
    assert n in t'.items;
    assert n in t'.order;
    var i :| 0 <= i < |t'.order| && t'.order[i] == n;
    FindAllCorrectedAt(t', i);
    var fs := FindAllCorrectedOf(t').value;
    assert t'.items[n] == req.item;
    ProjectOntoAllColumns(req.item, ScanRequestBothColumns().attributesToGet);
    PutThenFromRoundTrip(fruit);
    assert fs[i] == fruit;
  }
}
