/** The Fruit value: a name and a season, either of which may be null,
    built from a store record by From, compared and hashed by name alone. */
module Fruits {
  import opened Wrappers
  import opened Errors
  import opened Seasons
  import opened Records

  /** The Java field `type` is called `season` here, `type` being a keyword. */
  datatype Fruit = Fruit(name: Option<string>, season: Option<Season>)

  /** new Fruit(): both fields null. */
  const EmptyFruit: Fruit := Fruit(None, None)

  /** True when a record is null or has no entries. */
  predicate IsBlank(item: Option<Record>)
  {
    item.None? || |item.value| == 0
  }

  /** Fruit.from: a null or empty record gives an empty Fruit; otherwise the
      name is the fruitName string and the season is the constant whose name is
      exactly the fruitType string. A missing column, a null type string or an
      unknown constant name throws. */
  function From(item: Option<Record>): (r: Result<Fruit, Error>)
    ensures IsBlank(item) ==> r == Success(EmptyFruit)
    ensures !IsBlank(item) && r.Success? ==>
              var rec := item.value;
              && FruitNameCol in rec && FruitTypeCol in rec
              && r.value.name == rec[FruitNameCol].s
              && r.value.season.Some?
              && rec[FruitTypeCol].s == Some(ConstantName(r.value.season.value))
    ensures !IsBlank(item) ==> (r.Failure? <==>
              var rec := item.value;
              || FruitNameCol !in rec
              || FruitTypeCol !in rec
              || rec[FruitTypeCol].s.None?
              || ValueOf(rec[FruitTypeCol].s.value).Failure?)
    ensures (&& !IsBlank(item) && FruitNameCol in item.value && FruitTypeCol in item.value
             && item.value[FruitTypeCol].s.Some? && ValueOf(item.value[FruitTypeCol].s.value).Failure?) ==>
              r == Failure(IllegalArgument(NoEnumConstant(item.value[FruitTypeCol].s.value)))
  {
    match item
    case None => Success(EmptyFruit)
    case Some(rec) =>
      if |rec| == 0 then Success(EmptyFruit)
      else if FruitNameCol !in rec then Failure(NullPointer)
      else
        var name := rec[FruitNameCol].s;
        if FruitTypeCol !in rec then Failure(NullPointer)
        else
          match rec[FruitTypeCol].s
          case None => Failure(NullPointer)
          case Some(t) =>
            match ValueOf(t)
            case Failure(e) => Failure(e)
            case Success(m) => Success(Fruit(name, Some(m)))
  }

  /** A missing column and a null type string are NullPointerExceptions; an
      unknown type string is valueOf's IllegalArgumentException, with no case folding. */
  lemma FromFailures(rec: Record)
    requires |rec| > 0
    ensures FruitNameCol !in rec ==> From(Some(rec)) == Failure(NullPointer)
    ensures FruitTypeCol !in rec ==> From(Some(rec)) == Failure(NullPointer)
    ensures FruitNameCol in rec && FruitTypeCol in rec && rec[FruitTypeCol].s.None? ==>
              From(Some(rec)) == Failure(NullPointer)
    ensures FruitNameCol in rec && FruitTypeCol in rec && rec[FruitTypeCol] == AttributeValue(Some("Fall")) ==>
              From(Some(rec)) == Failure(IllegalArgument(NoEnumConstant("Fall")))
  {
  }

  /** Fruit.equals: another object equals this one exactly when it is a
      non-null Fruit with the same (possibly null) name. */
  function Equals(self: Fruit, obj: Option<Fruit>): (r: bool)
    ensures r ==> obj.Some? && HashCode(obj.value) == HashCode(self)
    ensures obj == Some(self) ==> r
    ensures forall m :: obj == Some(Fruit(self.name, m)) ==> r
  {
    obj.Some? && obj.value.name == self.name
  }

  /** Equality ignores the season and is an equivalence on non-null Fruits. */
  lemma EqualsIsByName(a: Fruit, b: Fruit, c: Fruit)
    ensures Equals(a, Some(b)) <==> a.name == b.name
    ensures !Equals(a, None)
    ensures Equals(a, Some(a))
    ensures Equals(a, Some(b)) ==> Equals(b, Some(a))
    ensures Equals(a, Some(b)) && Equals(b, Some(c)) ==> Equals(a, Some(c))
    ensures Equals(EmptyFruit, Some(EmptyFruit))
  {
  }

  const TwoTo31: int := 0x8000_0000
  const TwoTo32: int := 0x1_0000_0000

  /** Java int arithmetic: x reduced into [-2^31, 2^31) modulo 2^32. */
  function Wrap32(x: int): (r: int)
    ensures -TwoTo31 <= r < TwoTo31
    ensures (x - r) % TwoTo32 == 0
  {
    (x + TwoTo31) % TwoTo32 - TwoTo31
  }

  /** String.hashCode: h = 31 * h + c over the characters, in int arithmetic,
      which is the polynomial sum of the characters reduced to an int. */
  function StringHash(s: string): (h: int)
    ensures -TwoTo31 <= h < TwoTo31
    ensures h == Wrap32(PowerSum(s))
  {
    if |s| == 0 then 0
    else
      var init := s[..|s| - 1];
      PowerSumSnoc(init, s[|s| - 1]);
      assert init + [s[|s| - 1]] == s;
      WrapMultiplyAdd(PowerSum(init), s[|s| - 1] as int);
      Wrap32(31 * StringHash(init) + s[|s| - 1] as int)
  }

  function Pow31(n: nat): int
  {
    if n == 0 then 1 else 31 * Pow31(n - 1)
  }

  /** s[0]*31^(n-1) + s[1]*31^(n-2) + ... + s[n-1], without wrap-around. */
  function PowerSum(s: string): int
  {
    if |s| == 0 then 0 else s[0] as int * Pow31(|s| - 1) + PowerSum(s[1..])
  }

  /** Appending a character multiplies the sum by 31 and adds the character. */
  lemma {:induction false} PowerSumSnoc(s: string, c: char)
    ensures PowerSum(s + [c]) == 31 * PowerSum(s) + c as int
  {
    if |s| > 0 {
      assert (s + [c])[1..] == s[1..] + [c];
      PowerSumSnoc(s[1..], c);
      assert Pow31(|s|) == 31 * Pow31(|s| - 1);
      assert s[0] as int * Pow31(|s|) == 31 * (s[0] as int * Pow31(|s| - 1));
    }
  }

  /** Reducing into an int before a multiply-add does not change the reduced result. */
  lemma WrapMultiplyAdd(x: int, c: int)
    ensures Wrap32(31 * Wrap32(x) + c) == Wrap32(31 * x + c)
  {
    var w := Wrap32(x);
    var k := (x - w) / TwoTo32;
    assert x - w == k * TwoTo32;
    assert 31 * x + c == (31 * w + c) + (31 * k) * TwoTo32;
    WrapShift(31 * w + c, 31 * k);
  }

  lemma WrapShift(y: int, k: int)
    ensures Wrap32(y + k * TwoTo32) == Wrap32(y)
  {
    assert (y + k * TwoTo32 + TwoTo31) % TwoTo32 == (y + TwoTo31) % TwoTo32;
  }

  /** Fruit.hashCode: Objects.hash(name), that is 31 + the name's hash, 0 for null. */
  function HashCode(f: Fruit): (h: int)
    ensures -TwoTo31 <= h < TwoTo31
  {
    Wrap32(31 + (match f.name case None => 0 case Some(n) => StringHash(n)))
  }

  /** The hash reads the name only, so equal Fruits hash alike. */
  lemma HashCodeAgreesWithEquals(a: Fruit, b: Fruit)
    requires Equals(a, Some(b))
    ensures HashCode(a) == HashCode(b)
    ensures HashCode(Fruit(a.name, None)) == HashCode(a)
  {
  }
}
