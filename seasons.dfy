/** The Season enum: four constants, each with a display name. */
module Seasons {
  import opened Wrappers
  import opened Errors

  datatype Season = SPRING | SUMMER | FALL | WINTER

  /** Season.values(): the constants in declaration order. */
  const Values: seq<Season> := [SPRING, SUMMER, FALL, WINTER]

  /** Enum.name(): the constant's identifier, which is what valueOf matches. */
  function ConstantName(m: Season): (r: string)
    ensures |r| >= 4 && forall i :: 0 <= i < |r| ==> 'A' <= r[i] <= 'Z'
    ensures r == "SPRING" || r == "SUMMER" || r == "FALL" || r == "WINTER"
  {
    match m
    case SPRING => "SPRING"
    case SUMMER => "SUMMER"
    case FALL => "FALL"
    case WINTER => "WINTER"
  }

  /** The final field `name` each constant's constructor sets. */
  function DisplayName(m: Season): (r: string)
    ensures |r| >= 4 && 'A' <= r[0] <= 'Z' && forall i :: 1 <= i < |r| ==> 'a' <= r[i] <= 'z'
    ensures r != ConstantName(m)
  {
    match m
    case SPRING => "Spring"
    case SUMMER => "Summer"
    case FALL => "Fall"
    case WINTER => "Winter"
  }

  /** Enum.ordinal(): the constant's position in Values. */
  function Ordinal(m: Season): (i: nat)
    ensures i < |Values| && Values[i] == m
  {
    match m
    case SPRING => 0
    case SUMMER => 1
    case FALL => 2
    case WINTER => 3
  }

  /** The first constant of vs whose constant name is exactly name. */
  function Find(name: string, vs: seq<Season>): (r: Option<Season>)
    ensures r.Some? ==> r.value in vs && ConstantName(r.value) == name
    ensures r.Some? ==> exists i :: && 0 <= i < |vs| && vs[i] == r.value
                                    && forall j :: 0 <= j < i ==> ConstantName(vs[j]) != name
    ensures r.None? ==> forall m :: m in vs ==> ConstantName(m) != name
  {
    if |vs| == 0 then None
    else if ConstantName(vs[0]) == name then Some(vs[0])
    else
      var r := Find(name, vs[1..]);
      assert forall i :: 0 <= i < |vs| - 1 ==> vs[1..][i] == vs[i + 1];
      r
  }

  /** Season.valueOf: lookup by constant name, case-sensitive, throwing
      IllegalArgumentException when no constant has that name. */
  function ValueOf(name: string): (r: Result<Season, Error>)
    ensures r.Success? <==> exists m :: ConstantName(m) == name
    ensures r.Success? ==> ConstantName(r.value) == name
    ensures r.Failure? ==> r.error == IllegalArgument(NoEnumConstant(name))
  {
    match Find(name, Values)
    case Some(m) => Success(m)
    case None => Failure(IllegalArgument(NoEnumConstant(name)))
  }

  /** Exactly four constants, SPRING, SUMMER, FALL, WINTER in that order, all distinct. */
  lemma ValuesAreTheFourConstants()
    ensures |Values| == 4
    ensures forall m :: m in Values
    ensures forall i, j :: 0 <= i < j < |Values| ==> Values[i] != Values[j]
    ensures forall m :: Values[Ordinal(m)] == m
  {
    forall m ensures m in Values {
      assert Values[Ordinal(m)] == m;
    }
  }

  /** Both names identify the constant: no two constants share a name or a
      display name, and no display name is the name of any constant. */
  lemma NamesIdentifyConstant(m: Season, n: Season)
    ensures ConstantName(m) == ConstantName(n) <==> m == n
    ensures DisplayName(m) == DisplayName(n) <==> m == n
    ensures DisplayName(m) != ConstantName(n)
  {
  }

  /** valueOf inverts name(); looking up the display name fails. */
  lemma ValueOfInvertsConstantName(m: Season)
    ensures ValueOf(ConstantName(m)) == Success(m)
    ensures ValueOf(DisplayName(m)) == Failure(IllegalArgument(NoEnumConstant(DisplayName(m))))
  {
  }

  /** Lookup succeeds exactly on the four upper-case constant names. */
  lemma ValueOfSucceedsExactlyOnConstantNames(name: string)
    ensures ValueOf(name).Success? <==> name in {"SPRING", "SUMMER", "FALL", "WINTER"}
  {
  }
}
