/** The store's record shape: a map from column name to attribute value. */
module Records {
  import opened Wrappers

  /** The primary-key column and the season column of the fruit table. */
  const FruitNameCol: string := "fruitName"
  const FruitTypeCol: string := "fruitType"

  /** An attribute value as far as this code uses it: its string part, which
      is null (None) when the value was built from a null string. */
  datatype AttributeValue = AttributeValue(s: Option<string>)

  type Record = map<string, AttributeValue>
}
