/** The failures the modelled code can end in: the Java exceptions it throws
    and the two ways the table store turns a request down. */
module Errors {

  /** The canonical class name that Enum.valueOf puts in its message. */
  const SeasonEnumClass: string := "com.thinksy.dto.Season"

  /** The message of the exception getSeasonOfFruit throws when nothing matches. */
  const FruitNotFoundMessage: string := "Fruit not found."

  datatype Error =
    | NullPointer                       // java.lang.NullPointerException
    | IllegalArgument(message: string)  // thrown by Season.valueOf
    | Runtime(message: string)          // a RuntimeException thrown by a service
    | ResourceNotFound                  // the store has no table of the requested name
    | Validation                        // the store rejects a malformed request

  /** The message of Season.valueOf's IllegalArgumentException. */
  function NoEnumConstant(name: string): string
  {
    "No enum constant " + SeasonEnumClass + "." + name
  }
}
