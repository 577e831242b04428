# Fruit table access layer, modelled in Dafny

This project models the record-mapping layer and the blocking services of a
small serverless fruit catalogue. A `Fruit` (a name and a `Season`) is written
to a key-value table `Fruits_TBL` as a two-column record (`fruitName`,
`fruitType`) and read back from records returned by get, scan and query
requests. Two blocking services, `FruitSyncService` and `FruitService`, offer
`findAll`, `add` and `get`; `FruitService` adds `getSeasonOfFruit`, which looks
a fruit's season up case-insensitively.

Layout, one module per source file plus the shared pieces:

- `wrappers.dfy` (`Wrappers`): `Option` for Java's nullable references, `Result` for calls that may throw.
- `errors.dfy` (`Errors`): the exceptions (`NullPointer`, `IllegalArgument`, `Runtime`) and the store's two rejections (`ResourceNotFound`, `Validation`).
- `seasons.dfy` (`Seasons`): the enum, `name()`, the display-name field, `ordinal()`, `values()` and `valueOf`.
- `records.dfy` (`Records`): the column constants and the record shape, a map from column name to an attribute value whose string may be null.
- `fruit.dfy` (`Fruits`): the `Fruit` value, `from`, `equals` and `hashCode`.
- `store.dfy` (`Store`): the table store, abstractly. It holds one named table. The table maps each `fruitName` to its record and keeps the order a scan visits keys in. Put, get, scan and query are pure functions over a table snapshot.
- `abstract_service.dfy` (`AbstractService`): the table name and the four request builders.
- `pipelines.dfy` (`Pipelines`): the read paths both services share, as functions of a table snapshot, with the lemmas about them.
- `fruit_sync_service.dfy`, `fruit_service.dfy`: the two service classes. Each holds the table as a field. `Add` updates that field. `FindAll`, `Get` and `GetSeasonOfFruit` read it.

The model keeps the code's behaviour where it differs from what is intended.
In particular, `add` is meant to return the stored list, including the added
fruit. The code's scan asks for the `fruitName` column only. So every
scanned record lacks `fruitType`, and `Fruit.from` throws on it. As a result
`findAll` throws on every non-empty table, and `add`, once its scan sees the put, never returns a list. The
services keep this behaviour; see "## Findings".

## Model

| member | source | states |
|---|---|---|
| `Seasons.ValuesAreTheFourConstants` | src/main/java/com/thinksy/dto/Season.java:7-10 | there are exactly four constants, SPRING, SUMMER, FALL, WINTER, in that order, all distinct, and every season is one of them |
| `Seasons.ConstantName` | src/main/java/com/thinksy/dto/Season.java:7-10 | `name()` is one of "SPRING", "SUMMER", "FALL", "WINTER", all upper-case letters |
| `Seasons.DisplayName` | src/main/java/com/thinksy/dto/Season.java:7-16 | the `name` field is a capitalised word ("Spring", …) and differs from the constant's `name()` |
| `Seasons.Ordinal` | src/main/java/com/thinksy/dto/Season.java:7-10 | each constant sits at its ordinal position in `values()` |
| `Seasons.NamesIdentifyConstant` | src/main/java/com/thinksy/dto/Season.java:7-16 | distinct constants have distinct names and distinct display names, and no display name ("Spring", …) is the name of any constant |
| `Seasons.Find` | src/main/java/com/thinksy/dto/Season.java:6-10 | the search finds the first constant in the list whose name is exactly the given string, or reports that no constant in the list has that name |
| `Seasons.ValueOf` | src/main/java/com/thinksy/dto/Season.java:6-10 | `valueOf` succeeds exactly when some constant's name equals the string, and returns that constant; otherwise it fails with IllegalArgumentException "No enum constant com.thinksy.dto.Season.<name>" |
| `Seasons.ValueOfInvertsConstantName` | src/main/java/com/thinksy/dto/Season.java:7-15 | looking up a constant's name gives that constant back; looking up its display name fails |
| `Seasons.ValueOfSucceedsExactlyOnConstantNames` | src/main/java/com/thinksy/dto/Season.java:6-10 | lookup succeeds exactly for "SPRING", "SUMMER", "FALL", "WINTER" and for no other string, so there is no case folding |
| `Fruits.From` | src/main/java/com/thinksy/dto/Fruit.java:24-32 | a null or empty record gives the empty Fruit without failing. A non-empty record gives the `fruitName` string as name and the constant named exactly by `fruitType`. It fails if and only if a column is missing, the type string is null, or no constant has that name |
| `Fruits.FromFailures` | src/main/java/com/thinksy/dto/Fruit.java:27-28 | a missing `fruitName` or `fruitType` column or a null type string is a NullPointerException; the type "Fall" is valueOf's IllegalArgumentException |
| `Fruits.Equals` | src/main/java/com/thinksy/dto/Fruit.java:51-59 | `equals` is true only for a non-null Fruit with the same hash code; a Fruit equals itself and every Fruit with its name, whatever the season |
| `Fruits.EqualsIsByName` | src/main/java/com/thinksy/dto/Fruit.java:51-59 | `equals` holds exactly when the other object is a non-null Fruit with the same, possibly null, name, whatever the seasons are. It is reflexive, symmetric and transitive, two empty Fruits are equal, and null is unequal to every Fruit |
| `Fruits.StringHash` | src/main/java/com/thinksy/dto/Fruit.java:63 | `String.hashCode`, which `Objects.hash` applies to the name, is a Java int and equals the polynomial sum of the characters, Σ s[i]·31^(n-1-i), reduced to 32 bits |
| `Fruits.HashCode` | src/main/java/com/thinksy/dto/Fruit.java:62-64 | `hashCode` always returns a valid Java int; its value, 31 plus the name's hash (0 for a null name) reduced to 32 bits, is in the body |
| `Fruits.HashCodeAgreesWithEquals` | src/main/java/com/thinksy/dto/Fruit.java:51-64 | equal Fruits have equal hash codes, and the season never affects the hash |
| `AbstractService.ScanRequest` | src/main/java/com/thinksy/service/AbstractService.java:21-25 | the scan targets `Fruits_TBL` and asks for the `fruitName` column and no other, so `fruitType` is not requested |
| `AbstractService.PutRequest` | src/main/java/com/thinksy/service/AbstractService.java:27-36 | the put fails with NullPointerException exactly when the season is null. Otherwise it targets `Fruits_TBL` with a record of exactly two entries: `fruitName` holds the name and `fruitType` holds the season's constant name |
| `AbstractService.GetRequest` | src/main/java/com/thinksy/service/AbstractService.java:38-46 | the get targets `Fruits_TBL` with a key map of exactly one entry, `fruitName` → name |
| `AbstractService.GetQuery` | src/main/java/com/thinksy/service/AbstractService.java:48-54 | the query targets `Fruits_TBL` with the condition "fruitName = :name" and binds `:name` → name and nothing else |
| `AbstractService.PutThenFromRoundTrip` | src/main/java/com/thinksy/service/AbstractService.java:27-35 | reading back the record `putRequest` builds for a Fruit with a season gives that Fruit, name and season alike; a null name comes back as null |
| `Pipelines.FromAll` | src/main/java/com/thinksy/service/FruitSyncService.java:18-20 | mapping `from` over the scanned items succeeds exactly when every item can be read. It then gives one Fruit per item, in order, each equal to `from` of its item. Otherwise it fails with the error of the first unreadable item |
| `Pipelines.FindAllOf` | src/main/java/com/thinksy/service/FruitSyncService.java:17-21 | `findAll` reports a table of another name as missing; a success has one Fruit per stored key, in scan order, each `from` of that key's record cut down to the scanned `fruitName` column |
| `Pipelines.FindAllFailsOnNonEmptyTable` | src/main/java/com/thinksy/service/FruitSyncService.java:17-21 | `findAll` on an empty table returns no Fruits. On any non-empty table it throws NullPointerException, because the scan drops `fruitType`. On a table of another name the store reports it missing |
| `Pipelines.GetOf` | src/main/java/com/thinksy/service/FruitSyncService.java:28-30 | `get` of a name is `from` of the record stored under it, or of an empty record when there is none; a null name is rejected by the store, and a table of another name is reported missing |
| `Pipelines.GetReadsStoredRecord` | src/main/java/com/thinksy/service/FruitSyncService.java:28-30 | `get` gives `from` of the record stored under the name. A name with no record gives the empty Fruit, not a failure. A null name is rejected by the store |
| `Pipelines.UpperAscii` | src/main/java/com/thinksy/service/FruitService.java:54 | `toUpperCase` keeps the length and maps each lower-case ASCII letter to its capital, leaving every other character alone |
| `Pipelines.UpperAsciiKeepsConstantName` | src/main/java/com/thinksy/service/FruitService.java:54 | upper-casing leaves every constant name unchanged |
| `Pipelines.SeasonOfItems` | src/main/java/com/thinksy/service/FruitService.java:47-54 | no items is "Fruit not found.". A success is the constant whose name is the upper-cased `fruitType` of the first item. An upper-cased type that names a constant always succeeds; one that names no constant is valueOf's IllegalArgumentException |
| `Pipelines.SeasonReadsFirstTypeOnly` | src/main/java/com/thinksy/service/FruitService.java:47-50 | the result depends only on the first item's `fruitType`: other columns and later items are ignored |
| `Pipelines.SeasonLookupFoldsCase` | src/main/java/com/thinksy/service/FruitService.java:54 | any stored type whose upper-casing is a constant name gives that constant |
| `Pipelines.SeasonLookupFoldsFall` | src/main/java/com/thinksy/service/FruitService.java:54 | a stored "fall" and a stored "Fall" both give FALL |
| `Pipelines.SeasonOf` | src/main/java/com/thinksy/service/FruitService.java:46-54 | `getSeasonOfFruit` fails with "Fruit not found." exactly when no record is stored under the name; a null name is rejected by the store, and a table of another name is reported missing |
| `Pipelines.SeasonOfFailuresAreDistinct` | src/main/java/com/thinksy/service/FruitService.java:46-54 | a name with no record fails with "Fruit not found.". A stored type that names no constant, even upper-cased, fails with a different error. Otherwise the result is the season of the one stored record |
| `Pipelines.SeasonOfReadsStoredType` | src/main/java/com/thinksy/service/FruitService.java:46-54 | a successful lookup comes from the record stored under the name, and is the constant named by that record's upper-cased `fruitType` |
| `Pipelines.LowerCaseTypeAsymmetry` | src/main/java/com/thinksy/service/FruitService.java:54 | a record stored with type "fall" makes `get` fail with IllegalArgumentException, while `getSeasonOfFruit` returns FALL |
| `Pipelines.PutThenReadBack` | src/main/java/com/thinksy/service/FruitService.java:33-54 | after a successful put of a Fruit with a name and a season, `get` returns that Fruit and `getSeasonOfFruit` returns its season |
| `Pipelines.PutThenFindAllFails` | src/main/java/com/thinksy/service/FruitSyncService.java:23-26 | after any successful put, the `findAll` that `add` returns throws NullPointerException |
| `Pipelines.ScanRequestBothColumns` | src/main/java/com/thinksy/service/AbstractService.java:21-25 | the corrected scan targets `Fruits_TBL` and asks for exactly `fruitName` and `fruitType` |
| `Pipelines.FindAllCorrectedListsTable` | src/main/java/com/thinksy/service/FruitSyncService.java:17-21 | with the corrected scan, `findAll` on a table whose types are all constant names gives one Fruit per key, in scan order. Each is named by its key and has a season |
| `Pipelines.FindAllCorrectedAt` | src/main/java/com/thinksy/service/FruitSyncService.java:18-20 | with the corrected scan, the i-th Fruit is `from` of the i-th key's record, cut down to the two columns |
| `Pipelines.PutPreservesWellTyped` | src/main/java/com/thinksy/service/AbstractService.java:27-35 | putting a Fruit that has a season keeps every stored type a constant name |
| `Pipelines.PutThenFindAllCorrectedContains` | src/main/java/com/thinksy/service/FruitSyncService.java:23-26 | with the corrected scan, the list `add` returns would contain the added Fruit |
| `FruitSyncService.FruitSyncService.FindAll` | src/main/java/com/thinksy/service/FruitSyncService.java:17-21 | the result is `findAll` of the held table. It succeeds, with an empty list, exactly when the table, named Fruits_TBL, is empty |
| `FruitSyncService.FruitSyncService.Add` | src/main/java/com/thinksy/service/FruitSyncService.java:23-26 | a null Fruit or a null season throws NullPointerException before the store is touched. A rejected put leaves the table unchanged and returns the store's error. A successful put installs the new table and returns `findAll` of it. In every case `add` fails, and the table stays valid |
| `FruitSyncService.FruitSyncService.Get` | src/main/java/com/thinksy/service/FruitSyncService.java:28-30 | the result is `get` of the held table; a name with no record gives the empty Fruit |
| `FruitService.FruitService.FindAll` | src/main/java/com/thinksy/service/FruitService.java:22-28 | as `FruitSyncService.FindAll`: succeeds, empty, exactly when the table, named Fruits_TBL, is empty |
| `FruitService.FruitService.Add` | src/main/java/com/thinksy/service/FruitService.java:30-35 | as `FruitSyncService.Add`: a null Fruit or season throws before the store is touched. A rejected put leaves the table unchanged and returns the store's error. A successful put installs the new table and returns `findAll` of it. In every case `add` fails |
| `FruitService.FruitService.Get` | src/main/java/com/thinksy/service/FruitService.java:37-41 | as `FruitSyncService.Get` |
| `FruitService.FruitService.GetSeasonOfFruit` | src/main/java/com/thinksy/service/FruitService.java:43-55 | the result is the season lookup on the held table. A name with no record fails with "Fruit not found.". A success is the constant named by the stored record's upper-cased `fruitType` |

## Left out

- src/main/java/com/thinksy/service/FruitAsyncService.java is not part of this model: its behaviour is future chaining and scheduling. Its extra scan whose result is never used is not modelled either.
- The lambda entry points and `InputObject` are not part of this model. They only delegate to the services. The asynchronous entry point subscribes to a future and returns whatever was captured when it returns.
- Logging and dependency injection are left out: they are wiring only. The store a service uses is its constructor argument.
- The store is abstract: one table keyed by `fruitName`. Paging is folded into one full scan. A new key goes last in scan order, where the real store's order is unspecified. Query evaluates only the condition "fruitName = :name". Transport failures, throttling and the rejection of empty-string keys are not modelled.
- Attribute values of types other than string are not modelled. Only their string part, which may be null, is represented.
- The store is modelled as read-after-write consistent: every read sees every earlier put. None of the requests asks for a consistent read, so the real reads are eventually consistent, and a scan, get or query issued right after a put may not see it. In particular, `add` on an empty table may return an empty list instead of throwing. `FruitSyncService.Add`, `FruitService.Add`, `Pipelines.PutThenReadBack` and `Pipelines.PutThenFindAllFails` hold only for reads that see the put.
- `add`'s put and scan are two separate store calls in the source. A concurrent writer between them is not modelled.
- Fruit's getters and setters are not modelled as separate operations. `Fruit` is a value, and `from` builds it in one step instead of setting fields on an empty Fruit.
- Fruits.Equals: compares a Fruit with a null or non-null Fruit only. Objects of other classes, which `equals` also rejects, are outside the type.
- Fruits.StringHash: treats each Dafny character as one Java `char`. Characters outside the Basic Multilingual Plane, which Java hashes as two code units, are hashed differently.
- Pipelines.UpperAscii: upper-cases ASCII letters only. Java's locale-sensitive `toUpperCase` also maps some non-ASCII letters, such as dotless ı, to ASCII capitals.
- The tests and their profiles are not modelled. They mock the services, so they state nothing about this code.

## Findings

| source | as written | input that shows it | evidently intended | confidence | as-written member | corrected member |
|---|---|---|---|---|---|---|
| src/main/java/com/thinksy/service/AbstractService.java:23-24 | the scan asks for `fruitName` only, yet `findAll` reads every scanned item with `Fruit.from`, which reads `fruitType` | a table holding the single record {fruitName: "Kiwi", fruitType: "FALL"}: `findAll` throws NullPointerException. So does `add(Fruit("Kiwi", FALL))` on any table, once the scan after its successful put sees the new record | the scan asks for both columns, so `findAll` lists every stored Fruit and `add`'s result contains the added one | high (not executed) | `Pipelines.PutThenFindAllFails` | `Pipelines.PutThenFindAllCorrectedContains` |

The service classes keep the scan as written, since they model the code as it
stands. The corrected scan and its findAll are used only to state the intended
property.
