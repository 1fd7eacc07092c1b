# bqiam-web data core in Dafny

bqiam-web is a single page that lists who can access which BigQuery
datasets. It reads a cache file of dataset access-control entries, one
record per (project, dataset, role, entity, entity type), and shows the
entities with the most datasets first. This project models the data path of
that page in `src/main.tsx` and proves what each step guarantees:

- `entity_types.dfy` (module `EntityTypes`): the eight entity-type codes of
  the Go BigQuery client and `entityTypeToString`. The classifier labels a
  user email ending in `.iam.gserviceaccount.com` as a service account.
- `json.dfy` (module `Json`): the decoded JSON value the validator receives.
  It also holds JavaScript's `typeof v === "object"` test and the `in`
  operator's view of an object's properties.
- `validation.dfy` (module `Validation`): `parseMeta` and `parseData`. A
  record's fields are checked in a fixed order. The first failing check
  becomes an error value that carries the record index and the field.
- `aggregation.dfy` (module `Aggregation`): `convertEntityMap`. It is an
  imperative fold: a `for` loop over the records that calls the `reduce`
  callback `Accumulate` on each one. `Accumulate` recounts the datasets
  with its own loop, `CountDatasets`. Both are proved against reference
  definitions computed from the records. Those definitions are the
  entities in order of first appearance, each entity's projects, its
  (project, dataset) pairs, its roles per slot and its first entity type.
- `filtering.dfy` (module `Filtering`): the keyword filter. It is a
  case-insensitive substring test on the entity, the project or the dataset.
- `ranking.dfy` (module `Ranking`): `Object.entries`, the sort by count
  descending and the cut to 100 entries.
- `view.dfy` (module `View`): the cards the page renders, the composition of
  aggregation and ranking.

The entity map is an `EntityMap` value with two parts. `entries` maps each
entity to its entry. `order` lists the keys in insertion order, which is
the order `Object.entries` lists them in. JSON numbers are reals, so a
fractional entity type stays fractional. A JavaScript array is
`typeof "object"` and has none of the names the validator asks for. So an
array in `Metas` passes the object and null checks and fails with
`Project` not found, and the model does the same.

## Model

| member | source | states |
|---|---|---|
| EntityTypes.EndsWith | src/main.tsx:32 | `endsWith`: a string that ends with the suffix is some prefix followed by the suffix; the empty suffix ends every string and no suffix longer than the string does. |
| Json.IsTypeofObject | src/main.tsx:61-66 | `typeof v === "object"` holds of null, arrays and objects, and not of booleans, numbers or strings. This is a definition of JavaScript's `typeof` test: its ensures list the cases and prove nothing beyond them. |
| Json.Properties | src/main.tsx:67-92 | The names `in` finds are an object's own fields, and none of them on an array. This is a definition of JavaScript's `in` for these names: its ensures list the cases and prove nothing beyond them. |
| EntityTypes.EntityTypeToString | src/main.tsx:25-50 | Every code 1..8 gets a label. Code 3 gives "ServiceAccount" exactly when the entity ends with `.iam.gserviceaccount.com`, and "User" otherwise. Every other code gets its own fixed label. |
| EntityTypes.LabelDeterminesCode | src/main.tsx:25-49 | The label determines the code: no two codes share a label. |
| EntityTypes.LabelIgnoresEntity | src/main.tsx:25-49 | For every code but 3, the label does not depend on the entity string. |
| EntityTypes.ServiceAccountBySuffix | src/main.tsx:31-35 | Any string followed by the service-account suffix is labelled "ServiceAccount". |
| EntityTypes.ServiceAccountExample | src/main.tsx:31-35 | `svc@x.iam.gserviceaccount.com` with code 3 is labelled "ServiceAccount". |
| Validation.ParseEntityTypeAsWritten | src/main.tsx:91-99 | The entity-type checks as written succeed exactly for a present number between 1 and 8, and return that number. |
| Validation.AsWrittenAcceptsFraction | src/main.tsx:97-99 | The as-written range check accepts 2.5, which is not an entity-type code. |
| Validation.ParseEntityType | src/main.tsx:91-99 | The corrected check succeeds exactly for a present integer code 1..8 and returns that code. Its error is the as-written error, or out of range for a fraction. |
| Validation.CorrectedRejectsOnlyFractions | src/main.tsx:97-99 | The corrected check accepts only what the as-written one accepts. It rejects in addition only non-integers, and otherwise fails with the same error. |
| Validation.ParseMeta | src/main.tsx:60-108 | It uses the corrected entity-type check, so a fractional `EntityType` is rejected as out of range (see Findings). A record parses exactly when it is an object whose five fields are all valid. The result's fields equal the input's. Errors carry the record index. A non-object, null and an array fail as the source says. Otherwise the error names the first invalid field in check order Project, Dataset, Role, Entity, EntityType, and says "not found" exactly when that field is absent. |
| Validation.ParseMetas | src/main.tsx:124 | The elements map one-to-one: the result has the same length and order. It succeeds iff every element parses, and an error is the first failing element's error. |
| Validation.ParseData | src/main.tsx:110-125 | It parses records with the corrected entity-type check (see Findings). Success iff the input is a non-null object whose `Metas` is an array of records that all parse. On success the output has the length and order of `Metas`. Each document-level error is named. When the document is an object whose `Metas` is an array, a failure is always a record error, and it is the first failing record's. |
| Validation.EmptyDocumentFails | src/main.tsx:117-119 | An object without `Metas` is an error, never an empty list. |
| Aggregation.AppendOne | src/main.tsx:136-158 | How one more record changes the entity list, the roles of each slot, the projects, the pairs and the first type. |
| Aggregation.AbsentEntity | src/main.tsx:137-145 | A non-empty entity with no key has no projects, pairs or roles. |
| Aggregation.EntitiesAreRecordEntities | src/main.tsx:137-145 | The map has a key for `e` iff `e` is non-empty and some record carries it. |
| Aggregation.EntitiesNonEmpty | src/main.tsx:137 | The empty entity never gets a key. |
| Aggregation.EntitiesDistinct | src/main.tsx:139-145 | Each entity is listed once in insertion order. |
| Aggregation.PairsAreRecordPairs | src/main.tsx:146-153 | (p, d) is a slot of `e` iff some record of `e` has project p and dataset d. |
| Aggregation.PairsAtMostRecords | src/main.tsx:154-157 | An entity's dataset count is at most its number of records. |
| Aggregation.RolesOfConcat | src/main.tsx:146-153 | Roles are an order-preserving projection: the roles of two runs of records are the first run's followed by the second's. |
| Aggregation.FirstTypeIsFirstRecord | src/main.tsx:139-145 | An entity's type is the type of its first record. |
| Aggregation.FirstTypeStable | src/main.tsx:139-145 | Later records never change an entity's type. |
| Aggregation.CountDatasets | src/main.tsx:154-157 | The sum over projects of their dataset-key counts equals the number of distinct (project, dataset) slots. |
| Aggregation.PushSlots | src/main.tsx:146-153 | Creating the project and dataset on first encounter and pushing a role adds exactly that project and that slot. |
| Aggregation.RolesAtPush | src/main.tsx:146-152 | Creating the project and dataset when missing and pushing a role appends it to that slot and leaves every other slot unchanged. |
| Aggregation.PushedEntry | src/main.tsx:139-157 | After the push and the recount, the record's entity holds exactly what its records say. |
| Aggregation.ReplaceEntry | src/main.tsx:138-145 | Writing back the record's entity, and adding it to the key order when it is new, leaves the other entities as the records say. |
| Aggregation.PushedRepresents | src/main.tsx:138-160 | One whole step, found or freshly created entity included, keeps the map an exact aggregation. |
| Aggregation.Accumulate | src/main.tsx:138-160 | One `reduce` step on a record with a non-empty entity keeps the map an exact aggregation of the records seen. |
| Aggregation.SkipAnonymous | src/main.tsx:137 | A record with an empty entity changes nothing. |
| Aggregation.ConvertEntityMap | src/main.tsx:128-161 | The result is exactly the aggregation of the records. Keys are the non-empty entities in order of first appearance. Each entry has the type of its first record and its projects. Each slot holds the roles of its records in input order, duplicates kept. The count is the number of distinct (project, dataset) pairs. |
| Filtering.ToLower | src/main.tsx:192-196 | `toLowerCase` keeps the length, leaves no capital letter, turns every capital into its small letter and keeps every other character. |
| Filtering.Includes | src/main.tsx:192-196 | `includes`: the empty string occurs in every string, so does a prefix, and nothing longer than the string does. |
| Filtering.Matches | src/main.tsx:192-196 | The empty keyword matches every record, and a matched keyword is no longer than the entity, the project or the dataset. |
| Filtering.ToLowerIdempotent | src/main.tsx:192-196 | Lowercasing twice is lowercasing once. |
| Filtering.Filter | src/main.tsx:191 | `filter` returns only elements the test accepts, and never more elements than its input. |
| Filtering.FilterIsSubsequence | src/main.tsx:191-197 | The filter output is a subsequence of the input: elements are dropped, never reordered. |
| Filtering.FilterKeepsExactly | src/main.tsx:191-197 | Every accepted element is kept as often as it occurs, and no other element is kept. |
| Filtering.FilterIdempotent | src/main.tsx:191-197 | Filtering twice with the same test is filtering once. |
| Filtering.FilterKeepsAll | src/main.tsx:191-197 | A test that accepts every element keeps the whole input. |
| Filtering.FilterConcat | src/main.tsx:191-197 | Filtering is element by element: the filter of two runs is the two filters joined. |
| Filtering.FilterMetas | src/main.tsx:191-197 | Every record kept matches the keyword: the lowercased keyword occurs in the lowercased entity, project or dataset. |
| Filtering.FilterEmptyKeyword | src/main.tsx:191-197 | The empty keyword keeps every record. |
| Filtering.KeywordCaseIgnored | src/main.tsx:192-196 | The keyword's case does not matter. |
| Ranking.ObjectEntries | src/main.tsx:224 | `Object.entries` lists each key with its entry, in insertion order. This is a definition: its ensures spell out the listing and prove nothing beyond it. |
| Ranking.Insert | src/main.tsx:225 | Inserting into a sequence with non-increasing counts keeps it non-increasing and adds exactly that item. |
| Ranking.SortByCount | src/main.tsx:225 | The sort output has non-increasing counts and is a permutation of the input. |
| Ranking.InsertStable | src/main.tsx:225 | An inserted item goes after the items it ties with. |
| Ranking.SortStable | src/main.tsx:225 | The items with any one count keep their input order. |
| Ranking.InsertDistinct | src/main.tsx:225 | Inserting an item whose name is new into items with distinct names keeps the names distinct. |
| Ranking.SortDistinct | src/main.tsx:225 | Sorting items with distinct names keeps the names distinct. |
| Ranking.SortedCut | src/main.tsx:225-226 | Any prefix of the sorted entries has non-increasing counts and distinct names, and is a sub-multiset of the entries. |
| Ranking.Rank | src/main.tsx:224-226 | Given an object's distinct keys, the ranked list has length min(100, number of entities) and non-increasing counts. Every item is an entry of the map, no entity is listed twice, and the list is a sub-multiset of `Object.entries`. |
| Ranking.RankStable | src/main.tsx:224-226 | The cut is stable: for every count, the listed entities with that count are the first ones with that count in insertion order. |
| Ranking.RankKeepsLargest | src/main.tsx:224-226 | An entity cut from the list has no larger count than any listed one. |
| View.Cards | src/main.tsx:224-226 | The cards are exactly `Rank` of a map that represents the records, so `RankStable` applies: among entities with equal counts, the first-seen are listed. The cards list min(100, number of entities) entities with non-increasing counts. Each card is the exact aggregation of its entity's records, no entity has two cards, and no entity left out has more distinct datasets than a listed one. |

## Left out

- The React component (`useState`, `useEffect`, JSX, the "Loading..." and `keyword &&` display rules) is UI plumbing. The keyword filter is modelled, but not when it runs: on load the page shows all records whatever the keyword, and it filters only when the keyword changes.
- The `fetch`, `response.ok`, `response.json()` and `console.log` calls are I/O. The model starts from the decoded JSON value.
- Filtering.LowerChar: lowercases only ASCII letters, where JavaScript's `toLowerCase` covers all of Unicode.
- Ranking.ObjectEntries: lists keys in insertion order; JavaScript lists integer-like keys first, in numeric order.
- Ranking.SortByCount: is a stable insertion sort, while the engine's `sort` is not modelled. Engines are required to sort stably today, so ties keep insertion order in both.
- Aggregation.Accumulate: the entity's entry is looked up, or created when missing, as a local value. The project, dataset and role updates are made on it and it is written back once. `count` is reassigned from `CountDatasets` as in the source. The accumulator is a value reassigned on each step, not a shared object, so aliasing is not modelled.
- Plain-object keys that are inherited property names (`constructor`, `toString`, `hasOwnProperty`) make JavaScript's `in` true before any insert. The model treats every name as absent until inserted, so it does not capture what the source then does. An entity with such a name makes line 139 skip the creation, and line 146 then applies `in` to the inherited function's `projects`, which is undefined, so the aggregation throws a TypeError. A dataset with such a name makes line 149 skip the creation, and line 153 calls `push` on a function, which throws a TypeError and stops the whole aggregation. A project with such a name makes line 146 skip the creation, line 150 then attaches its datasets as properties of the shared built-in function, and `Object.values` at line 155 does not count them. Such names can occur in real data: `constructor` is a valid project ID and `toString` a valid dataset ID.
- JSON numbers are reals. A number too large for a double decodes to `Infinity` in JavaScript, which the range check rejects as out of range; the model rejects every number above 8 the same way. NaN cannot come out of JSON decoding.
- `farm.config.ts` is build configuration, with no logic.

## Findings

| source | as written | input that shows it | evidently intended | confidence | as-written member | corrected member |
|---|---|---|---|---|---|---|
| src/main.tsx:97-99 | `EntityType` is accepted when it is a number between 1 and 8 | a record with `"EntityType": 2.5` passes the validator, and `entityTypeToString` then throws "Unknown EntityType" while rendering | accept only the integer codes 1..8 that the `EntityType` type lists | not executed | Validation.ParseEntityTypeAsWritten, Validation.AsWrittenAcceptsFraction | Validation.ParseEntityType, Validation.ParseMeta, Validation.ParseData |
