# In-memory users repository, modelled in Dafny

The repository `ts-workshop` holds two versions of one in-memory store of users: an array
kept in insertion order, read by `findAll`, `findById` and `getAllUsers`, and changed by
`create`, `update`, `update2` and `remove`.

- `ts-project/src/users-repository.ts` is the typed version. Its records are `User` objects with
  a `readonly id`. `create` adds an id from `uuidv4()`. `update` throws for an unknown id and
  `update2` answers `null`. `remove` throws for an unknown id and otherwise filters out every
  record with that id. `getAllUsers` projects each record onto a list of property names.
- `ts-project/src/js/users-repository.js` is the untyped version. `create` stores the caller's
  object as it is, with no id. `update` answers `null` for an unknown id and may overwrite `id`.
  `remove` behaves as in the typed version.

The project has five files:

- `wrappers.dfy` (module `Wrappers`) holds `Option` (for `undefined`/`null` answers), `Result`
  (for an operation that may throw) and `Error` (a thrown error, by its message).
- `js_array.dfy` (module `JsArray`) models the `Array.prototype` built-ins the repositories are
  written with: `find`, `findIndex` and `filter` (both versions) and `reduce` (the typed
  `getAllUsers` only). It also proves the facts about first matches and filtering that the
  repositories rely on.
- `users.dfy` (module `Users`) holds the record types.
  - `User`, `Role` and `Address` are the source's types.
  - `NewUser` is `Omit<User, "id">` and `UserPatch` is `Partial<Omit<User, "id">>`.
  - `Get` is the property read `user[key]`.
  - `Merge` is the spread `{ ...user, ...updateData }`.
- `typed_repository.dfy` (module `TypedRepository`) holds the typed class. It keeps a
  `users: seq<User>` field that the methods reassign. The reads are functions. The object
  invariant `Valid()` says that no two records share an id. Every mutating method preserves it,
  and `Create` preserves it when its new id is not already stored. So ids stay pairwise distinct
  over any sequence of calls whose created ids are fresh.
- `js_repository.dfy` (module `JsRepository`) holds the untyped class over `seq<Item>`. An
  `Item` is a `map<string, JsValue>` of own properties. `JsValue` compares primitives by value
  and objects by identity, as `===` does.

## Model

| member | source | states |
|---|---|---|
| JsArray.FindIndex | ts-project/src/users-repository.ts:69 | the result is -1 exactly when no element matches; otherwise it is the index of a match with no match before it |
| JsArray.Find | ts-project/src/users-repository.ts:49 | `find` answers nothing exactly when `findIndex` answers -1, and otherwise the element at that index, so both scans agree on the first match |
| JsArray.FindAfterReplace | ts-project/src/users-repository.ts:69-71 | after the first match is overwritten by another match, it is still the first match and `find` returns the new element |
| JsArray.FindAfterAppend | ts-project/src/users-repository.ts:57 | pushing a match onto an array with none makes it the first match, at the old length |
| JsArray.Filter | ts-project/src/users-repository.ts:82 | the result is no longer than the input; it holds only input elements that satisfy the callback, and it holds every such element |
| JsArray.FindThroughFilter | ts-project/src/users-repository.ts:82 | filtering does not change what `find` answers for a callback that only matches kept elements |
| JsArray.FilterAppend | ts-project/src/users-repository.ts:82 | filter distributes over concatenation, so kept elements keep their relative order |
| JsArray.FilterKeepsAll | ts-project/src/users-repository.ts:82 | filter is the identity when every element satisfies the callback |
| JsArray.FilterDropsOne | ts-project/src/users-repository.ts:82 | when exactly one element is rejected, filter returns the others in order |
| JsArray.FilterCounts | ts-project/src/users-repository.ts:82 | filter keeps every occurrence of a value the callback accepts and none of a value it rejects |
| JsArray.ReduceFront | ts-project/src/users-repository.ts:35-45 | the model of `reduce` folds front to back, as the language defines it: on a non-empty array it equals folding the rest starting from `f(init, s[0])` |
| Users.ReadsDetermineUser | ts-project/src/users-repository.ts:11-19 | two records that read alike under every key of `User` are the same record, so `Get` is a faithful view of a record |
| Users.Get | ts-project/src/users-repository.ts:41 | `user[key]` reads `undefined` exactly for an optional field (`phoneNumber`, `address`) the record does not have |
| Users.Strip | ts-project/src/users-repository.ts:52 | `Omit<User, "id">` keeps every field but the id: putting the record's id back gives the record |
| Users.WithId | ts-project/src/users-repository.ts:53-56 | the created record has the new id, and stripping that id gives back exactly the caller's input |
| Users.PatchEntries | ts-project/src/users-repository.ts:61 | an update object never has an `id` key |
| Users.Merge | ts-project/src/users-repository.ts:68 | the merged record keeps the id; every key the update object has takes that object's value, and every other key keeps the record's value |
| Users.MergeNoChanges | ts-project/src/users-repository.ts:68 | merging `{}` leaves the record unchanged, so `update` and `update2` with `{}` leave the store unchanged |
| TypedRepository.Pick | ts-project/src/users-repository.ts:38-43 | the object built for one record has exactly the requested names as keys, each mapped to the record's value for that key, even when that value is `undefined` |
| TypedRepository.PickSpec | ts-project/src/users-repository.ts:38-43 | the inner `reduce` builds exactly that object |
| TypedRepository.Project | ts-project/src/users-repository.ts:35-45 | the outer `reduce` yields one projected object per record, in store order |
| TypedRepository.ProjectSpec | ts-project/src/users-repository.ts:35-45 | the outer `reduce` over the store yields exactly those objects |
| TypedRepository.UsersRepository.constructor | ts-project/src/users-repository.ts:24-26 | a new repository is empty and so satisfies the distinct-id invariant |
| TypedRepository.UsersRepository.FindAll | ts-project/src/users-repository.ts:28-30 | returns the stored records in order and changes nothing |
| TypedRepository.UsersRepository.FindById | ts-project/src/users-repository.ts:48-50 | answers nothing exactly when no record has the id; otherwise it returns a record with that id that no earlier record shares |
| TypedRepository.UsersRepository.GetAllUsers | ts-project/src/users-repository.ts:32-46 | an empty list returns the store itself, as `findAll` does; otherwise one object per record, in order, whose keys are exactly the requested names and whose values are the record's |
| TypedRepository.UsersRepository.Create | ts-project/src/users-repository.ts:52-59 | appends one record at the end and leaves earlier records as they were; the record is the input plus the new id; if that id was fresh, `findById` of it finds the record and ids stay distinct |
| TypedRepository.UsersRepository.Update | ts-project/src/users-repository.ts:61-73 | an unknown id throws with the source's message and changes nothing; otherwise only the first match changes, to its merge with the update data; that merge is returned; `findById` then finds it; ids stay distinct; update data `{}` leaves the store unchanged |
| TypedRepository.UsersRepository.Update2 | ts-project/src/users-repository.ts:88-97 | the same merge and "nothing else changes" as `update`, but an unknown id answers `null` instead of throwing; update data `{}` leaves the store unchanged |
| TypedRepository.UsersRepository.Remove | ts-project/src/users-repository.ts:75-86 | an unknown id throws and changes nothing; otherwise every record with the id is filtered out and the rest keep their order; the first match is returned; afterwards the id is absent and every other id finds what it found before; while ids are distinct, exactly that one record is removed |
| TypedRepository.AliceAndBob | ts-project/src/users-repository.ts:52-86 | creating Alice and Bob lists them in creation order; removing Alice returns her and leaves only Bob |
| TypedRepository.FindAfterAppend | ts-project/src/users-repository.ts:52-58 | a record appended with a fresh id is what a lookup of that id finds, and distinct ids stay distinct |
| TypedRepository.MergeAtFirstMatch | ts-project/src/users-repository.ts:61-73 | replacing the first match by its merge leaves it the first match and keeps the set of ids, so distinct ids stay distinct |
| TypedRepository.RemoveSpec | ts-project/src/users-repository.ts:75-86 | after filtering out an id, no record has it, every other id finds what it found before, and distinct ids stay distinct |
| TypedRepository.RemoveUnique | ts-project/src/users-repository.ts:82-83 | with distinct ids, filtering out a stored id removes exactly the record at its index and keeps the rest in order |
| TypedRepository.FilterKeepsDistinct | ts-project/src/users-repository.ts:82 | filtering a store with distinct ids leaves distinct ids |
| JsRepository.Prop | ts-project/src/js/users-repository.js:11 | `item.id` reads `undefined` exactly when the property is missing or holds `undefined`, and otherwise the property's value |
| JsRepository.NatToString | ts-project/src/js/users-repository.js:32 | the decimal form of a number: digits only, no leading zero, and the digits read back as the number |
| JsRepository.SafeIntLength | ts-project/src/js/users-repository.js:32 | a safe integer has at most 16 digits, so it stays below 10^21 (22 digits), from which `String` switches to exponent form |
| JsRepository.Display | ts-project/src/js/users-repository.js:32 | `${id}` writes `undefined`, `null`, a string as itself, and a number as an optional minus sign followed by its decimal digits without leading zeros (`0` as `"0"`) |
| JsRepository.Spread | ts-project/src/js/users-repository.js:22 | the spread has the keys of both objects; a key of the update object takes its value, and every other key keeps the old object's value |
| JsRepository.UsersRepository.constructor | ts-project/src/js/users-repository.js:2-4 | a new repository is empty |
| JsRepository.UsersRepository.FindAll | ts-project/src/js/users-repository.js:6-8 | returns the stored objects in order and changes nothing |
| JsRepository.UsersRepository.FindById | ts-project/src/js/users-repository.js:10-12 | answers nothing exactly when no object's `id` is `===` the argument; otherwise it returns the first object whose `id` is |
| JsRepository.UsersRepository.Create | ts-project/src/js/users-repository.js:14-17 | appends the given object unchanged, with no id added, and returns it |
| JsRepository.UsersRepository.Update | ts-project/src/js/users-repository.js:19-26 | an unknown id answers `null` and changes nothing; otherwise only the first match is replaced by the spread of the update data over it; the result's `id` is the update data's `id` when it has one |
| JsRepository.UsersRepository.Remove | ts-project/src/js/users-repository.js:28-39 | an unknown id throws with the source's message and changes nothing; otherwise all objects with the id are filtered out in order and the first match is returned |
| JsRepository.UpdateCanDuplicateIds | ts-project/src/js/users-repository.js:19-26 | updating id 1 with `{ id: 2 }` in `[{ id: 1 }, { id: 2 }]` leaves two objects with id 2 |
| JsRepository.IdlessItemMatchesUndefined | ts-project/src/js/users-repository.js:10-17 | an object created without an `id` is found by a lookup of `undefined` when no earlier object's `id` reads `undefined` |

## Left out

- `uuidv4()` (ts-project/src/users-repository.ts:1, 55) comes from an external library. `Create` takes the new id as a parameter instead. Uniqueness is not assumed: the distinct-id invariant is promised only when that id is not already stored.
- The two versions share one value model, not references. Out of scope:
  - `findAll` and `getAllUsers([])` hand out the live array.
  - The untyped `create` (ts-project/src/js/users-repository.js:15) stores the caller's own object.
  - The typed `create` (ts-project/src/users-repository.ts:53-57) stores a new shallow copy, which still shares the caller's `address` object.
  - The typed `create`, `update` and `update2` (ts-project/src/users-repository.ts:58, 72, 94) return the stored object itself, so a caller who changes it changes the store. The untyped `update` does the same (ts-project/src/js/users-repository.js:23).
  - Projections share nested `address` objects with stored records.
- The order of keys in an object is not modelled, because objects are maps.
- `TypedRepository.UsersRepository.GetAllUsers`: the `!desiredParams` test for a `null` or `undefined` list is not modelled, because the parameter's type excludes it.
- `Users.Merge`: update data that gives a required field (`name`, `email`, `isActive`, `role`) the value `undefined` is not modelled. The `Partial` type admits it, but the result would no longer be a `User`. Explicit `undefined` is modelled for the optional fields.
- `Users.Merge`: the update data cannot carry an `id`. This follows the `Omit<User, "id">` type. At run time, an object with an `id` that is passed through a variable of a wider type would overwrite the id, as the untyped version does (`JsRepository.UpdateCanDuplicateIds`).
- Typed creation input or update data passed through a variable of a wider type can carry extra properties. The spreads at ts-project/src/users-repository.ts:53-54 and 68 copy them into the stored record. The model's `NewUser` and `UserPatch` have only the declared fields, so such extra properties are not modelled.
- `JsRepository`: numbers are safe integers only (no fractions, `NaN`, `Infinity`, `-0`, or magnitudes above 2^53 - 1), and `Display` prints every object as `[object Object]`. Stored items and update data are plain objects read by their own properties; `null`, `undefined` or primitives in those places are not modelled, nor is an `id` inherited from a prototype or supplied by a getter (which `item.id` would read but the spread would not copy).
- JsRepository.UsersRepository.Remove: its failure message matches `${id}` only for the modelled values. Ids that are numbers outside the safe integers (written in exponent form from 10^21 up), Symbols (for which `${id}` throws a `TypeError` instead of the `Error`), BigInts, and ids that are arrays (written as their joined elements), functions (written as their source text) or objects with their own `toString` are not modelled; `Display` writes every object as `[object Object]`.
- The demo instance and `console.log` at ts-project/src/users-repository.ts:100-120 are not modelled; they are scripts with no logic. The same holds for ts-project/src/js/index.js.
- ts-project/src/main.ts and ts-project/src/generics.ts are not part of this model. They hold type demos, and `getAddress` is an HTTP call.
