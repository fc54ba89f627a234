# jotai-store-enhanced, modelled in Dafny

The library builds two kinds of state container on top of jotai atoms.

- A **slice store** (`createSliceStore`) holds one keyed record. It is read and written whole, per key (the `prop(key)` focus) or per key set (the `pick(keys)` focus). It can be reset in full or for a list of keys.
- A **vector store** (`createVecStore`) holds one sequence. It is read and written whole or per index (the `at(index)` focus), and reset only as a whole.

Both return a bundle of functions whose keys are built from a caller-supplied name. Two utilities support them:

- `capitalizeFirstLetter` builds those keys.
- `cloneDeep` seeds and resets slice state.

This project restates that core over immutable values:

- `utils.dfy` (module `Utils`) covers the two utilities. `Capitalize` models `capitalizeFirstLetter`. `Clone` models `cloneDeep` over a `Value` datatype with these kinds:
  - primitives and functions, which `typeof` does not report as "object";
  - `null`;
  - `Date`;
  - `RegExp`;
  - `Map`, as entries in insertion order;
  - `Set`, as members in insertion order;
  - arrays;
  - other objects, as properties that carry their key kind (string or symbol), an own/inherited flag and an enumerable flag.
- `slice.dfy` (module `Slice`) covers the slice store. A `Store` pairs the record it was created from with the current root, and every operation is a pure function from store to store. `setState` is a fold of single-key writes over the partial record's keys in enumeration order. `SetStateTrace` exposes every intermediate root. `Run` applies any history of writes.
- `vec.dfy` (module `Vec`) covers the vector store in the same style, generic in the element type.
- `exports.dfy` (modules `SliceExports` and `VecExports`) covers the key tables of the two returned bundles. `MemberOf` decodes a key back to its member, which shows that no two members share a key for any name.
- `wrappers.dfy` holds the `Option` type used by `MemberOf`.

The jotai store and the optics library are not modelled. `pick` becomes map restriction, `prop` becomes a map read or update, and `at` becomes a sequence read or update. What those libraries do with an absent key or an out-of-range index is not visible here, so the model requires these:

- every key read or written through `prop` or `pick` is in the root;
- every index used with `at` is in range.

A store created from a record keeps exactly the keys a deep copy of that record holds under every permitted operation (`Slice.Valid`, kept by `Slice.Run`). Those are all of the record's keys except `__proto__`: `cloneDeep` assigns with `result[key] = …` (utils.ts:41), and for that key the assignment runs the prototype setter instead of creating an own property.

Two points of the code deserve a note:

- The full reset is chosen by comparing only the length of the key list with the initial key count (slice.ts:121). See Findings.
- The vector reset copies shallowly (`[...initialState]`, vec.ts:89), so in the value model the root becomes the initial sequence itself.

## Model

| member | source | states |
|---|---|---|
| Utils.Capitalize | src/libs/jotai-store/utils.ts:1-3 | The result has the input's length and the same characters from index 1 on. Its first character is the upper-cased first character and is never a lower-case ASCII letter. The empty string maps to itself. |
| Utils.CapitalizeIdempotent | src/libs/jotai-store/utils.ts:2 | Capitalising twice is the same as capitalising once. |
| Utils.CapitalizeFixpoint | src/libs/jotai-store/utils.ts:2 | A string is unchanged exactly when it is empty or does not start with a lower-case letter. Both directions are proved. |
| Utils.CopiedProps | src/libs/jotai-store/utils.ts:39-41 | The properties the guarded `for..in` visits and the assignment stores. Every kept property is own, enumerable, string-keyed and not `__proto__`, and every such property is kept. |
| Utils.CopiedPropsAppend | src/libs/jotai-store/utils.ts:39-41 | The copy keeps the walk's order: filtering a concatenation filters each part in turn, and a single property is kept exactly when it is copied. |
| Utils.Clone | src/libs/jotai-store/utils.ts:5-46 | Primitives, functions and null are returned unchanged. Every other kind is preserved. A Date keeps its time and a RegExp keeps its source and flags. A Map keeps its entries in order, each key and value deep-copied. A Set and an array keep their members in order, each deep-copied. An object holds, in walk order, one own enumerable property per copied property of the input, with the same key and a deep copy of its value. Its names are exactly those of the input's own enumerable string-keyed properties other than `__proto__`. |
| Utils.CloneIsPlain | src/libs/jotai-store/utils.ts:38-45 | A deep copy contains no inherited, non-enumerable or symbol-keyed property at any depth. |
| Utils.PlainCloneIsIdentity | src/libs/jotai-store/utils.ts:5-46 | A value with no property the copy drops is reproduced exactly by `cloneDeep`, at every depth. |
| Utils.ClonePlainIdentity | src/libs/jotai-store/utils.ts:5-46 | A deep copy is structurally equal to its input exactly when the input has no property the copy drops. Both directions are proved. |
| Utils.CloneIdempotent | src/libs/jotai-store/utils.ts:5-46 | Deep-copying a deep copy changes nothing. |
| Slice.Create | src/libs/jotai-store/slice.ts:97 | The new root has exactly the initial keys other than `__proto__`, each holding a deep copy of its initial value. The store remembers the initial record. |
| Slice.CreateEqualsInitial | src/libs/jotai-store/slice.ts:97 | Right after creation the root equals the initial record without its `__proto__` key, whenever every initial value is plain. |
| Slice.Pick | src/libs/jotai-store/slice.ts:150-152 | The `pick(keys)` view has exactly the listed keys, each with its value in the root. |
| Slice.GetState | src/libs/jotai-store/slice.ts:102-104 | With no list the result is the whole root. With a list it has exactly the listed keys, and an empty list gives an empty record. Every value read agrees with the root. |
| Slice.GetStateByKey | src/libs/jotai-store/slice.ts:146-156 | Reading one key through `prop` agrees with picking that single key. |
| Slice.SetStateByKey | src/libs/jotai-store/slice.ts:138-140 | After the write the key holds the new value. Every other key keeps its value, the key set is unchanged, and the initial record is untouched. |
| Slice.SetThenGet | src/libs/jotai-store/slice.ts:138-148 | After a write, `getStateByKey` returns the written value for that key and the old value for any other key. |
| Slice.SetState | src/libs/jotai-store/slice.ts:109-114 | Every key of the partial record ends with its partial value. Keys absent from the partial record keep their values. No key is added or removed. |
| Slice.SetStateTrace | src/libs/jotai-store/slice.ts:109-114 | `setState` passes through one root per key, each a single-key write of the previous root, and the last of these roots is the result. |
| Slice.Assign | src/libs/jotai-store/slice.ts:125-128 | Assigning a key on the accumulator keeps keys distinct and gives the key the new value. It adds exactly that key, and every other entry comes from the old accumulator. |
| Slice.Accumulate | src/libs/jotai-store/slice.ts:125-128 | The reduce yields each listed key exactly once, with its initial value, or undefined when the initial record lacks the key. |
| Slice.ResetPatch | src/libs/jotai-store/slice.ts:125-129 | The partial record a partial reset writes has exactly the listed keys, each once, holding a deep copy of its initial value. |
| Slice.PartialReset | src/libs/jotai-store/slice.ts:124-129 | The partial branch keeps the key set. Each listed key gets a deep copy of its initial value, and every unlisted key keeps its current value. |
| Slice.ResetState | src/libs/jotai-store/slice.ts:120-131 | With no list, an empty list or a list as long as the initial key count, the root becomes a deep copy of the initial record. Otherwise each listed key gets a deep copy of its initial value and every unlisted key keeps its current value. |
| Slice.ResetIdempotent | src/libs/jotai-store/slice.ts:120-131 | Applying the same `resetState(keys)` twice gives the same store as applying it once. |
| Slice.ResetRepeatedKeyResetsUnlisted | src/libs/jotai-store/slice.ts:121 | With initial keys `a` and `b`, `resetState(["a", "a"])` resets `b` too, because only the list's length is compared. |
| Slice.ResetStateIntended | src/libs/jotai-store/slice.ts:120-131 | Like `resetState`, except that the full reset is chosen only when every initial key is listed. |
| Slice.ResetIntendedRestoresExactlyListed | src/libs/jotai-store/slice.ts:124-129 | With a non-empty list, the coverage-based reset restores every listed key to a copy of its initial value and leaves every unlisted key unchanged. |
| Slice.LengthTestIsCoverageTest | src/libs/jotai-store/slice.ts:121 | For a key list without repeats drawn from the initial keys, the length test picks a full reset exactly when the list names every initial key. Both directions are proved. |
| Slice.ResetAgreesWithoutRepeats | src/libs/jotai-store/slice.ts:121-129 | For a key list without repeats drawn from the root's keys, the length test and the coverage test pick the same branch, so both resets give the same store. |
| Slice.Apply | src/libs/jotai-store/slice.ts:109-140 | No write changes the initial record, and every write keeps the root's key set equal to the initial keys other than `__proto__`. |
| Slice.Run | src/libs/jotai-store/slice.ts:109-140 | No history of writes changes the initial record, and a store holding the initial keys other than `__proto__` keeps exactly those keys. |
| Slice.ResetAfterAnyHistory | src/libs/jotai-store/slice.ts:120-123 | After any history, `resetState()` gives back exactly the store as created. |
| SliceExports.ExportName | src/libs/jotai-store/slice.ts:233 | The atom entry's key starts with the raw name. |
| SliceExports.MemberOfExportName | src/libs/jotai-store/slice.ts:219-235 | Each bundle key decodes back to the member it was built for, for every name. |
| SliceExports.ExportNamesDistinct | src/libs/jotai-store/slice.ts:219-235 | For every name, no two members of the bundle share a key, so the object literal loses no entry. |
| SliceExports.EmptyNameExports | src/libs/jotai-store/slice.ts:205-235 | With the empty name every key is its bare template, such as `getState`, `Provider`, `Store` and `Atom`. |
| SliceExports.StoreEntryCapitalised | src/libs/jotai-store/slice.ts:232-233 | For the name "user" the store entry is `UserStore` (capitalised) and the atom entry is `userAtom` (raw). |
| SliceExports.DeclaredExportName | src/libs/jotai-store/slice.ts:73 | The runtime key table with the store entry under the raw name, as slice.ts:73 declares it. It agrees with the runtime keys for every other member. |
| SliceExports.DeclaredExportNamesDistinct | src/libs/jotai-store/slice.ts:73-75 | Under the declared keys, the store and atom entries both start with the raw name and no two members share a key. |
| Vec.Create | src/libs/jotai-store/vec.ts:51 | The new root equals the initial sequence element by element. |
| Vec.GetItem | src/libs/jotai-store/vec.ts:82-84 | `getItem(i)` returns the element of the root at index `i`. |
| Vec.GetState | src/libs/jotai-store/vec.ts:54 | The whole-sequence read agrees with the per-index read at every index. |
| Vec.SetState | src/libs/jotai-store/vec.ts:56 | After `setState(s)`, `getState()` returns `s`, and the initial sequence is untouched. |
| Vec.SetItem | src/libs/jotai-store/vec.ts:78-80 | Writing through `at(i)` keeps the length, makes index `i` read as the new value and leaves every other index unchanged. |
| Vec.SetItemThenGetItem | src/libs/jotai-store/vec.ts:64-84 | After `setItem(i, v)`, `getItem(i)` returns `v` and `getItem(j)` returns its old value for every `j` other than `i`. |
| Vec.SetItemExample | src/libs/jotai-store/vec.ts:78-80 | Starting from `[1, 2, 3]`, setting index 1 to 9 gives `[1, 9, 3]`. |
| Vec.ResetState | src/libs/jotai-store/vec.ts:88-90 | The root becomes the initial sequence, element by element, whatever it was before. |
| Vec.ResetIdempotent | src/libs/jotai-store/vec.ts:88-90 | Resetting twice is the same as resetting once. |
| Vec.Apply | src/libs/jotai-store/vec.ts:54-90 | No write changes the initial sequence. A per-index write or a reset keeps the length of a store whose root is as long as its initial sequence. |
| Vec.Run | src/libs/jotai-store/vec.ts:54-90 | No history changes the initial sequence. A history without whole-sequence writes never changes the length. |
| Vec.ResetAfterAnyHistory | src/libs/jotai-store/vec.ts:88-90 | After any history of writes, a reset yields exactly the initial sequence. |
| VecExports.ExportName | src/libs/jotai-store/vec.ts:108-109 | The store and atom entries' keys both start with the raw name. |
| VecExports.MemberOfExportName | src/libs/jotai-store/vec.ts:94-110 | Each bundle key decodes back to the member it was built for, for every name. |
| VecExports.ExportNamesDistinct | src/libs/jotai-store/vec.ts:94-110 | For every name, no two members of the bundle share a key. |
| VecExports.EmptyNameExports | src/libs/jotai-store/vec.ts:94-110 | With the empty name the keys are the bare templates, such as `getState`, `setItem`, `Store` and `Atom`. |

## Left out

- The hooks (`useState`, `useGetState`, `useSetState` and their by-key and per-item forms; slice.ts:161-198, vec.ts:58-76) are left out. They are React render-lifecycle behaviour and memoisation owned by React and jotai. Two things about them are noted but not modelled: the slice hooks memoise with an empty dependency list, and `useGetVecItem`/`useSetVecItem` build a new focused atom on every call.
- Hydration (slice.ts:210-217, vec.ts:86) is left out. Its once-only, non-forceful policy lives inside jotai's `useHydrateAtoms`. The vector hydrate also passes no `store` option.
- The `Provider` entry and `createProvider.tsx` are left out. They are a JSX wrapper around jotai's Provider.
- The jotai store engine is left out. This covers the default store, the `store` option, subscriptions and notification. Each model store stands for one atom in one store.
- The behaviour of `prop` on an absent key and of `at` on an out-of-range index is left out. It belongs to the optics library, so the model requires keys in the root and indices in range instead.
- Reference identity and aliasing are left out, because a value model cannot express them. This covers the freshness of deep copies, the vector `setState` storing the caller's array itself, and resets re-reading the caller's initial object.
- The ordering of `Object.keys` is left out. It lists integer-like keys first and in ascending order. The model takes the partial record's pairs in the order given, and only intermediate roots depend on that order.
- Function values written through `prop` or `at` are left out as updaters. This affects Slice.SetStateByKey, Slice.SetState, Slice.PartialReset (and so Slice.ResetState's partial branch) and Vec.SetItem. The focused atoms' setters take a value or an updater `(prev) => value` (the setter types at slice.ts:42-46). So writing a function value applies it to the current value instead of storing it, while the model stores every value, functions included. Functions are opaque identities in `Value`, so applying one cannot be expressed.
- Utils.Clone: an own `__proto__` key is dropped, as in the source. The prototype that the setter installs on the copy is not modelled. In JavaScript the copy then inherits that object's properties, while the model's copy has none.
- Symbol-keyed, non-enumerable and inherited properties of the top-level initial record and of partial records are left out. A `Slice.Record` holds only own enumerable string-keyed properties. These are the ones `Object.keys` counts and `cloneDeep` copies.
- The following details of `cloneDeep` are left out: getters invoked while copying, subclasses of Date and the other built-ins, `lastIndex` of a RegExp, holes in arrays, and extra properties on arrays, maps and sets.
- Floating point is left out. Numbers, including Date times, are integers, and an invalid Date is a separate `InvalidTime` value.
- Cyclic inputs to `cloneDeep` are left out. `cloneDeep` has no cycle detection, and `Value` is an inductive datatype.
- Utils.Capitalize: upper-cases ASCII letters only and leaves every other character unchanged. It does not follow Unicode case mapping, which can change a string's length.
- The TypeScript-only declared return types (slice.ts:48-78, vec.ts:9-39) are left out, except where the slice store's declared store key is compared under Findings. The model follows the runtime keys. The declared atom key at slice.ts:75 and vec.ts:39 also carries a stray `}`.
- `main.tsx` is a demo application and is left out.

## Findings

| source | as written | input that shows it | evidently intended | confidence | as-written member | corrected member |
|---|---|---|---|---|---|---|
| src/libs/jotai-store/slice.ts:121 | The full reset is chosen when the key list is as long as the initial record has keys. | Initial record `{a: 1, b: 2}` with `b` set to 5, then `resetState(["a", "a"])`. This resets `b` to 2 although `b` was not listed. | A full reset only when every initial key is listed. Otherwise only the listed keys are reset (Slice.ResetIntendedRestoresExactlyListed). | medium, not executed | Slice.ResetState | Slice.ResetStateIntended |
| src/libs/jotai-store/slice.ts:232 | The store entry's key is built from the capitalised name. | Name "user" gives the key `UserStore`, while the declared type (slice.ts:73) promises `userStore`. | The raw name, as the declared type and the vector store (vec.ts:108) use. | medium, not executed | SliceExports.ExportName | SliceExports.DeclaredExportName |
