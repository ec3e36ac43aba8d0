# QueryBuilder, modelled in Dafny

This project models racer's `QueryBuilder` (`src/queries/QueryBuilder.js`). It has three parts:

- **The builder.** It is an object with two fields, the descriptor `_json` and the field cursor `_currField`. Its methods change those fields in place:
  - the setters `from`, `byKey`, `sort`, `skip`, `limit`, `only` and `except`;
  - `find` and `findOne`;
  - the eight comparator methods `equals`, `notEquals`, `gt`, `gte`, `lt`, `lte`, `within` and `contains`;
  - `where`;
  - the constructor, which applies a configuration object key by key.
- **The codec.** `QueryBuilder.fromJSON` rebuilds a builder from a flat descriptor by replaying the builder's own calls.
- **The canonical hash.** `QueryBuilder.hash` sorts the `within`/`contains` arrays of the descriptor in place. It then reads fixed segments (namespace, byKey, sort, projection, skip, limit) and comparator groups off the descriptor, sorts each group's pairs by field and the groups by token, and joins everything with `:`.

The model keeps the source's form:

- `Queries.QueryBuilder` is a class with fields `json` and `currField`. Its methods change them in place, and every loop of the source is a loop with invariants.
- Its invariant `Valid()` says the descriptor is one the builder's own operations can produce (`Descriptor.BuilderMade`). The constructor, `fromJSON` and every method keep it, `hash` included, so `toJSON` always hands out a descriptor that `fromJSON` rebuilds exactly.
- Each method is proved to perform the transition that a function over values specifies: `Builder.Where`, `Codec.FromWire`, `Hashing.HashOf` and so on.
- The properties of those functions are lemmas: the round trip of `fromJSON`, what the hash does to its input, where the hash text comes from, and the order-independence of the hash.

Modules:

- `Wrappers`: `Option` and `Result`.
- `Values`: JSON-like values with integers only. `Stringify` is the structural text of `JSON.stringify`; `JsString` is the `String(x)` rendering that the default array sort compares.
- `Ordering`: JavaScript `<` on strings (lexicographic by UTF-16 code unit, through a rank of each character that orders characters as their first code units do), the three-way `comparator`, and a stable insertion sort keyed by a string.
- `Descriptor`: the descriptor as an insertion-ordered sequence of properties, lookups by name, and a comparator call's effect on it.
- `Builder`: each builder operation as a function of the builder state.
- `Codec`: `fromJSON` as a function, with the round trip.
- `Hashing`: the hash as a function, namely `Normalize` (the in-place array sort), then `Scan` (the loop over properties), then `Assemble` (the concatenation).
- `HashProperties`: what the hash promises.
- `HashExamples`: the layout on small descriptors.
- `HashSteps`: normalisation and the hash loop, one property at a time.
- `Queries`: the `QueryBuilder` class.

Modelling choices:

- **Objects.** A JavaScript object is a sequence of entries in enumeration order, and a lookup reads the last entry under a name. An assignment overwrites the entry in place or appends a new one, as property assignment does.
- **Dispatch by name.** `this[k](...)` and `q[json[param]]()` become matches over an enumerated kind of property or comparator. A name that would reach no builder method is an explicit error.
- **Throws.** A thrown error is an `Error` value. State changes made before a throw stay in place (`Builder.Run`, `Hashing.Partial`), as they do in the source.
- **Cursor.** An unset `_currField` is `None`. A comparator called with no cursor writes under the name `"undefined"`.
- **Hash result.** `Ok(None)` is a hash of `undefined`: no namespace and nothing else.

Where the code departs from the behaviour one would expect, the model follows the code:

- **`where` object form.** `where` treats a field's spec object as comparators when ANY key of the spec is a comparator name (`keyMatch` with `isReserved`). It then dispatches EVERY key, so a key that is not a comparator fails (`NotAComparator`).
- **No chaining.** The object form of `where` returns nothing. The model's methods return no builder, so call chaining is not modelled.
- **Hash errors.** The hash throws when a `within`/`contains` value is not an array (`NotAnArray`), after sorting the arrays before it.
- **Round trip.** It reproduces the descriptor exactly, order included, for every descriptor the builder itself can produce.

## Model

| member | source | states |
|---|---|---|
| Descriptor.ComparatorNamed | src/queries/QueryBuilder.js:3-12 | a name maps to a comparator only if it is that comparator's name, and to none exactly when no comparator has that name |
| Descriptor.NameNamesComparator | src/queries/QueryBuilder.js:286-291 | every comparator method's name is reserved and names that comparator |
| Descriptor.Find | src/queries/QueryBuilder.js:300 | a property lookup finds the last position holding the name, or -1 when none does |
| Descriptor.SetEntryLookup | src/queries/QueryBuilder.js:276-284 | after a setter, its property reads back the new value and every other property reads as before |
| Descriptor.SetEntryShape | src/queries/QueryBuilder.js:276-284 | a setter overwrites an existing property at its position and appends a new one at the end |
| Descriptor.PutCondLookup | src/queries/QueryBuilder.js:301 | `cond[field] = val` makes the field read back val, keeps every other field's value, and keeps field names unique |
| Descriptor.AddConditionLookup | src/queries/QueryBuilder.js:298-302 | a comparator call stores val under (op, field) and creates the group when absent; every other (comparator, field), every other property and well-formedness are kept |
| Descriptor.AddConditionCondAt | src/queries/QueryBuilder.js:298-302 | after a comparator call, (op, field) reads val and every other (comparator, field) pair reads as before |
| Descriptor.AddConditionGroupOf | src/queries/QueryBuilder.js:298-302 | a comparator call changes only its own comparator's group |
| Descriptor.AddConditionIsAssignment | src/queries/QueryBuilder.js:299-301 | in a well-formed descriptor, reading or creating the group and then `cond[f] = val` is one assignment of the updated group |
| Descriptor.GroupUnderName | src/queries/QueryBuilder.js:300 | in a well-formed descriptor, the property named after a comparator is that comparator's group |
| Descriptor.SetEntryWellFormed | src/queries/QueryBuilder.js:276-284 | a setter keeps the descriptor well formed, and keeps it one the builder can produce |
| Builder.ApplyComparatorsKeepsCursor | src/queries/QueryBuilder.js:86-88 | dispatching a spec's comparators never moves the cursor |
| Builder.WhereFieldsCursor | src/queries/QueryBuilder.js:80-92 | where(object) leaves the cursor on the last field when it completes, leaves the state alone on an empty object, and leaves the cursor on one of its fields when it throws |
| Builder.WherePlainSpecsStoreEquals | src/queries/QueryBuilder.js:80-91 | where(object) with non-object specs completes, stores each field's (last) spec in the equals group, and changes no other group and no other property |
| Builder.ApplyComparatorsStores | src/queries/QueryBuilder.js:86-88 | a spec whose keys all name comparators is applied without a throw; for the cursor field each comparator's cell holds the last value the spec gives it (or keeps its old value), and every other cell, the cursor and every non-group property are unchanged |
| Builder.WhereFieldStoresComparators | src/queries/QueryBuilder.js:80-91 | a where field whose spec names comparators only moves the cursor to the field and stores each comparator's last spec value under it, changing nothing else |
| Builder.WhereTwoComparators | src/queries/QueryBuilder.js:69-93 | `where({f: {n1: v1, n2: v2}})` with two comparator names is `where(f)[n1](v1)[n2](v2)` |
| Builder.ConfigureFive | src/queries/QueryBuilder.js:40-49 | a configuration of from, where, sort, skip and limit is those five calls in that order, stopping at a throw of where |
| Builder.ConstructorIsChain | src/queries/QueryBuilder.js:26-49 | `new QueryBuilder({from: 'users', where: {age: {gt: 21, lte: 30}}, sort: ['name', 'asc'], skip: 10, limit: 5})` builds exactly the builder of `.from('users').where('age').gt(21).lte(30).sort(['name', 'asc']).skip(10).limit(5)` |
| Builder.ConfigureRejectsUnknown | src/queries/QueryBuilder.js:43-46 | the constructor throws whenever its configuration holds a key outside the whitelist (a `PUnknown` parameter, whose name `Builder.UnknownParamName` keeps out of `validQueryParams`) |
| Builder.ConfigureUnknownNamesKey | src/queries/QueryBuilder.js:14-47 | when the first key outside the whitelist is preceded by setters only, the constructor throws `UnknownOperator` naming exactly that key, and that key is not in `validQueryParams` |
| Builder.ConfigureUnknownOutsideWhitelist | src/queries/QueryBuilder.js:14-47 | for every configuration, an `UnknownOperator` throw names a key outside `validQueryParams`: a whitelisted key never draws it |
| Builder.ConfigureSettersOnly | src/queries/QueryBuilder.js:43-48 | a configuration of setters only is applied without error, keeps the cursor, makes each property it names read back the value it was given last, and changes no property it does not name |
| Builder.ApplyComparatorsKeepsBuilderMade | src/queries/QueryBuilder.js:86-88 | dispatching comparators keeps the descriptor one the builder can produce |
| Builder.WhereFieldsKeepsBuilderMade | src/queries/QueryBuilder.js:80-92 | where(object) keeps the descriptor one the builder can produce, even when it throws |
| Builder.WhereKeepsBuilderMade | src/queries/QueryBuilder.js:69-93 | where keeps the descriptor one the builder can produce |
| Builder.ConfigureKeepsBuilderMade | src/queries/QueryBuilder.js:40-49 | the constructor's loop keeps the descriptor one the builder can produce |
| Codec.ReplayOkIff | src/queries/QueryBuilder.js:99-128 | fromJSON succeeds exactly when no property has an unknown name (is an `Extra`) and every `type` property is find or findOne |
| Codec.ReplayCondsKeepsBuilderMade | src/queries/QueryBuilder.js:121-124 | replaying a group's fields keeps the descriptor one the builder can produce |
| Codec.ReplayKeepsBuilderMade | src/queries/QueryBuilder.js:97-131 | whatever fromJSON accepts yields a descriptor the builder can produce |
| Codec.ReplayCondsExtends | src/queries/QueryBuilder.js:121-124 | replaying the rest of a group whose first fields are in place completes that group at its position |
| Codec.ReplayCondsAppends | src/queries/QueryBuilder.js:121-124 | replaying a new group with distinct fields appends exactly that group |
| Codec.ReplayRebuilds | src/queries/QueryBuilder.js:99-129 | replaying the rest of a builder-made descriptor after its prefix rebuilds the whole descriptor |
| Codec.RoundTrip | src/queries/QueryBuilder.js:94-131 | fromJSON of a builder-made descriptor succeeds and yields exactly that descriptor: the same properties, in the same order, with the same contents |
| Codec.DecodeTwice | src/queries/QueryBuilder.js:94-131 | decoding what fromJSON built again gives the same descriptor |
| Ordering.BelowIrreflexive | src/queries/QueryBuilder.js:263 | no string is below itself |
| Ordering.BelowTransitive | src/queries/QueryBuilder.js:263 | string `<` is transitive |
| Ordering.BelowTotal | src/queries/QueryBuilder.js:263-265 | any two different strings are ordered exactly one way |
| Ordering.CharOrder | src/queries/QueryBuilder.js:263 | two different characters have different ranks, and rank order is the order of their UTF-16 encodings followed by anything |
| Ordering.BelowIsCodeUnitOrder | src/queries/QueryBuilder.js:263 | the model's string `<` is exactly lexicographic order on the strings' UTF-16 code units |
| Ordering.Compare3 | src/queries/QueryBuilder.js:261-266 | `comparator` is negative, zero or positive exactly when the first key is below, equal to or above the second |
| Ordering.SortByProperties | src/queries/QueryBuilder.js:231-240 | the sort returns a sorted permutation of its input, of the same length |
| Ordering.SortedPermutationsEqual | src/queries/QueryBuilder.js:231-240 | two sorted sequences with the same elements are equal when no two different elements share a key |
| Ordering.SortByCanonical | src/queries/QueryBuilder.js:231-240 | the sort's result depends only on the multiset of its input when keys tell elements apart |
| Ordering.SortBySortedIsIdentity | src/queries/QueryBuilder.js:203 | sorting an already sorted sequence changes nothing |
| Values.IntToDecimal | src/queries/QueryBuilder.js:192-195 | the decimal text of skip and limit starts with '-' exactly for negative numbers, is otherwise digits without leading zeros, and denotes the number itself |
| Hashing.SortArrays | src/queries/QueryBuilder.js:202-204 | each value of a within/contains group is sorted or left alone; all are sorted exactly when all are arrays; otherwise it throws NotAnArray for a field whose value is not an array |
| Hashing.SortedEntry | src/queries/QueryBuilder.js:200-204 | the property hashing leaves keeps its name; it throws exactly when a within/contains value is not an array, and otherwise becomes the property with its arrays sorted |
| Hashing.Normalize | src/queries/QueryBuilder.js:167-204 | hashing keeps the number and names of the properties, throws exactly when a within/contains value is not an array, and otherwise sorts every such array |
| Hashing.PairsOf | src/queries/QueryBuilder.js:215-217 | a group contributes one (field, stringified value) pair per field, in field order |
| HashProperties.CanonValueSortedPermutation | src/queries/QueryBuilder.js:203 | a within/contains array is replaced by a sorted permutation of itself |
| HashProperties.CanonValueIdempotent | src/queries/QueryBuilder.js:203 | sorting an array twice is sorting it once |
| HashProperties.NormalizeOnlySortsArrays | src/queries/QueryBuilder.js:200-204 | hashing changes nothing in the descriptor but within/contains values, each sorted or left alone |
| HashProperties.SortArraysIdempotent | src/queries/QueryBuilder.js:202-204 | the in-place sort of a group, done twice, equals doing it once |
| HashProperties.NormalizeIdempotent | src/queries/QueryBuilder.js:200-204 | normalising a normalised descriptor changes nothing, the error included |
| HashProperties.HashTwice | src/queries/QueryBuilder.js:156-259 | hashing the descriptor a hash left behind gives the same result, and leaves it as it was |
| HashProperties.ScanFixedSegment | src/queries/QueryBuilder.js:167-196 | the from, byKey, sort, skip and limit segments are the texts of the last such properties |
| HashProperties.ScanProjection | src/queries/QueryBuilder.js:176-183 | the projection segment is the text of whichever of only and except comes last |
| HashProperties.NormalizeKeepsBuilderMade | src/queries/QueryBuilder.js:200-204 | sorting the arrays, completed or stopped by a throw, keeps the descriptor one the builder can produce |
| HashProperties.ScanGroupsMembers | src/queries/QueryBuilder.js:200-218 | the hash loop collects one group per comparator property, in property order, and nothing else |
| HashProperties.ScanGroupsTokens | src/queries/QueryBuilder.js:212-214 | in a descriptor without repeated names, the collected groups have distinct tokens |
| HashProperties.ScanGroupsByComparator | src/queries/QueryBuilder.js:200-218 | the collected groups are exactly the tokens and pairs of the comparators present |
| HashProperties.PairsCanonical | src/queries/QueryBuilder.js:229-232 | a group's sorted pairs depend only on its (field, value) contents, not on field order |
| HashProperties.SortEachGroupMembers | src/queries/QueryBuilder.js:229-232 | after the pair sort, the groups are exactly the comparators present with sorted pairs, with distinct tokens |
| HashProperties.GroupsCanonical | src/queries/QueryBuilder.js:229-240 | descriptors with the same groups and contents emit the same sorted groups |
| HashProperties.HeadCanonical | src/queries/QueryBuilder.js:222-227 | descriptors with the same fixed properties and projection give the same head text |
| HashProperties.AssembleCanonical | src/queries/QueryBuilder.js:222-252 | descriptors with the same fixed properties, projection and group contents assemble the same text |
| HashProperties.NormalizedKeeps | src/queries/QueryBuilder.js:167-199 | a successful hash leaves every property not named after a comparator where it was, unchanged |
| HashProperties.NormalizedGroups | src/queries/QueryBuilder.js:200-204 | a successful hash keeps the same groups present and sorts the values under within/contains |
| HashProperties.NormalizedContent | src/queries/QueryBuilder.js:200-204 | a successful hash keeps the descriptor well formed, its fixed properties, its projection and its groups, and sorts every within/contains value |
| HashProperties.ArraysOnlyAlike | src/queries/QueryBuilder.js:202-204 | descriptors with the same content both throw or both do not |
| HashProperties.HashOrderIndependent | src/queries/QueryBuilder.js:156-255 | descriptors with the same content (groups and fields in any order, within/contains arrays in any order) both hash to the same text or both throw |
| HashProperties.PermutationSameGets | src/queries/QueryBuilder.js:167-169 | reordered descriptors read the same under every name |
| HashProperties.HashPermutationInvariant | src/queries/QueryBuilder.js:167-255 | reordering a descriptor's properties does not change its hash, unless it holds both only and except |
| HashExamples.HashOfEmpty | src/queries/QueryBuilder.js:222-254 | the empty descriptor hashes to undefined |
| HashExamples.HashWithoutNamespace | src/queries/QueryBuilder.js:222-227 | without a namespace the hash text starts with "undefined" |
| HashExamples.NormalizeWithoutArrays | src/queries/QueryBuilder.js:200-204 | a descriptor without within/contains groups is left as it is and does not throw |
| HashExamples.DirectionTokens | src/queries/QueryBuilder.js:149-150 | asc and desc abbreviate to ^ and v, and a missing direction reads "undefined" |
| HashExamples.SortSegmentExample | src/queries/QueryBuilder.js:185-189 | the sort segment has no separator between field/direction pairs |
| HashExamples.GroupOrderExample | src/queries/QueryBuilder.js:234-240 | groups are emitted in token order whatever order they were added in |
| HashExamples.HashWithinNotAnArray | src/queries/QueryBuilder.js:200-204 | a within value that is not an array makes the hash throw |
| HashExamples.ArrayOrderMattersWhenRenderingsCollide | src/queries/QueryBuilder.js:203 | the sort is stable, so elements with the same String rendering keep their order |
| HashExamples.OneGroupHash | src/queries/QueryBuilder.js:200-252 | a descriptor of one group with one field hashes to "undefined", two separators, the token, the field and the value's JSON text, the array sorted for within/contains |
| HashExamples.ArrayOrderChangesHash | src/queries/QueryBuilder.js:200-252 | within [1, "1"] and within ["1", 1] hash to different texts |
| HashExamples.ConstructorChainSameHash | src/queries/QueryBuilder.js:156-259 | the configured builder and the chained builder above succeed alike and hash to the same result |
| HashSteps.SortArraysFailsAt | src/queries/QueryBuilder.js:202-204 | the in-place sort throws at the first value that is not an array, having sorted the values before it and left the rest |
| HashSteps.NormalizeFailsAt | src/queries/QueryBuilder.js:167-204 | the hash throws at the first property that throws, having handled the properties before it and left the rest |
| HashSteps.NormalizeAllOk | src/queries/QueryBuilder.js:167-204 | when no property throws, the hash handles every property |
| Queries.QueryBuilder.constructor | src/queries/QueryBuilder.js:40-41 | a new builder has an empty descriptor and no cursor |
| Queries.QueryBuilder.From | src/queries/QueryBuilder.js:61-64 | `from` assigns the from property and nothing else |
| Queries.QueryBuilder.ByKey | src/queries/QueryBuilder.js:65-68 | `byKey` assigns the byKey property and nothing else |
| Queries.QueryBuilder.Sort | src/queries/QueryBuilder.js:276-284 | `sort` assigns the sort property and nothing else |
| Queries.QueryBuilder.Skip | src/queries/QueryBuilder.js:276-284 | `skip` assigns the skip property and nothing else |
| Queries.QueryBuilder.Limit | src/queries/QueryBuilder.js:276-284 | `limit` assigns the limit property and nothing else |
| Queries.QueryBuilder.Only | src/queries/QueryBuilder.js:276-284 | `only` assigns the only property and nothing else |
| Queries.QueryBuilder.Except | src/queries/QueryBuilder.js:276-284 | `except` assigns the except property and nothing else |
| Queries.QueryBuilder.Find | src/queries/QueryBuilder.js:307-310 | `find` sets type to 'find' (the last call wins) |
| Queries.QueryBuilder.FindOne | src/queries/QueryBuilder.js:312-315 | `findOne` sets type to 'findOne' (the last call wins) |
| Queries.QueryBuilder.Compare | src/queries/QueryBuilder.js:293-305 | a comparator method performs exactly the comparator transition: val under the cursor field in op's group |
| Queries.QueryBuilder.ToJSON | src/queries/QueryBuilder.js:94 | toJSON hands out the descriptor, which fromJSON always accepts and rebuilds exactly, since every builder keeps its descriptor one the builder can produce |
| Queries.QueryBuilder.Where | src/queries/QueryBuilder.js:69-93 | where leaves the state, and throws or not, exactly as the where transition says, keeping changes made before a throw; `null` throws `NullWhere` (reading its constructor fails) and any other non-object `InvalidWhere` |
| Queries.QueryBuilder.AnyReservedKey | src/queries/QueryBuilder.js:51-58 | keyMatch(spec, isReserved) is true exactly when some key of the spec is a comparator name |
| Queries.QueryBuilder.WhereMember | src/queries/QueryBuilder.js:81-91 | one field of the object form moves the cursor to it, then throws on null, dispatches a spec with a comparator key, or stores the value under equals, exactly as the one-field transition says |
| Queries.QueryBuilder.ApplySpec | src/queries/QueryBuilder.js:86-88 | dispatching a spec's keys performs the comparator transitions in order, throwing at the first key that is not a comparator |
| Queries.QueryBuilder.Configure | src/queries/QueryBuilder.js:43-48 | the constructor's loop performs the configuration transition, key by key, stopping at the first throw; a whitelisted key always reaches its setter (or `where`), and only a key outside `validQueryParams` throws `UnknownOperator` |
| Queries.QueryBuilder.ApplyParam | src/queries/QueryBuilder.js:44-47 | one configuration key either calls its whitelisted setter with its value or, when the key is outside `validQueryParams`, throws naming it, exactly as the one-key transition says |
| Queries.QueryBuilder.Create | src/queries/QueryBuilder.js:40-49 | `new QueryBuilder(params)` succeeds exactly when the configuration applies without a throw, with the configured state; otherwise it reports that throw; a configuration of whitelisted setters always succeeds (`Builder.ConfigureSettersOnly`) |
| Queries.QueryBuilder.FromJSON | src/queries/QueryBuilder.js:97-131 | fromJSON succeeds exactly when the replay does, with the replayed state; otherwise it reports the first property it refuses |
| Queries.QueryBuilder.Put | src/queries/QueryBuilder.js:100-128 | one property of fromJSON is replayed by the matching builder call, or refused with its error |
| Queries.QueryBuilder.PutGroup | src/queries/QueryBuilder.js:121-124 | a group is replayed as `where(field)` then the comparator, for each field in order |
| Queries.QueryBuilder.Hash | src/queries/QueryBuilder.js:257-259 | proto.hash returns the hash of the descriptor and leaves the descriptor with its arrays sorted, as the static hash does |
| Queries.QueryBuilder.HashDescriptor | src/queries/QueryBuilder.js:156-255 | the static hash returns the hash text or error, and the input as it leaves it |
| Queries.QueryBuilder.SortAndScan | src/queries/QueryBuilder.js:167-220 | the loop over properties sorts arrays as normalisation says, and when nothing throws fills the segments as the scan says |
| Queries.QueryBuilder.HashEntry | src/queries/QueryBuilder.js:168-219 | one pass of the loop handles the property as normalisation says, and when it does not throw updates the segments as one scan step |
| Queries.QueryBuilder.HashFixed | src/queries/QueryBuilder.js:170-199 | the loop body for a property that is not a group is one scan step |
| Queries.QueryBuilder.HashGroup | src/queries/QueryBuilder.js:200-218 | the loop body for a group sorts within/contains arrays, then appends the group's token and pairs |
| Queries.QueryBuilder.SortGroupArrays | src/queries/QueryBuilder.js:202-204 | `val[k] = val[k].sort()` over a group is the in-place sort of its arrays, up to a throw |
| Queries.QueryBuilder.FieldListText | src/queries/QueryBuilder.js:179-182 | the projection text is each field preceded by the separator |
| Queries.QueryBuilder.SortText | src/queries/QueryBuilder.js:185-189 | the sort text is each field, the separator and the abbreviated direction, two positions at a time |
| Queries.QueryBuilder.GroupPairs | src/queries/QueryBuilder.js:215-217 | the pairs collected for a group are its (field, stringified value) pairs in order |
| Queries.QueryBuilder.SortGroups | src/queries/QueryBuilder.js:229-240 | every group's pairs are sorted by field, then the groups by token |
| Queries.QueryBuilder.RenderAll | src/queries/QueryBuilder.js:242-252 | the groups are appended in order after the head |
| Queries.QueryBuilder.RenderOne | src/queries/QueryBuilder.js:243-251 | one group is appended as two separators and its token, then separator, field, separator and value per pair |

## Left out

- `console.error(param)` in `where`. It is diagnostic output only; the thrown error is modelled.
- `module.exports` and the load-time loops that generate the setters and comparator methods. The generated methods are declared one by one, and the eight comparator methods are one method `Compare` over the comparator kind.
- Dispatch by name to arbitrary methods. In the source, a configuration key, a `where` spec key or a `type` value can reach any method of the prototype. Here only the names listed in the source reach a builder operation; any other name is an explicit error:
  - `UnknownOperator` for a configuration key;
  - `NotAComparator` for a spec key;
  - `UnknownType` for a `type` value.
- Prototype-inherited property names (`in` also sees names such as `toString`). They are treated as unknown names.
- A `where` argument or spec that is `undefined`. Reading its constructor throws in `where`; the model's values have no `undefined`, and only `null` is modelled (`NullWhere`, `NullSpec`).
- Values other than plain objects that have a constructor other than `Object` (dates, class instances). These are the source's `constructor !== Object` tests, and the model's values have no such objects.
- JavaScript's enumeration of integer-like property names before other names. Objects keep plain insertion order here.
- Full `JSON.stringify`. `Stringify` renders integers, strings without escaping, booleans, null, arrays and objects. Floating-point numbers and string escaping are not modelled.
- Injectivity of the hash. `:` is never escaped, so different descriptors can share a hash; nothing is claimed about that.
- Aliasing of the object `toJSON` returns. `ToJSON` returns the descriptor as a value; changes made through the live reference are not modelled. Likewise, `hash` sorts the `within`/`contains` arrays in place (`val[k] = val[k].sort()`), so an array a caller passed to `within` or `contains` and still holds is reordered too; the model shows that sort only in the builder's descriptor.
- Chaining. The methods return no builder.
- Typed property values. The source's setters store whatever they are given; here each setter takes the type its use implies: `from` a string, `byKey` any value, `skip` and `limit` an integer, `sort`, `only` and `except` string lists, a group its (field, value) conditions. Values of other types under those names, JavaScript's number range, and `String` formatting of numbers that are not plain integers (fractions, exponent notation from 1e21 up) are not modelled.
- Unknown configuration keys. A `PUnknown` parameter carries a key outside the constructor's whitelist (`Builder.UnknownParamName`); a whitelisted key always arrives as its own typed parameter (`PFrom`, `PWhere`, …).
- Unknown property names. An `Extra` property carries a name that is not one of the descriptor's known names (`Descriptor.ForeignName`); a known name always arrives as its typed property.
- Call-stack depth, time and memory limits.
- HashProperties.HashOrderIndependent: when both descriptors throw, the errors are not claimed equal. Different non-array values can be met first in different property orders.
- HashProperties.HashPermutationInvariant: stated only for descriptors that do not hold both `only` and `except`. With both present, the one enumerated last decides the projection, so their order does matter.
- HashProperties.SameSpec: two within/contains arrays count as alike only when no two different elements share a `String` rendering. The sort is stable, so `[1, "1"]` and `["1", 1]` keep their orders (HashExamples.ArrayOrderMattersWhenRenderingsCollide) and hash differently (HashExamples.ArrayOrderChangesHash).
