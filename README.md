# angelica-ui utilities and list mixins, modelled in Dafny

This project models the logic of three files of the angelica-ui component
library and proves properties about it.

- `src/utils/index.ts` holds tree utilities over a forest of records linked
  through a children field:
  - the pre-order and post-order walks `recursion` and `deepRecursion`;
  - the any-field search `getMatch`;
  - the ancestor chain `carryChained` / `getChained`;
  - the depth of a match `getDepth`;
  - the flat-list-to-forest builder `toTree`.

  It also holds the memoising wrapper `cacheCalc` and the formatting helpers
  `padStart` and `formatTime`.
- `src/utils/utils.ts` holds the breadth-first queue search `getValue`, plus
  copies of `recursion` (lines 16-26), `carryChained` (59-80), `getChained`
  (88-103), `padStart` (111-114) and `formatTime` (122-129). These copies
  are the same code as in `index.ts`, so each is modelled once, and the
  rows citing `index.ts` cover them too.
- `src/mixins/list.ts` holds the framework-free parts of the list mixins:
  - the one-directional parameter comparator `isEqual`;
  - the selection merge of the popup list across pages;
  - the pagination state (`updatePageNum`, `querySearch`, `pageChange`,
    `sortChange`) and the request `parameter`;
  - the computed `selection` and `finalColumns`, `finalAuth` and `authObj`;
  - the tab fallback `getActiveValue`.

  `list.ts` carries each mixin twice: as an object mixin (lines 1-380) and
  as a decorated class (lines 382-723). The rows cite the class version,
  and cover the object mixin's copy too where the two agree (for instance
  `deletedUpdatePageInfo`, lines 134-148, is `updatePageNum`). The versions
  differ in these places:
  - `authObj` keys each permission by `v.perms` in the object mixin
    (lines 36-39) and by `v.path` in the class (lines 401-407). The
    model's `AuthObj` takes the field name as a parameter, so it covers both.
  - `handover` is live only in the object mixin (line 216). In the class it
    is commented out (line 558).
  - `getActiveValue` exists only in the class (line 540).
  - The class `setRouteQuery` is empty.

## Modules

| file | module | models |
|---|---|---|
| `js.dfy` | `Js` | JavaScript values (`Val`), plain objects as ordered entries, records as maps, `ToPropertyKey`, `String(n)` for integers, tree nodes |
| `tree_utils.dfy` | `TreeUtils` | `recursion`, `deepRecursion`, `getMatch`, `carryChained`, `getChained`, `getDepth` |
| `level_search.dfy` | `LevelSearch` | `getValue` |
| `tree_build.dfy` | `TreeBuild` | `toTree` |
| `memo.dfy` | `Memo` | `cacheCalc` |
| `format.dfy` | `Format` | `padStart`, `formatTime` |
| `list_state.dfy` | `ListState` | `list.ts` |

**Records and trees.** A record is a map from field name to value; a
missing field reads as `undefined`. A tree node is
`Node(fields, children)` with one fixed children field. An absent children
field and an empty array are both `[]`, which is all the utilities tell
apart (`v[childrenKey] && v[childrenKey].length`). A search condition is the
list of `Object.entries` of the partial record. A callback is modelled by
the trace of the values it receives, in call order.

**toTree.** The builder is modelled twice:
- a functional specification `Build` made of one `Step` per record;
- the imperative `ToTree` method, proved equal to `Build`.

Both work on an arena:
- the shallow copies live in an array indexed like the input;
- children arrays are identified by their index, because `toTree` shares
  them by reference (a root takes over the array of a placeholder);
- `templ` maps a key to a copy or to a placeholder's array.

**Memoiser and list state.** `cacheCalc`'s closure is the class
`Memo.CacheCalc`, with its dictionary as a `map` field. The popup list and
the list mixin are the classes `ListState.PopupList` and
`ListState.ListMixin`. Their fields are the mixins' data, which the methods
update in place.

**Where the documented behaviour and the code disagree, the model follows
the code:**
- `getDepth` does not return -1 for a missing value (see Findings).
- `toTree` does not link a child listed before a non-root parent (see
  Findings).
- `cacheCalc` reuses a cached value only when it is truthy, not whenever
  the key exists.
- `getMatch` accepts a node equal on any one field of the condition and
  compares with `===`, not field by field in depth.

## Model

| member | source | states |
|---|---|---|
| TreeUtils.Recursion | angelica-ui/src/utils/index.ts:76-86 | `recursion` always returns true, for an empty array too. The callback receives exactly as many nodes as the forest holds, the first top-level node first. |
| TreeUtils.RecursionAppend | angelica-ui/src/utils/index.ts:81-85 | Siblings are walked left to right: the walk of `a + b` is the walk of `a` followed by the walk of `b`. |
| TreeUtils.ParentOrder | angelica-ui/src/utils/index.ts:76-104 | `recursion` visits a node before everything below it; `deepRecursion` visits it after. |
| TreeUtils.DeepRecursion | angelica-ui/src/utils/index.ts:94-104 | `deepRecursion` always returns true. The callback receives one call per node, and the last call is on the last top-level node. |
| TreeUtils.DeepRecursionAppend | angelica-ui/src/utils/index.ts:99-103 | The post-order walk also goes through siblings left to right. |
| TreeUtils.WalksVisitSameNodes | angelica-ui/src/utils/index.ts:76-104 | Both walks hand every node of the forest to the callback, each the same number of times. |
| TreeUtils.GetMatch | angelica-ui/src/utils/index.ts:54-68 | Returns `undefined` or a node of the forest that equals the condition on at least one field. It is `undefined` exactly when no node of the forest equals the condition on any field. |
| TreeUtils.MatchNode | angelica-ui/src/utils/index.ts:60-66 | The inner loop over a node's condition entries finds nothing exactly when no remaining entry is equal and no child subtree matches. |
| TreeUtils.GetMatchEmpty | angelica-ui/src/utils/index.ts:54-68 | An empty condition or an empty source gives `undefined`. |
| TreeUtils.GetMatchPrefersChildOnEarlierField | angelica-ui/src/utils/index.ts:60-64 | The result is not the first node in pre-order that matches: a child equal on the first field wins over its parent equal on the second. |
| TreeUtils.FirstAllMatch | angelica-ui/src/utils/index.ts:119-121 | Index of the first node satisfying every field of the condition: all earlier nodes fail. |
| TreeUtils.CarryChained | angelica-ui/src/utils/index.ts:113-134 | With no match the callback never runs. With a match, its first call is on a node satisfying every field with `isDeep = true`, and every later call omits `isDeep`. |
| TreeUtils.CarryChainedFindsFirst | angelica-ui/src/utils/index.ts:113-134 | Returns true iff some node satisfies every field. The node first handed to the callback is the first such node in pre-order. |
| TreeUtils.CarryChainedTraceIsChain | angelica-ui/src/utils/index.ts:122-131 | After the match the callback runs once per ancestor, innermost first. So the reversed trace starts at a top-level node and each element is a child of the one before. |
| TreeUtils.CarryChainedEmptyCondition | angelica-ui/src/utils/index.ts:119-125 | An empty condition matches the first top-level node, and the callback runs only on it. |
| TreeUtils.RootFirst | angelica-ui/src/utils/index.ts:151-153 | `unshift` of each received node builds the trace reversed. |
| TreeUtils.GetChained | angelica-ui/src/utils/index.ts:142-157 | The loop builds the reversed callback trace. It is empty iff nothing matches; otherwise it is a root-first chain ending at the first node, in pre-order, that satisfies every field. |
| TreeUtils.GetDepth | angelica-ui/src/utils/index.ts:192-207 | As written: the result is at least -1. It is -1 iff the data is not an array or no top-level item holds the value or has children. It is 0 when the first item holds the value. |
| TreeUtils.DepthLoop | angelica-ui/src/utils/index.ts:199-206 | The loop returns -1 exactly when every item neither holds the value nor has children. |
| TreeUtils.GetDepthTopLevel | angelica-ui/src/utils/index.ts:199-200 | A top-level item holding the value gives 0 when no item before it holds the value or has children. |
| TreeUtils.GetDepthMissingValue | angelica-ui/src/utils/index.ts:201-203 | On `[{id:1, children:[{id:2}]}]` no node holds 99, yet the depth reported for 99 is 0. |
| TreeUtils.GetDepthCorrectedIsChainLength | angelica-ui/src/utils/index.ts:192-207 | With the recursive result compared with -1, the depth is the length of `carryChained`'s trace minus one: -1 exactly when nothing matches, 0 at the top level, one more per level. |
| LevelSearch.GetValue | angelica-ui/src/utils/utils.ts:36-50 | `null` for a missing or empty source. Otherwise the result is the first node in level order satisfying every field, and `null` iff no node does. |
| LevelSearch.Bfs | angelica-ui/src/utils/utils.ts:36-50 | Draining the `shift`/`push` queue hands out as many nodes as the forests in the queue hold. |
| LevelSearch.Levels | angelica-ui/src/utils/utils.ts:39-48 | Level order lists as many nodes as the forest holds. |
| LevelSearch.BfsIsLevels | angelica-ui/src/utils/utils.ts:39-48 | The `shift`/`push` queue hands out the forest level by level. |
| LevelSearch.BfsSplit | angelica-ui/src/utils/utils.ts:44-47 | Draining `q + r` hands out `q`, then drains `r` followed by the children of `q`. |
| LevelSearch.LevelsSameNodesAsPreOrder | angelica-ui/src/utils/utils.ts:39-48 | The queue visits every node of the forest, as often as the pre-order walk does. |
| LevelSearch.LevelSearchAgreesWithCarryChained | angelica-ui/src/utils/utils.ts:36-50 | `getValue` finds a node exactly when `carryChained` does. |
| LevelSearch.GetValueEmptyCondition | angelica-ui/src/utils/utils.ts:38-43 | An empty condition returns the first source. |
| LevelSearch.MatchAtHead | angelica-ui/src/utils/utils.ts:42-43 | A matching queue head is the first match of everything handed out so far. |
| LevelSearch.SkipHead | angelica-ui/src/utils/utils.ts:44-47 | A non-matching head leaves the queue and its children join the back, without changing the order of what is handed out. |
| TreeBuild.AddCopy | angelica-ui/src/utils/index.ts:250-252 | Adding a shallow copy keeps every index of the arena inside it. |
| TreeBuild.Attach | angelica-ui/src/utils/index.ts:254-258 | The array named for the push exists in the arena, and every index stays inside it. |
| TreeBuild.Adopt | angelica-ui/src/utils/index.ts:262 | Taking over a children field keeps every index inside the arena. |
| TreeBuild.Step | angelica-ui/src/utils/index.ts:249-266 | One pass of the callback adds exactly one copy and keeps every index inside the arena. |
| TreeBuild.Build | angelica-ui/src/utils/index.ts:237-268 | The arena after `source` holds one copy per record, with every index inside it. |
| TreeBuild.ToTree | angelica-ui/src/utils/index.ts:237-268 | The loop over `source` produces exactly the arena of `Build`: result, copies and children arrays. |
| TreeBuild.StepAt | angelica-ui/src/utils/index.ts:249-266 | One pass of the `every` callback on the arrays is one `Step`. |
| TreeBuild.AddCopyAt | angelica-ui/src/utils/index.ts:250-252 | The shallow copy, with a fresh children array under `retainChildrenKey`, is stored at the record's index. |
| TreeBuild.AttachParent | angelica-ui/src/utils/index.ts:254-258 | The parent's `templ` entry gets a children array, either its own, a new one or a new placeholder. Copies after the current index are untouched. |
| TreeBuild.TakeOver | angelica-ui/src/utils/index.ts:262 | A root takes the children field of the `templ` entry for its key; reading an absent field gives `undefined`. |
| TreeBuild.StepResult | angelica-ui/src/utils/index.ts:253-261 | A step appends the new copy to the result exactly when its parent key is falsy. |
| TreeBuild.StepFields | angelica-ui/src/utils/index.ts:250 | A step stores the record's fields in the new copy and leaves older copies' fields alone. |
| TreeBuild.StepTempl | angelica-ui/src/utils/index.ts:257-264 | After a step, the record's key points to its copy, other keys keep their entries, and any new entry is a placeholder. |
| TreeBuild.StepGrows | angelica-ui/src/utils/index.ts:249-266 | A step only appends to children arrays, and never replaces a children array a copy already holds. |
| TreeBuild.StepArraysOk | angelica-ui/src/utils/index.ts:259 | A step pushes only the newest record, which has a parent, at the back of one array. |
| TreeBuild.StepAllArrays | angelica-ui/src/utils/index.ts:252-255 | With `retainChildrenKey`, a step keeps every copy holding a children array. |
| TreeBuild.StepAttachesToCopy | angelica-ui/src/utils/index.ts:254-259 | A child whose parent key maps to a copy is pushed into that copy's children array. |
| TreeBuild.StepAttachesToHolder | angelica-ui/src/utils/index.ts:256-259 | A child whose parent has no copy yet is pushed into the placeholder's array, and the placeholder stays under the parent key. |
| TreeBuild.StepAdoptsHolder | angelica-ui/src/utils/index.ts:262 | A root (or, corrected, any record) takes over the placeholder array for its key. |
| TreeBuild.ToTreeRoots | angelica-ui/src/utils/index.ts:253-261 | The result holds exactly the copies of the records with a falsy parent key, in input order. |
| TreeBuild.ToTreeCopiesFields | angelica-ui/src/utils/index.ts:250 | Each copy carries its record's fields, so the input records are copied, not changed. |
| TreeBuild.ToTreeArraysInOrder | angelica-ui/src/utils/index.ts:259 | Every children array lists records with a truthy parent key, each at most once, in input order. |
| TreeBuild.ToTreeRetainsChildren | angelica-ui/src/utils/index.ts:252 | With `retainChildrenKey`, every produced record has a children array. |
| TreeBuild.BuildGrows | angelica-ui/src/utils/index.ts:249-266 | Later records only append to arrays and never take a children array away from a copy. |
| TreeBuild.BuildTracks | angelica-ui/src/utils/index.ts:264 | `templ` maps the key of every record seen to the copy of the last record with that key (last write wins). |
| TreeBuild.TemplPointsToLast | angelica-ui/src/utils/index.ts:264 | The last record with a key is the one `templ` points to at the end. |
| TreeBuild.ChildUnderEarlierParent | angelica-ui/src/utils/index.ts:253-259 | A record whose parent key is the key of an earlier record ends up in the children of the last such record. |
| TreeBuild.HolderPersists | angelica-ui/src/utils/index.ts:257-264 | A placeholder stays in `templ` until a record with its key arrives. |
| TreeBuild.NoCopyBeforeParent | angelica-ui/src/utils/index.ts:254-257 | With unique keys, before the parent's own record its key has at most a placeholder. |
| TreeBuild.ChildInPlaceholder | angelica-ui/src/utils/index.ts:254-259 | A child listed before its parent is collected in the placeholder for the parent key. |
| TreeBuild.ParentTakesPlaceholder | angelica-ui/src/utils/index.ts:262 | A root parent listed later takes the placeholder array as its children. |
| TreeBuild.ChildUnderParent | angelica-ui/src/utils/index.ts:253-264 | With unique keys, a child ends up in its parent's children when the parent comes first or is a root (always, in the corrected variant). |
| TreeBuild.ChildUnderLaterParent | angelica-ui/src/utils/index.ts:257-262 | A child listed before a root parent is linked under it. |
| TreeBuild.ChildrenShareParentKey | angelica-ui/src/utils/index.ts:253-264 | Every member of a copy's children array has a truthy parent key equal to that copy's key: no record lands under a wrong parent, as written or corrected. |
| TreeBuild.ChildInOneArray | angelica-ui/src/utils/index.ts:259 | A record sits in at most one children array. |
| TreeBuild.KidsStay | angelica-ui/src/utils/index.ts:255-262 | A children array assigned to a copy stays its children array to the end. |
| TreeBuild.ToTreeLosesEarlyChild | angelica-ui/src/utils/index.ts:253-264 | As written, in `[{id:3,pid:2},{id:2,pid:1},{id:1,pid:0}]` the record with id 3 is in no children array and not in the result. |
| TreeBuild.CorrectedKeepsEarlyChild | angelica-ui/src/utils/index.ts:262 | When every record takes over its placeholder, both children of that input stay linked. |
| Memo.CalcArgs | angelica-ui/src/utils/index.ts:222 | `calcFunc` receives `args` when `isAbandon` is set, else the sign followed by `args`. |
| Memo.CallSpec | angelica-ui/src/utils/index.ts:214-226 | A hit returns the truthy stored value and leaves the cache alone. A miss returns what `calcFunc` gives for the arguments it is handed, stores a defined result under the sign's key, and leaves the cache unchanged after `undefined`. |
| Memo.CallKeepsCache | angelica-ui/src/utils/index.ts:221-223 | `undefined` is never stored, no entry is dropped, and only the sign's entry can change. `calcFunc` is skipped exactly when the sign's cached value is truthy. |
| Memo.TruthyResultIsReused | angelica-ui/src/utils/index.ts:221 | After a truthy result, the next call with that sign returns it without invoking `calcFunc`, whatever its arguments. |
| Memo.FalsyResultIsRecomputed | angelica-ui/src/utils/index.ts:221-223 | A falsy result other than `undefined` is stored, yet the next call with that sign invokes `calcFunc` again. |
| Memo.UndefinedResultIsRecomputed | angelica-ui/src/utils/index.ts:221-223 | An `undefined` result leaves the cache as it was, and the next call with that sign invokes `calcFunc` again with its own arguments. |
| Memo.NumberAndStringSignsShareAnEntry | angelica-ui/src/utils/index.ts:221 | The signs `1` and `"1"` index the same entry. |
| Memo.CacheCalc.constructor | angelica-ui/src/utils/index.ts:214-215 | The closure starts with an empty dictionary. |
| Memo.CacheCalc.Call | angelica-ui/src/utils/index.ts:216-225 | One call returns the value and leaves the dictionary of the call specification. It records the argument list `calcFunc` was invoked with, if it was, and keeps `undefined` out of the dictionary. |
| Format.Slice | angelica-ui/src/utils/index.ts:167 | `slice(-n)` keeps the last `n` characters, or the whole string when `n` exceeds its length or is 0. |
| Format.JoinOneChar | angelica-ui/src/utils/index.ts:166 | `Array(num).join(c)` is `num - 1` copies of `c`. |
| Format.JoinLength | angelica-ui/src/utils/index.ts:166 | `Array(num).join(z)` has length `(num - 1) * |z|`. |
| Format.PadStart | angelica-ui/src/utils/index.ts:165-168 | With `num = 0` the string is unchanged. Otherwise the result has `num` characters, or the whole padded text when that is shorter, and it ends with `str` or with the tail of `str`. |
| Format.Field | angelica-ui/src/utils/index.ts:182 | A field printed by `padStart(n, 2, 0)` always has two characters, for negative hours too. |
| Format.PadStartZero | angelica-ui/src/utils/index.ts:165-168 | With `num = 0` the string comes back unchanged. |
| Format.PadStartTruncates | angelica-ui/src/utils/index.ts:165-168 | A string of at least `num` characters is cut to its last `num`, whatever the filler. |
| Format.PadStartPads | angelica-ui/src/utils/index.ts:165-168 | With a one-character filler, a non-empty string shorter than `num` is padded on the left to exactly `num` characters. |
| Format.PadStartEmptyString | angelica-ui/src/utils/index.ts:165-168 | The empty string is padded to `num - 1` fillers, one short of `num`. |
| Format.ToInt32 | angelica-ui/src/utils/index.ts:179-181 | `~~` wraps modulo 2^32 into the signed 32-bit range, and is the identity inside it. |
| Format.JsRem | angelica-ui/src/utils/index.ts:180 | JavaScript's `%` agrees with the mathematical remainder for non-negative operands. |
| Format.TwoDigits | angelica-ui/src/utils/index.ts:182 | `padStart(n, 2, 0)` of a non-negative integer is its last two decimal digits. |
| Format.FieldReadsBack | angelica-ui/src/utils/index.ts:182 | A printed field is two digits that read back as the value modulo 100. |
| Format.FormatTime | angelica-ui/src/utils/index.ts:176-183 | The result is eight characters with colons at positions 2 and 5, for every non-negative integer. |
| Format.FormatTimeFields | angelica-ui/src/utils/index.ts:176-183 | In the 32-bit range the truncations of `formatTime` are integer division and remainder. |
| Format.FormatTimeRoundTrip | angelica-ui/src/utils/index.ts:176-183 | For `0 <= t < 360000` the result is `HH:MM:SS`, minutes and seconds are below 60, and `H*3600 + M*60 + S = t`. |
| Format.FormatTimeHourWraps | angelica-ui/src/utils/index.ts:179-182 | From 100 hours on, the hour field shows the hour modulo 100; minutes and seconds stay exact. |
| ListState.LooseEq | angelica-ui/src/mixins/list.ts:11 | `null` and `undefined` are `==` only to each other. Two numbers, or two strings, are `==` iff they are equal. |
| ListState.LooseEqSymmetric | angelica-ui/src/mixins/list.ts:11 | `==` does not depend on the order of its operands. |
| ListState.LooseEqReflexive | angelica-ui/src/mixins/list.ts:11 | Every modelled value is `==` to itself. |
| ListState.LooseEqNumberText | angelica-ui/src/mixins/list.ts:11 | A number is `==` to its decimal text, both ways round. |
| ListState.Prop | angelica-ui/src/mixins/list.ts:7-11 | Reading `query2[k]` throws exactly when `query2` is `null` or `undefined`. |
| ListState.IsEqual | angelica-ui/src/mixins/list.ts:5-15 | An empty `query1` is equal to anything. |
| ListState.EntryCheck | angelica-ui/src/mixins/list.ts:6-13 | A failed property read on `query2` throws, and for a primitive value of `query1` nothing else does. Otherwise a primitive side is compared with `==`, and a non-null object against an object-typed property recursively. |
| ListState.IsEqualFlat | angelica-ui/src/mixins/list.ts:6-14 | Against an object, a `query1` of primitive values is equal iff each of its values is `==` to the property of the same name. |
| ListState.IsEqualNested | angelica-ui/src/mixins/list.ts:7-8 | An object value against an object property is compared by recursing into both. |
| ListState.IsEqualIsFirstFailure | angelica-ui/src/mixins/list.ts:6-14 | `every` stops at the first entry that fails or throws. The result is true iff every entry of `query1` checks out; otherwise it is the outcome of the first entry that does not. |
| ListState.IsEqualReadsOnlyItsKeys | angelica-ui/src/mixins/list.ts:6-14 | Only the properties of `query2` named by `query1` are read. |
| ListState.IsEqualIgnoresExtraKeys | angelica-ui/src/mixins/list.ts:5-15 | Keys of `query2` beyond those of `query1` do not change the answer. |
| ListState.NullValueThrows | angelica-ui/src/mixins/list.ts:7-8 | `isEqual({a: null}, {a: null})` throws, because `typeof null` is `'object'`. |
| ListState.EmptyObjectMatchesNull | angelica-ui/src/mixins/list.ts:7-8 | `isEqual({a: {}}, {a: null})` is true. |
| ListState.IsEqualCorrected | angelica-ui/src/mixins/list.ts:5-15 | With `null` kept out of the recursion, comparing against an object never throws. |
| ListState.IsEqualCorrectedReflexive | angelica-ui/src/mixins/list.ts:7-8 | With `null` kept out of the recursion, every parameter object equals itself, `null` values included. |
| ListState.IsEqualParams | angelica-ui/src/mixins/list.ts:427-430 | The method answers false unless both parameters are given, and otherwise is `isEqual`. |
| ListState.IsEqualReflexive | angelica-ui/src/mixins/list.ts:427-430 | A parameter object without `null` inside is equal to itself. |
| ListState.IsEqualIsOneDirectional | angelica-ui/src/mixins/list.ts:5-15 | `{}` equals `{a: 1}`, but not the other way round. |
| ListState.NewItems | angelica-ui/src/mixins/list.ts:703-712 | The new items are at most as many as `obj2`, each from `obj2` and with a key matching no `obj1` item. |
| ListState.NewItemsCount | angelica-ui/src/mixins/list.ts:703-712 | The new items are exactly the `obj2` items whose key matches no `obj1` item, each duplicate kept. |
| ListState.NewItemsAppend | angelica-ui/src/mixins/list.ts:705-710 | The new items keep the order of `obj2`. |
| ListState.MergeIsIdempotent | angelica-ui/src/mixins/list.ts:689-694 | Merging the same page selection a second time adds nothing. |
| ListState.MergeKeepsKeysDistinct | angelica-ui/src/mixins/list.ts:689-694 | Selections without repeated keys merge into a selection without repeated keys. |
| ListState.PopupList.constructor | angelica-ui/src/mixins/list.ts:603-610 | The checked items start as a copy of the `checked` prop, and the page selection starts empty. |
| ListState.PopupList.GetUniqueData | angelica-ui/src/mixins/list.ts:703-712 | The push loop returns the new items of `obj2`. |
| ListState.PopupList.MergeCheckData | angelica-ui/src/mixins/list.ts:689-694 | The old `checkedArr` stays as a prefix, followed by the new items of the page selection; the page selection is emptied. |
| ListState.PopupList.GetCheckedData | angelica-ui/src/mixins/list.ts:615-629 | A multiple list returns the checked items followed by the new items of the table's selection. A single list returns the table's current row, if any. |
| ListState.CheckedDataCoversSelection | angelica-ui/src/mixins/list.ts:615-619 | The checked data keeps the checked items in front, covers every selected row's key, and repeats no key when neither part does. |
| ListState.SelectionData | angelica-ui/src/mixins/list.ts:682-685 | The table's selection, or `[]` without a table. |
| ListState.FirstMatch | angelica-ui/src/mixins/list.ts:667-672 | `some` stops at the first page row sharing the item's key. |
| ListState.PopupList.UpdateTableChecked | angelica-ui/src/mixins/list.ts:652-678 | Outside a route component, with checked items and a table, the rows toggled are those of `Toggles`; otherwise none. |
| ListState.TogglesFromPage | angelica-ui/src/mixins/list.ts:665-675 | Only page rows sharing a key with a checked item are toggled. |
| ListState.TogglesCoverChecked | angelica-ui/src/mixins/list.ts:665-675 | Every checked item whose key is on the page gets a row with that key toggled. |
| ListState.PopupList.PopupListController | angelica-ui/src/mixins/list.ts:633-648 | `beforePage` keeps the table's selection aside. `afterPage` toggles the checked rows on the page, then merges. Any other type changes nothing. |
| ListState.NextPageNum | angelica-ui/src/mixins/list.ts:483-494 | The page number drops by exactly one iff at most one row is shown and the page is past the first. Otherwise it is unchanged, and it never drops below 1. |
| ListState.ListMixin.constructor | angelica-ui/src/mixins/list.ts:443-449 | A list starts on page 1 of 20, with no query, no columns and no rows. |
| ListState.ListMixin.UpdatePageNum | angelica-ui/src/mixins/list.ts:483-494 | `pageNum` becomes `NextPageNum` of the row count; the page size, query, columns and rows are untouched. |
| ListState.Assign | angelica-ui/src/mixins/list.ts:453 | A spread assignment adds the key to the object's keys, and the length grows only for a new key. |
| ListState.AssignLookup | angelica-ui/src/mixins/list.ts:453 | After `props[k] = v`, `k` reads `v` and every other key reads as before. |
| ListState.ParameterOf | angelica-ui/src/mixins/list.ts:451-454 | The request parameters have the query's keys plus `pageNum` and `pageSize`. |
| ListState.ParameterOverrides | angelica-ui/src/mixins/list.ts:451-454 | The parameters are the query's keys plus `pageNum` and `pageSize`. The page information overrides query keys of those names, and every other key reads as in the query. |
| ListState.ListMixin.QuerySearch | angelica-ui/src/mixins/list.ts:499-505 | Back to page 1 with the new query, and the request carries the new query on page 1. |
| ListState.ListMixin.SortChange | angelica-ui/src/mixins/list.ts:509-514 | Without server-side sorting nothing changes. Otherwise it searches again with the order, or `undefined`, stored under the sort field. |
| ListState.SortField | angelica-ui/src/mixins/list.ts:509-514 | The sort field is never empty: the text `column.index()` returns, or `${prop}Sort`. |
| ListState.SortRequest | angelica-ui/src/mixins/list.ts:513 | A sort request is on page 1 with the page size kept, carries the order under the sort field, and keeps every other query key. |
| ListState.AssignThenPageKeys | angelica-ui/src/mixins/list.ts:451-454 | A query with one key set, sent on page 1, carries that key, `pageNum` and `pageSize` on top of the query's keys. |
| ListState.AssignThenPageLookup | angelica-ui/src/mixins/list.ts:451-454 | In that request, `pageNum` reads 1, `pageSize` reads the page size, the key set reads its new value, and every other key reads as in the query. |
| ListState.ListMixin.PageChange | angelica-ui/src/mixins/list.ts:521-525 | The page information is replaced, and the request carries the query with the new page information. |
| ListState.SelectionOf | angelica-ui/src/mixins/list.ts:455-463 | The selection holds at most the selection column. It is empty iff the list is not multiple or its last column is already a selection column. |
| ListState.FinalColumnsOf | angelica-ui/src/mixins/list.ts:464-473 | The final columns are the selection followed by the columns. Outside a route component a trailing operation column is dropped, and never the selection column. |
| ListState.SelectionColumnInFront | angelica-ui/src/mixins/list.ts:455-473 | A multiple list not ending in a selection column gets one in front; a list that is not multiple shows just its columns. |
| ListState.FinalAuth | angelica-ui/src/mixins/list.ts:397-400 | A missing `auth` gives no permissions. |
| ListState.FinalAuthKeepsButtons | angelica-ui/src/mixins/list.ts:397-400 | The permissions kept are exactly the button entries (`menuType === 'F'`), each as often as it occurs. |
| ListState.AuthObj | angelica-ui/src/mixins/list.ts:401-407 | Each permission in the map is stored under its own field value. |
| ListState.AuthObjKeys | angelica-ui/src/mixins/list.ts:401-407 | The permission map has a key for each value of the field among the permissions, and for no other. |
| ListState.AuthObjLastWins | angelica-ui/src/mixins/list.ts:401-407 | Each key maps to the last permission carrying that value. |
| ListState.FindMenu | angelica-ui/src/mixins/list.ts:542 | `find` stops at the first menu entry whose alias or path equals the value. |
| ListState.GetActiveValue | angelica-ui/src/mixins/list.ts:540-544 | Without menu entries the result is `value \|\| ''`. Otherwise the first entry naming `value` by alias or path decides: its alias, else its path. When it has neither, or no entry names `value`, the result is the first entry's alias, else its path. |
| ListState.ActiveValueByPath | angelica-ui/src/mixins/list.ts:540-544 | With entries `{alias:'a', path:'/x'}` and `{alias:'b', path:'/y'}`, the value `'/y'` gives `'b'`. |
| ListState.ActiveValueUnknown | angelica-ui/src/mixins/list.ts:540-544 | A value naming no entry falls back to the first entry's alias or path. |
| ListState.ActiveValueKnown | angelica-ui/src/mixins/list.ts:542-543 | A truthy value is kept when the first entry it names reports it. |

## Left out

- Browser storage (`setStorage`, `getStorage`, `removeStorage`), `downLoadFile` and `isChrome`: window, DOM and user-agent access.
- `getType` and the `isString` … `isArray` predicates: runtime reflection. Values are typed in the model, and `getDepth`'s `isArray` test is the `Option` around its data.
- `formatTime` for negative or fractional inputs, and its `isNaN` branch for text: these are floating-point and `Number()` parsing. `Format.FormatTime` takes a non-negative integer.
- Object identity: `===` on objects and `==` between two objects are modelled as structural equality of values.
- Key order: plain objects keep their entries in insertion order. JavaScript enumerates integer-like keys first, in ascending order, so `isEqual`'s throw order and a numeric sort field's position can differ from the model for such keys.
- `String(n)` prints decimal digits for every integer; JavaScript switches to exponent form from 10^21 on.
- Numbers are integers. NaN, infinities and fractions are not modelled, so `StrToNum` reads only optional-minus digit strings; whitespace, `+`, decimals and hexadecimal text read as NaN.
- Arrays are not values of `Val`. In `isEqual` an array parameter, and reads such as `'abc'[0]` or `.length` on a primitive, are outside the model: a property read on a primitive gives `undefined`.
- Prototype properties: `templ`, `caches` and the `authObj` accumulator are plain dictionaries, so keys such as `constructor` have no inherited value.
- Memo.CacheCalc.Call: `calcFunc` is a pure function of its arguments; the `this` it is applied with is not modelled.
- TreeBuild.ToTree: the copies' children arrays are fresh. Aliasing of a children array an input record already carries, which the shallow copy shares, is not modelled; the children field a record carries in is ignored.
- TreeBuild.Step: `uniqueKey`, `parentKey` and the children field are distinct field names; a children field coinciding with one of the keys is not modelled.
- LevelSearch.GetValue: the elements are objects, so `while (v)` stops only on an empty queue; falsy elements inside `sources` are not modelled.
- `uniqueKey` of the popup list is a string; an undefined `uniqueKey` (read as the key "undefined") is not separated out.
- ListState.PopupList.UpdateTableChecked: `toggleRowSelection` is foreign. The model returns the rows it is called with, and the table's own selection state is not modelled.
- `getTableInstance` (the `$refs` chain in a `try`) is replaced by an optional `Table` parameter.
- `getList`, `setRouteQuery`, `$router.replace` and `$set` are framework calls. `QuerySearch`, `PageChange` and `SortChange` return the parameters `getList` is called with, and route updates are not modelled.
- `column.index()` in `sortChange` is foreign: its return value is a parameter.
- `handover`, `getOptionalAuth`, `filterQueryAtHandoverFunction` and the `cacheQuery` of the tab mixin: router plumbing.
- `WriteableCacheDataMixin`: lifecycle hooks over browser storage.
- `src/mixins/dialog.ts` is not part of this model.
- Format.PadStart: `num` is a `nat`. In the source, `Array(num)` throws a RangeError for a negative or fractional `num` (`src/utils/index.ts` line 166); that error path is not modelled.
- Strings are sequences of characters, while JavaScript's `length` and `slice` count UTF-16 code units. `padStart`, `formatTime` and the key texts therefore differ from the source for characters outside the Basic Multilingual Plane.
- ListState.PopupList.UpdateTableChecked: the source destructures `$refs.list.list.list` before calling `getTableInstance` and outside its `try` (`src/mixins/list.ts` lines 655-663), so it throws when that ref is missing. The model returns no toggled rows for a missing table instead.
- Recursion depth and cyclic forests: trees are finite datatypes, so a cycle cannot be expressed.

## Findings

| source | as written | input that shows it | evidently intended | confidence | as-written member | corrected member |
|---|---|---|---|---|---|---|
| angelica-ui/src/utils/index.ts:201-203 | The recursive depth is checked with `r !== undefined`, which it never is, so the first non-matching item with children decides the result. | `getDepth([{id:1, children:[{id:2}]}], 'id', 99)` returns 0 | Test `r !== -1`, so the search goes on and -1 means "not found" | high, not executed | TreeUtils.GetDepthMissingValue | TreeUtils.GetDepthCorrectedIsChainLength |
| angelica-ui/src/utils/index.ts:253-264 | Only a root takes over the placeholder that collected its early children; a non-root parent overwrites it in `templ`. | `toTree([{id:3,pid:2},{id:2,pid:1},{id:1,pid:0}], {uniqueKey:'id', parentKey:'pid'})` drops the record with id 3 | Every record takes over the placeholder for its key | medium, not executed | TreeBuild.ToTreeLosesEarlyChild | TreeBuild.ChildUnderParent |
| angelica-ui/src/mixins/list.ts:7-8 | `typeof null === 'object'`, so two `null` values recurse into `Object.entries(null)`, which throws. | `isEqual({a: null}, {a: null})` throws a TypeError | Recurse only on two non-null objects, so a parameter object equals itself | medium, not executed | ListState.NullValueThrows | ListState.IsEqualCorrectedReflexive |
