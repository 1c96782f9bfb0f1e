# Navigation service model

A Dafny model of the navigation service of an Angular client
(`src/app/core/navigation/navigation.service.ts`). The service keeps named
menu trees in a store, tells observers about every change, picks a menu by
user role, keeps a registry of named components, and offers three tree
utilities over a menu forest: flattening it to its `basic` items, finding an
item by id, and finding the item that encloses a given id.

Layout:

- `navigation_types.dfy` (module `NavigationTypes`): menu nodes
  (`Node(id, kind, children)`, with `Kind = Basic | Aside | Collapsable | Group | Other`
  and `Children = Absent | Present(items)`), the `Parent` argument/result of the
  parent search, and the store's `ChangeEvent`.
- `tree_algorithms.dfy` (module `TreeAlgorithms`): the three tree utilities.
  Flattening is a method with a loop and a recursive call, as in the source,
  proved against the specification function `Flatten`. The two lookups are
  recursive functions with early return. Each is tied to a reference
  traversal `PreOrder` (every node, depth first, left to right) by lemmas:
  the lookups return the first pre-order match, and flattening returns the
  `basic` nodes reached through container ancestors (`Reach`), which is the
  `basic` part of the full traversal when only containers have children.
- `navigation_service.dfy` (module `Service`): the class `NavigationService`
  with the component registry, the navigation store and the last value of the
  change subject as fields that its methods update in place. There are also
  client methods that show what callers can rely on across several calls.
- `role_resolver.dfy` (module `RoleResolver`): the role switch.

For a nested match the parent search returns the enclosing item itself, not
its children array: the recursive call at line 188 passes `item` as the
parent. `MainMenuScenario` shows this on the group/basic example.

## Model

| member | source | states |
|---|---|---|
| `TreeAlgorithms.GetFlatNavigation` | src/app/core/navigation/navigation.service.ts:117-139 | the result is the accumulator passed in, unchanged, followed by `Flatten(navigation)`: basic items pushed, containers' children flattened in place, other kinds skipped |
| `TreeAlgorithms.FlattenOnlyBasic` | src/app/core/navigation/navigation.service.ts:121-124 | flattening never outputs a node whose kind is not `basic` |
| `TreeAlgorithms.FlattenConcat` | src/app/core/navigation/navigation.service.ts:121-136 | flattening a concatenation of forests is the concatenation of their flattenings, so each item contributes independently and in order |
| `TreeAlgorithms.FlattenSkipsOtherKinds` | src/app/core/navigation/navigation.service.ts:127-135 | a node that is neither `basic` nor `aside`/`collapsable`/`group` contributes nothing, and neither does its subtree |
| `TreeAlgorithms.FlattenWithinPreOrder` | src/app/core/navigation/navigation.service.ts:117-139 | every flattened node is a node of the forest |
| `TreeAlgorithms.FlattenIsBasicReach` | src/app/core/navigation/navigation.service.ts:117-139 | for every forest, flattening returns exactly the `basic` nodes reached through `aside`/`collapsable`/`group` ancestors, in depth-first left-to-right order; children of `basic` and other-kind items are never output |
| `TreeAlgorithms.FlattenIsBasicPreOrder` | src/app/core/navigation/navigation.service.ts:117-139 | when only containers have non-empty children, flattening returns exactly the `basic` nodes of the depth-first left-to-right traversal, in traversal order |
| `TreeAlgorithms.GetItem` | src/app/core/navigation/navigation.service.ts:148-167 | a found item carries the requested id |
| `TreeAlgorithms.GetItemIsFirstInPreOrder` | src/app/core/navigation/navigation.service.ts:148-167 | the lookup returns the first node of the pre-order traversal (descending into every item that has children) with that id, and nothing if there is none |
| `TreeAlgorithms.GetItemFound` | src/app/core/navigation/navigation.service.ts:152-166 | the lookup finds something exactly when some node of the forest has the id, and what it finds is a node of the forest |
| `TreeAlgorithms.FirstMatchWins` | src/app/core/navigation/navigation.service.ts:152-163 | among duplicate ids, the earliest node in pre-order is the one returned |
| `TreeAlgorithms.GetItemParent` | src/app/core/navigation/navigation.service.ts:177-197 | the parent lookup returns nothing exactly when the item lookup returns nothing |
| `TreeAlgorithms.GetItemParentIsFirstOccurrence` | src/app/core/navigation/navigation.service.ts:177-197 | the parent lookup answers for the same first pre-order match as the item lookup and returns the parent paired with that occurrence |
| `TreeAlgorithms.OccurrencesFollowPreOrder` | src/app/core/navigation/navigation.service.ts:182-194 | the parent search visits nodes in the same order as the item search |
| `TreeAlgorithms.OccurrenceParents` | src/app/core/navigation/navigation.service.ts:183-188 | the parent paired with a node is the caller's argument for a top-level node, or otherwise an item of the forest whose children array directly holds the node |
| `TreeAlgorithms.GetItemParentEncloses` | src/app/core/navigation/navigation.service.ts:177-197 | for an id that is found, the parent lookup returns the caller's `parent` (the match is top level) or an item of the forest whose children directly contain the found item |
| `TreeAlgorithms.GetItemParentTopLevel` | src/app/core/navigation/navigation.service.ts:182-185 | when the first match is the top-level item `nav[j]`, the parent lookup returns the caller's `parent` argument itself |
| `Service.NavigationService.constructor` | src/app/core/navigation/navigation.service.ts:13-23 | a new service has an empty registry and store, and its change subject holds `null` |
| `Service.NavigationService.RegisterComponent` | src/app/core/navigation/navigation.service.ts:42-44 | the registry maps the name to the component; other names and the store are unchanged |
| `Service.NavigationService.DeregisterComponent` | src/app/core/navigation/navigation.service.ts:51-53 | the name is no longer registered, whether or not it was; other names and the store are unchanged |
| `Service.NavigationService.GetComponent` | src/app/core/navigation/navigation.service.ts:60-62 | returns the registered component, and nothing exactly when the name is not registered |
| `Service.NavigationService.StoreNavigation` | src/app/core/navigation/navigation.service.ts:70-77 | afterwards `GetNavigation(key)` is the stored tree, every other key reads as before, and the last change event is `(key, navigation)` |
| `Service.NavigationService.GetNavigation` | src/app/core/navigation/navigation.service.ts:84-88 | the stored tree, and the empty tree for an absent key |
| `Service.NavigationService.DeleteNavigation` | src/app/core/navigation/navigation.service.ts:95-108 | afterwards the key reads as the empty tree, other keys read as before, the last change event is `(key, [])` whether or not the key was present, and a warning is logged exactly when it was absent |
| `Service.DeleteTwice` | src/app/core/navigation/navigation.service.ts:95-108 | deleting twice gives the same store and last event as deleting once; the second deletion always warns |
| `Service.RegistryRoundTrip` | src/app/core/navigation/navigation.service.ts:42-62 | register then get returns the component; deregister then get returns nothing |
| `Service.StoreRoundTrip` | src/app/core/navigation/navigation.service.ts:70-108 | store then get returns the tree; delete then get returns the empty tree and the last event is `(key, [])` |
| `Service.MainMenuScenario` | src/app/core/navigation/navigation.service.ts:117-197 | for a group `a` holding a basic `b` stored under `main`: flattening gives `[b]`, the lookup of `a` gives the group, and the parent lookup of `b` gives the group item |
| `RoleResolver.GetNavigationByRole` | src/app/core/navigation/navigation.service.ts:199-230 | the human-resources role gets its menu, the super-administrator role gets its menu, and every other role gets the empty menu; the first case wins if the ids coincide |

## Left out

- `get()` and `navigation$` (lines 236-249): an HTTP fetch that feeds a replay subject. Network I/O and a reactive stream are outside the model.
- The subscribers and replay behaviour of the change subject (lines 23-30): only its latest value is modelled, as the field `navigationChanged`.
- Console output. The one warning that matters is modelled: the ghost log `warnings` receives the key of each deletion of an absent key. The logs of `storeNavigation` and `getNavigation`, and the diagnostics of `getNavigationByRole`, are not modelled.
- The null and `Array.isArray` guards of `getNavigationByRole` (lines 218-226): in a typed model the selected menu is always a sequence, so these guards can never fire.
- The unchecked cast in `getComponent<T>` (line 60): handles are one opaque type parameter `C` of the class.
- Angular dependency injection (lines 1-14). The menu contents and the numeric values of the role enumeration are data of the application, not part of this model. They enter as the `RoleTable` parameter.
- Display attributes of menu items (title, icon, link, ...), which no operation reads. Items without an `id` are not modelled either: every node has a string id.
- TreeAlgorithms.GetFlatNavigation: the source pushes into one shared array and returns that same array. The model threads the accumulator as a value, so the caller seeing the pushes through its own reference (aliasing) is not captured.
- Service.NavigationService.GetNavigation: the source returns the stored array itself, so a caller that mutates it also changes the store. Sequences are values in the model, so that aliasing is not captured. For the same reason, the copy made by `getNavigationByRole` (line 229) is implicit.
- The lookups return nodes compared by value. "The same item object" in the source becomes "an equal node" in the model.
- RoleResolver.GetNavigationByRole: the role id is a JavaScript `number` in the source (line 199) and an `int` here. A non-integer number or `NaN` matches no case and gets `[]` in the source; the model cannot take such an input.
- Cyclic item graphs: `Node` is an inductive datatype, so a menu whose items reach themselves cannot be represented. On such a graph the recursion of `getFlatNavigation`, `getItem` and `getItemParent` can run until the stack overflows; the model's termination rests on this exclusion.
- TreeAlgorithms.GetFlatNavigation: the accumulator `flatNavigation` defaults to `[]` in the source (line 119); in the model it is a required argument, and the source's default call is `GetFlatNavigation(navigation, [])`.
