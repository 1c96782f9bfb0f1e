/** The stateful part of the navigation service: the component registry,
    the keyed navigation store, and the last value pushed to the store's
    change subject. */
module Service {
  import opened NavigationTypes
  import TreeAlgorithms

  /** The service instance. `C` is the opaque type of registered component
      handles. `warnings` records, in order, the keys of the deletions that
      found nothing to delete (the console warning of the source). */
  class NavigationService<C> {
    var componentRegistry: map<string, C>
    var navigationStore: map<string, seq<Node>>
    var navigationChanged: Option<ChangeEvent>
    ghost var warnings: seq<string>

    /** A fresh service: empty registry and store, and the change subject
        holding its initial `null`. */
    constructor ()
      ensures componentRegistry == map[] && navigationStore == map[]
      ensures navigationChanged == None && warnings == []
    {
      componentRegistry := map[];
      navigationStore := map[];
      navigationChanged := None;
      warnings := [];
    }

    /** Registers (or replaces) the component under `name`. */
    method RegisterComponent(name: string, component: C)
      modifies this
      ensures componentRegistry == old(componentRegistry)[name := component]
      ensures navigationStore == old(navigationStore) && navigationChanged == old(navigationChanged)
      ensures warnings == old(warnings)
    {
      componentRegistry := componentRegistry[name := component];
    }

    /** Removes the component registered under `name`, if any. */
    method DeregisterComponent(name: string)
      modifies this
      ensures componentRegistry == old(componentRegistry) - {name}
      ensures navigationStore == old(navigationStore) && navigationChanged == old(navigationChanged)
      ensures warnings == old(warnings)
    {
      componentRegistry := componentRegistry - {name};
    }

    /** The component registered under `name`, or nothing. */
    function GetComponent(name: string): (c: Option<C>)
      reads this
      ensures c.Some? <==> name in componentRegistry
      ensures c.Some? ==> c.value == componentRegistry[name]
    {
      if name in componentRegistry then Some(componentRegistry[name]) else None
    }

    /** Stores `navigation` under `key`, replacing any earlier tree, and
        records the change event `(key, navigation)`. */
    method StoreNavigation(key: string, navigation: seq<Node>)
      modifies this
      ensures navigationStore == old(navigationStore)[key := navigation]
      ensures navigationChanged == Some(ChangeEvent(key, navigation))
      ensures componentRegistry == old(componentRegistry) && warnings == old(warnings)
      ensures GetNavigation(key) == navigation
      ensures forall k :: k != key ==> GetNavigation(k) == old(GetNavigation(k))
    {
      navigationStore := navigationStore[key := navigation];
      navigationChanged := Some(ChangeEvent(key, navigation));
    }

    /** The tree stored under `key`; the empty tree when there is none. */
    function GetNavigation(key: string): (nav: seq<Node>)
      reads this
      ensures key in navigationStore ==> nav == navigationStore[key]
      ensures key !in navigationStore ==> nav == []
    {
      if key in navigationStore then navigationStore[key] else []
    }

    /** Removes the tree stored under `key`, warning when there is none, and
        in every case records the change event `(key, [])`. */
    method DeleteNavigation(key: string)
      modifies this
      ensures navigationStore == old(navigationStore) - {key}
      ensures navigationChanged == Some(ChangeEvent(key, []))
      ensures warnings == old(warnings) + if key in old(navigationStore) then [] else [key]
      ensures componentRegistry == old(componentRegistry)
      ensures GetNavigation(key) == []
      ensures forall k :: k != key ==> GetNavigation(k) == old(GetNavigation(k))
    {
      if key !in navigationStore {
        warnings := warnings + [key];
      }
      navigationStore := navigationStore - {key};
      navigationChanged := Some(ChangeEvent(key, []));
    }
  }

  /** Deleting a key twice leaves the same store and the same last event as
      deleting it once; the second deletion always warns. */
  method DeleteTwice<C>(s: NavigationService<C>, key: string)
    modifies s
    ensures s.navigationStore == old(s.navigationStore) - {key}
    ensures s.navigationChanged == Some(ChangeEvent(key, []))
    ensures s.warnings == old(s.warnings) + (if key in old(s.navigationStore) then [] else [key]) + [key]
  {
    s.DeleteNavigation(key);
    ghost var once := s.navigationStore;
    s.DeleteNavigation(key);
    assert s.navigationStore == once;
  }

  /** Registering, looking up, deregistering and looking up again on a new
      service: the handle comes back, then nothing does. */
  method RegistryRoundTrip<C>(name: string, component: C) returns (registered: Option<C>, removed: Option<C>)
    ensures registered == Some(component)
    ensures removed == None
  {
    var s := new NavigationService<C>();
    s.RegisterComponent(name, component);
    registered := s.GetComponent(name);
    s.DeregisterComponent(name);
    removed := s.GetComponent(name);
  }

  /** Storing, reading back, deleting and reading again on a new service:
      the stored tree comes back, then the empty tree, and the last change
      event is the deletion's. */
  method StoreRoundTrip(key: string, navigation: seq<Node>) returns (stored: seq<Node>, deleted: seq<Node>, event: Option<ChangeEvent>)
    ensures stored == navigation
    ensures deleted == []
    ensures event == Some(ChangeEvent(key, []))
  {
    var s := new NavigationService<int>();
    s.StoreNavigation(key, navigation);
    stored := s.GetNavigation(key);
    s.DeleteNavigation(key);
    deleted := s.GetNavigation(key);
    event := s.navigationChanged;
  }

  const LeafB := Node("b", Basic, Absent)
  const GroupA := Node("a", Group, Present([LeafB]))

  /** A group "a" holding one basic item "b", stored under "main" and queried:
      flattening yields the basic item, the lookup of "a" yields the group,
      and the parent lookup of "b" yields the group item itself. */
  method MainMenuScenario() returns (flat: seq<Node>, found: Option<Node>, enclosing: Option<Parent>)
    ensures flat == [LeafB]
    ensures found == Some(GroupA)
    ensures enclosing == Some(Item(GroupA))
  {
    var s := new NavigationService<int>();
    s.StoreNavigation("main", [GroupA]);
    var nav := s.GetNavigation("main");
    flat := TreeAlgorithms.GetFlatNavigation(nav, []);
    assert TreeAlgorithms.Flatten([LeafB]) == [LeafB];
    assert TreeAlgorithms.Flatten(nav) == TreeAlgorithms.Flatten([LeafB]);
    found := TreeAlgorithms.GetItem("a", nav);
    assert GroupA.id != "b";
    assert TreeAlgorithms.GetItemParent("b", [LeafB], Item(GroupA)) == Some(Item(GroupA));
    enclosing := TreeAlgorithms.GetItemParent("b", nav, Items(nav));
  }
}
