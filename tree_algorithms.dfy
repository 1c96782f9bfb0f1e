/** The tree utilities of the navigation service: flattening a menu forest
    to its `basic` items, finding an item by id, and finding the item that
    encloses it. A forest is a `seq<Node>` with no implicit root. */
module TreeAlgorithms {
  import opened NavigationTypes

  // ---------------------------------------------------------------------
  // Reference traversal
  // ---------------------------------------------------------------------

  /** Every node of the forest in depth-first, left-to-right pre-order,
      descending into every node that has a children array, whatever its kind. */
  function PreOrder(nav: seq<Node>): seq<Node>
  {
    if nav == [] then []
    else
      [nav[0]]
      + (if nav[0].children.Present? then PreOrder(nav[0].children.items) else [])
      + PreOrder(nav[1..])
  }

  /** The `basic` nodes of `s`, in order. */
  function Basics(s: seq<Node>): seq<Node>
  {
    if s == [] then []
    else (if s[0].kind == Basic then [s[0]] else []) + Basics(s[1..])
  }

  lemma {:induction false} BasicsConcat(a: seq<Node>, b: seq<Node>)
    ensures Basics(a + b) == Basics(a) + Basics(b)
  {
    if a == [] {
      assert a + b == b;
    } else {
      var head := if a[0].kind == Basic then [a[0]] else [];
      assert (a + b)[0] == a[0];
      assert (a + b)[1..] == a[1..] + b;
      assert Basics(a + b) == head + Basics(a[1..] + b);
      BasicsConcat(a[1..], b);
      assert Basics(a) == head + Basics(a[1..]);
    }
  }

  // ---------------------------------------------------------------------
  // Flattening
  // ---------------------------------------------------------------------

  /** What flattening appends for a forest: each `basic` node itself;
      for an `aside`, `collapsable` or `group` node with a children array,
      the flattening of the children; nothing for any other node. */
  function Flatten(nav: seq<Node>): seq<Node>
  {
    if nav == [] then [] else FlattenItem(nav[0]) + Flatten(nav[1..])
  }

  /** What flattening appends for one node. */
  function FlattenItem(n: Node): seq<Node>
  {
    match n.kind
    case Basic => [n]
    case Aside | Collapsable | Group =>
      if n.children.Present? then Flatten(n.children.items) else []
    case Other => []
  }

  /** Flattening distributes over concatenation of forests. */
  lemma {:induction false} FlattenConcat(a: seq<Node>, b: seq<Node>)
    ensures Flatten(a + b) == Flatten(a) + Flatten(b)
  {
    if a == [] {
      assert a + b == b;
    } else {
      assert (a + b)[0] == a[0];
      assert (a + b)[1..] == a[1..] + b;
      FlattenConcat(a[1..], b);
    }
  }

  lemma {:induction false} FlattenSnoc(s: seq<Node>, item: Node)
    ensures Flatten(s + [item]) == Flatten(s) + FlattenItem(item)
  {
    FlattenConcat(s, [item]);
    assert [item][1..] == [];
  }

  /** The loop of the flattening utility: walks the array, pushes each
      `basic` item onto the accumulator, recurses into the children of
      `aside`, `collapsable` and `group` items, skips everything else, and
      returns the accumulator. The accumulator is threaded as a value. */
  method GetFlatNavigation(navigation: seq<Node>, flatNavigation: seq<Node>) returns (result: seq<Node>)
    ensures result == flatNavigation + Flatten(navigation)
  {
    result := flatNavigation;
    var i := 0;
    while i < |navigation|
      invariant 0 <= i <= |navigation|
      invariant result == flatNavigation + Flatten(navigation[..i])
    {
      var item := navigation[i];
      assert navigation[..i + 1] == navigation[..i] + [item];
      FlattenSnoc(navigation[..i], item);
      ghost var before := result;
      if item.kind == Basic {
        result := result + [item];
      } else if IsContainer(item.kind) {
        if item.children.Present? {
          result := GetFlatNavigation(item.children.items, result);
        }
      }
      assert result == before + FlattenItem(item);
      i := i + 1;
    }
    assert navigation[..i] == navigation;
  }

  /** Flattening outputs `basic` nodes only. */
  lemma {:induction false} FlattenOnlyBasic(nav: seq<Node>)
    ensures forall n :: n in Flatten(nav) ==> n.kind == Basic
  {
    if nav != [] {
      if IsContainer(nav[0].kind) && nav[0].children.Present? {
        FlattenOnlyBasic(nav[0].children.items);
      }
      FlattenOnlyBasic(nav[1..]);
    }
  }

  /** A node that is neither `basic` nor a container contributes nothing,
      and neither does anything below it. */
  lemma {:induction false} FlattenSkipsOtherKinds(before: seq<Node>, n: Node, after: seq<Node>)
    requires n.kind != Basic && !IsContainer(n.kind)
    ensures Flatten(before + [n] + after) == Flatten(before) + Flatten(after)
  {
    FlattenConcat(before + [n], after);
    FlattenConcat(before, [n]);
  }

  /** Every flattened node is a node of the forest. */
  lemma {:induction false} FlattenWithinPreOrder(nav: seq<Node>)
    ensures forall n :: n in Flatten(nav) ==> n in PreOrder(nav)
  {
    if nav != [] {
      if nav[0].children.Present? {
        FlattenWithinPreOrder(nav[0].children.items);
      }
      FlattenWithinPreOrder(nav[1..]);
    }
  }

  /** The forest nests only through containers: a node with a non-empty
      children array is an `aside`, `collapsable` or `group`. */
  ghost predicate NestsOnlyThroughContainers(nav: seq<Node>)
  {
    forall n :: n in PreOrder(nav) && n.children.Present? && n.children.items != [] ==> IsContainer(n.kind)
  }

  lemma {:induction false} NestsOnlyThroughContainersInherited(nav: seq<Node>)
    requires nav != [] && NestsOnlyThroughContainers(nav)
    ensures NestsOnlyThroughContainers(nav[1..])
    ensures nav[0].children.Present? ==> NestsOnlyThroughContainers(nav[0].children.items)
    ensures nav[0].children.Present? && nav[0].children.items != [] ==> IsContainer(nav[0].kind)
  {
    var below := if nav[0].children.Present? then PreOrder(nav[0].children.items) else [];
    assert PreOrder(nav) == [nav[0]] + below + PreOrder(nav[1..]);
  }

  /** On a forest that nests only through containers, flattening gives
      exactly the `basic` nodes of the pre-order traversal, in that order. */
  lemma {:induction false} FlattenIsBasicPreOrder(nav: seq<Node>)
    requires NestsOnlyThroughContainers(nav)
    ensures Flatten(nav) == Basics(PreOrder(nav))
  {
    if nav != [] {
      var n := nav[0];
      NestsOnlyThroughContainersInherited(nav);
      var below := if n.children.Present? then PreOrder(n.children.items) else [];
      var rest := PreOrder(nav[1..]);
      assert PreOrder(nav) == ([n] + below) + rest;
      BasicsConcat([n] + below, rest);
      BasicsConcat([n], below);
      FlattenIsBasicPreOrder(nav[1..]);
      assert FlattenItem(n) == Basics([n] + below) by {
        if IsContainer(n.kind) {
          assert Basics([n]) == [];
          if n.children.Present? {
            FlattenIsBasicPreOrder(n.children.items);
          }
        } else {
          assert below == [];
        }
      }
    }
  }

  /** The nodes flattening visits, in depth-first left-to-right order: every
      node of the forest, descending only into `aside`, `collapsable` and
      `group` nodes that have a children array. */
  function Reach(nav: seq<Node>): seq<Node>
  {
    if nav == [] then []
    else
      [nav[0]]
      + (if IsContainer(nav[0].kind) && nav[0].children.Present? then Reach(nav[0].children.items) else [])
      + Reach(nav[1..])
  }

  /** On every forest, flattening gives exactly the `basic` nodes reached
      through container ancestors, in traversal order: the children of a
      `basic` node or of a node of another kind are never output. */
  lemma {:induction false} FlattenIsBasicReach(nav: seq<Node>)
    ensures Flatten(nav) == Basics(Reach(nav))
  {
    if nav != [] {
      var n := nav[0];
      var below := if IsContainer(n.kind) && n.children.Present? then Reach(n.children.items) else [];
      var rest := Reach(nav[1..]);
      assert Reach(nav) == ([n] + below) + rest;
      BasicsConcat([n] + below, rest);
      BasicsConcat([n], below);
      FlattenIsBasicReach(nav[1..]);
      assert FlattenItem(n) == Basics([n] + below) by {
        if IsContainer(n.kind) {
          assert Basics([n]) == [];
          if n.children.Present? {
            FlattenIsBasicReach(n.children.items);
          }
        }
      }
    }
  }

  // ---------------------------------------------------------------------
  // Search by id
  // ---------------------------------------------------------------------

  /** The first position in `s` whose node has the given id, or `|s|`. */
  function FirstIndex(id: string, s: seq<Node>): (k: nat)
    ensures k <= |s|
  {
    if s == [] then 0
    else if s[0].id == id then 0
    else 1 + FirstIndex(id, s[1..])
  }

  /** `FirstIndex` is the least position carrying the id. */
  lemma {:induction false} FirstIndexIsLeast(id: string, s: seq<Node>)
    ensures var k := FirstIndex(id, s);
            (k < |s| ==> s[k].id == id) && forall j :: 0 <= j < k ==> s[j].id != id
  {
    if s != [] && s[0].id != id {
      FirstIndexIsLeast(id, s[1..]);
    }
  }

  lemma {:induction false} FirstIndexConcat(id: string, a: seq<Node>, b: seq<Node>)
    ensures FirstIndex(id, a + b)
            == if FirstIndex(id, a) < |a| then FirstIndex(id, a) else |a| + FirstIndex(id, b)
  {
    if a == [] {
      assert a + b == b;
    } else {
      assert (a + b)[0] == a[0];
      assert (a + b)[1..] == a[1..] + b;
      FirstIndexConcat(id, a[1..], b);
    }
  }

  /** The item lookup: walks the array; returns an item whose id matches;
      otherwise searches the children of any item that has a children
      array (whatever its kind) and returns what that search found. */
  function GetItem(id: string, navigation: seq<Node>): (r: Option<Node>)
    ensures r.Some? ==> r.value.id == id
  {
    if navigation == [] then None
    else
      var item := navigation[0];
      if item.id == id then Some(item)
      else
        var childItem := if item.children.Present? then GetItem(id, item.children.items) else None;
        if childItem.Some? then childItem else GetItem(id, navigation[1..])
  }

  /** Where the first match lies in one step of the pre-order traversal:
      a node that does not match, the traversal below it, and the rest. */
  lemma {:induction false} FirstIndexPastNode(id: string, item: Node, below: seq<Node>, rest: seq<Node>)
    requires item.id != id
    ensures FirstIndex(id, [item] + below + rest)
            == 1 + if FirstIndex(id, below) < |below| then FirstIndex(id, below)
                   else |below| + FirstIndex(id, rest)
  {
    assert [item] + below + rest == [item] + (below + rest);
    FirstIndexConcat(id, [item], below + rest);
    FirstIndexConcat(id, below, rest);
  }

  /** One step of the item search, stated on the traversal sequences: if
      the search below a non-matching node and the search of the rest each
      return their first match, then preferring the former returns the
      first match of the whole step. */
  lemma {:induction false} FirstMatchPastNode(id: string, item: Node,
                                              below: seq<Node>, fromBelow: Option<Node>,
                                              rest: seq<Node>, fromRest: Option<Node>)
    requires item.id != id
    requires var kb := FirstIndex(id, below);
             fromBelow == if kb < |below| then Some(below[kb]) else None
    requires var kr := FirstIndex(id, rest);
             fromRest == if kr < |rest| then Some(rest[kr]) else None
    ensures var p := [item] + below + rest;
            var k := FirstIndex(id, p);
            (if fromBelow.Some? then fromBelow else fromRest)
            == if k < |p| then Some(p[k]) else None
  {
    FirstIndexPastNode(id, item, below, rest);
    var p := [item] + below + rest;
    var kb := FirstIndex(id, below);
    if kb < |below| {
      assert p[1 + kb] == below[kb];
    } else {
      var kr := FirstIndex(id, rest);
      if kr < |rest| {
        assert p[1 + |below| + kr] == rest[kr];
      }
    }
  }

  /** The lookup returns the first node of the pre-order traversal that
      carries the id, and nothing when no node carries it. */
  lemma {:induction false} GetItemIsFirstInPreOrder(id: string, nav: seq<Node>)
    ensures var p := PreOrder(nav);
            var k := FirstIndex(id, p);
            GetItem(id, nav) == if k < |p| then Some(p[k]) else None
  {
    if nav != [] {
      var item := nav[0];
      var below := if item.children.Present? then PreOrder(item.children.items) else [];
      var fromBelow := if item.children.Present? then GetItem(id, item.children.items) else None;
      var rest := PreOrder(nav[1..]);
      assert PreOrder(nav) == [item] + below + rest;
      if item.id != id {
        if item.children.Present? {
          GetItemIsFirstInPreOrder(id, item.children.items);
        }
        GetItemIsFirstInPreOrder(id, nav[1..]);
        assert GetItem(id, nav) == if fromBelow.Some? then fromBelow else GetItem(id, nav[1..]);
        FirstMatchPastNode(id, item, below, fromBelow, rest, GetItem(id, nav[1..]));
      }
    }
  }

  /** The lookup finds something exactly when some node of the forest has
      the id, and what it finds is a node of the forest. */
  lemma {:induction false} GetItemFound(id: string, nav: seq<Node>)
    ensures GetItem(id, nav).Some? <==> exists n :: n in PreOrder(nav) && n.id == id
    ensures GetItem(id, nav).Some? ==> GetItem(id, nav).value in PreOrder(nav)
  {
    GetItemIsFirstInPreOrder(id, nav);
    var p := PreOrder(nav);
    FirstIndexIsLeast(id, p);
    if n :| n in p && n.id == id {
      var i :| 0 <= i < |p| && p[i] == n;
      assert FirstIndex(id, p) <= i;
    }
  }

  /** Among several nodes with the same id, the lookup returns the earliest
      in pre-order: a node that carries the id and has no earlier match is
      the one returned. */
  lemma {:induction false} FirstMatchWins(id: string, nav: seq<Node>, i: nat)
    requires i < |PreOrder(nav)| && PreOrder(nav)[i].id == id
    requires forall j :: 0 <= j < i ==> PreOrder(nav)[j].id != id
    ensures GetItem(id, nav) == Some(PreOrder(nav)[i])
  {
    GetItemIsFirstInPreOrder(id, nav);
    FirstIndexIsLeast(id, PreOrder(nav));
    assert FirstIndex(id, PreOrder(nav)) == i;
  }

  // ---------------------------------------------------------------------
  // Search for the enclosing item
  // ---------------------------------------------------------------------

  /** A node of the traversal together with what the parent search would
      return for it: the enclosing item, or the caller's argument at top level. */
  datatype Occurrence = Occurrence(node: Node, parent: Parent)

  /** The pre-order traversal of `PreOrder`, each node paired with its parent. */
  function Occurrences(nav: seq<Node>, parent: Parent): (r: seq<Occurrence>)
  {
    if nav == [] then []
    else
      [Occurrence(nav[0], parent)]
      + (if nav[0].children.Present? then Occurrences(nav[0].children.items, Item(nav[0])) else [])
      + Occurrences(nav[1..], parent)
  }

  lemma {:induction false} OccurrencesLength(nav: seq<Node>, parent: Parent)
    ensures |Occurrences(nav, parent)| == |PreOrder(nav)|
  {
    if nav != [] {
      var item := nav[0];
      if item.children.Present? {
        OccurrencesLength(item.children.items, Item(item));
      }
      OccurrencesLength(nav[1..], parent);
    }
  }

  /** Occurrences visit the nodes of `PreOrder`, in the same order. */
  lemma {:induction false} OccurrencesFollowPreOrder(nav: seq<Node>, parent: Parent)
    ensures |Occurrences(nav, parent)| == |PreOrder(nav)|
    ensures forall i :: 0 <= i < |PreOrder(nav)| ==> Occurrences(nav, parent)[i].node == PreOrder(nav)[i]
  {
    OccurrencesLength(nav, parent);
    if nav != [] {
      var item := nav[0];
      var below := if item.children.Present? then PreOrder(item.children.items) else [];
      var obelow := if item.children.Present? then Occurrences(item.children.items, Item(item)) else [];
      var rest := PreOrder(nav[1..]);
      var orest := Occurrences(nav[1..], parent);
      var p, occ := PreOrder(nav), Occurrences(nav, parent);
      assert p == [item] + below + rest;
      assert occ == [Occurrence(item, parent)] + obelow + orest;
      if item.children.Present? {
        OccurrencesFollowPreOrder(item.children.items, Item(item));
      }
      OccurrencesFollowPreOrder(nav[1..], parent);
      forall i | 0 <= i < |p|
        ensures occ[i].node == p[i]
      {
        if 0 < i <= |below| {
          assert occ[i] == obelow[i - 1] && p[i] == below[i - 1];
        } else if |below| < i {
          assert occ[i] == orest[i - 1 - |below|] && p[i] == rest[i - 1 - |below|];
        }
      }
    }
  }

  /** Every paired parent is either the caller's argument, for a top-level
      node, or an item of the forest whose children array directly holds the node. */
  lemma {:induction false} OccurrenceParents(nav: seq<Node>, parent: Parent)
    ensures forall o :: o in Occurrences(nav, parent) ==>
              (o.parent == parent && o.node in nav)
              || (o.parent.Item? && o.parent.item.children.Present?
                  && o.node in o.parent.item.children.items
                  && o.parent.item in PreOrder(nav))
  {
    if nav != [] {
      var item := nav[0];
      if item.children.Present? {
        OccurrenceParents(item.children.items, Item(item));
      }
      OccurrenceParents(nav[1..], parent);
    }
  }

  /** The parent lookup: walks the array; for an item whose id matches
      returns the `parent` argument; otherwise searches the children of any
      item that has a children array, with that item as the parent. */
  function GetItemParent(id: string, navigation: seq<Node>, parent: Parent): (r: Option<Parent>)
    ensures r.None? <==> GetItem(id, navigation).None?
  {
    if navigation == [] then None
    else
      var item := navigation[0];
      if item.id == id then Some(parent)
      else
        var childItem := if item.children.Present? then GetItemParent(id, item.children.items, Item(item)) else None;
        if childItem.Some? then childItem else GetItemParent(id, navigation[1..], parent)
  }

  /** One step of the parent search, stated on the traversal sequences: if
      the search below a non-matching node and the search of the rest each
      return the parent of their first occurrence, then preferring the
      former returns the parent of the first occurrence of the whole step. */
  lemma {:induction false} FirstOccurrencePastNode(id: string, item: Node, o: Occurrence,
                                below: seq<Node>, obelow: seq<Occurrence>, fromBelow: Option<Parent>,
                                rest: seq<Node>, orest: seq<Occurrence>, fromRest: Option<Parent>)
    requires item.id != id && |obelow| == |below| && |orest| == |rest|
    requires var kb := FirstIndex(id, below);
             fromBelow == if kb < |below| then Some(obelow[kb].parent) else None
    requires var kr := FirstIndex(id, rest);
             fromRest == if kr < |rest| then Some(orest[kr].parent) else None
    ensures var k := FirstIndex(id, [item] + below + rest);
            var occ := [o] + obelow + orest;
            k <= |occ|
            && (if fromBelow.Some? then fromBelow else fromRest)
               == if k < |occ| then Some(occ[k].parent) else None
  {
    FirstIndexPastNode(id, item, below, rest);
    var occ := [o] + obelow + orest;
    var kb := FirstIndex(id, below);
    if kb < |below| {
      assert occ[1 + kb] == obelow[kb];
    } else {
      var kr := FirstIndex(id, rest);
      if kr < |rest| {
        assert occ[1 + |below| + kr] == orest[kr];
      }
    }
  }

  /** The parent lookup answers for the same first pre-order match as the
      item lookup: it returns the parent paired with that occurrence. */
  lemma {:induction false} GetItemParentIsFirstOccurrence(id: string, nav: seq<Node>, parent: Parent)
    ensures var p := PreOrder(nav);
            var k := FirstIndex(id, p);
            |Occurrences(nav, parent)| == |p|
            && GetItemParent(id, nav, parent)
               == if k < |p| then Some(Occurrences(nav, parent)[k].parent) else None
  {
    OccurrencesLength(nav, parent);
    if nav != [] {
      var item := nav[0];
      var below := if item.children.Present? then PreOrder(item.children.items) else [];
      var obelow := if item.children.Present? then Occurrences(item.children.items, Item(item)) else [];
      var fromBelow := if item.children.Present? then GetItemParent(id, item.children.items, Item(item)) else None;
      var rest := PreOrder(nav[1..]);
      var orest := Occurrences(nav[1..], parent);
      assert PreOrder(nav) == [item] + below + rest;
      assert Occurrences(nav, parent) == [Occurrence(item, parent)] + obelow + orest;
      if item.id != id {
        if item.children.Present? {
          GetItemParentIsFirstOccurrence(id, item.children.items, Item(item));
        }
        GetItemParentIsFirstOccurrence(id, nav[1..], parent);
        assert GetItemParent(id, nav, parent)
               == if fromBelow.Some? then fromBelow else GetItemParent(id, nav[1..], parent);
        FirstOccurrencePastNode(id, item, Occurrence(item, parent), below, obelow, fromBelow,
                                rest, orest, GetItemParent(id, nav[1..], parent));
      }
    }
  }

  /** What the parent lookup returns for the node the item lookup finds:
      the caller's argument when that node is a top-level item, and
      otherwise an item of the forest whose children array directly holds it. */
  lemma {:induction false} GetItemParentEncloses(id: string, nav: seq<Node>, parent: Parent)
    requires GetItem(id, nav).Some?
    ensures GetItemParent(id, nav, parent).Some?
    ensures var m := GetItem(id, nav).value;
            var r := GetItemParent(id, nav, parent).value;
            (r == parent && m in nav)
            || (r.Item? && r.item.children.Present? && m in r.item.children.items && r.item in PreOrder(nav))
  {
    GetItemIsFirstInPreOrder(id, nav);
    GetItemParentIsFirstOccurrence(id, nav, parent);
    OccurrencesFollowPreOrder(nav, parent);
    OccurrenceParents(nav, parent);
    var k := FirstIndex(id, PreOrder(nav));
    assert Occurrences(nav, parent)[k] in Occurrences(nav, parent);
  }

  /** When the first match in pre-order is the top-level item `nav[j]`
      (nothing in `nav[..j]` matches), the parent lookup returns the
      caller's `parent` argument itself. */
  lemma {:induction false} GetItemParentTopLevel(id: string, nav: seq<Node>, parent: Parent, j: nat)
    requires j < |nav| && nav[j].id == id
    requires GetItem(id, nav[..j]).None?
    ensures GetItemParent(id, nav, parent) == Some(parent)
  {
    if j > 0 {
      var item := nav[0];
      assert nav[..j][0] == item && nav[..j][1..] == nav[1..][..j - 1];
      if item.children.Present? {
        assert GetItemParent(id, item.children.items, Item(item)).None?;
      }
      GetItemParentTopLevel(id, nav[1..], parent, j - 1);
    }
  }
}
