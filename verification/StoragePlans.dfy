/** Storage plans: the tree of 12-byte storage keys that a schema is laid out on. */
module StoragePlans {
  import opened Wrappers
  import opened ByteStrings

  type Key = k: Bytes | |k| == 12 witness [0, 0, 0, 0, 0, 0, 0, 0, 0, 0, 0, 0]

  /** `reference` names the ancestor whose layout a recursive occurrence shares. */
  datatype StorageNode = StorageNode(key: Key, flattened: bool, reference: Option<Key>, set_: Option<StorageNode>,
                                     children: seq<Child>)

  datatype Child = Child(name: string, node: StorageNode)

  /** One top-level node per export. */
  type Plan = seq<Child>

  function FindChild(children: seq<Child>, name: string): Option<StorageNode> {
    if children == [] then None
    else if children[0].name == name then Some(children[0].node)
    else FindChild(children[1..], name)
  }

  lemma {:induction false} FindChildIndex(children: seq<Child>, name: string) returns (i: nat)
    requires FindChild(children, name).Some?
    ensures i < |children| && children[i].name == name && FindChild(children, name) == Some(children[i].node)
  {
    if children[0].name == name {
      i := 0;
    } else {
      i := FindChildIndex(children[1..], name);
      i := i + 1;
    }
  }

  /** Looking a child up by the name of the field at its position. */
  lemma {:induction false} FindChildAt(children: seq<Child>, i: nat)
    requires i < |children|
    requires forall a, b :: 0 <= a < b < |children| ==> children[a].name != children[b].name
    ensures FindChild(children, children[i].name) == Some(children[i].node)
  {
    if i > 0 {
      assert children[0].name != children[i].name;
      FindChildAt(children[1..], i - 1);
    }
  }

  // ---------------------------------------------------------------------------
  // Keys of a plan

  function Keys(n: StorageNode): set<Key>
    decreases n, 1
  {
    {n.key} + (if n.set_.Some? then Keys(n.set_.value) else {}) + KeysOf(n.children)
  }

  function KeysOf(children: seq<Child>): set<Key>
    decreases children, 0
  {
    if children == [] then {} else Keys(children[0].node) + KeysOf(children[1..])
  }

  /** No storage key occurs at two places. */
  predicate Distinct(n: StorageNode)
    decreases n, 1
  {
    (n.set_.Some? ==> Distinct(n.set_.value) && n.key !in Keys(n.set_.value) && Keys(n.set_.value) !! KeysOf(n.children)) &&
    n.key !in KeysOf(n.children) && DistinctAll(n.children)
  }

  predicate DistinctAll(children: seq<Child>)
    decreases children, 0
  {
    children == [] ||
    (Distinct(children[0].node) && Keys(children[0].node) !! KeysOf(children[1..]) && DistinctAll(children[1..]))
  }

  lemma {:induction false} KeysOfAt(children: seq<Child>, i: nat)
    requires i < |children|
    ensures Keys(children[i].node) <= KeysOf(children)
  {
    if i > 0 { KeysOfAt(children[1..], i - 1); }
  }

  lemma {:induction false} DistinctAt(children: seq<Child>, i: nat)
    requires i < |children| && DistinctAll(children)
    ensures Distinct(children[i].node)
  {
    if i > 0 { DistinctAt(children[1..], i - 1); }
  }

  lemma {:induction false} DistinctApart(children: seq<Child>, i: nat, j: nat)
    requires i < j < |children| && DistinctAll(children)
    ensures Keys(children[i].node) !! Keys(children[j].node)
  {
    if i > 0 {
      DistinctApart(children[1..], i - 1, j - 1);
    } else {
      KeysOfAt(children[1..], j - 1);
    }
  }

  /** `x` is the node itself or lies below it. */
  predicate Within(n: StorageNode, x: StorageNode)
    decreases n
  {
    x == n || (n.set_.Some? && Within(n.set_.value, x)) ||
    exists i :: 0 <= i < |n.children| && Within(n.children[i].node, x)
  }

  lemma {:induction false} WithinKeys(n: StorageNode, x: StorageNode)
    requires Within(n, x)
    ensures Keys(x) <= Keys(n) && x.key in Keys(n)
    ensures Distinct(n) ==> Distinct(x)
    decreases n
  {
    if x != n {
      if n.set_.Some? && Within(n.set_.value, x) {
        WithinKeys(n.set_.value, x);
      } else {
        var i :| 0 <= i < |n.children| && Within(n.children[i].node, x);
        WithinKeys(n.children[i].node, x);
        KeysOfAt(n.children, i);
        if Distinct(n) { DistinctAt(n.children, i); }
      }
    }
  }

  lemma {:induction false} WithinTransitive(n: StorageNode, x: StorageNode, y: StorageNode)
    requires Within(n, x) && Within(x, y)
    ensures Within(n, y)
    decreases n
  {
    if x != n {
      if n.set_.Some? && Within(n.set_.value, x) {
        WithinTransitive(n.set_.value, x, y);
      } else {
        var i :| 0 <= i < |n.children| && Within(n.children[i].node, x);
        WithinTransitive(n.children[i].node, x, y);
      }
    }
  }

  /** In a plan with distinct keys a key identifies its node. */
  lemma {:induction false} KeyIdentifiesNode(n: StorageNode, x: StorageNode, y: StorageNode)
    requires Distinct(n) && Within(n, x) && Within(n, y) && x.key == y.key
    ensures x == y
    decreases n
  {
    if x == n {
      if y != n { BelowDiffers(n, y); }
    } else if y == n {
      BelowDiffers(n, x);
    } else {
      KeyIdentifiesBelow(n, x, y);
    }
  }

  lemma {:induction false} BelowDiffers(n: StorageNode, x: StorageNode)
    requires Distinct(n) && Within(n, x)
    ensures x == n || x.key != n.key
  {
    if x != n {
      if n.set_.Some? && Within(n.set_.value, x) {
        WithinKeys(n.set_.value, x);
      } else {
        var i :| 0 <= i < |n.children| && Within(n.children[i].node, x);
        WithinKeys(n.children[i].node, x);
        KeysOfAt(n.children, i);
      }
    }
  }

  lemma {:induction false} KeyIdentifiesBelow(n: StorageNode, x: StorageNode, y: StorageNode)
    requires Distinct(n) && Within(n, x) && Within(n, y) && x.key == y.key && x != n && y != n
    ensures x == y
    decreases n, 0
  {
    var xInSet, yInSet := n.set_.Some? && Within(n.set_.value, x), n.set_.Some? && Within(n.set_.value, y);
    if xInSet && yInSet {
      KeyIdentifiesNode(n.set_.value, x, y);
    } else if xInSet {
      var j :| 0 <= j < |n.children| && Within(n.children[j].node, y);
      WithinKeys(n.set_.value, x);
      WithinKeys(n.children[j].node, y);
      KeysOfAt(n.children, j);
    } else if yInSet {
      var i :| 0 <= i < |n.children| && Within(n.children[i].node, x);
      WithinKeys(n.set_.value, y);
      WithinKeys(n.children[i].node, x);
      KeysOfAt(n.children, i);
    } else {
      var i :| 0 <= i < |n.children| && Within(n.children[i].node, x);
      var j :| 0 <= j < |n.children| && Within(n.children[j].node, y);
      WithinKeys(n.children[i].node, x);
      WithinKeys(n.children[j].node, y);
      if i == j {
        DistinctAt(n.children, i);
        KeyIdentifiesNode(n.children[i].node, x, y);
      } else {
        DistinctApart(n.children, if i < j then i else j, if i < j then j else i);
      }
    }
  }
}
