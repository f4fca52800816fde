/**
 * The nested translation object that src/store/store.ts and lib/seo/schemas.ts
 * walk along a dot-separated key: a string at a leaf, an object of named
 * children at an inner node.
 */
module TranslationTree {
  import opened Wrappers

  datatype Tree = Leaf(text: string) | Node(children: map<string, Tree>)

  /** One step of the walk: the named child of an object; a string has none. */
  function Child(tree: Tree, key: string): (child: Option<Tree>)
    ensures child.Some? <==> tree.Node? && key in tree.children
    ensures child.Some? ==> child.value == tree.children[key]
  {
    match tree
    case Leaf(_) => None
    case Node(children) => if key in children then Some(children[key]) else None
  }

  /** The value reached by following `keys` from `tree`, or None once a key is missing. */
  function Lookup(tree: Tree, keys: seq<string>): Option<Tree>
    decreases |keys|
  {
    if keys == [] then Some(tree)
    else
      match Child(tree, keys[0])
      case None => None
      case Some(child) => Lookup(child, keys[1..])
  }

  /** Following `a` and then `b` is following `a + b`. */
  lemma {:induction false} LookupAppend(tree: Tree, a: seq<string>, b: seq<string>)
    ensures Lookup(tree, a + b) ==
      match Lookup(tree, a)
      case None => None
      case Some(sub) => Lookup(sub, b)
    decreases |a|
  {
    if a == [] {
      assert a + b == b;
    } else {
      assert (a + b)[0] == a[0] && (a + b)[1..] == a[1..] + b;
      match Child(tree, a[0])
      case None =>
      case Some(child) => LookupAppend(child, a[1..], b);
    }
  }

  /** The tree with `value` stored at the path `keys`, creating or replacing objects on the way. */
  function Put(tree: Tree, keys: seq<string>, value: Tree): Tree
    decreases |keys|
  {
    if keys == [] then value
    else
      var children := if tree.Node? then tree.children else map[];
      var below := if keys[0] in children then children[keys[0]] else Node(map[]);
      Node(children[keys[0] := Put(below, keys[1..], value)])
  }

  /** What was stored at a path is found there again. */
  lemma {:induction false} LookupPut(tree: Tree, keys: seq<string>, value: Tree)
    ensures Lookup(Put(tree, keys, value), keys) == Some(value)
    decreases |keys|
  {
    if keys != [] {
      var children := if tree.Node? then tree.children else map[];
      var below := if keys[0] in children then children[keys[0]] else Node(map[]);
      assert Child(Put(tree, keys, value), keys[0]) == Some(Put(below, keys[1..], value));
      LookupPut(below, keys[1..], value);
    }
  }

  /** Storing at one top-level key leaves every path under another top-level key alone. */
  lemma LookupPutElsewhere(tree: Tree, keys: seq<string>, value: Tree, other: seq<string>)
    requires keys != [] && other != [] && other[0] != keys[0]
    ensures Lookup(Put(tree, keys, value), other) == Lookup(tree, other)
  {
    assert Child(Put(tree, keys, value), other[0]) == Child(tree, other[0]);
  }
}
