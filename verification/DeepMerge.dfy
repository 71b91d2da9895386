/** Merging nested dictionaries: the right side wins, except that two dictionaries are merged. */
module DeepMerge {
  import opened Options

  datatype Tree = Leaf(value: int) | Dict(children: map<string, Tree>)

  function Both(a: Tree, b: Tree): bool {
    a.Dict? && b.Dict?
  }

  function Merge(a: Tree, b: Tree): (r: Tree)
    requires Both(a, b)
    ensures r.Dict? && r.children.Keys == a.children.Keys + b.children.Keys
    decreases b
  {
    Dict(map k | k in a.children.Keys + b.children.Keys ::
      if k !in b.children then a.children[k]
      else if k in a.children && Both(a.children[k], b.children[k]) then Merge(a.children[k], b.children[k])
      else b.children[k])
  }

  method DeepMerge(d1: Tree, d2: Tree) returns (result: Tree)
    requires Both(d1, d2)
    ensures result == Merge(d1, d2)
    decreases d2
  {
    result := d1;
    var todo := d2.children.Keys;
    while todo != {}
      invariant todo <= d2.children.Keys && MergedBut(result, d1, d2, todo)
      decreases |todo|
    {
      var key :| key in todo;
      var value := d2.children[key];
      if key in result.children && Both(result.children[key], value) {
        value := DeepMerge(result.children[key], value);
      }
      MergeKey(result, d1, d2, todo, key);
      result := Dict(result.children[key := value]);
      todo := todo - {key};
    }
    AllMerged(result, d1, d2);
  }

  // What the merge has under a key of the right side.
  function Child(a: Tree, b: Tree, key: string): Tree
    requires Both(a, b) && key in b.children
  {
    if key in a.children && Both(a.children[key], b.children[key]) then Merge(a.children[key], b.children[key]) else b.children[key]
  }

  // The keys still to do stand as they do on the left side, the others as in the merge.
  ghost predicate MergedBut(result: Tree, a: Tree, b: Tree, todo: set<string>)
    requires Both(a, b)
  {
    && result.Dict? && result.children.Keys == a.children.Keys + (b.children.Keys - todo)
    && forall k :: k in result.children ==>
         result.children[k] == if k in b.children && k !in todo then Child(a, b, k) else a.children[k]
  }

  lemma MergeKey(result: Tree, a: Tree, b: Tree, todo: set<string>, key: string)
    requires Both(a, b) && todo <= b.children.Keys && key in todo && MergedBut(result, a, b, todo)
    ensures key in result.children <==> key in a.children
    ensures key in a.children ==> result.children[key] == a.children[key]
    ensures MergedBut(Dict(result.children[key := Child(a, b, key)]), a, b, todo - {key})
  {
  }

  lemma AllMerged(result: Tree, a: Tree, b: Tree)
    requires Both(a, b) && MergedBut(result, a, b, {})
    ensures result == Merge(a, b)
  {
    assert result.children == Merge(a, b).children;
  }

  // ---- What stands at a path ----

  function At(t: Tree, path: seq<string>): Option<Tree> {
    if path == [] then Some(t)
    else if t.Dict? && path[0] in t.children then At(t.children[path[0]], path[1..])
    else None
  }

  // The shortest prefix of the path where the two are not both dictionaries; None when they are all along it.
  function Fork(a: Tree, b: Tree, path: seq<string>): (n: Option<nat>)
    ensures n.Some? ==> n.value <= |path|
  {
    if !Both(a, b) then Some(0)
    else if path == [] then None
    else if path[0] !in a.children || path[0] !in b.children then Some(1)
    else
      var n := Fork(a.children[path[0]], b.children[path[0]], path[1..]);
      if n.Some? then Some(n.value + 1) else None
  }

  // Where they fork, the right side's tree stands if it has one, else the left side's; where they do not, the merge
  // of both stands.
  lemma {:induction false} MergeAt(a: Tree, b: Tree, path: seq<string>)
    requires Both(a, b)
    ensures var n := Fork(a, b, path);
            if n.None? then At(a, path).Some? && At(b, path).Some? && Both(At(a, path).value, At(b, path).value)
                            && At(Merge(a, b), path) == Some(Merge(At(a, path).value, At(b, path).value))
            else At(Merge(a, b), path) == if At(b, path[..n.value]).Some? then At(b, path) else At(a, path)
    decreases path
  {
    if path != [] {
      var k, rest := path[0], path[1..];
      if k in a.children && k in b.children && Both(a.children[k], b.children[k]) {
        MergeAt(a.children[k], b.children[k], rest);
        var n := Fork(a, b, path);
        if n.Some? {
          assert path[..n.value][0] == k && path[..n.value][1..] == rest[..n.value - 1];
        }
      } else {
        assert path[..1][0] == k && path[..1][1..] == [];
      }
    }
  }

  // ---- Laws ----

  const EMPTY: Tree := Dict(map[])

  lemma EmptyIsIdentity(t: Tree)
    requires t.Dict?
    ensures Merge(t, EMPTY) == t && Merge(EMPTY, t) == t
  {
    assert Merge(t, EMPTY).children == t.children;
    assert Merge(EMPTY, t).children == t.children;
  }

  // The second tree has something for every entry of the first, down to where either stops being a dictionary.
  predicate Covers(b: Tree, a: Tree)
    requires Both(a, b)
    decreases b
  {
    forall k :: k in a.children ==> k in b.children && (Both(a.children[k], b.children[k]) ==> Covers(b.children[k], a.children[k]))
  }

  // Merging into a tree changes nothing on the right exactly when the right covers the left.
  lemma {:induction false} CoversIffAbsorbs(a: Tree, b: Tree)
    requires Both(a, b)
    ensures Covers(b, a) <==> Merge(a, b) == b
    decreases b
  {
    forall k | k in a.children && k in b.children && Both(a.children[k], b.children[k])
      ensures Covers(b.children[k], a.children[k]) <==> Merge(a.children[k], b.children[k]) == b.children[k]
    {
      CoversIffAbsorbs(a.children[k], b.children[k]);
    }
    var r := Merge(a, b);
    if Covers(b, a) {
      assert r.children.Keys == b.children.Keys;
      assert r.children == b.children;
    }
    if r == b {
      forall k | k in a.children ensures k in b.children {
        assert k in r.children;
      }
      forall k | k in a.children && Both(a.children[k], b.children[k]) ensures Covers(b.children[k], a.children[k]) {
        assert r.children[k] == b.children[k];
      }
    }
  }

  lemma {:induction false} MergeIsIdempotent(t: Tree)
    requires t.Dict?
    ensures Merge(t, t) == t
  {
    forall k | k in t.children && t.children[k].Dict? ensures Merge(t.children[k], t.children[k]) == t.children[k] {
      MergeIsIdempotent(t.children[k]);
    }
    assert Merge(t, t).children == t.children;
  }

  lemma {:induction false} RepeatedRightIsAbsorbed(a: Tree, b: Tree)
    requires Both(a, b)
    ensures Merge(Merge(a, b), b) == Merge(a, b)
    decreases b
  {
    var m := Merge(a, b);
    forall k | k in b.children ensures Merge(m, b).children[k] == m.children[k] {
      if k in a.children && Both(a.children[k], b.children[k]) {
        RepeatedRightIsAbsorbed(a.children[k], b.children[k]);
      } else if b.children[k].Dict? {
        MergeIsIdempotent(b.children[k]);
      }
    }
    assert Merge(m, b).children == m.children;
  }

  // Nowhere do dictionaries on the left and right surround a leaf in the middle, unless the right covers the left there.
  predicate Associates(a: Tree, b: Tree, c: Tree)
    requires a.Dict? && b.Dict? && c.Dict?
    decreases c
  {
    forall k :: k in a.children && k in b.children && k in c.children && Both(a.children[k], c.children[k]) ==>
      if b.children[k].Dict? then Associates(a.children[k], b.children[k], c.children[k]) else Covers(c.children[k], a.children[k])
  }

  // Merging is associative exactly on such trees.
  lemma {:induction false} AssociativeIff(a: Tree, b: Tree, c: Tree)
    requires a.Dict? && b.Dict? && c.Dict?
    ensures Merge(Merge(a, b), c) == Merge(a, Merge(b, c)) <==> Associates(a, b, c)
    decreases c
  {
    var left, right := Merge(Merge(a, b), c), Merge(a, Merge(b, c));
    forall k | k in a.children.Keys + b.children.Keys + c.children.Keys
      ensures left.children[k] == right.children[k]
              <==> (k in a.children && k in b.children && k in c.children && Both(a.children[k], c.children[k]) ==>
                      if b.children[k].Dict? then Associates(a.children[k], b.children[k], c.children[k]) else Covers(c.children[k], a.children[k]))
    {
      if k in a.children && k in b.children && k in c.children && Both(a.children[k], c.children[k]) {
        if b.children[k].Dict? {
          AssociativeIff(a.children[k], b.children[k], c.children[k]);
        } else {
          CoversIffAbsorbs(a.children[k], c.children[k]);
        }
      }
    }
    assert left.children.Keys == right.children.Keys == a.children.Keys + b.children.Keys + c.children.Keys;
    if Associates(a, b, c) {
      assert left.children == right.children;
    }
    if left == right {
      assert forall k :: k in left.children ==> left.children[k] == right.children[k];
    }
  }

  // Trees agree on which shared paths are dictionaries.
  predicate SameShape(a: Tree, b: Tree)
    requires Both(a, b)
    decreases b
  {
    forall k :: k in a.children && k in b.children ==>
      (a.children[k].Dict? <==> b.children[k].Dict?) && (Both(a.children[k], b.children[k]) ==> SameShape(a.children[k], b.children[k]))
  }

  // Agreeing trees associate.
  lemma {:induction false} SameShapesAssociate(a: Tree, b: Tree, c: Tree)
    requires a.Dict? && b.Dict? && c.Dict? && SameShape(a, b) && SameShape(b, c)
    ensures Merge(Merge(a, b), c) == Merge(a, Merge(b, c))
    decreases c
  {
    AgreeingAssociates(a, b, c);
    AssociativeIff(a, b, c);
  }

  lemma {:induction false} AgreeingAssociates(a: Tree, b: Tree, c: Tree)
    requires a.Dict? && b.Dict? && c.Dict? && SameShape(a, b) && SameShape(b, c)
    ensures Associates(a, b, c)
    decreases c
  {
    forall k | k in a.children && k in b.children && k in c.children && Both(a.children[k], c.children[k])
      ensures b.children[k].Dict? && Associates(a.children[k], b.children[k], c.children[k])
    {
      AgreeingAssociates(a.children[k], b.children[k], c.children[k]);
    }
  }

  // A leaf between two dictionaries breaks associativity: one order forgets the left dictionary, the other does not.
  lemma LeafBetweenDictionaries(k: string, x: string, y: string)
    requires x != y
    ensures var a, b, c := Dict(map[k := Dict(map[x := Leaf(1)])]), Dict(map[k := Leaf(2)]), Dict(map[k := Dict(map[y := Leaf(3)])]);
            && At(Merge(Merge(a, b), c), [k, x]) == None && At(Merge(a, Merge(b, c)), [k, x]) == Some(Leaf(1))
  {
    var inner, outer := Dict(map[x := Leaf(1)]), Dict(map[y := Leaf(3)]);
    var a, b, c := Dict(map[k := inner]), Dict(map[k := Leaf(2)]), Dict(map[k := outer]);
    assert Merge(a, b).children[k] == Leaf(2);
    assert Merge(Merge(a, b), c).children[k] == outer;
    assert Merge(b, c).children[k] == outer;
    assert Merge(a, Merge(b, c)).children[k] == Merge(inner, outer);
    assert Merge(inner, outer).children[x] == Leaf(1);
    assert [k, x][1..] == [x] && [x][1..] == [];
    assert At(Merge(inner, outer), [x]) == At(Leaf(1), []) == Some(Leaf(1));
  }
}
