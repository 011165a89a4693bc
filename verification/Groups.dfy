/** The device-group tree: the path to a group, and what keeps the tree a forest. */
module Groups {
  import opened Options

  type GroupId = nat
  datatype Group = Group(name: string, parent: Option<GroupId>)
  type Forest = map<GroupId, Group>

  /** From x, n steps to the parent lead to a root. */
  ghost predicate RootAfter(f: Forest, x: GroupId, n: nat)
    decreases n
  {
    x in f && match f[x].parent
              case None => n == 0
              case Some(p) => n > 0 && RootAfter(f, p, n - 1)
  }

  ghost predicate Grounded(f: Forest, x: GroupId) {
    exists n: nat :: RootAfter(f, x, n)
  }

  ghost predicate Acyclic(f: Forest) {
    forall x :: x in f ==> Grounded(f, x)
  }

  lemma {:induction false} DepthIsUnique(f: Forest, x: GroupId, n: nat, m: nat)
    requires RootAfter(f, x, n) && RootAfter(f, x, m)
    ensures n == m
    decreases n
  {
    if f[x].parent.Some? {
      DepthIsUnique(f, f[x].parent.value, n - 1, m - 1);
    }
  }

  /** The documented path: the parent's path, then " / " and the name. */
  ghost function Path(f: Forest, x: GroupId, n: nat): string
    requires RootAfter(f, x, n)
    decreases n
  {
    match f[x].parent
    case None => f[x].name
    case Some(p) => Path(f, p, n - 1) + " / " + f[x].name
  }

  function JoinReversed(parts: seq<string>): string {
    if parts == [] then ""
    else if |parts| == 1 then parts[0]
    else parts[|parts| - 1] + " / " + JoinReversed(parts[..|parts| - 1])
  }

  /** `root` and what remains below it, joined. */
  function Under(root: string, parts: seq<string>): string {
    if parts == [] then root else root + " / " + JoinReversed(parts)
  }

  /** The loop ends for every group whose parents lead to a root, and computes its path. */
  method FullPath(f: Forest, x: GroupId, ghost n: nat) returns (path: string)
    requires RootAfter(f, x, n)
    ensures path == Path(f, x, n)
  {
    var node, parts := Some(x), [];
    ghost var left := n;
    while node.Some?
      invariant node.Some? ==>
                  RootAfter(f, node.value, left) && Path(f, x, n) == Under(Path(f, node.value, left), parts)
      invariant node.None? ==> Path(f, x, n) == JoinReversed(parts)
      decreases node.Some?, left
    {
      var g := f[node.value];
      assert (parts + [g.name])[..|parts|] == parts;
      if g.parent.Some? {
        UnderOneMore(Path(f, g.parent.value, left - 1), g.name, parts);
        left := left - 1;
      }
      parts := parts + [g.name];
      node := g.parent;
    }
    path := JoinReversed(parts);
  }

  lemma UnderOneMore(root: string, name: string, parts: seq<string>)
    ensures Under(root + " / " + name, parts) == Under(root, parts + [name])
  {
    assert (parts + [name])[..|parts|] == parts;
    if parts != [] {
      assert root + " / " + name + " / " + JoinReversed(parts) == root + " / " + (name + " / " + JoinReversed(parts));
    }
  }

  /** Untouched groups keep their way to the root. */
  lemma {:induction false} StillGrounded(f: Forest, g: Forest, x: GroupId, n: nat)
    requires RootAfter(f, x, n) && forall y :: y in f ==> y in g && g[y].parent == f[y].parent
    ensures RootAfter(g, x, n)
    decreases n
  {
    if f[x].parent.Some? {
      StillGrounded(f, g, f[x].parent.value, n - 1);
    }
  }

  /** A new group, at the root or under an existing one, keeps the forest acyclic. */
  lemma AddKeepsAcyclic(f: Forest, x: GroupId, group: Group)
    requires Acyclic(f) && x !in f && (group.parent.Some? ==> group.parent.value in f)
    ensures Acyclic(f[x := group])
  {
    var g := f[x := group];
    forall y | y in g ensures Grounded(g, y) {
      if y == x {
        if group.parent.Some? {
          var n: nat :| RootAfter(f, group.parent.value, n);
          StillGrounded(f, g, group.parent.value, n);
          assert RootAfter(g, x, n + 1);
        } else {
          assert RootAfter(g, x, 0);
        }
      } else {
        var n: nat :| RootAfter(f, y, n);
        StillGrounded(f, g, y, n);
      }
    }
  }

  /** x is p or one of p's ancestors. */
  ghost predicate Above(f: Forest, x: GroupId, p: GroupId, n: nat)
    requires RootAfter(f, p, n)
    decreases n
  {
    x == p || (f[p].parent.Some? && Above(f, x, f[p].parent.value, n - 1))
  }

  function Moved(f: Forest, x: GroupId, p: GroupId): Forest
    requires x in f
  {
    f[x := f[x].(parent := Some(p))]
  }

  /** A chain that avoids x is as it was before x moved. */
  lemma {:induction false} AvoidsMoved(f: Forest, x: GroupId, p: GroupId, y: GroupId, n: nat)
    requires x in f && RootAfter(f, y, n) && !Above(f, x, y, n)
    ensures RootAfter(Moved(f, x, p), y, n)
    decreases n
  {
    if f[y].parent.Some? {
      AvoidsMoved(f, x, p, f[y].parent.value, n - 1);
    }
  }

  lemma {:induction false} GroundedAfterMove(f: Forest, x: GroupId, p: GroupId, n: nat, y: GroupId, m: nat)
    requires x in f && RootAfter(f, p, n) && !Above(f, x, p, n) && RootAfter(f, y, m)
    ensures Grounded(Moved(f, x, p), y)
    decreases m
  {
    var g := Moved(f, x, p);
    if y == x {
      AvoidsMoved(f, x, p, p, n);
      assert RootAfter(g, x, n + 1);
    } else if f[y].parent.Some? {
      GroundedAfterMove(f, x, p, n, f[y].parent.value, m - 1);
      var k: nat :| RootAfter(g, f[y].parent.value, k);
      assert RootAfter(g, y, k + 1);
    } else {
      assert RootAfter(g, y, 0);
    }
  }

  /** After x moved below its own descendant, a chain through x comes back to x later. */
  lemma {:induction false} ComesBack(f: Forest, x: GroupId, p: GroupId, y: GroupId, n: nat, m: nat) returns (k: nat)
    requires x in f && RootAfter(f, y, n) && Above(f, x, y, n) && RootAfter(Moved(f, x, p), y, m)
    ensures k <= m && RootAfter(Moved(f, x, p), x, k)
    decreases n
  {
    if x == y {
      k := m;
    } else {
      k := ComesBack(f, x, p, f[y].parent.value, n - 1, m - 1);
    }
  }

  lemma {:induction false} NeverGrounded(f: Forest, x: GroupId, p: GroupId, n: nat, m: nat)
    requires x in f && RootAfter(f, p, n) && Above(f, x, p, n)
    ensures !RootAfter(Moved(f, x, p), x, m)
    decreases m
  {
    if RootAfter(Moved(f, x, p), x, m) {
      var k := ComesBack(f, x, p, p, n, m - 1);
      NeverGrounded(f, x, p, n, k);
    }
  }

  /**
   Moving a group under a new parent keeps the forest acyclic, and so every path computable,
   exactly if the group is neither the new parent nor one of its ancestors.
   */
  lemma MoveKeepsAcyclicIff(f: Forest, x: GroupId, p: GroupId, n: nat)
    requires Acyclic(f) && x in f && RootAfter(f, p, n)
    ensures Acyclic(Moved(f, x, p)) <==> !Above(f, x, p, n)
  {
    if Above(f, x, p, n) {
      forall m: nat ensures !RootAfter(Moved(f, x, p), x, m) {
        NeverGrounded(f, x, p, n, m);
      }
      assert !Grounded(Moved(f, x, p), x);
    } else {
      forall y | y in Moved(f, x, p) ensures Grounded(Moved(f, x, p), y) {
        var m: nat :| RootAfter(f, y, m);
        GroundedAfterMove(f, x, p, n, y, m);
      }
    }
  }
}
