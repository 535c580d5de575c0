/** The directory a client fills, with the two system calls that fill it. */
module DiskTree {
  import opened Resolution

  /** `q` is `p` or one of its ancestors below the root. */
  predicate OnTheWay(q: seq<string>, p: seq<string>) {
    q != [] && q <= p
  }

  class Disk {
    var nodes: Tree

    /** `os.Mkdir` of a destination that did not exist. */
    constructor ()
      ensures nodes == map[]
    {
      nodes := map[];
    }

    /** `os.MkdirAll`. It is only used while no link exists, so it never traverses one. */
    method MkdirAll(p: seq<string>) returns (ok: bool)
      requires WellFormed(nodes) && forall i :: 0 <= i < |p| ==> IsName(p[i])
      requires forall q :: q in nodes ==> !nodes[q].Symlink?
      modifies this
      ensures WellFormed(nodes)
      ensures forall q :: q in nodes ==> !nodes[q].Symlink?
      ensures ok <==> forall k :: 1 <= k <= |p| && p[..k] in old(nodes) ==> old(nodes)[p[..k]] == Directory
      ensures ok ==> forall q :: q in nodes <==> q in old(nodes) || OnTheWay(q, p)
      ensures ok ==> forall q :: q in nodes ==> nodes[q] == if q in old(nodes) then old(nodes)[q] else Directory
    {
      var k := 1;
      while k <= |p|
        invariant 1 <= k <= |p| + 1
        invariant WellFormed(nodes) && IsDirectory(nodes, p[..k - 1])
        invariant forall q :: q in nodes ==> !nodes[q].Symlink?
        invariant forall j :: 1 <= j < k && p[..j] in old(nodes) ==> old(nodes)[p[..j]] == Directory
        invariant forall q :: q in nodes <==> q in old(nodes) || OnTheWay(q, p[..k - 1])
        invariant forall q :: q in nodes ==> nodes[q] == if q in old(nodes) then old(nodes)[q] else Directory
      {
        var q := p[..k];
        assert q[..|q| - 1] == p[..k - 1];
        PrefixGrows(p, k);
        if q in nodes {
          if nodes[q] != Directory {
            return false;
          }
        } else {
          AddKeepsWellFormed(nodes, q, Directory);
          nodes := nodes[q := Directory];
        }
        k := k + 1;
      }
      assert p[..k - 1] == p;
      return true;
    }

    /** Exclusive creation of a file or a link in a directory that is a real one, so that no
        link is traversed on the way. */
    method Create(p: seq<string>, node: Node) returns (ok: bool)
      requires WellFormed(nodes) && Placed(nodes, p)
      modifies this
      ensures WellFormed(nodes)
      ensures ok == (p !in old(nodes))
      ensures nodes == if ok then old(nodes)[p := node] else old(nodes)
    {
      if p in nodes {
        return false;
      }
      AddKeepsWellFormed(nodes, p, node);
      nodes := nodes[p := node];
      return true;
    }
  }

  lemma PrefixGrows(p: seq<string>, k: nat)
    requires 1 <= k <= |p|
    ensures forall q :: OnTheWay(q, p[..k]) <==> OnTheWay(q, p[..k - 1]) || q == p[..k]
  {
    forall q | OnTheWay(q, p[..k]) ensures OnTheWay(q, p[..k - 1]) || q == p[..k] {
      assert |q| == k ==> q == p[..k];
    }
  }

  lemma AddKeepsWellFormed(nodes: Tree, p: seq<string>, node: Node)
    requires WellFormed(nodes) && Placed(nodes, p) && p !in nodes
    ensures WellFormed(nodes[p := node])
  {
    var tree := nodes[p := node];
    forall q | q in tree ensures Placed(tree, q) {
      assert q != p ==> Placed(nodes, q);
    }
  }
}
