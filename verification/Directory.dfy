/** The directory of a memory module (directory.c): bitmaps of sharers with their counts,
    changed in place, refine sets. */
module Directory {
  import opened Sequences

  // ---- Bits of a byte ----

  function Mask(j: nat): bv8
    requires j < 8
  {
    match j
    case 0 => 1 case 1 => 2 case 2 => 4 case 3 => 8
    case 4 => 16 case 5 => 32 case 6 => 64 case _ => 128
  }

  predicate BitSet(b: bv8, j: nat)
    requires j < 8
  {
    b & Mask(j) != 0
  }

  lemma MaskBits(b: bv8, j: nat, k: nat)
    requires j < 8 && k < 8
    ensures BitSet(b | Mask(j), k) <==> k == j || BitSet(b, k)
    ensures BitSet(b & !Mask(j), k) <==> k != j && BitSet(b, k)
  {
    MaskOr(b, Mask(j), Mask(k));
    if j != k {
      MasksApart(j, k);
    }
  }

  lemma MasksApart(j: nat, k: nat)
    requires j < 8 && k < 8 && j != k
    ensures Mask(j) & Mask(k) == 0
  {
  }

  lemma MaskOr(b: bv8, x: bv8, y: bv8)
    ensures (b | x) & y == (b & y) | (x & y)
    ensures x & y == 0 ==> (b | x) & y == b & y && (b & !x) & y == b & y
    ensures (b & !x) & x == 0 && (b | x) & x == x
  {
  }

  // ---- Bitmaps ----

  predicate IsBitmap(bytes: seq<bv8>, nodes: nat) {
    |bytes| == (nodes + 7) / 8
  }

  predicate Bit(bytes: seq<bv8>, nodes: nat, k: nat)
    requires IsBitmap(bytes, nodes) && k < nodes
  {
    BitSet(bytes[k / 8], k % 8)
  }

  /** The set that a bitmap represents. */
  ghost function Members(bytes: seq<bv8>, nodes: nat): (s: set<nat>)
    requires IsBitmap(bytes, nodes)
    ensures forall k: nat :: k in s <==> k < nodes && Bit(bytes, nodes, k)
    ensures |s| <= nodes
  {
    var s := set k: nat | k < nodes && Bit(bytes, nodes, k);
    SubsetSize(s, FirstN(nodes));
    s
  }

  function With(bytes: seq<bv8>, nodes: nat, node: nat): (b: seq<bv8>)
    requires IsBitmap(bytes, nodes) && node < nodes
    ensures IsBitmap(b, nodes)
  {
    bytes[node / 8 := bytes[node / 8] | Mask(node % 8)]
  }

  function Without(bytes: seq<bv8>, nodes: nat, node: nat): (b: seq<bv8>)
    requires IsBitmap(bytes, nodes) && node < nodes
    ensures IsBitmap(b, nodes)
  {
    bytes[node / 8 := bytes[node / 8] & !Mask(node % 8)]
  }

  /** Setting a bit adds its node and clearing it removes it; the other nodes of the
      byte, and of the other bytes, stay. */
  lemma ChangeBit(bytes: seq<bv8>, nodes: nat, node: nat)
    requires IsBitmap(bytes, nodes) && node < nodes
    ensures Members(With(bytes, nodes, node), nodes) == Members(bytes, nodes) + {node}
    ensures Members(Without(bytes, nodes, node), nodes) == Members(bytes, nodes) - {node}
  {
    forall k: nat | k < nodes
      ensures Bit(With(bytes, nodes, node), nodes, k) <==> k == node || Bit(bytes, nodes, k)
      ensures Bit(Without(bytes, nodes, node), nodes, k) <==> k != node && Bit(bytes, nodes, k)
    {
      if k / 8 == node / 8 {
        MaskBits(bytes[node / 8], node % 8, k % 8);
        assert k % 8 == node % 8 <==> k == node;
      }
    }
  }

  /** What an entry means. */
  datatype Owners = Owners(sharers: set<nat>, owner: int)

  /** A directory entry: the owner, the number of sharers, and one bit for each node. */
  class DirEntry {
    const nodes: nat
    const sharer: array<bv8>
    var numSharers: int
    var owner: int

    constructor (nodes: nat)
      ensures this.nodes == nodes && Valid() && View() == Owners({}, NONE)
      ensures fresh(sharer)
    {
      this.nodes := nodes;
      sharer := new bv8[(nodes + 7) / 8](_ => 0);
      numSharers := 0;
      owner := NONE;
      new;
      assert Members(sharer[..], nodes) == {};
    }

    /** The count is the number of bits set, and the owner is a node or none. */
    ghost predicate Valid()
      reads this, sharer
    {
      && IsBitmap(sharer[..], nodes)
      && numSharers == |Members(sharer[..], nodes)|
      && -1 <= owner < nodes
    }

    ghost function View(): Owners
      requires IsBitmap(sharer[..], nodes)
      reads this, sharer
    {
      Owners(Members(sharer[..], nodes), owner)
    }

    method SetOwner(node: int)
      requires Valid() && (node == NONE || 0 <= node < nodes)
      modifies this`owner
      ensures Valid() && View() == old(View()).(owner := node)
    {
      owner := node;
    }

    method IsSharer(node: nat) returns (yes: bool)
      requires Valid() && node < nodes
      ensures yes <==> node in View().sharers
    {
      yes := sharer[node / 8] & Mask(node % 8) > 0;
      assert Bit(sharer[..], nodes, node) == yes;
    }

    method SetSharer(node: nat)
      requires Valid() && node < nodes
      modifies this`numSharers, sharer
      ensures Valid() && View() == old(View()).(sharers := old(View()).sharers + {node})
      ensures numSharers <= nodes
    {
      var already := IsSharer(node);
      ghost var bytes := sharer[..];
      ChangeBit(bytes, nodes, node);
      if already {
        assert Members(bytes, nodes) + {node} == Members(bytes, nodes);
        return;
      }
      sharer[node / 8] := sharer[node / 8] | Mask(node % 8);
      assert sharer[..] == With(bytes, nodes, node);
      numSharers := numSharers + 1;
    }

    method ClearSharer(node: nat)
      requires Valid() && node < nodes
      modifies this`numSharers, sharer
      ensures Valid() && View() == old(View()).(sharers := old(View()).sharers - {node})
    {
      var present := IsSharer(node);
      ghost var bytes := sharer[..];
      ChangeBit(bytes, nodes, node);
      if !present {
        assert Members(bytes, nodes) - {node} == Members(bytes, nodes);
        return;
      }
      sharer[node / 8] := sharer[node / 8] & !Mask(node % 8);
      assert sharer[..] == Without(bytes, nodes, node);
      assert numSharers > 0;
      numSharers := numSharers - 1;
    }

    method ClearAllSharers()
      requires Valid()
      modifies this`numSharers, sharer
      ensures Valid() && View() == old(View()).(sharers := {})
    {
      numSharers := 0;
      for i := 0 to sharer.Length
        invariant numSharers == 0
        invariant forall j :: 0 <= j < i ==> sharer[j] == 0
      {
        sharer[i] := 0;
      }
      forall k: nat | k < nodes
        ensures !Bit(sharer[..], nodes, k)
      {
        assert sharer[k / 8] == 0;
      }
      assert Members(sharer[..], nodes) == {};
      assert |Members(sharer[..], nodes)| == 0;
    }

    method SharedOrOwned() returns (yes: bool)
      requires Valid()
      ensures yes <==> View().sharers != {} || View().owner != NONE
    {
      yes := numSharers != 0 || owner >= 0;
    }
  }

  // ---- Addresses of entries ----

  /** The position of the entry of sub-block `z` of way `y` of set `x`. */
  function Address(ysize: nat, zsize: nat, x: nat, y: nat, z: nat): nat {
    x * ysize * zsize + y * zsize + z
  }

  function Volume(xsize: nat, ysize: nat, zsize: nat): nat {
    xsize * ysize * zsize
  }

  /** Entries of different sub-blocks, ways or sets lie at different positions. */
  lemma AddressesApart(ysize: nat, zsize: nat, x: nat, y: nat, z: nat, x': nat, y': nat, z': nat)
    requires y < ysize && z < zsize && y' < ysize && z' < zsize
    requires Address(ysize, zsize, x, y, z) == Address(ysize, zsize, x', y', z')
    ensures x == x' && y == y' && z == z'
  {
    SplitRow(ysize, zsize, x, y);
    SplitRow(ysize, zsize, x', y');
    Quotient(zsize, x * ysize + y, z, x' * ysize + y', z');
    Quotient(ysize, x, y, x', y');
  }

  lemma SplitRow(ysize: nat, zsize: nat, x: nat, y: nat)
    ensures x * ysize * zsize + y * zsize == (x * ysize + y) * zsize
  {
  }

  lemma {:induction false} LaterRow(n: nat, a: nat, b: nat)
    requires a < b
    ensures a * n + n <= b * n
    decreases b
  {
    if a + 1 < b {
      LaterRow(n, a, b - 1);
    }
  }

  lemma Quotient(n: nat, a: nat, r: nat, b: nat, t: nat)
    requires r < n && t < n && a * n + r == b * n + t
    ensures a == b && r == t
  {
    if a < b {
      LaterRow(n, a, b);
    } else if b < a {
      LaterRow(n, b, a);
    }
  }

  /** All of them lie within the directory. */
  lemma AddressInside(xsize: nat, ysize: nat, zsize: nat, x: nat, y: nat, z: nat)
    requires x < xsize && y < ysize && z < zsize
    ensures Address(ysize, zsize, x, y, z) < Volume(xsize, ysize, zsize)
  {
    SplitRow(ysize, zsize, x, y);
    LaterRow(ysize, x, xsize);
    LaterRow(zsize, x * ysize + y, xsize * ysize);
  }

  ghost predicate InUse(entry: DirEntry)
    reads entry, entry.sharer
  {
    entry.Valid() && entry.View() != Owners({}, NONE)
  }

  /** Some sub-block of a block has a sharer or an owner; `group` are its entries. */
  method GroupSharedOrOwned(group: seq<DirEntry>) returns (yes: bool)
    requires forall z :: 0 <= z < |group| ==> group[z].Valid()
    ensures yes <==> exists z :: 0 <= z < |group| && InUse(group[z])
  {
    for z := 0 to |group|
      invariant forall j :: 0 <= j < z ==> !InUse(group[j])
    {
      yes := group[z].SharedOrOwned();
      if yes {
        return;
      }
    }
    yes := false;
  }
}
