/** Address blocks, the addresses they hold, and the canonical form of a free list. */
module Blocks {
  import opened Word

  datatype Block = Block(address: u64, size: u64)
  {
    /** One past the last address; 2^64 for a block that reaches the top. */
    function End(): int {
      address + size
    }

    predicate Holds(a: int) {
      address <= a < End()
    }

    /** A block that is not empty and does not pass the top of the space. */
    predicate WellFormed() {
      0 < size && End() <= TWO_64
    }

    predicate Disjoint(other: Block) {
      End() <= other.address || other.End() <= address
    }
  }

  ghost predicate Covers(bs: seq<Block>, a: int) {
    exists i :: 0 <= i < |bs| && bs[i].Holds(a)
  }

  /** All blocks well formed, in ascending order, and no block touching the next one. */
  ghost predicate Canonical(bs: seq<Block>) {
    && (forall i :: 0 <= i < |bs| ==> bs[i].WellFormed())
    && (forall i, j :: 0 <= i < j < |bs| ==> bs[i].End() < bs[j].address)
  }

  ghost predicate DisjointFromAll(r: Block, bs: seq<Block>) {
    forall i :: 0 <= i < |bs| ==> bs[i].Disjoint(r)
  }

  ghost predicate PairwiseDisjoint(bs: seq<Block>) {
    forall i, j :: 0 <= i < j < |bs| ==> bs[i].Disjoint(bs[j])
  }

  /** Every address from a up to, but not including, a + size is covered. */
  ghost predicate FreeRun(bs: seq<Block>, a: int, size: int) {
    forall x :: a <= x < a + size ==> Covers(bs, x)
  }

  lemma CoversConcat(x: seq<Block>, y: seq<Block>, a: int)
    ensures Covers(x + y, a) <==> Covers(x, a) || Covers(y, a)
  {
    if Covers(x, a) {
      var i :| 0 <= i < |x| && x[i].Holds(a);
      assert (x + y)[i].Holds(a);
    }
    if Covers(y, a) {
      var i :| 0 <= i < |y| && y[i].Holds(a);
      assert (x + y)[|x| + i].Holds(a);
    }
  }

  lemma CoversOne(b: Block, a: int)
    ensures Covers([b], a) <==> b.Holds(a)
  {
    if b.Holds(a) {
      assert [b][0].Holds(a);
    }
  }

  /** Taking one block out of the middle. */
  lemma CoversAround(bs: seq<Block>, k: nat, a: int)
    requires k < |bs|
    ensures Covers(bs, a) <==> Covers(bs[..k] + bs[k + 1..], a) || bs[k].Holds(a)
  {
    assert bs == bs[..k] + [bs[k]] + bs[k + 1..];
    CoversConcat(bs[..k] + [bs[k]], bs[k + 1..], a);
    CoversConcat(bs[..k], [bs[k]], a);
    CoversOne(bs[k], a);
    CoversConcat(bs[..k], bs[k + 1..], a);
  }

  /** Two disjoint lists stay disjoint exactly when no address is covered by both. */
  lemma DisjointByAddress(r: Block, bs: seq<Block>)
    requires r.WellFormed()
    requires forall i :: 0 <= i < |bs| ==> bs[i].WellFormed()
    ensures DisjointFromAll(r, bs) <==> forall a :: r.Holds(a) ==> !Covers(bs, a)
  {
    if forall a :: r.Holds(a) ==> !Covers(bs, a) {
      forall i | 0 <= i < |bs|
        ensures bs[i].Disjoint(r)
      {
        if !bs[i].Disjoint(r) {
          var a := if bs[i].address < r.address then r.address else bs[i].address;
          assert bs[i].Holds(a) && r.Holds(a);
          assert Covers(bs, a);
          assert false;
        }
      }
    }
  }

  /** In a canonical list a run of covered addresses lies inside one block. */
  lemma RunInOneBlock(bs: seq<Block>, a: int, size: int) returns (k: nat)
    requires Canonical(bs) && 0 < size && FreeRun(bs, a, size)
    ensures k < |bs| && bs[k].address <= a && a + size <= bs[k].End()
  {
    assert Covers(bs, a);
    k :| 0 <= k < |bs| && bs[k].Holds(a);
    if bs[k].End() < a + size {
      EndNotCovered(bs, k);
      assert false;
    }
  }

  /** The address just past a block of a canonical list is never covered. */
  lemma EndNotCovered(bs: seq<Block>, k: nat)
    requires Canonical(bs) && k < |bs|
    ensures !Covers(bs, bs[k].End())
  {
  }

  /**
   * The canonical list of a set of addresses is unique: it is the list of the
   * maximal runs of that set.
   */
  lemma {:induction false} CanonicalUnique(x: seq<Block>, y: seq<Block>)
    requires Canonical(x) && Canonical(y)
    requires forall a :: Covers(x, a) <==> Covers(y, a)
    ensures x == y
  {
    if x == [] {
      if y != [] {
        assert y[0].Holds(y[0].address);
        assert Covers(y, y[0].address);
        assert false;
      }
    } else {
      assert x[0].Holds(x[0].address);
      assert Covers(x, x[0].address);
      assert Covers(y, x[0].address);
      FirstBlockEqual(x, y);
      forall a
        ensures Covers(x[1..], a) <==> Covers(y[1..], a)
      {
        TailCovers(x, a);
        TailCovers(y, a);
      }
      CanonicalUnique(x[1..], y[1..]);
      assert x == [x[0]] + x[1..];
      assert y == [y[0]] + y[1..];
    }
  }

  lemma TailCovers(x: seq<Block>, a: int)
    requires x != [] && Canonical(x)
    ensures Covers(x[1..], a) <==> Covers(x, a) && !x[0].Holds(a)
  {
    if Covers(x, a) && !x[0].Holds(a) {
      var i :| 0 <= i < |x| && x[i].Holds(a);
      assert x[1..][i - 1].Holds(a);
    }
    if Covers(x[1..], a) {
      var i :| 0 <= i < |x[1..]| && x[1..][i].Holds(a);
      assert x[i + 1].Holds(a);
    }
  }

  lemma FirstBlockEqual(x: seq<Block>, y: seq<Block>)
    requires Canonical(x) && Canonical(y) && x != [] && y != []
    requires forall a :: Covers(x, a) <==> Covers(y, a)
    ensures x[0] == y[0]
  {
    FirstBlockWithin(x, y);
    FirstBlockWithin(y, x);
  }

  lemma FirstBlockWithin(x: seq<Block>, y: seq<Block>)
    requires Canonical(x) && Canonical(y) && x != [] && y != []
    requires forall a :: Covers(x, a) <==> Covers(y, a)
    ensures y[0].address <= x[0].address
    ensures y[0].address == x[0].address ==> x[0].End() <= y[0].End()
  {
    assert x[0].Holds(x[0].address);
    assert Covers(x, x[0].address);
    assert Covers(y, x[0].address);
    if y[0].address == x[0].address && y[0].End() < x[0].End() {
      assert x[0].Holds(y[0].End());
      assert Covers(x, y[0].End());
      EndNotCovered(y, 0);
      assert false;
    }
  }
}
