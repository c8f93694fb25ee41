/** Blocks of a pool. */
module PoolBlocks {
  /** A block: its own number, the bytes handed out so far and its capacity. */
  datatype Block = Block(id: nat, used: nat, cap: nat)

  predicate DistinctIds(ks: seq<Block>) { forall i, j | 0 <= i < j < |ks| :: ks[i].id != ks[j].id }

  lemma SameBlock(ks: seq<Block>, j: Block, d: Block)
    requires DistinctIds(ks) && j in ks && d in ks && j.id == d.id
    ensures j == d
  {
  }

  /** The list without the block of a number. */
  function Less(ks: seq<Block>, id: nat): seq<Block> {
    if ks == [] then [] else (if ks[0].id == id then [] else [ks[0]]) + Less(ks[1..], id)
  }

  lemma {:induction false} LessIs(ks: seq<Block>, id: nat)
    requires DistinctIds(ks)
    ensures DistinctIds(Less(ks, id)) && forall k :: k in Less(ks, id) <==> k in ks && k.id != id
    ensures |Less(ks, id)| == |ks| - if exists k <- ks :: k.id == id then 1 else 0
  {
    if ks != [] {
      LessIs(ks[1..], id);
      forall k ensures k in Less(ks, id) <==> k in ks && k.id != id {
        assert k in ks <==> k == ks[0] || k in ks[1..];
      }
      var r := Less(ks, id);
      forall i, j | 0 <= i < j < |r| ensures r[i].id != r[j].id {
        if ks[0].id != id && i == 0 { assert r[j] in Less(ks[1..], id); }
      }
    }
  }
}
