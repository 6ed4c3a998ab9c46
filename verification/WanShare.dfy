/** From configured weights to packets: what part of a flow's traffic each live WAN carries while others
    are dead. */
module WanShare {
  import P = WanPool
  import opened Swrr
  import opened FlowTable

  /** Main sharing theorem: with no drain and no partial ramp, over every whole number of rounds of as many
      packets as all configured weights together, a resident flow sends over each live WAN exactly its
      own weight plus its share of the weight of the dead ones, whatever other flows do. */
  lemma LiveShare(hash: Tuple -> nat, c: Cache, rs: seq<Request>, k: Tuple, v: P.View, ms: seq<P.Member>,
                  ws: seq<int>, rounds: nat, i: nat)
    requires P.ViewOk(v) && forall j :: 0 <= j < |ms| ==> !(0 < ms[j].ramp < 100)
    requires var cfgs := P.LiveCfgs(v, ms);
             && 2 <= |cfgs| == |ws| <= MAX_WANS && i < |cfgs|
             && (forall a, b :: 0 <= a < b < |cfgs| ==> cfgs[a] != cfgs[b])
             && (forall j :: 0 <= j < |ws| ==> ws[j] == P.LiveWeights(v, ms)[j] + P.Share(P.DeadWeight(v, ms), |ws|, j))
    requires CacheOk(hash, c) && RequestsOk(rs) && NeverEvicted(hash, c, rs, k) && StateOf(hash, c, k).None?
    requires Steady(rs, k, P.LiveCfgs(v, ms), ws) && OwnPackets(rs, k) == rounds * P.PositiveSum(ms)
    ensures Times(CachePicks(hash, c, rs, k), P.LiveCfgs(v, ms)[i])
         == rounds * (P.LiveWeights(v, ms)[i] + P.Share(P.DeadWeight(v, ms), |ws|, i))
  {
    hide P.LiveCfgs, P.LiveWeights, P.DeadWeight, P.Share, P.PositiveSum, Total, Times, CachePicks, CacheOk,
         NeverEvicted, StateOf, Steady, OwnPackets;
    P.WeightConserved(v, ms, ws);
    PositiveTotal(ws, 0);
    NewFlowFairness(hash, c, rs, k, P.LiveCfgs(v, ms), ws, rounds, i);
  }

  lemma {:induction false} PositiveTotal(ws: seq<int>, j: nat)
    requires j < |ws| && ws[j] >= 1
    ensures Total(ws) >= 1
  {
    var n := |ws| - 1;
    if j < n {
      PositiveTotal(ws[..n], j);
    }
  }
}
