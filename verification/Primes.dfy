/** The bucket counts a hash table may have (include/abs/htable_primes.h, the branch for 64-bit
    `unsigned long`) and the search for the smallest one that is large enough. */
module Primes {

  // The list, in runs short enough for the verifier to compare neighbours directly.
  const RUN_0: seq<nat> := [
    2, 3, 5, 7, 11, 13, 17, 19, 23, 29, 31, 37, 41, 43, 47, 53, 59, 61, 67, 71, 73, 79, 83, 89, 97, 103, 109,
    113, 127, 137, 139
  ]
  const RUN_1: seq<nat> := [
    149, 157, 167, 179, 193, 199, 211, 227, 241, 257, 277, 293, 313, 337, 359, 383, 409, 439, 467, 503, 541,
    577, 619, 661, 709, 761, 823, 887, 953, 1031, 1109
  ]
  const RUN_2: seq<nat> := [
    1193, 1289, 1381, 1493, 1613, 1741, 1879, 2029, 2179, 2357, 2549, 2753, 2971, 3209, 3469, 3739, 4027, 4349,
    4703, 5087, 5503, 5953, 6427, 6949, 7517, 8123, 8783, 9497, 10273, 11113, 12011
  ]
  const RUN_3: seq<nat> := [
    12983, 14033, 15173, 16411, 17749, 19183, 20753, 22447, 24281, 26267, 28411, 30727, 33223, 35933, 38873,
    42043, 45481, 49201, 53201, 57557, 62233, 67307, 72817, 78779, 85229, 92203, 99733, 107897, 116731, 126271,
    136607
  ]
  const RUN_4: seq<nat> := [
    147793, 159871, 172933, 187091, 202409, 218971, 236897, 256279, 277261, 299951, 324503, 351061, 379787,
    410857, 444487, 480881, 520241, 562841, 608903, 658753, 712697, 771049, 834181, 902483, 976369, 1056323,
    1142821, 1236397, 1337629, 1447153, 1565659
  ]
  const RUN_5: seq<nat> := [
    1693859, 1832561, 1982627, 2144977, 2320627, 2510653, 2716249, 2938679, 3179303, 3439651, 3721303, 4026031,
    4355707, 4712381, 5098259, 5515729, 5967347, 6456007, 6984629, 7556579, 8175383, 8844859, 9569143,
    10352717, 11200489, 12117689, 13109983, 14183539, 15345007, 16601593, 17961079
  ]
  const RUN_6: seq<nat> := [
    19431899, 21023161, 22744717, 24607243, 26622317, 28802401, 31160981, 33712729, 36473443, 39460231,
    42691603, 46187573, 49969847, 54061849, 58488943, 63278561, 68460391, 74066549, 80131819, 86693767,
    93793069, 101473717, 109783337, 118773397, 128499677, 139022417, 150406843, 162723577, 176048909,
    190465427, 206062531
  ]
  const RUN_7: seq<nat> := [
    222936881, 241193053, 260944219, 282312799, 305431229, 330442829, 357502601, 386778277, 418451333,
    452718089, 489790921, 529899637, 573292817, 620239453, 671030513, 725980837, 785430967, 849749479,
    919334987, 994618837, 1076067617, 1164186217, 1259520799, 1362662261, 1474249943, 1594975441, 1725587117,
    1866894511, 2019773507, 2185171673, 2364114217
  ]
  const RUN_8: seq<nat> := [
    2557710269, 2767159799, 2993761039, 3238918481, 3504151727, 3791104843, 4101556399, 4294967291, 6442450933,
    8589934583, 12884901857, 17179869143, 25769803693, 34359738337, 51539607367, 68719476731, 103079215087,
    137438953447, 206158430123, 274877906899, 412316860387, 549755813881, 824633720731, 1099511627689,
    1649267441579, 2199023255531, 3298534883309, 4398046511093, 6597069766607, 8796093022151, 13194139533241
  ]
  const RUN_9: seq<nat> := [
    17592186044399, 26388279066581, 35184372088777, 52776558133177, 70368744177643, 105553116266399,
    140737488355213, 211106232532861, 281474976710597, 562949953421231, 1125899906842597, 2251799813685119,
    4503599627370449, 9007199254740881, 18014398509481951, 36028797018963913, 72057594037927931,
    144115188075855859, 288230376151711717, 576460752303423433, 1152921504606846883, 2305843009213693951,
    4611686018427387847, 9223372036854775783, 18446744073709551557, 18446744073709551557
  ]
  const RUNS: seq<seq<nat>> := [RUN_0, RUN_1, RUN_2, RUN_3, RUN_4, RUN_5, RUN_6, RUN_7, RUN_8, RUN_9]
  const PRIMES: seq<nat> := Concat(RUNS)
  const LAST_PRIME: nat := 18446744073709551557

  function Concat(runs: seq<seq<nat>>): seq<nat> {
    if runs == [] then [] else runs[0] + Concat(runs[1..])
  }

  ghost predicate Ascending(s: seq<nat>) {
    forall i, j :: 0 <= i < j < |s| ==> s[i] <= s[j]
  }

  ghost predicate NeighboursAscend(s: seq<nat>) {
    s != [] && forall i :: 1 <= i < |s| ==> s[i - 1] <= s[i]
  }

  lemma {:induction false} NeighboursSuffice(s: seq<nat>)
    requires NeighboursAscend(s)
    ensures Ascending(s)
  {
    if |s| > 1 {
      var init := s[..|s| - 1];
      NeighboursSuffice(init);
      forall i, j | 0 <= i < j < |s| ensures s[i] <= s[j] {
        assert s[j - 1] <= s[j];
        if i < j - 1 {
          assert init[i] <= init[j - 1];
        }
      }
    }
  }

  ghost predicate RunsAscend(runs: seq<seq<nat>>) {
    && runs != []
    && (forall k :: 0 <= k < |runs| ==> NeighboursAscend(runs[k]))
    && (forall k :: 1 <= k < |runs| ==> Last(runs[k - 1]) <= First(runs[k]))
  }

  function First(s: seq<nat>): nat {
    if s == [] then 0 else s[0]
  }

  function Last(s: seq<nat>): nat {
    if s == [] then 0 else s[|s| - 1]
  }

  lemma {:induction false} ConcatAscends(runs: seq<seq<nat>>)
    requires RunsAscend(runs)
    ensures NeighboursAscend(Concat(runs))
    ensures First(Concat(runs)) == First(runs[0])
    ensures Last(Concat(runs)) == Last(runs[|runs| - 1])
  {
    assert NeighboursAscend(runs[0]);
    if |runs| == 1 {
      assert Concat(runs) == runs[0] + [];
      assert runs[0] + [] == runs[0];
    } else {
      var rest := runs[1..];
      assert RunsAscend(rest) by {
        forall k | 1 <= k < |rest| ensures Last(rest[k - 1]) <= First(rest[k]) {
          assert Last(runs[k + 1 - 1]) <= First(runs[k + 1]);
        }
      }
      ConcatAscends(rest);
      JoinAscends(runs[0], Concat(rest)) by {
        assert Last(runs[1 - 1]) <= First(runs[1]);
      }
    }
  }

  lemma JoinAscends(a: seq<nat>, b: seq<nat>)
    requires NeighboursAscend(a) && NeighboursAscend(b) && Last(a) <= First(b)
    ensures NeighboursAscend(a + b) && First(a + b) == First(a) && Last(a + b) == Last(b)
  {
  }

  lemma FirstRunsAscend()
    ensures NeighboursAscend(RUN_0) && First(RUN_0) == 2 && Last(RUN_0) == 139
    ensures NeighboursAscend(RUN_1) && First(RUN_1) == 149 && Last(RUN_1) == 1109
    ensures NeighboursAscend(RUN_2) && First(RUN_2) == 1193 && Last(RUN_2) == 12011
    ensures NeighboursAscend(RUN_3) && First(RUN_3) == 12983 && Last(RUN_3) == 136607
  {
  }

  lemma MiddleRunsAscend()
    ensures NeighboursAscend(RUN_4) && First(RUN_4) == 147793 && Last(RUN_4) == 1565659
    ensures NeighboursAscend(RUN_5) && First(RUN_5) == 1693859 && Last(RUN_5) == 17961079
    ensures NeighboursAscend(RUN_6) && First(RUN_6) == 19431899 && Last(RUN_6) == 206062531
  {
  }

  lemma LastRunsAscend()
    ensures NeighboursAscend(RUN_7) && First(RUN_7) == 222936881 && Last(RUN_7) == 2364114217
    ensures NeighboursAscend(RUN_8) && First(RUN_8) == 2557710269 && Last(RUN_8) == 13194139533241
    ensures NeighboursAscend(RUN_9) && First(RUN_9) == 17592186044399 && Last(RUN_9) == 18446744073709551557
  {
  }

  lemma RunsInOrder()
    ensures RunsAscend(RUNS) && First(RUNS[0]) == 2 && Last(RUNS[|RUNS| - 1]) == LAST_PRIME
  {
    hide RUN_0, RUN_1, RUN_2, RUN_3, RUN_4, RUN_5, RUN_6, RUN_7, RUN_8, RUN_9;
    FirstRunsAscend();
    MiddleRunsAscend();
    LastRunsAscend();
  }

  lemma ListAscends()
    ensures Ascending(PRIMES) && PRIMES != [] && First(PRIMES) == 2 && Last(PRIMES) == LAST_PRIME
  {
    hide RUN_0, RUN_1, RUN_2, RUN_3, RUN_4, RUN_5, RUN_6, RUN_7, RUN_8, RUN_9, RunsAscend, Concat, Ascending;
    RunsInOrder();
    ConcatAscends(RUNS);
    NeighboursSuffice(PRIMES);
  }

  method LowerBound(list: seq<nat>, target: nat) returns (p: nat)
    requires list != [] && Ascending(list)
    ensures p in list && list[0] <= p
    ensures (forall q :: q in list ==> q < target) ==> p == list[|list| - 1]
    ensures (exists q :: q in list && target <= q) ==> target <= p && forall q :: q in list && target <= q ==> p <= q
  {
    var left, right := 0, |list| - 1;
    while left < right
      invariant 0 <= left <= right < |list|
      invariant forall i :: 0 <= i < left ==> list[i] < target
      invariant right < |list| - 1 ==> target <= list[right]
    {
      var mid := (right - left) / 2 + left;
      var midval := list[mid];
      if midval < target {
        left := mid + 1;
      } else {
        right := mid;
      }
    }
    p := list[left];
  }

  method PrimeLowerBound(target: nat) returns (p: nat)
    ensures 2 <= p && (target <= 2 ==> p == 2)
    ensures if target <= LAST_PRIME then target <= p else p == LAST_PRIME
    ensures p in PRIMES && forall q :: q in PRIMES && target <= q ==> p <= q
  {
    hide PRIMES;
    ListAscends();
    assert First(PRIMES) == PRIMES[0] && PRIMES[0] in PRIMES;
    p := LowerBound(PRIMES, target);
  }
}
