/** First-fit allocation of single bits as a function: which sectors the next K
    calls of the allocator hand out, and what the map is afterwards.  The
    imperative allocator is proved against these functions. */
module FirstFit {
  import opened Sequences
  import opened Sectors

  function FreeCount(bits: seq<bool>): nat {
    multiset(bits)[false]
  }

  // The least clear bit at or after FROM, or |bits| if there is none.
  function FirstFree(bits: seq<bool>, from: nat): (r: nat)
    requires from <= |bits|
    ensures from <= r <= |bits|
    ensures forall j :: from <= j < r ==> bits[j]
    ensures r < |bits| ==> !bits[r]
    decreases |bits| - from
  {
    if from == |bits| || !bits[from] then from else FirstFree(bits, from + 1)
  }

  // The sectors handed out by the next K single-sector allocations, in order;
  // shorter than K when the map fills up first.
  function TakeFree(bits: seq<bool>, k: nat): seq<nat>
    decreases k
  {
    var f := FirstFree(bits, 0);
    if k == 0 || f == |bits| then [] else [f] + TakeFree(bits[f := true], k - 1)
  }

  // The map after K single-sector allocations.
  function After(bits: seq<bool>, k: nat): (r: seq<bool>)
    ensures |r| == |bits|
    decreases k
  {
    var f := FirstFree(bits, 0);
    if k == 0 || f == |bits| then bits else After(bits[f := true], k - 1)
  }

  function MarkAll(bits: seq<bool>, s: seq<nat>): (r: seq<bool>)
    ensures |r| == |bits|
  {
    seq(|bits|, i requires 0 <= i < |bits| => bits[i] || i in s)
  }

  function ClearAll(bits: seq<bool>, s: seq<nat>): (r: seq<bool>)
    ensures |r| == |bits|
  {
    seq(|bits|, i requires 0 <= i < |bits| => bits[i] && i !in s)
  }

  // Every element of S is an in-range sector whose bit is V.
  ghost predicate AllAre(bits: seq<bool>, s: seq<nat>, v: bool) {
    forall x :: x in s ==> x < |bits| && bits[x] == v
  }

  ghost predicate Ascending(s: seq<nat>) {
    forall i, j :: 0 <= i < j < |s| ==> s[i] < s[j]
  }

  lemma FreeCountZero(bits: seq<bool>)
    ensures FreeCount(bits) == 0 <==> FirstFree(bits, 0) == |bits|
  {
    var f := FirstFree(bits, 0);
    if f < |bits| {
      assert bits[f] in multiset(bits);
    }
  }

  lemma {:induction false} TakeAll(bits: seq<bool>, k: nat)
    ensures |TakeFree(bits, k)| == Min(k, FreeCount(bits))
    ensures FreeCount(After(bits, k)) == FreeCount(bits) - Min(k, FreeCount(bits))
    decreases k
  {
    FreeCountZero(bits);
    var f := FirstFree(bits, 0);
    if k > 0 && f < |bits| {
      TakeAll(bits[f := true], k - 1);
    }
  }

  // Allocating I and then J sectors is allocating I + J.
  lemma {:induction false} TakeSplit(bits: seq<bool>, i: nat, j: nat)
    ensures TakeFree(bits, i + j) == TakeFree(bits, i) + TakeFree(After(bits, i), j)
    ensures After(bits, i + j) == After(After(bits, i), j)
    decreases i
  {
    var f := FirstFree(bits, 0);
    if i == 0 || f == |bits| {
      assert TakeFree(bits, i) == [];
      assert After(bits, i) == bits;
      if i > 0 {
        assert TakeFree(bits, i + j) == [] == TakeFree(bits, j);
      }
    } else {
      var b := bits[f := true];
      TakeSplit(b, i - 1, j);
      assert i - 1 + j == i + j - 1;
      calc {
        TakeFree(bits, i + j);
        [f] + TakeFree(b, i - 1 + j);
        [f] + (TakeFree(b, i - 1) + TakeFree(After(b, i - 1), j));
        ([f] + TakeFree(b, i - 1)) + TakeFree(After(b, i - 1), j);
        TakeFree(bits, i) + TakeFree(After(bits, i), j);
      }
    }
  }

  // What is handed out was free, and the map changes exactly there.
  lemma {:induction false} TakeMarks(bits: seq<bool>, k: nat)
    ensures AllAre(bits, TakeFree(bits, k), false)
    ensures After(bits, k) == MarkAll(bits, TakeFree(bits, k))
    decreases k
  {
    var f := FirstFree(bits, 0);
    if k > 0 && f < |bits| {
      var b := bits[f := true];
      TakeMarks(b, k - 1);
      assert TakeFree(bits, k) == [f] + TakeFree(b, k - 1);
    }
  }

  // It is handed out in ascending order, hence once.
  lemma {:induction false} TakeAscends(bits: seq<bool>, k: nat)
    ensures Ascending(TakeFree(bits, k))
    decreases k
  {
    var f := FirstFree(bits, 0);
    if k > 0 && f < |bits| {
      var b := bits[f := true];
      var t := TakeFree(b, k - 1);
      TakeMarks(b, k - 1);
      TakeAscends(b, k - 1);
      forall i | 0 <= i < |t|
        ensures f < t[i]
      {
        assert t[i] in t;
      }
      AscendingCons(f, t);
    }
  }

  lemma TakeFacts(bits: seq<bool>, k: nat)
    ensures AllAre(bits, TakeFree(bits, k), false)
    ensures AllAre(After(bits, k), TakeFree(bits, k), true)
    ensures After(bits, k) == MarkAll(bits, TakeFree(bits, k))
    ensures NoDup(TakeFree(bits, k))
  {
    TakeMarks(bits, k);
    TakeAscends(bits, k);
  }

  lemma AscendingCons(f: nat, t: seq<nat>)
    requires Ascending(t) && forall i :: 0 <= i < |t| ==> f < t[i]
    ensures Ascending([f] + t)
  {}

  // Releasing exactly what was taken restores the map bit for bit.
  lemma ReleaseUndoesTake(bits: seq<bool>, k: nat)
    ensures ClearAll(After(bits, k), TakeFree(bits, k)) == bits
  {
    TakeFacts(bits, k);
  }

  // Once the map is full, asking for more changes nothing.
  lemma AfterFull(bits: seq<bool>, j: nat, k: nat)
    requires FreeCount(bits) <= j && FreeCount(bits) <= k
    ensures After(bits, j) == After(bits, k)
    ensures FreeCount(After(bits, j)) == 0
  {
    var c := FreeCount(bits);
    TakeAll(bits, c);
    FreeCountZero(After(bits, c));
    TakeSplit(bits, c, j - c);
    TakeSplit(bits, c, k - c);
  }
}
