/** The registry's contents as a sequence of handles, and what the registry
    operations do to it: the search and swap-with-last of `remove_client_wsi`, and
    the sends of `broadcast_message`. */
module ClientList {

  /** No handle is registered twice. */
  predicate NoDuplicates<H(==)>(s: seq<H>) {
    forall i, j :: 0 <= i < j < |s| ==> s[i] != s[j]
  }

  /** Where the search of `remove_client_wsi` stops: the first slot holding h, or |s| when none does. */
  function FirstIndex<H(==)>(s: seq<H>, h: H): (k: nat)
    ensures k <= |s|
    ensures forall j :: 0 <= j < k ==> s[j] != h
    ensures k < |s| ==> s[k] == h
  {
    if s == [] then 0 else if s[0] == h then 0 else 1 + FirstIndex(s[1..], h)
  }

  /** The registry after `remove_client_wsi(h)`: the first slot holding h gets the
      last entry and the last slot is dropped; nothing happens when h is absent. */
  function RemoveFirst<H(==)>(s: seq<H>, h: H): (r: seq<H>)
    ensures h !in s ==> r == s
    ensures h in s ==>
              var k := FirstIndex(s, h);
              && k < |s| && s[k] == h
              && |r| == |s| - 1
              && (k < |r| ==> r[k] == s[|s| - 1])
              && forall j :: 0 <= j < |r| && j != k ==> r[j] == s[j]
  {
    var k := FirstIndex(s, h);
    if k == |s| then s else s[k := s[|s| - 1]][..|s| - 1]
  }

  /** Overwriting slot k with the last entry and dropping the last slot loses one
      occurrence of s[k] and nothing else. */
  lemma SwapWithLastMultiset<H>(s: seq<H>, k: nat)
    requires k < |s|
    ensures multiset(s[k := s[|s| - 1]][..|s| - 1]) == multiset(s) - multiset{s[k]}
  {
    var n := |s|;
    var r := s[k := s[n - 1]][..n - 1];
    if k == n - 1 {
      assert s == r + [s[k]];
    } else {
      var a, b := s[..k], s[k + 1..n - 1];
      assert s == a + [s[k]] + b + [s[n - 1]];
      assert r == a + [s[n - 1]] + b;
    }
  }

  /** As a multiset, removal takes away exactly one occurrence of h when there is
      one, and nothing else. */
  lemma RemoveMultiset<H>(s: seq<H>, h: H)
    ensures multiset(RemoveFirst(s, h)) == multiset(s) - multiset{h}
  {
    var k := FirstIndex(s, h);
    if k == |s| {
      assert h !in multiset(s);
    } else {
      SwapWithLastMultiset(s, k);
    }
  }

  /** Removal keeps the registry free of duplicates, and afterwards h is gone. */
  lemma RemoveKeepsNoDuplicates<H>(s: seq<H>, h: H)
    requires NoDuplicates(s)
    ensures NoDuplicates(RemoveFirst(s, h))
    ensures h !in RemoveFirst(s, h)
  {
  }

  /** The sends of `broadcast_message(m)` over the handles hs, in index order. */
  function Deliveries<H>(hs: seq<H>, m: string): (out: seq<(H, string)>)
    ensures |out| == |hs|
    ensures forall i :: 0 <= i < |hs| ==> out[i] == (hs[i], m)
  {
    if hs == [] then [] else [(hs[0], m)] + Deliveries(hs[1..], m)
  }

  /** Each handle gets the message exactly as many times as it is registered: once,
      in a registry without duplicates; never, if it is not registered. */
  lemma {:induction false} DeliveryCount<H>(hs: seq<H>, m: string, h: H)
    ensures multiset(Deliveries(hs, m))[(h, m)] == multiset(hs)[h]
    ensures forall m' :: m' != m ==> multiset(Deliveries(hs, m))[(h, m')] == 0
  {
    if hs != [] {
      DeliveryCount(hs[1..], m, h);
      assert hs == [hs[0]] + hs[1..];
      assert Deliveries(hs, m) == [(hs[0], m)] + Deliveries(hs[1..], m);
    }
  }
}
