/** Status cycles: a badge click moves a record to the next status of a fixed ring, and any
    status outside the ring restarts it at its first status. */
module StatusCycle {
  import Seqs

  /** A ring of statuses: non-empty and without repeats. */
  predicate IsRing(ring: seq<string>) {
    |ring| > 0 && Seqs.NoDuplicates(ring)
  }

  /** The successor of `s` on the ring, or the ring's first status when `s` is not on it. */
  function Next(ring: seq<string>, s: string): (r: string)
    requires |ring| > 0
    ensures r in ring
    ensures s !in ring ==> r == ring[0]
  {
    var i := Seqs.FirstIndex(ring, x => x == s);
    if i < |ring| then ring[Succ(i, |ring|)] else ring[0]
  }

  /** The index after `i` on a ring of `n` statuses. */
  function Succ(i: nat, n: nat): (j: nat)
    requires i < n
    ensures j < n
  {
    if i + 1 < n then i + 1 else 0
  }

  /** The index `k` steps after `i`, for at most one full turn. */
  function Ahead(i: nat, k: nat, n: nat): (j: nat)
    requires i < n && k <= n
    ensures j < n
  {
    if i + k < n then i + k else i + k - n
  }

  /** One more step after `k - 1` steps ahead is `k` steps ahead. */
  lemma SuccAhead(i: nat, k: nat, n: nat)
    requires i < n && 0 < k <= n
    ensures Succ(Ahead(i, k - 1, n), n) == Ahead(i, k, n)
  {
  }

  /** On a ring, the successor of the `i`-th status is the status after it, wrapping round. */
  lemma NextAt(ring: seq<string>, i: nat)
    requires IsRing(ring) && i < |ring|
    ensures Next(ring, ring[i]) == ring[Succ(i, |ring|)]
  {
    var j := Seqs.FirstIndex(ring, x => x == ring[i]);
    assert j <= i;
  }

  /** `k` clicks in a row. */
  function Turn(ring: seq<string>, s: string, k: nat): (r: string)
    requires |ring| > 0
    ensures k > 0 ==> r in ring
  {
    if k == 0 then s else Next(ring, Turn(ring, s, k - 1))
  }

  lemma {:induction false} TurnAt(ring: seq<string>, i: nat, k: nat)
    requires IsRing(ring) && i < |ring| && k <= |ring|
    ensures Turn(ring, ring[i], k) == ring[Ahead(i, k, |ring|)]
  {
    if k > 0 {
      var n := |ring|;
      var j := Ahead(i, k - 1, n);
      assert Turn(ring, ring[i], k - 1) == ring[j] by { TurnAt(ring, i, k - 1); }
      assert Next(ring, ring[j]) == ring[Ahead(i, k, n)] by {
        NextAt(ring, j);
        SuccAhead(i, k, n);
      }
    }
  }

  /** A full turn of clicks brings a status on the ring back to itself, and no shorter run of
      clicks does. */
  lemma FullTurn(ring: seq<string>, s: string)
    requires IsRing(ring) && s in ring
    ensures Turn(ring, s, |ring|) == s
    ensures forall k :: 0 < k < |ring| ==> Turn(ring, s, k) != s
  {
    var i :| 0 <= i < |ring| && ring[i] == s;
    TurnAt(ring, i, |ring|);
    forall k | 0 < k < |ring|
      ensures Turn(ring, s, k) != s
    {
      TurnAt(ring, i, k);
      assert Ahead(i, k, |ring|) != i;
    }
  }
}
