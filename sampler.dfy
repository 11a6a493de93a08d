/**
 * The candidate sampler: the seed followed by at most 24 of the other uploads,
 * in the order a shuffle leaves them. The shuffle's randomness is the permutation `perm`.
 */
module Sampler {
  import opened Wrappers
  import opened Uploads

  /** How many uploads besides the seed are sent to the service. */
  const MaxOthers: nat := 24

  /** `[f for f in uploads if f.name != seedName]`, in upload order. */
  function OthersOf(uploads: seq<Upload>, seedName: string): (r: seq<Upload>)
    ensures |r| <= |uploads|
    ensures forall f :: f in r <==> f in uploads && f.name != seedName
    ensures forall f :: multiset(r)[f] == if f.name != seedName then multiset(uploads)[f] else 0
  {
    if |uploads| == 0 then []
    else
      assert uploads == [uploads[0]] + uploads[1..];
      (if uploads[0].name != seedName then [uploads[0]] else []) + OthersOf(uploads[1..], seedName)
  }

  /** `perm` lists each of the positions 0 .. n-1 exactly once. */
  predicate IsPermutation(perm: seq<nat>, n: nat)
  {
    && |perm| == n
    && (forall i :: 0 <= i < n ==> perm[i] < n)
    && (forall i, j :: 0 <= i < j < n ==> perm[i] != perm[j])
  }

  /** The elements of `s` at the positions `idx`, in the order of `idx`. */
  function Pick<T>(s: seq<T>, idx: seq<nat>): (r: seq<T>)
    requires forall i :: 0 <= i < |idx| ==> idx[i] < |s|
    ensures |r| == |idx|
    ensures forall k :: 0 <= k < |idx| ==> r[k] == s[idx[k]]
  {
    if |idx| == 0 then [] else [s[idx[0]]] + Pick(s, idx[1..])
  }

  /** `idx` with position `j` taken out of the numbering: what the indices become once `s[j]` is removed. */
  function Unshift(idx: seq<nat>, j: nat): (r: seq<nat>)
    requires forall i :: 0 <= i < |idx| ==> idx[i] != j
    ensures |r| == |idx|
    ensures forall k :: 0 <= k < |idx| ==> r[k] == if idx[k] < j then idx[k] else idx[k] - 1
  {
    if |idx| == 0 then []
    else [if idx[0] < j then idx[0] else idx[0] - 1] + Unshift(idx[1..], j)
  }

  /** Renumbering around a removed position `j` picks the same elements from `s` without `s[j]`. */
  lemma UnshiftPicksSame<T>(s: seq<T>, j: nat, rest: seq<nat>)
    requires j < |s|
    requires forall i :: 0 <= i < |rest| ==> rest[i] < |s| && rest[i] != j
    ensures forall i :: 0 <= i < |rest| ==> Unshift(rest, j)[i] < |s| - 1
    ensures Pick(s[..j] + s[j + 1..], Unshift(rest, j)) == Pick(s, rest)
  {
    var s' := s[..j] + s[j + 1..];
    var rest' := Unshift(rest, j);
    forall k | 0 <= k < |rest| ensures Pick(s', rest')[k] == Pick(s, rest)[k] {
      if rest[k] < j {
        assert s'[rest'[k]] == s[rest[k]];
      } else {
        assert s'[rest'[k]] == s[j + 1..][rest[k] - 1 - j];
      }
    }
  }

  /** Renumbering around a position that none of the indices holds keeps them distinct. */
  lemma UnshiftKeepsDistinct(rest: seq<nat>, j: nat)
    requires forall i :: 0 <= i < |rest| ==> rest[i] != j
    requires forall a, b :: 0 <= a < b < |rest| ==> rest[a] != rest[b]
    ensures forall a, b :: 0 <= a < b < |rest| ==> Unshift(rest, j)[a] != Unshift(rest, j)[b]
  {
  }

  /** Picking at distinct positions never takes an element of `s` more often than `s` holds it. */
  lemma {:induction false} PickDistinctSubBag<T>(s: seq<T>, idx: seq<nat>)
    requires forall i :: 0 <= i < |idx| ==> idx[i] < |s|
    requires forall i, j :: 0 <= i < j < |idx| ==> idx[i] != idx[j]
    ensures multiset(Pick(s, idx)) <= multiset(s)
    decreases |idx|
  {
    if |idx| > 0 {
      var j := idx[0];
      var rest := idx[1..];
      var s' := s[..j] + s[j + 1..];
      assert s == s[..j] + [s[j]] + s[j + 1..];
      assert multiset(s) == multiset(s') + multiset{s[j]};
      assert forall i :: 0 <= i < |rest| ==> rest[i] < |s| && rest[i] != j by {
        forall i | 0 <= i < |rest| ensures rest[i] < |s| && rest[i] != j { assert rest[i] == idx[i + 1]; }
      }
      assert forall a, b :: 0 <= a < b < |rest| ==> rest[a] != rest[b] by {
        forall a, b | 0 <= a < b < |rest| ensures rest[a] != rest[b] {
          assert rest[a] == idx[a + 1] && rest[b] == idx[b + 1];
        }
      }
      UnshiftPicksSame(s, j, rest);
      UnshiftKeepsDistinct(rest, j);
      PickDistinctSubBag(s', Unshift(rest, j));
      assert Pick(s, idx) == [s[j]] + Pick(s, rest);
    }
  }

  /** A sub-bag as large as the bag is the bag. */
  lemma SubBagOfSameSize<T>(a: multiset<T>, b: multiset<T>)
    requires a <= b && |a| == |b|
    ensures a == b
  {
    assert (b - a) + a == b;
    assert |b - a| == 0;
  }

  /** The permuted list holds exactly the elements of the original one. */
  lemma PermutationKeepsElements<T>(s: seq<T>, perm: seq<nat>)
    requires IsPermutation(perm, |s|)
    ensures multiset(Pick(s, perm)) == multiset(s)
  {
    PickDistinctSubBag(s, perm);
    SubBagOfSameSize(multiset(Pick(s, perm)), multiset(s));
  }

  /** The sampled list that the shuffle and the first 24 others give. */
  function Candidates(uploads: seq<Upload>, seed: Upload, perm: seq<nat>): (c: seq<Upload>)
    requires IsPermutation(perm, |OthersOf(uploads, seed.name)|)
    ensures 1 <= |c| <= 1 + MaxOthers && c[0] == seed
  {
    [seed] + Prefix(Pick(OthersOf(uploads, seed.name), perm), MaxOthers)
  }

  /** `random.shuffle(a)` with its randomness given as `perm`: position `k` receives the old `a[perm[k]]`. */
  method Shuffle(a: array<Upload>, perm: seq<nat>)
    requires IsPermutation(perm, a.Length)
    modifies a
    ensures a[..] == Pick(old(a[..]), perm)
  {
    var src := a[..];
    var i := 0;
    while i < a.Length
      invariant 0 <= i <= a.Length
      invariant forall k :: 0 <= k < i ==> a[k] == src[perm[k]]
    {
      a[i] := src[perm[i]];
      i := i + 1;
    }
  }

  /** The sampler: filter out the seed's name, shuffle the rest in place, keep the seed and the first 24. */
  method SampleCandidates(uploads: seq<Upload>, seed: Upload, perm: seq<nat>) returns (candidates: seq<Upload>)
    requires IsPermutation(perm, |OthersOf(uploads, seed.name)|)
    ensures candidates == Candidates(uploads, seed, perm)
  {
    var others := OthersOf(uploads, seed.name);
    var a := new Upload[|others|](i requires 0 <= i < |others| => others[i]);
    assert a[..] == others;
    Shuffle(a, perm);
    candidates := [seed] + Prefix(a[..], MaxOthers);
  }

  /** The seed comes first, then min(24, n) entries, where n counts the uploads not named like the seed. */
  lemma CandidatesLength(uploads: seq<Upload>, seed: Upload, perm: seq<nat>)
    requires IsPermutation(perm, |OthersOf(uploads, seed.name)|)
    ensures Candidates(uploads, seed, perm)[0] == seed
    ensures |Candidates(uploads, seed, perm)| ==
      1 + (if |OthersOf(uploads, seed.name)| < MaxOthers then |OthersOf(uploads, seed.name)| else MaxOthers)
  {
  }

  /** Every entry after the seed is an upload whose name differs from the seed's. */
  lemma CandidatesAreOthers(uploads: seq<Upload>, seed: Upload, perm: seq<nat>)
    requires IsPermutation(perm, |OthersOf(uploads, seed.name)|)
    ensures forall k :: 1 <= k < |Candidates(uploads, seed, perm)| ==>
      Candidates(uploads, seed, perm)[k] in uploads && Candidates(uploads, seed, perm)[k].name != seed.name
  {
    var others := OthersOf(uploads, seed.name);
    var c := Candidates(uploads, seed, perm);
    forall k | 1 <= k < |c| ensures c[k] in uploads && c[k].name != seed.name {
      assert c[k] == others[perm[k - 1]];
      assert c[k] in others;
    }
  }

  /** No upload is sent more often than it was uploaded, and with at most 24 others all of them are sent. */
  lemma CandidatesWithoutRepeats(uploads: seq<Upload>, seed: Upload, perm: seq<nat>)
    requires IsPermutation(perm, |OthersOf(uploads, seed.name)|)
    ensures multiset(Candidates(uploads, seed, perm)[1..]) <= multiset(OthersOf(uploads, seed.name))
    ensures |OthersOf(uploads, seed.name)| <= MaxOthers ==>
      multiset(Candidates(uploads, seed, perm)[1..]) == multiset(OthersOf(uploads, seed.name))
  {
    var others := OthersOf(uploads, seed.name);
    var shuffled := Pick(others, perm);
    assert Candidates(uploads, seed, perm)[1..] == Prefix(shuffled, MaxOthers);
    PermutationKeepsElements(others, perm);
    if |shuffled| > MaxOthers {
      assert shuffled == shuffled[..MaxOthers] + shuffled[MaxOthers..];
    }
  }
}
