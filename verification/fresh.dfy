/**
 * Collision-avoiding names: a wanted name when it is free, otherwise the
 * first free candidate `start + sep + k + suffix` for k = 1, 2, ... . The
 * search always ends, because `taken` cannot hold more than |taken| of the
 * pairwise distinct candidates.
 */
module Fresh {

  import opened Strings
  import opened Seqs

  /** The k-th alternative to `start`. */
  function Candidate(start: string, sep: string, suffix: string, k: nat): string
  {
    start + sep + NatToString(k) + suffix
  }

  /** `r` is `start` if that is free, else the candidate with the smallest free k >= 1. */
  ghost predicate IsFirstFree(start: string, sep: string, suffix: string, taken: set<string>, r: string)
  {
    || (start !in taken && r == start)
    || (start in taken && exists k: nat :: 1 <= k && r == Candidate(start, sep, suffix, k) && r !in taken
                            && forall j: nat :: 1 <= j < k ==> Candidate(start, sep, suffix, j) in taken)
  }

  lemma CandidateInjective(start: string, sep: string, suffix: string, j: nat, k: nat)
    requires Candidate(start, sep, suffix, j) == Candidate(start, sep, suffix, k)
    ensures j == k
  {
    var p := |start + sep|;
    var a, b := Candidate(start, sep, suffix, j), Candidate(start, sep, suffix, k);
    assert a[p..|a| - |suffix|] == NatToString(j);
    assert b[p..|b| - |suffix|] == NatToString(k);
    NatToStringInjective(j, k);
  }

  lemma CandidateDiffers(start: string, sep: string, suffix: string, k: nat)
    ensures Candidate(start, sep, suffix, k) != start
  {
    assert |Candidate(start, sep, suffix, k)| > |start|;
  }

  ghost function Candidates(start: string, sep: string, suffix: string, m: nat): set<string>
  {
    set j: nat | 1 <= j <= m :: Candidate(start, sep, suffix, j)
  }

  lemma {:induction false} CandidatesSize(start: string, sep: string, suffix: string, m: nat)
    ensures |Candidates(start, sep, suffix, m)| == m
    decreases m
  {
    if m > 0 {
      CandidatesSize(start, sep, suffix, m - 1);
      CandidatesStep(start, sep, suffix, m);
    }
  }

  /** The first m candidates are the first m - 1 and one new name. */
  lemma CandidatesStep(start: string, sep: string, suffix: string, m: nat)
    requires m > 0
    ensures Candidates(start, sep, suffix, m)
            == Candidates(start, sep, suffix, m - 1) + {Candidate(start, sep, suffix, m)}
    ensures Candidate(start, sep, suffix, m) !in Candidates(start, sep, suffix, m - 1)
  {
    var c := Candidate(start, sep, suffix, m);
    var before, after := Candidates(start, sep, suffix, m - 1), Candidates(start, sep, suffix, m);
    forall x | x in after
      ensures x in before + {c}
    {
      var j: nat :| 1 <= j <= m && Candidate(start, sep, suffix, j) == x;
      if j < m {
        assert x in before;
      }
    }
    if c in before {
      var j: nat :| 1 <= j <= m - 1 && Candidate(start, sep, suffix, j) == c;
      CandidateInjective(start, sep, suffix, j, m);
    }
  }

  /** If `start` and the first m candidates are all taken, `taken` has more than m names. */
  lemma Pigeonhole(start: string, sep: string, suffix: string, taken: set<string>, m: nat)
    requires start in taken
    requires forall j: nat :: 1 <= j <= m ==> Candidate(start, sep, suffix, j) in taken
    ensures m + 1 <= |taken|
  {
    var cs := Candidates(start, sep, suffix, m);
    CandidatesSize(start, sep, suffix, m);
    forall c | c in cs
      ensures c != start
    {
      var j: nat :| 1 <= j <= m && Candidate(start, sep, suffix, j) == c;
      CandidateDiffers(start, sep, suffix, j);
    }
    assert |cs + {start}| == m + 1;
    SubsetCardinality(cs + {start}, taken);
  }

  /** The rule picks one name: two names it allows are equal. */
  lemma FirstFreeUnique(start: string, sep: string, suffix: string, taken: set<string>, r1: string, r2: string)
    requires IsFirstFree(start, sep, suffix, taken, r1)
    requires IsFirstFree(start, sep, suffix, taken, r2)
    ensures r1 == r2
  {
    if start in taken {
      var k1: nat :| 1 <= k1 && r1 == Candidate(start, sep, suffix, k1) && r1 !in taken
                     && forall j: nat :: 1 <= j < k1 ==> Candidate(start, sep, suffix, j) in taken;
      var k2: nat :| 1 <= k2 && r2 == Candidate(start, sep, suffix, k2) && r2 !in taken
                     && forall j: nat :: 1 <= j < k2 ==> Candidate(start, sep, suffix, j) in taken;
      assert !(k1 < k2);
      assert !(k2 < k1);
    }
  }

  /** Searches the candidates from k on, all earlier ones being taken. */
  function FirstFreeFrom(start: string, sep: string, suffix: string, taken: set<string>, k: nat): (r: string)
    requires 1 <= k && start in taken
    requires forall j: nat :: 1 <= j < k ==> Candidate(start, sep, suffix, j) in taken
    ensures IsFirstFree(start, sep, suffix, taken, r)
    ensures r !in taken
    decreases |taken| + 1 - k
  {
    Pigeonhole(start, sep, suffix, taken, k - 1);
    var c := Candidate(start, sep, suffix, k);
    if c !in taken then c
    else FirstFreeFrom(start, sep, suffix, taken, k + 1)
  }

  /** The first free name among `start` and its candidates. */
  function FirstFree(start: string, sep: string, suffix: string, taken: set<string>): (r: string)
    ensures IsFirstFree(start, sep, suffix, taken, r)
    ensures r !in taken
  {
    if start !in taken then start else FirstFreeFrom(start, sep, suffix, taken, 1)
  }
}
