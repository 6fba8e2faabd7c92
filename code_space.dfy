/** The fallback probe generator of get_blrindus_data.py: for every base,
    first the suffixes within 5 of a known suffix (clamped to 0..99), then
    every remaining suffix, skipping codes already processed and suffixes
    already emitted for that base. */
module CodeSpace {
  import opened Common
  import opened PlotCode

  const Radius: nat := 5

  /** A probe `f"{base}{i:02d}"` that passes `len(pltcode) == 14 and pltcode not in processed_plotcodes`. */
  predicate Eligible(base: string, i: nat, processed: set<string>)
    requires i < 100
  {
    |Compose(base, i)| == CodeLength && Compose(base, i) !in processed
  }

  /** Suffix i lies in the window `range(max(0, s - 5), min(100, s + 6))` of some known suffix s. */
  ghost predicate Near(known: set<nat>, i: nat) {
    exists s :: s in known && s <= i + Radius && i <= s + Radius
  }

  /** `known_suffixes[base]`, with the empty set for a base never seen. */
  function KnownOf(known: map<string, set<nat>>, base: string): set<nat> {
    if base in known then known[base] else {}
  }

  /** The suffixes below n. */
  ghost function Range(n: nat): (r: set<nat>)
    ensures forall i: nat :: i in r <==> i < n
  {
    if n == 0 then {} else Range(n - 1) + {n - 1}
  }

  ghost function Elements(xs: seq<nat>): (r: set<nat>)
    ensures forall x :: x in r <==> x in xs
  {
    set x | x in xs
  }

  lemma {:induction false} RangeSize(n: nat)
    ensures |Range(n)| == n
  {
    if n > 0 {
      RangeSize(n - 1);
      assert n - 1 !in Range(n - 1);
    }
  }

  lemma {:induction false} DistinctElementsSize(xs: seq<nat>)
    requires Distinct(xs)
    ensures |Elements(xs)| == |xs|
  {
    if xs != [] {
      var init := xs[..|xs| - 1];
      DistinctElementsSize(init);
      assert Elements(xs) == Elements(init) + {xs[|xs| - 1]};
      assert xs[|xs| - 1] !in Elements(init);
    }
  }

  /** A repetition-free list of suffixes that holds every suffix 0..99 and
      nothing else has exactly 100 entries. */
  lemma AllSuffixesOnce(xs: seq<nat>)
    requires Distinct(xs)
    requires forall k :: 0 <= k < |xs| ==> xs[k] < 100
    requires forall i :: 0 <= i < 100 ==> i in xs
    ensures |xs| == 100
  {
    assert Elements(xs) == Range(100);
    DistinctElementsSize(xs);
    RangeSize(100);
  }

  /** The probes emitted so far for one base: repetition-free, each one an
      eligible code of that base; `seen` holds exactly their suffixes. */
  ghost predicate Emitted(base: string, processed: set<string>, codes: seq<string>, suffixes: seq<nat>, seen: set<nat>) {
    && |codes| == |suffixes| && Distinct(suffixes)
    && (forall k :: 0 <= k < |codes| ==>
          suffixes[k] < 100 && codes[k] == Compose(base, suffixes[k]) && Eligible(base, suffixes[k], processed))
    && (forall i :: i in seen <==> i in suffixes)
  }

  /** One `for i in range(lo, hi)` pass of the script: appends, in increasing
      order, every eligible suffix of the range not yet seen for this base. */
  method ProbeRange(base: string, lo: nat, hi: nat, processed: set<string>,
                    codes0: seq<string>, ghost suffixes0: seq<nat>, seen0: set<nat>)
    returns (codes: seq<string>, ghost suffixes: seq<nat>, seen: set<nat>)
    requires lo <= hi <= 100
    requires Emitted(base, processed, codes0, suffixes0, seen0)
    ensures Emitted(base, processed, codes, suffixes, seen)
    ensures codes0 <= codes && suffixes0 <= suffixes && seen0 <= seen
    ensures forall k :: |suffixes0| <= k < |suffixes| ==> lo <= suffixes[k] < hi && suffixes[k] !in seen0
    ensures forall j, k :: |suffixes0| <= j < k < |suffixes| ==> suffixes[j] < suffixes[k]
    ensures forall i :: lo <= i < hi && Eligible(base, i, processed) ==> i in seen
  {
    codes, suffixes, seen := codes0, suffixes0, seen0;
    var i := lo;
    while i < hi
      invariant lo <= i <= hi
      invariant Emitted(base, processed, codes, suffixes, seen)
      invariant codes0 <= codes && suffixes0 <= suffixes && seen0 <= seen
      invariant forall k :: |suffixes0| <= k < |suffixes| ==> lo <= suffixes[k] < i && suffixes[k] !in seen0
      invariant forall j, k :: |suffixes0| <= j < k < |suffixes| ==> suffixes[j] < suffixes[k]
      invariant forall i' :: lo <= i' < i && Eligible(base, i', processed) ==> i' in seen
    {
      if i !in seen {
        var code := Compose(base, i);
        if |code| == CodeLength && code !in processed {
          codes, suffixes := codes + [code], suffixes + [i];
          seen := seen + {i};
        }
      }
      i := i + 1;
    }
  }

  /** The probes for one base, in the order the script appends them to `pltcodes`. */
  method ProbeBase(base: string, known: set<nat>, processed: set<string>)
    returns (codes: seq<string>, ghost suffixes: seq<nat>)
    requires forall s :: s in known ==> s < 100
    ensures |codes| == |suffixes| && Distinct(suffixes) && Distinct(codes)
    ensures forall k :: 0 <= k < |codes| ==>
      suffixes[k] < 100 && codes[k] == Compose(base, suffixes[k]) && Eligible(base, suffixes[k], processed)
    ensures forall i :: 0 <= i < 100 && Eligible(base, i, processed) ==> i in suffixes
    ensures forall j, k :: 0 <= j < k < |suffixes| && Near(known, suffixes[k]) ==> Near(known, suffixes[j])
    ensures |base| == BaseLength && (forall i :: 0 <= i < 100 ==> Compose(base, i) !in processed) ==>
      |codes| == 100
  {
    codes, suffixes := [], [];
    var seen: set<nat> := {};
    // Neighbourhood of every known suffix, in increasing order of the known suffix.
    var s := 0;
    while s < 100
      invariant 0 <= s <= 100
      invariant Emitted(base, processed, codes, suffixes, seen)
      invariant forall k :: 0 <= k < |suffixes| ==> Near(known, suffixes[k])
      invariant forall t, i ::
        (0 <= t < s && t in known && 0 <= i < 100 && t <= i + Radius && i <= t + Radius && Eligible(base, i, processed))
        ==> i in seen
    {
      if s in known {
        var lo := if s >= Radius then s - Radius else 0;
        var hi := if s + Radius + 1 <= 100 then s + Radius + 1 else 100;
        ghost var before := suffixes;
        codes, suffixes, seen := ProbeRange(base, lo, hi, processed, codes, suffixes, seen);
        forall k | |before| <= k < |suffixes|
          ensures Near(known, suffixes[k])
        {
          assert s <= suffixes[k] + Radius && suffixes[k] <= s + Radius;
        }
      }
      s := s + 1;
    }
    forall i | 0 <= i < 100 && Near(known, i) && Eligible(base, i, processed)
      ensures i in seen
    {
      var t :| t in known && t <= i + Radius && i <= t + Radius;
    }
    // Every remaining suffix.
    ghost var near := suffixes;
    ghost var seenNear := seen;
    codes, suffixes, seen := ProbeRange(base, 0, 100, processed, codes, suffixes, seen);
    assert forall k :: 0 <= k < |near| ==> suffixes[k] == near[k];
    forall j, k | 0 <= j < k < |codes|
      ensures codes[j] != codes[k]
    {
      if codes[j] == codes[k] {
        ComposeInjective(base, suffixes[j], base, suffixes[k]);
      }
    }
    if |base| == BaseLength && (forall i :: 0 <= i < 100 ==> Compose(base, i) !in processed) {
      AllSuffixesOnce(suffixes);
    }
  }

  /** Every suffix recorded for any base is a two-digit parse, so below 100. */
  ghost predicate SuffixesBounded(known: map<string, set<nat>>) {
    forall b, s :: b in known && s in known[b] ==> s < 100
  }

  /** Each probe is an eligible code of a base in `done`, composed from its owner and suffix. */
  ghost predicate Produced(done: set<string>, processed: set<string>,
                           codes: seq<string>, owners: seq<string>, suffixes: seq<nat>) {
    && |codes| == |owners| == |suffixes|
    && (forall k :: 0 <= k < |codes| ==>
          owners[k] in done && suffixes[k] < 100 && codes[k] == Compose(owners[k], suffixes[k]) &&
          Eligible(owners[k], suffixes[k], processed))
  }

  /** No base emits the same suffix twice. */
  ghost predicate NoRepeat(owners: seq<string>, suffixes: seq<nat>)
    requires |owners| == |suffixes|
  {
    forall j, k :: 0 <= j < k < |owners| && owners[j] == owners[k] ==> suffixes[j] != suffixes[k]
  }

  /** Every eligible code of every base in `done` is probed. */
  ghost predicate Covers(done: set<string>, processed: set<string>, codes: seq<string>) {
    forall b, i :: b in done && 0 <= i < 100 && Eligible(b, i, processed) ==> Compose(b, i) in codes
  }

  /** Per base, every neighbourhood probe precedes every sweep probe. */
  ghost predicate NearFirst(known: map<string, set<nat>>, owners: seq<string>, suffixes: seq<nat>)
    requires |owners| == |suffixes|
  {
    forall j, k ::
      (0 <= j < k < |owners| && owners[j] == owners[k] && Near(KnownOf(known, owners[k]), suffixes[k]))
      ==> Near(KnownOf(known, owners[j]), suffixes[j])
  }

  /** The probes of the bases in `done`, in the order they were appended. */
  ghost predicate Probes(done: set<string>, known: map<string, set<nat>>, processed: set<string>,
                         codes: seq<string>, owners: seq<string>, suffixes: seq<nat>) {
    && Produced(done, processed, codes, owners, suffixes)
    && NoRepeat(owners, suffixes)
    && Covers(done, processed, codes)
    && NearFirst(known, owners, suffixes)
  }

  lemma AppendProduced(done: set<string>, base: string, processed: set<string>,
                       codes: seq<string>, owners: seq<string>, suffixes: seq<nat>,
                       block: seq<string>, blockSuffixes: seq<nat>)
    requires Produced(done, processed, codes, owners, suffixes)
    requires |block| == |blockSuffixes|
    requires forall k :: 0 <= k < |block| ==>
      blockSuffixes[k] < 100 && block[k] == Compose(base, blockSuffixes[k]) && Eligible(base, blockSuffixes[k], processed)
    ensures Produced(done + {base}, processed, codes + block, owners + seq(|block|, _ => base), suffixes + blockSuffixes)
  {
    var n := |codes|;
    var codes', owners', suffixes' := codes + block, owners + seq(|block|, _ => base), suffixes + blockSuffixes;
    forall k | 0 <= k < |codes'|
      ensures owners'[k] in done + {base} && suffixes'[k] < 100 && codes'[k] == Compose(owners'[k], suffixes'[k])
      ensures Eligible(owners'[k], suffixes'[k], processed)
    {
      if k >= n {
        assert owners'[k] == base && suffixes'[k] == blockSuffixes[k - n] && codes'[k] == block[k - n];
      } else {
        assert owners'[k] == owners[k] && suffixes'[k] == suffixes[k] && codes'[k] == codes[k];
      }
    }
  }

  lemma AppendNoRepeat(done: set<string>, base: string, owners: seq<string>, suffixes: seq<nat>,
                       blockSuffixes: seq<nat>)
    requires |owners| == |suffixes| && NoRepeat(owners, suffixes)
    requires forall k :: 0 <= k < |owners| ==> owners[k] in done
    requires base !in done && Distinct(blockSuffixes)
    ensures NoRepeat(owners + seq(|blockSuffixes|, _ => base), suffixes + blockSuffixes)
  {
    var n := |owners|;
    var owners', suffixes' := owners + seq(|blockSuffixes|, _ => base), suffixes + blockSuffixes;
    forall j, k | 0 <= j < k < |owners'| && owners'[j] == owners'[k]
      ensures suffixes'[j] != suffixes'[k]
    {
      if k >= n {
        assert owners'[k] == base;
        assert j >= n;
        assert suffixes'[k] == blockSuffixes[k - n] && suffixes'[j] == blockSuffixes[j - n];
      } else {
        assert owners'[k] == owners[k] && owners'[j] == owners[j];
      }
    }
  }

  lemma AppendCovers(done: set<string>, base: string, processed: set<string>, codes: seq<string>,
                     block: seq<string>, blockSuffixes: seq<nat>)
    requires Covers(done, processed, codes)
    requires |block| == |blockSuffixes|
    requires forall k :: 0 <= k < |block| ==> blockSuffixes[k] < 100 && block[k] == Compose(base, blockSuffixes[k])
    requires forall i :: 0 <= i < 100 && Eligible(base, i, processed) ==> i in blockSuffixes
    ensures Covers(done + {base}, processed, codes + block)
  {
    var n := |codes|;
    forall b, i | b in done + {base} && 0 <= i < 100 && Eligible(b, i, processed)
      ensures Compose(b, i) in codes + block
    {
      if b == base {
        var k :| 0 <= k < |blockSuffixes| && blockSuffixes[k] == i;
        assert (codes + block)[n + k] == Compose(b, i);
      } else {
        assert Compose(b, i) in codes;
      }
    }
  }

  lemma AppendNearFirst(done: set<string>, base: string, known: map<string, set<nat>>,
                        owners: seq<string>, suffixes: seq<nat>, blockSuffixes: seq<nat>)
    requires |owners| == |suffixes| && NearFirst(known, owners, suffixes)
    requires forall k :: 0 <= k < |owners| ==> owners[k] in done
    requires base !in done
    requires forall j, k :: 0 <= j < k < |blockSuffixes| && Near(KnownOf(known, base), blockSuffixes[k]) ==>
      Near(KnownOf(known, base), blockSuffixes[j])
    ensures NearFirst(known, owners + seq(|blockSuffixes|, _ => base), suffixes + blockSuffixes)
  {
    var n := |owners|;
    var owners', suffixes' := owners + seq(|blockSuffixes|, _ => base), suffixes + blockSuffixes;
    forall j, k | (0 <= j < k < |owners'| && owners'[j] == owners'[k] && Near(KnownOf(known, owners'[k]), suffixes'[k]))
      ensures Near(KnownOf(known, owners'[j]), suffixes'[j])
    {
      if k >= n {
        assert owners'[k] == base;
        assert j >= n;
        assert suffixes'[k] == blockSuffixes[k - n] && suffixes'[j] == blockSuffixes[j - n];
      } else {
        assert owners'[k] == owners[k] && owners'[j] == owners[j];
        assert suffixes'[k] == suffixes[k] && suffixes'[j] == suffixes[j];
      }
    }
  }

  /** Codes with distinct (owner, suffix) pairs are distinct. */
  lemma ProbesDistinct(done: set<string>, known: map<string, set<nat>>, processed: set<string>,
                       codes: seq<string>, owners: seq<string>, suffixes: seq<nat>)
    requires Probes(done, known, processed, codes, owners, suffixes)
    ensures Distinct(codes)
  {
    forall j, k | 0 <= j < k < |codes|
      ensures codes[j] != codes[k]
    {
      if codes[j] == codes[k] {
        ComposeInjective(owners[j], suffixes[j], owners[k], suffixes[k]);
      }
    }
  }

  /** The fallback list `pltcodes`: the probes of every base in `bases`, one
      base after another in whatever order the set is iterated. `owners[k]` and
      `suffixes[k]` record which base and suffix produced `codes[k]`. */
  method GenerateProbes(bases: set<string>, known: map<string, set<nat>>, processed: set<string>)
    returns (codes: seq<string>, ghost owners: seq<string>, ghost suffixes: seq<nat>)
    requires SuffixesBounded(known)
    ensures |codes| == |owners| == |suffixes|
    ensures Distinct(codes)
    ensures forall k :: 0 <= k < |codes| ==>
      owners[k] in bases && suffixes[k] < 100 && codes[k] == Compose(owners[k], suffixes[k]) &&
      Eligible(owners[k], suffixes[k], processed)
    ensures forall b, i :: b in bases && 0 <= i < 100 && Eligible(b, i, processed) ==> Compose(b, i) in codes
    ensures forall j, k ::
      (0 <= j < k < |codes| && owners[j] == owners[k] && Near(KnownOf(known, owners[k]), suffixes[k]))
      ==> Near(KnownOf(known, owners[j]), suffixes[j])
  {
    codes, owners, suffixes := [], [], [];
    var remaining := bases;
    while remaining != {}
      invariant remaining <= bases
      invariant Probes(bases - remaining, known, processed, codes, owners, suffixes)
      decreases remaining
    {
      var base :| base in remaining;
      var block, blockSuffixes := ProbeBase(base, KnownOf(known, base), processed);
      ghost var done := bases - remaining;
      AppendProduced(done, base, processed, codes, owners, suffixes, block, blockSuffixes);
      AppendNoRepeat(done, base, owners, suffixes, blockSuffixes);
      AppendCovers(done, base, processed, codes, block, blockSuffixes);
      AppendNearFirst(done, base, known, owners, suffixes, blockSuffixes);
      assert done + {base} == bases - (remaining - {base});
      codes := codes + block;
      owners := owners + seq(|block|, _ => base);
      suffixes := suffixes + blockSuffixes;
      remaining := remaining - {base};
    }
    ProbesDistinct(bases, known, processed, codes, owners, suffixes);
  }
}
