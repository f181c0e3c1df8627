/** Single-linkage chain clustering of binding sites, as `findTfbsClusters` does it:
    sites of all factors are grouped by chromosome in a tree map keyed by chromosome
    name, each chromosome's list is sorted by coordinate, and the sorted list is cut
    wherever the gap to the previous site reaches the distance threshold. */
module Clustering {
  import opened Sites

  /* ---------------- Concatenation of a sequence of runs ---------------- */

  function Flatten<T>(xss: seq<seq<T>>): seq<T>
  {
    if xss == [] then [] else Flatten(xss[..|xss| - 1]) + xss[|xss| - 1]
  }

  lemma FlattenSnoc<T>(xss: seq<seq<T>>, y: seq<T>)
    ensures Flatten(xss + [y]) == Flatten(xss) + y
  {
    assert (xss + [y])[..|xss|] == xss;
  }

  lemma {:induction false} FlattenAppend<T>(a: seq<seq<T>>, b: seq<seq<T>>)
    ensures Flatten(a + b) == Flatten(a) + Flatten(b)
  {
    if b == [] {
      assert a + b == a;
    } else {
      var b', y := b[..|b| - 1], b[|b| - 1];
      calc {
        Flatten(a + b);
        { assert a + b == (a + b') + [y]; }
        Flatten((a + b') + [y]);
        { FlattenSnoc(a + b', y); }
        Flatten(a + b') + y;
        { FlattenAppend(a, b'); }
        Flatten(a) + Flatten(b') + y;
        { FlattenSnoc(b', y); assert b' + [y] == b; }
        Flatten(a) + Flatten(b);
      }
    }
  }

  lemma FlattenCons<T>(x: seq<T>, b: seq<seq<T>>)
    ensures Flatten([x] + b) == x + Flatten(b)
  {
    FlattenAppend([x], b);
    assert [x][..0] == [];
  }

  lemma {:induction false} FlattenMembership<T>(xss: seq<seq<T>>, x: T)
    ensures x in Flatten(xss) <==> exists k :: 0 <= k < |xss| && x in xss[k]
  {
    if xss != [] {
      var init, last := xss[..|xss| - 1], xss[|xss| - 1];
      FlattenMembership(init, x);
      assert xss == init + [last];
      FlattenSnoc(init, last);
      assert x in Flatten(xss) <==> x in Flatten(init) || x in last;
      if x in Flatten(init) {
        var k :| 0 <= k < |init| && x in init[k];
        assert xss[k] == init[k];
      }
      if exists k :: 0 <= k < |xss| && x in xss[k] {
        var k :| 0 <= k < |xss| && x in xss[k];
        if k < |init| {
          assert init[k] == xss[k];
        }
      }
    }
  }

  /* ---------------- Chromosome names: String.compareTo ---------------- */

  /** Lexicographic order on names, a proper prefix first. */
  predicate StrLess(a: string, b: string)
  {
    if a == [] then b != []
    else if b == [] then false
    else if a[0] != b[0] then a[0] < b[0]
    else StrLess(a[1..], b[1..])
  }

  lemma {:induction false} StrLessIrreflexive(a: string)
    ensures !StrLess(a, a)
  {
    if a != [] {
      StrLessIrreflexive(a[1..]);
    }
  }

  lemma {:induction false} StrLessTransitive(a: string, b: string, c: string)
    requires StrLess(a, b) && StrLess(b, c)
    ensures StrLess(a, c)
  {
    if a != [] && a[0] == b[0] && b[0] == c[0] {
      StrLessTransitive(a[1..], b[1..], c[1..]);
    }
  }

  lemma {:induction false} StrLessTotal(a: string, b: string)
    ensures a == b || StrLess(a, b) || StrLess(b, a)
  {
    if a != [] && b != [] && a[0] == b[0] {
      StrLessTotal(a[1..], b[1..]);
      if a[1..] == b[1..] {
        assert a == [a[0]] + a[1..] && b == [b[0]] + b[1..];
      }
    }
  }

  /* ---------------- The tree map from chromosome to its sites ---------------- */

  /** One key of the tree map with the sites added under it, in the order added. */
  datatype Entry = Entry(chrom: string, sites: seq<Site>)

  /** The map's entries, in the order its key set iterates. */
  predicate KeysAscending(m: seq<Entry>)
  {
    forall i, j :: 0 <= i < j < |m| ==> StrLess(m[i].chrom, m[j].chrom)
  }

  /** The sites stored under `c`, none if `c` is not a key. */
  function Lookup(m: seq<Entry>, c: string): seq<Site>
  {
    if m == [] then [] else if m[0].chrom == c then m[0].sites else Lookup(m[1..], c)
  }

  /** `if (!containsKey(chr)) put(chr, new list); get(chr).add(s)`: a new key is
      placed where the order of keys asks for it. */
  function Put(m: seq<Entry>, s: Site): seq<Entry>
  {
    if m == [] then [Entry(s.chrom, [s])]
    else if m[0].chrom == s.chrom then [Entry(s.chrom, m[0].sites + [s])] + m[1..]
    else if StrLess(s.chrom, m[0].chrom) then [Entry(s.chrom, [s])] + m
    else [m[0]] + Put(m[1..], s)
  }

  /** The map after adding the sites one by one. */
  function GroupByChrom(s: seq<Site>): seq<Entry>
  {
    if s == [] then [] else Put(GroupByChrom(s[..|s| - 1]), s[|s| - 1])
  }

  /** The sites of `s` on chromosome `c`, in their order in `s`. */
  function OnChrom(s: seq<Site>, c: string): seq<Site>
  {
    if s == [] then []
    else OnChrom(s[..|s| - 1], c) + (if s[|s| - 1].chrom == c then [s[|s| - 1]] else [])
  }

  function SitesOf(m: seq<Entry>): seq<seq<Site>>
  {
    if m == [] then [] else [m[0].sites] + SitesOf(m[1..])
  }

  /** A name below every key and below the new site's chromosome stays below every
      key after the site is added. */
  lemma {:induction false} PutLowerBound(m: seq<Entry>, s: Site, b: string)
    requires forall i :: 0 <= i < |m| ==> StrLess(b, m[i].chrom)
    requires StrLess(b, s.chrom)
    ensures forall i :: 0 <= i < |Put(m, s)| ==> StrLess(b, Put(m, s)[i].chrom)
  {
    if m != [] && m[0].chrom != s.chrom && !StrLess(s.chrom, m[0].chrom) {
      PutLowerBound(m[1..], s, b);
    }
  }

  lemma {:induction false} PutAscending(m: seq<Entry>, s: Site)
    requires KeysAscending(m)
    ensures KeysAscending(Put(m, s))
  {
    if m != [] && m[0].chrom != s.chrom && StrLess(s.chrom, m[0].chrom) {
      forall j | 0 < j < |m| ensures StrLess(s.chrom, m[j].chrom) {
        StrLessTransitive(s.chrom, m[0].chrom, m[j].chrom);
      }
    } else if m != [] && m[0].chrom != s.chrom {
      var p := Put(m[1..], s);
      PutAscending(m[1..], s);
      StrLessTotal(s.chrom, m[0].chrom);
      PutLowerBound(m[1..], s, m[0].chrom);
      var q := [m[0]] + p;
      forall i, j | 0 <= i < j < |q| ensures StrLess(q[i].chrom, q[j].chrom) {
        assert q[j] == p[j - 1];
        if i > 0 { assert q[i] == p[i - 1]; }
      }
    }
  }

  lemma {:induction false} LookupAbsent(m: seq<Entry>, c: string)
    requires forall i :: 0 <= i < |m| ==> m[i].chrom != c
    ensures Lookup(m, c) == []
  {
    if m != [] {
      LookupAbsent(m[1..], c);
    }
  }

  /** Adding a site extends the list of its own chromosome and no other. */
  lemma {:induction false} PutLookup(m: seq<Entry>, s: Site, c: string)
    requires KeysAscending(m)
    ensures Lookup(Put(m, s), c) == Lookup(m, c) + (if c == s.chrom then [s] else [])
  {
    if m == [] {
    } else if m[0].chrom == s.chrom {
    } else if StrLess(s.chrom, m[0].chrom) {
      if c == s.chrom {
        forall i | 0 <= i < |m| ensures m[i].chrom != c {
          if i > 0 { StrLessTransitive(c, m[0].chrom, m[i].chrom); }
          StrLessIrreflexive(c);
        }
        LookupAbsent(m, c);
      }
    } else {
      PutLookup(m[1..], s, c);
    }
  }

  lemma {:induction false} PutNonEmpty(m: seq<Entry>, s: Site)
    requires forall i :: 0 <= i < |m| ==> m[i].sites != []
    ensures forall i :: 0 <= i < |Put(m, s)| ==> Put(m, s)[i].sites != []
  {
    if m != [] && m[0].chrom != s.chrom && !StrLess(s.chrom, m[0].chrom) {
      PutNonEmpty(m[1..], s);
    }
  }

  lemma {:induction false} PutMultiset(m: seq<Entry>, s: Site)
    ensures multiset(Flatten(SitesOf(Put(m, s)))) == multiset(Flatten(SitesOf(m))) + multiset{s}
  {
    if m == [] {
      FlattenCons([s], []);
    } else if m[0].chrom == s.chrom {
      assert Put(m, s)[1..] == m[1..];
      FlattenCons(m[0].sites + [s], SitesOf(m[1..]));
      FlattenCons(m[0].sites, SitesOf(m[1..]));
    } else if StrLess(s.chrom, m[0].chrom) {
      assert Put(m, s)[1..] == m;
      FlattenCons([s], SitesOf(m));
    } else {
      PutMultiset(m[1..], s);
      assert Put(m, s)[1..] == Put(m[1..], s);
      FlattenCons(m[0].sites, SitesOf(Put(m[1..], s)));
      FlattenCons(m[0].sites, SitesOf(m[1..]));
    }
  }

  /** The tree map after the grouping loop: keys in ascending order, one non-empty
      list per chromosome holding exactly that chromosome's sites in input order, and
      all sites together once each. */
  lemma {:induction false} GroupByChromCorrect(s: seq<Site>)
    ensures KeysAscending(GroupByChrom(s))
    ensures forall i :: 0 <= i < |GroupByChrom(s)| ==> GroupByChrom(s)[i].sites != []
    ensures forall c :: Lookup(GroupByChrom(s), c) == OnChrom(s, c)
    ensures multiset(Flatten(SitesOf(GroupByChrom(s)))) == multiset(s)
  {
    if s != [] {
      var init := s[..|s| - 1];
      var x := s[|s| - 1];
      GroupByChromCorrect(init);
      assert init + [x] == s;
      GroupStep(GroupByChrom(init), init, x);
    }
  }

  /** What adding one site does to a map that groups `init`: it groups `init + [x]`. */
  lemma GroupStep(m: seq<Entry>, init: seq<Site>, x: Site)
    requires KeysAscending(m) && forall i :: 0 <= i < |m| ==> m[i].sites != []
    requires forall c :: Lookup(m, c) == OnChrom(init, c)
    requires multiset(Flatten(SitesOf(m))) == multiset(init)
    ensures KeysAscending(Put(m, x)) && forall i :: 0 <= i < |Put(m, x)| ==> Put(m, x)[i].sites != []
    ensures forall c :: Lookup(Put(m, x), c) == OnChrom(init + [x], c)
    ensures multiset(Flatten(SitesOf(Put(m, x)))) == multiset(init + [x])
  {
    PutAscending(m, x);
    PutNonEmpty(m, x);
    PutMultiset(m, x);
    forall c ensures Lookup(Put(m, x), c) == OnChrom(init + [x], c) {
      PutLookup(m, x, c);
      OnChromSnoc(init, x, c);
    }
  }

  lemma OnChromSnoc(init: seq<Site>, x: Site, c: string)
    ensures OnChrom(init + [x], c) == OnChrom(init, c) + (if x.chrom == c then [x] else [])
  {
    assert (init + [x])[..|init|] == init;
  }

  /** With distinct keys, an entry's list is what looking its key up gives. */
  lemma {:induction false} EntryIsLookup(m: seq<Entry>, i: nat)
    requires KeysAscending(m) && i < |m|
    ensures m[i].sites == Lookup(m, m[i].chrom)
  {
    if i > 0 {
      StrLessIrreflexive(m[i].chrom);
      assert m[0].chrom != m[i].chrom;
      assert m[1..][i - 1] == m[i];
      EntryIsLookup(m[1..], i - 1);
    }
  }

  lemma {:induction false} OnChromMembers(s: seq<Site>, c: string)
    ensures forall y :: y in OnChrom(s, c) ==> y.chrom == c && y in s
  {
    if s != [] {
      OnChromMembers(s[..|s| - 1], c);
      assert forall y :: y in s[..|s| - 1] ==> y in s;
    }
  }

  /* ---------------- Collections.sort by coordinate ---------------- */

  predicate SortedByLoc(s: seq<Site>)
  {
    forall i, j :: 0 <= i < j < |s| ==> s[i].loc <= s[j].loc
  }

  /** Puts `x` before the first site that is not to its left, so sites at equal
      coordinates keep their relative order (the sort is stable, as Java's is). */
  function Insert(x: Site, s: seq<Site>): seq<Site>
  {
    if s == [] || x.loc <= s[0].loc then [x] + s else [s[0]] + Insert(x, s[1..])
  }

  function SortByLoc(s: seq<Site>): seq<Site>
  {
    if s == [] then [] else Insert(s[0], SortByLoc(s[1..]))
  }

  lemma {:induction false} InsertCorrect(x: Site, s: seq<Site>)
    requires SortedByLoc(s)
    ensures SortedByLoc(Insert(x, s))
    ensures multiset(Insert(x, s)) == multiset(s) + multiset{x}
  {
    InsertMultiset(x, s);
    if s == [] || x.loc <= s[0].loc {
      SortedCons(x, s);
    } else {
      InsertCorrect(x, s[1..]);
      InsertBound(x, s[1..], s[0].loc);
      SortedCons(s[0], Insert(x, s[1..]));
    }
  }

  /** A site no larger than every site of a sorted list may go in front of it. */
  lemma SortedCons(y: Site, t: seq<Site>)
    requires SortedByLoc(t) && forall j :: 0 <= j < |t| ==> y.loc <= t[j].loc
    ensures SortedByLoc([y] + t)
  {
    forall i, j | 0 <= i < j < |[y] + t| ensures ([y] + t)[i].loc <= ([y] + t)[j].loc {
      if i > 0 { assert ([y] + t)[i] == t[i - 1]; }
      assert ([y] + t)[j] == t[j - 1];
    }
  }

  /** Inserting keeps a lower bound that the list and the new site respect. */
  lemma {:induction false} InsertBound(x: Site, s: seq<Site>, b: int)
    requires b <= x.loc && forall j :: 0 <= j < |s| ==> b <= s[j].loc
    ensures forall j :: 0 <= j < |Insert(x, s)| ==> b <= Insert(x, s)[j].loc
  {
    if s == [] || x.loc <= s[0].loc {
      forall j | 0 <= j < |[x] + s| ensures b <= ([x] + s)[j].loc {
        if j > 0 { assert ([x] + s)[j] == s[j - 1]; }
      }
    } else {
      var t := Insert(x, s[1..]);
      InsertBound(x, s[1..], b);
      forall j | 0 <= j < |[s[0]] + t| ensures b <= ([s[0]] + t)[j].loc {
        if j > 0 { assert ([s[0]] + t)[j] == t[j - 1]; }
      }
    }
  }

  /** Inserting adds exactly the inserted site. */
  lemma {:induction false} InsertMultiset(x: Site, s: seq<Site>)
    ensures multiset(Insert(x, s)) == multiset(s) + multiset{x}
  {
    if s != [] && x.loc > s[0].loc {
      InsertMultiset(x, s[1..]);
      assert s == [s[0]] + s[1..];
    }
  }

  /** The sort returns its input in ascending coordinate order. */
  lemma {:induction false} SortByLocCorrect(s: seq<Site>)
    ensures SortedByLoc(SortByLoc(s))
    ensures multiset(SortByLoc(s)) == multiset(s)
    ensures |SortByLoc(s)| == |s|
  {
    if s != [] {
      var t := SortByLoc(s[1..]);
      SortByLocCorrect(s[1..]);
      InsertCorrect(s[0], t);
      assert SortByLoc(s) == Insert(s[0], t);
      ConsMultiset(s);
      assert |multiset(SortByLoc(s))| == |SortByLoc(s)| && |multiset(s)| == |s|;
    }
  }

  lemma ConsMultiset(s: seq<Site>)
    requires s != []
    ensures multiset(s) == multiset(s[1..]) + multiset{s[0]}
  {
    assert s == [s[0]] + s[1..];
  }

  /* ---------------- Chaining one chromosome's sorted sites ---------------- */

  /** The runs of a sorted list: a site joins the run of the site before it exactly
      when the gap between the two is below `distance`. */
  function Chain(s: seq<Site>, distance: int): (r: seq<seq<Site>>)
    ensures |s| > 0 ==> |r| > 0 && r[|r| - 1] != [] && r[|r| - 1][|r[|r| - 1]| - 1] == s[|s| - 1]
  {
    if |s| == 0 then []
    else if |s| == 1 then [s]
    else
      var r := Chain(s[..|s| - 1], distance);
      var x := s[|s| - 1];
      if x.loc - s[|s| - 2].loc < distance then r[..|r| - 1] + [r[|r| - 1] + [x]]
      else r + [[x]]
  }

  /** Gap from the site before position `j` of a run to the site at `j`. */
  function StepAt(c: seq<Site>, j: int): int
  {
    if 0 < j < |c| then c[j].loc - c[j - 1].loc else 0
  }

  /** Gap from the last site of run `k - 1` to the first site of run `k`. */
  function GapBefore(C: seq<seq<Site>>, k: int): int
  {
    if 0 < k < |C| && C[k] != [] && C[k - 1] != [] then C[k][0].loc - C[k - 1][|C[k - 1]| - 1].loc else 0
  }

  /** Consecutive members of a run are closer than `distance`. */
  predicate RunClose(c: seq<Site>, distance: int)
  {
    forall j :: 0 < j < |c| ==> StepAt(c, j) < distance
  }

  /** `C` cuts `s` into non-empty runs, consecutive members of a run are closer than
      `distance`, and consecutive runs are at least `distance` apart. */
  ghost predicate IsChainPartition(C: seq<seq<Site>>, s: seq<Site>, distance: int)
  {
    && Flatten(C) == s
    && (forall k :: 0 <= k < |C| ==> C[k] != [] && RunClose(C[k], distance))
    && (forall k :: 0 < k < |C| ==> GapBefore(C, k) >= distance)
  }

  lemma FlattenLast(C: seq<seq<Site>>)
    requires C != [] && C[|C| - 1] != []
    ensures Flatten(C) != [] && Flatten(C)[|Flatten(C)| - 1] == C[|C| - 1][|C[|C| - 1]| - 1]
  {
  }

  /** Appending a site closer than `distance` to the last one extends the last run. */
  lemma JoinStep(r: seq<seq<Site>>, init: seq<Site>, x: Site, distance: int)
    requires IsChainPartition(r, init, distance) && init != []
    requires x.loc - init[|init| - 1].loc < distance
    ensures r != [] && IsChainPartition(r[..|r| - 1] + [r[|r| - 1] + [x]], init + [x], distance)
  {
    var n := |r|;
    assert n > 0;
    FlattenLast(r);
    var L := r[n - 1];
    var R: seq<seq<Site>> := r[..n - 1] + [L + [x]];
    assert R[..n - 1] == r[..n - 1];
    assert Flatten(r) == Flatten(r[..n - 1]) + L;
    assert Flatten(R) == init + [x];
    assert RunClose(L + [x], distance) by {
      forall j | 0 < j < |L + [x]| ensures StepAt(L + [x], j) < distance {
        if j < |L| { assert StepAt(L + [x], j) == StepAt(L, j); }
      }
    }
    forall k | 0 <= k < |R| ensures R[k] != [] && RunClose(R[k], distance) {
      if k < n - 1 { assert R[k] == r[k]; }
    }
    forall k | 0 < k < |R| ensures GapBefore(R, k) >= distance {
      assert R[k - 1] == r[k - 1];
      assert R[k][0] == r[k][0];
      assert GapBefore(R, k) == GapBefore(r, k);
    }
  }

  /** Appending a site at least `distance` from the last one opens a new run. */
  lemma SplitStep(r: seq<seq<Site>>, init: seq<Site>, x: Site, distance: int)
    requires IsChainPartition(r, init, distance) && init != []
    requires x.loc - init[|init| - 1].loc >= distance
    ensures IsChainPartition(r + [[x]], init + [x], distance)
  {
    var n := |r|;
    assert n > 0;
    FlattenLast(r);
    var R: seq<seq<Site>> := r + [[x]];
    assert R[..n] == r;
    assert Flatten(R) == init + [x];
    forall k | 0 <= k < |R| ensures R[k] != [] && RunClose(R[k], distance) {
      if k < n { assert R[k] == r[k]; }
    }
    forall k | 0 < k < |R| ensures GapBefore(R, k) >= distance {
      assert R[k - 1] == (r + [[x]])[k - 1];
      if k < n { assert R[k] == r[k] && R[k - 1] == r[k - 1]; assert GapBefore(R, k) == GapBefore(r, k); }
    }
  }

  lemma ChainStep(s: seq<Site>, distance: int)
    requires |s| > 1
    requires IsChainPartition(Chain(s[..|s| - 1], distance), s[..|s| - 1], distance)
    ensures IsChainPartition(Chain(s, distance), s, distance)
  {
    var init := s[..|s| - 1];
    var x := s[|s| - 1];
    assert init + [x] == s;
    assert s[|s| - 2] == init[|init| - 1];
    if x.loc - s[|s| - 2].loc < distance {
      ChainJoinCase(s, distance);
    } else {
      ChainSplitCase(s, distance);
    }
    PartitionStep(Chain(init, distance), Chain(s, distance), init, x, distance);
  }

  /** A next site either joins the last run or opens a new one; either way the runs
      stay a chain partition. */
  lemma PartitionStep(r: seq<seq<Site>>, R: seq<seq<Site>>, init: seq<Site>, x: Site, distance: int)
    requires IsChainPartition(r, init, distance) && init != [] && r != []
    requires x.loc - init[|init| - 1].loc < distance ==> R == r[..|r| - 1] + [r[|r| - 1] + [x]]
    requires x.loc - init[|init| - 1].loc >= distance ==> R == r + [[x]]
    ensures IsChainPartition(R, init + [x], distance)
  {
    if x.loc - init[|init| - 1].loc < distance {
      JoinStep(r, init, x, distance);
    } else {
      SplitStep(r, init, x, distance);
    }
  }

  /** `Chain` builds a chain partition of its input. */
  lemma {:induction false} ChainIsPartition(s: seq<Site>, distance: int)
    ensures IsChainPartition(Chain(s, distance), s, distance)
  {
    if |s| == 1 {
      FlattenCons(s, []);
    } else if |s| > 1 {
      ChainIsPartition(s[..|s| - 1], distance);
      ChainStep(s, distance);
    }
  }

  /** Dropping the last run leaves a chain partition of what precedes it. */
  lemma DropLastRun(C: seq<seq<Site>>, s: seq<Site>, distance: int)
    requires IsChainPartition(C, s, distance) && C != []
    ensures s == Flatten(C[..|C| - 1]) + C[|C| - 1]
    ensures IsChainPartition(C[..|C| - 1], Flatten(C[..|C| - 1]), distance)
  {
    var C': seq<seq<Site>> := C[..|C| - 1];
    forall k | 0 <= k < |C'| ensures C'[k] != [] && RunClose(C'[k], distance) {
      assert C'[k] == C[k];
    }
    forall k | 0 < k < |C'| ensures GapBefore(C', k) >= distance {
      assert C'[k - 1] == C[k - 1] && C'[k] == C[k];
      assert GapBefore(C', k) == GapBefore(C, k);
    }
  }

  /** Dropping the last site of a last run of two or more leaves a chain partition. */
  lemma DropLastSite(C: seq<seq<Site>>, s: seq<Site>, distance: int)
    requires IsChainPartition(C, s, distance) && C != [] && |C[|C| - 1]| >= 2
    ensures |s| >= 2
    ensures var L := C[|C| - 1];
      IsChainPartition(C[..|C| - 1] + [L[..|L| - 1]], s[..|s| - 1], distance)
  {
    var n := |C|;
    var L := C[n - 1];
    var F := Flatten(C[..n - 1]);
    assert s == F + L;
    var L' := L[..|L| - 1];
    var C': seq<seq<Site>> := C[..n - 1] + [L'];
    assert C'[..n - 1] == C[..n - 1];
    assert Flatten(C') == F + L';
    assert F + L' == s[..|s| - 1];
    assert RunClose(L', distance) by {
      forall j | 0 < j < |L'| ensures StepAt(L', j) < distance {
        assert StepAt(L', j) == StepAt(L, j);
      }
    }
    forall k | 0 <= k < |C'| ensures C'[k] != [] && RunClose(C'[k], distance) {
      if k < n - 1 { assert C'[k] == C[k]; }
    }
    forall k | 0 < k < |C'| ensures GapBefore(C', k) >= distance {
      assert C'[k - 1] == C[k - 1];
      if k < n - 1 { assert C'[k] == C[k]; } else { assert C'[k][0] == L[0]; }
      assert GapBefore(C', k) == GapBefore(C, k);
    }
  }

  /** The runs are determined: any chain partition of `s` is the one `Chain` builds. */
  lemma {:induction false} ChainUnique(C: seq<seq<Site>>, s: seq<Site>, distance: int)
    requires IsChainPartition(C, s, distance)
    ensures C == Chain(s, distance)
    decreases |s|, 1
  {
    if C == [] {
      assert s == [];
    } else if |C[|C| - 1]| >= 2 {
      UniqueLongLastRun(C, s, distance);
    } else if |C| == 1 {
      UniqueSingle(C, s, distance);
    } else {
      UniqueSingletonLastRun(C, s, distance);
    }
  }

  lemma {:induction false} UniqueLongLastRun(C: seq<seq<Site>>, s: seq<Site>, distance: int)
    requires IsChainPartition(C, s, distance) && C != [] && |C[|C| - 1]| >= 2
    ensures C == Chain(s, distance)
    decreases |s|, 0
  {
    DropLastSite(C, s, distance);
    LongRunGap(C, s, distance);
    var L := C[|C| - 1];
    ChainUnique(C[..|C| - 1] + [L[..|L| - 1]], s[..|s| - 1], distance);
    UniqueJoin(C, C[..|C| - 1] + [L[..|L| - 1]], s, distance);
  }

  lemma {:induction false} UniqueSingletonLastRun(C: seq<seq<Site>>, s: seq<Site>, distance: int)
    requires IsChainPartition(C, s, distance) && |C| >= 2 && |C[|C| - 1]| == 1
    ensures C == Chain(s, distance)
    decreases |s|, 0
  {
    DropSingletonRun(C, s, distance);
    SingletonRunGap(C, s, distance);
    ChainUnique(C[..|C| - 1], s[..|s| - 1], distance);
    UniqueSplit(C, C[..|C| - 1], s, distance);
  }

  lemma UniqueSingle(C: seq<seq<Site>>, s: seq<Site>, distance: int)
    requires IsChainPartition(C, s, distance) && |C| == 1 && |C[0]| == 1
    ensures C == Chain(s, distance)
  {
    DropLastRun(C, s, distance);
    assert C[..0] == [];
    assert s == C[0];
    assert C == [s];
  }

  /** Dropping a last run of one site leaves a chain partition of the rest. */
  lemma DropSingletonRun(C: seq<seq<Site>>, s: seq<Site>, distance: int)
    requires IsChainPartition(C, s, distance) && |C| >= 2 && |C[|C| - 1]| == 1
    ensures |s| >= 2
    ensures IsChainPartition(C[..|C| - 1], s[..|s| - 1], distance)
  {
    DropLastRun(C, s, distance);
    var C' := C[..|C| - 1];
    FlattenLast(C');
    assert s == Flatten(C') + C[|C| - 1];
    assert Flatten(C') == s[..|s| - 1];
  }

  /** One step of `Chain`: a last site closer than `distance` joins the last run. */
  lemma ChainJoinCase(s: seq<Site>, distance: int)
    requires |s| >= 2 && s[|s| - 1].loc - s[|s| - 2].loc < distance
    ensures var r := Chain(s[..|s| - 1], distance);
      r != [] && Chain(s, distance) == r[..|r| - 1] + [r[|r| - 1] + [s[|s| - 1]]]
  {
  }

  /** One step of `Chain`: a last site at least `distance` away opens a new run. */
  lemma ChainSplitCase(s: seq<Site>, distance: int)
    requires |s| >= 2 && s[|s| - 1].loc - s[|s| - 2].loc >= distance
    ensures Chain(s, distance) == Chain(s[..|s| - 1], distance) + [[s[|s| - 1]]]
  {
  }

  /** In a chain partition whose last run has two or more sites, the last two sites
      share that run, so they are closer than `distance`. */
  lemma LongRunGap(C: seq<seq<Site>>, s: seq<Site>, distance: int)
    requires IsChainPartition(C, s, distance) && C != [] && |C[|C| - 1]| >= 2
    ensures |s| >= 2 && s[|s| - 1].loc - s[|s| - 2].loc < distance
    ensures var L := C[|C| - 1]; L[..|L| - 1] + [s[|s| - 1]] == L
  {
    var n := |C|;
    var L := C[n - 1];
    DropLastRun(C, s, distance);
    var F := Flatten(C[..n - 1]);
    assert s == F + L;
    assert s[|s| - 2] == L[|L| - 2] && s[|s| - 1] == L[|L| - 1];
    assert StepAt(L, |L| - 1) < distance;
  }

  /** In a chain partition whose last run is a single site, that site is at least
      `distance` from the site before it. */
  lemma SingletonRunGap(C: seq<seq<Site>>, s: seq<Site>, distance: int)
    requires IsChainPartition(C, s, distance) && |C| >= 2 && |C[|C| - 1]| == 1
    ensures |s| >= 2 && C[|C| - 1] == [s[|s| - 1]] && s[|s| - 1].loc - s[|s| - 2].loc >= distance
  {
    var n := |C|;
    var C' := C[..n - 1];
    DropLastRun(C, s, distance);
    assert C'[n - 2] == C[n - 2];
    FlattenLast(C');
    var F := Flatten(C');
    assert s == F + C[n - 1];
    assert s[|s| - 2] == F[|F| - 1];
    assert GapBefore(C, n - 1) >= distance;
  }

  /** The last step of uniqueness when the last run has two or more sites: the
      partition without the last site is `Chain` of the shorter list. */
  lemma UniqueJoin(C: seq<seq<Site>>, C': seq<seq<Site>>, s: seq<Site>, distance: int)
    requires C != [] && |s| >= 2 && s[|s| - 1].loc - s[|s| - 2].loc < distance
    requires var L := C[|C| - 1]; |L| >= 2 && L[..|L| - 1] + [s[|s| - 1]] == L
    requires C' == C[..|C| - 1] + [C[|C| - 1][..|C[|C| - 1]| - 1]]
    requires C' == Chain(s[..|s| - 1], distance)
    ensures C == Chain(s, distance)
  {
    ChainJoinCase(s, distance);
    ExtendLast(C, C', s[|s| - 1]);
  }

  /** Putting the last site back on the shortened last run gives the runs back. */
  lemma ExtendLast(C: seq<seq<Site>>, C': seq<seq<Site>>, x: Site)
    requires C != [] && |C[|C| - 1]| >= 1
    requires C' == C[..|C| - 1] + [C[|C| - 1][..|C[|C| - 1]| - 1]]
    requires C[|C| - 1][..|C[|C| - 1]| - 1] + [x] == C[|C| - 1]
    ensures C' != [] && C == C'[..|C'| - 1] + [C'[|C'| - 1] + [x]]
  {
    var n := |C|;
    assert |C'| == n;
    assert C'[..n - 1] == C[..n - 1];
    assert C'[n - 1] + [x] == C[n - 1];
    assert C == C[..n - 1] + [C[n - 1]];
  }

  /** The last step of uniqueness when the last run is a single site. */
  lemma UniqueSplit(C: seq<seq<Site>>, C': seq<seq<Site>>, s: seq<Site>, distance: int)
    requires |C| >= 2 && |s| >= 2 && s[|s| - 1].loc - s[|s| - 2].loc >= distance
    requires C[|C| - 1] == [s[|s| - 1]]
    requires C' == C[..|C| - 1]
    requires C' == Chain(s[..|s| - 1], distance)
    ensures C == Chain(s, distance)
  {
    ChainSplitCase(s, distance);
    assert C == C' + [C[|C| - 1]];
  }

  /** The runs of a sorted list are sorted, so each run starts at its smallest
      coordinate and ends at its largest. */
  lemma {:induction false} ChainSorted(s: seq<Site>, distance: int)
    requires SortedByLoc(s)
    ensures forall k :: 0 <= k < |Chain(s, distance)| ==> SortedByLoc(Chain(s, distance)[k])
  {
    if |s| > 1 {
      var init := s[..|s| - 1];
      var r := Chain(init, distance);
      var x := s[|s| - 1];
      ChainSorted(init, distance);
      assert r[|r| - 1][|r[|r| - 1]| - 1] == s[|s| - 2];
      if x.loc - s[|s| - 2].loc < distance {
        ChainJoinCase(s, distance);
        SortedJoin(r, x);
      } else {
        ChainSplitCase(s, distance);
        SortedSplit(r, x);
      }
    }
  }

  /** Extending the last of some sorted runs by a site no smaller keeps them sorted. */
  lemma SortedJoin(r: seq<seq<Site>>, x: Site)
    requires r != [] && r[|r| - 1] != [] && forall k :: 0 <= k < |r| ==> SortedByLoc(r[k])
    requires r[|r| - 1][|r[|r| - 1]| - 1].loc <= x.loc
    ensures var R := r[..|r| - 1] + [r[|r| - 1] + [x]];
      forall k :: 0 <= k < |R| ==> SortedByLoc(R[k])
  {
    var n := |r|;
    var L := r[n - 1];
    var R := r[..n - 1] + [L + [x]];
    assert SortedByLoc(L + [x]) by {
      forall i, j | 0 <= i < j < |L + [x]| ensures (L + [x])[i].loc <= (L + [x])[j].loc {
        if j == |L| {
          assert (L + [x])[i].loc <= L[|L| - 1].loc;
        }
      }
    }
    forall k | 0 <= k < |R| ensures SortedByLoc(R[k]) {
      if k < n - 1 { assert R[k] == r[k]; }
    }
  }

  /** Adding a run of one site to some sorted runs keeps them sorted. */
  lemma SortedSplit(r: seq<seq<Site>>, x: Site)
    requires forall k :: 0 <= k < |r| ==> SortedByLoc(r[k])
    ensures forall k :: 0 <= k < |r + [[x]]| ==> SortedByLoc((r + [[x]])[k])
  {
    forall k | 0 <= k < |r + [[x]]| ensures SortedByLoc((r + [[x]])[k]) {
      if k < |r| { assert (r + [[x]])[k] == r[k]; }
    }
  }

  /* ---------------- The whole clustering pass ---------------- */

  function SortedLists(m: seq<Entry>): seq<seq<Site>>
  {
    seq(|m|, i requires 0 <= i < |m| => SortByLoc(m[i].sites))
  }

  function ChainsOf(m: seq<Entry>, distance: int): seq<seq<seq<Site>>>
  {
    seq(|m|, i requires 0 <= i < |m| => Chain(SortByLoc(m[i].sites), distance))
  }

  /** The clusters `findTfbsClusters` emits, chromosome by chromosome in key order. */
  function Clusters(allSites: seq<seq<Site>>, distance: int): seq<seq<Site>>
  {
    Flatten(ChainsOf(GroupByChrom(Flatten(allSites)), distance))
  }

  lemma {:induction false} FlattenChains(m: seq<Entry>, distance: int)
    ensures Flatten(Flatten(ChainsOf(m, distance))) == Flatten(SortedLists(m))
  {
    if m != [] {
      var init := m[..|m| - 1];
      FlattenChains(init, distance);
      assert ChainsOf(m, distance)[..|m| - 1] == ChainsOf(init, distance);
      assert SortedLists(m)[..|m| - 1] == SortedLists(init);
      FlattenAppend(Flatten(ChainsOf(init, distance)), Chain(SortByLoc(m[|m| - 1].sites), distance));
      ChainIsPartition(SortByLoc(m[|m| - 1].sites), distance);
    }
  }

  lemma {:induction false} SortedListsMultiset(m: seq<Entry>)
    ensures multiset(Flatten(SortedLists(m))) == multiset(Flatten(SitesOf(m)))
  {
    if m != [] {
      var head := SortByLoc(m[0].sites);
      var rest := SortedLists(m[1..]);
      SortedListsMultiset(m[1..]);
      assert SortedLists(m) == [head] + rest;
      FlattenCons(head, rest);
      FlattenCons(m[0].sites, SitesOf(m[1..]));
      SortByLocCorrect(m[0].sites);
      calc {
        multiset(Flatten(SortedLists(m)));
        multiset(head + Flatten(rest));
        multiset(head) + multiset(Flatten(rest));
        multiset(m[0].sites) + multiset(Flatten(SitesOf(m[1..])));
        multiset(m[0].sites + Flatten(SitesOf(m[1..])));
      }
    }
  }

  /** Every site held under a key of the grouped map lies on that key's chromosome. */
  lemma EntrySiteChrom(all: seq<Site>, i: int, y: Site)
    requires 0 <= i < |GroupByChrom(all)| && y in GroupByChrom(all)[i].sites
    ensures y.chrom == GroupByChrom(all)[i].chrom
  {
    var G := GroupByChrom(all);
    GroupByChromCorrect(all);
    EntryIsLookup(G, i);
    OnChromMembers(all, G[i].chrom);
  }

  /** One chromosome of the pass: its sorted list is a sorted permutation of its
      entry, and its runs are a chain partition of that list. */
  lemma EntryChains(m: seq<Entry>, i: int, distance: int)
    requires 0 <= i < |m|
    ensures SortedByLoc(SortedLists(m)[i]) && multiset(SortedLists(m)[i]) == multiset(m[i].sites)
    ensures IsChainPartition(ChainsOf(m, distance)[i], SortedLists(m)[i], distance)
  {
    SortByLocCorrect(m[i].sites);
    ChainIsPartition(SortByLoc(m[i].sites), distance);
  }

  /** A cluster of the pass is non-empty, sorted by coordinate, and on one chromosome. */
  lemma ClusterShape(allSites: seq<seq<Site>>, distance: int, c: seq<Site>)
    requires c in Clusters(allSites, distance)
    ensures c != [] && SortedByLoc(c)
    ensures forall j :: 0 <= j < |c| ==> c[j].chrom == c[0].chrom
  {
    var all := Flatten(allSites);
    var G := GroupByChrom(all);
    FlattenMembership(ChainsOf(G, distance), c);
    var i :| 0 <= i < |G| && c in ChainsOf(G, distance)[i];
    var sorted := SortByLoc(G[i].sites);
    var C := Chain(sorted, distance);
    var k :| 0 <= k < |C| && C[k] == c;
    EntryChains(G, i, distance);
    ChainSorted(sorted, distance);
    forall j | 0 <= j < |c| ensures c[j].chrom == G[i].chrom {
      FlattenMembership(C, c[j]);
      assert c[j] in multiset(sorted);
      EntrySiteChrom(all, i, c[j]);
    }
  }

  /** What the clustering pass guarantees. Per chromosome (one tree-map entry each,
      keys ascending): the entry holds exactly that chromosome's sites, and its runs
      are the unique chain partition of its sorted list. Over the whole output: the
      clusters, concatenated in order, are the chromosomes' sorted lists in key order;
      no site is lost or duplicated; every cluster is non-empty, sorted, and lies on
      one chromosome. */
  lemma ClustersCorrect(allSites: seq<seq<Site>>, distance: int)
    ensures var G := GroupByChrom(Flatten(allSites));
      && KeysAscending(G)
      && (forall i :: 0 <= i < |G| ==> G[i].sites == OnChrom(Flatten(allSites), G[i].chrom) && G[i].sites != [])
      && (forall i :: 0 <= i < |G| ==>
            SortedByLoc(SortedLists(G)[i]) && multiset(SortedLists(G)[i]) == multiset(G[i].sites) &&
            IsChainPartition(ChainsOf(G, distance)[i], SortedLists(G)[i], distance))
      && Flatten(Clusters(allSites, distance)) == Flatten(SortedLists(G))
      && multiset(Flatten(Clusters(allSites, distance))) == multiset(Flatten(allSites))
    ensures forall c: seq<Site> :: c in Clusters(allSites, distance) ==>
      c != [] && SortedByLoc(c) && forall j :: 0 <= j < |c| ==> c[j].chrom == c[0].chrom
  {
    var all := Flatten(allSites);
    var G := GroupByChrom(all);
    GroupByChromCorrect(all);
    forall i | 0 <= i < |G| ensures G[i].sites == OnChrom(all, G[i].chrom) {
      EntryIsLookup(G, i);
    }
    forall i | 0 <= i < |G|
      ensures SortedByLoc(SortedLists(G)[i]) && multiset(SortedLists(G)[i]) == multiset(G[i].sites)
      ensures IsChainPartition(ChainsOf(G, distance)[i], SortedLists(G)[i], distance)
    {
      EntryChains(G, i, distance);
    }
    FlattenChains(G, distance);
    SortedListsMultiset(G);
    forall c: seq<Site> | c in Clusters(allSites, distance)
      ensures c != [] && SortedByLoc(c) && forall j :: 0 <= j < |c| ==> c[j].chrom == c[0].chrom
    {
      ClusterShape(allSites, distance, c);
    }
  }

  /** The classification loop of `findTfbsClusters`: every site of every factor,
      factor by factor, is added to the tree map under its chromosome. */
  method GroupSites(allSites: seq<seq<Site>>) returns (chrom2sites: seq<Entry>)
    ensures chrom2sites == GroupByChrom(Flatten(allSites))
  {
    chrom2sites := [];
    for tf := 0 to |allSites|
      invariant chrom2sites == GroupByChrom(Flatten(allSites[..tf]))
    {
      var sites := allSites[tf];
      ghost var done := Flatten(allSites[..tf]);
      assert done + sites[..0] == done;
      for j := 0 to |sites|
        invariant chrom2sites == GroupByChrom(done + sites[..j])
      {
        GroupSnoc(done, sites, j);
        chrom2sites := Put(chrom2sites, sites[j]);
      }
      FlattenPrefix(allSites, tf);
      assert sites[..|sites|] == sites;
    }
    assert allSites[..|allSites|] == allSites;
  }

  /** Adding the next site of a factor's list to the map. */
  lemma GroupSnoc(done: seq<Site>, sites: seq<Site>, j: nat)
    requires j < |sites|
    ensures GroupByChrom(done + sites[..j + 1]) == Put(GroupByChrom(done + sites[..j]), sites[j])
  {
    var before := done + sites[..j];
    assert done + sites[..j + 1] == before + [sites[j]];
    assert (before + [sites[j]])[..|before|] == before;
  }

  /** The factors' lists up to `tf + 1`, concatenated. */
  lemma FlattenPrefix<T>(xss: seq<seq<T>>, tf: nat)
    requires tf < |xss|
    ensures Flatten(xss[..tf + 1]) == Flatten(xss[..tf]) + xss[tf]
  {
    assert xss[..tf + 1][..tf] == xss[..tf];
  }

  /** The chaining loop over one chromosome's sorted list: each site is compared with
      the last site of the open cluster, joins it when closer than `distance`, and
      otherwise closes it and opens a new one; the open cluster is closed at the end. */
  method ChainSites(sites: seq<Site>, distance: int) returns (clusters: seq<seq<Site>>)
    requires sites != []
    ensures clusters == Chain(sites, distance)
  {
    clusters := [];
    var cluster: seq<Site> := [sites[0]];
    assert sites[..1] == [sites[0]];
    for i := 1 to |sites|
      invariant Scanned(sites, i, clusters, cluster, distance)
    {
      var s := sites[i];
      ScanStep(sites, i, clusters, cluster, distance);
      var p := cluster[|cluster| - 1];   // previous
      if s.loc - p.loc < distance {
        cluster := cluster + [s];
      } else {
        clusters := clusters + [cluster];
        cluster := [s];
      }
    }
    assert sites[..|sites|] == sites;
    clusters := clusters + [cluster];
  }

  /** The finished runs and the running cluster chain the first `i` sites. */
  ghost predicate Scanned(sites: seq<Site>, i: nat, clusters: seq<seq<Site>>, cluster: seq<Site>, distance: int)
    requires 0 < i <= |sites|
  {
    clusters + [cluster] == Chain(sites[..i], distance)
  }

  lemma ScanStep(sites: seq<Site>, i: nat, clusters: seq<seq<Site>>, cluster: seq<Site>, distance: int)
    requires 0 < i < |sites| && Scanned(sites, i, clusters, cluster, distance)
    ensures cluster != [] && cluster[|cluster| - 1] == sites[i - 1]
    ensures sites[i].loc - cluster[|cluster| - 1].loc < distance ==>
      Scanned(sites, i + 1, clusters, cluster + [sites[i]], distance)
    ensures sites[i].loc - cluster[|cluster| - 1].loc >= distance ==>
      Scanned(sites, i + 1, clusters + [cluster], [sites[i]], distance)
  {
    assert sites[..i + 1] == sites[..i] + [sites[i]];
    ChainAppend(sites[..i], sites[i], clusters, cluster, distance);
  }

  /** One step of the scan: with the finished runs and the running cluster making up
      `Chain(t)`, a site `x` either extends the running cluster or starts a new one. */
  lemma ChainAppend(t: seq<Site>, x: Site, clusters: seq<seq<Site>>, cluster: seq<Site>, distance: int)
    requires t != [] && clusters + [cluster] == Chain(t, distance)
    ensures cluster != [] && cluster[|cluster| - 1] == t[|t| - 1]
    ensures x.loc - cluster[|cluster| - 1].loc < distance ==>
      clusters + [cluster + [x]] == Chain(t + [x], distance)
    ensures x.loc - cluster[|cluster| - 1].loc >= distance ==>
      clusters + [cluster] + [[x]] == Chain(t + [x], distance)
  {
    var r := clusters + [cluster];
    var s := t + [x];
    assert r[|r| - 1] == cluster && r[..|r| - 1] == clusters;
    assert s[..|s| - 1] == t && s[|s| - 2] == t[|t| - 1];
    if x.loc - cluster[|cluster| - 1].loc < distance {
      ChainJoinCase(s, distance);
    } else {
      ChainSplitCase(s, distance);
    }
  }

  /** `findTfbsClusters` up to the writing of the file: group the sites by chromosome,
      then for each key in ascending order sort its list and chain it. The running
      cluster is flushed at every chromosome's end, and once more after the last
      chromosome, which adds an always-empty cluster at the end of the list. */
  method FindTfbsClusters(allSites: seq<seq<Site>>, distance: int) returns (clusters: seq<seq<Site>>)
    ensures clusters == Clusters(allSites, distance) + [[]]
  {
    var chrom2sites := GroupSites(allSites);
    GroupByChromCorrect(Flatten(allSites));
    clusters := [];
    for k := 0 to |chrom2sites|
      invariant clusters == Flatten(ChainsOf(chrom2sites[..k], distance))
    {
      var sites := SortByLoc(chrom2sites[k].sites);
      SortByLocCorrect(chrom2sites[k].sites);
      var runs := ChainSites(sites, distance);
      clusters := clusters + runs;
      assert ChainsOf(chrom2sites[..k + 1], distance)[..k] == ChainsOf(chrom2sites[..k], distance);
    }
    assert chrom2sites[..|chrom2sites|] == chrom2sites;
    // finish all the sites
    clusters := clusters + [[]];
  }

  /** Three factors with one site each at 1000, 1040 and 1200 on one chromosome, and a
      threshold of 50, give the clusters {1000, 1040} and {1200}. */
  lemma ThreeFactorExample(chrom: string)
    ensures var a := Site(0, chrom, 1000, 1.0, true);
      var b := Site(1, chrom, 1040, 1.0, true);
      var c := Site(2, chrom, 1200, 1.0, true);
      Clusters([[a], [b], [c]], 50) == [[a, b], [c]]
  {
    var a := Site(0, chrom, 1000, 1.0, true);
    var b := Site(1, chrom, 1040, 1.0, true);
    var c := Site(2, chrom, 1200, 1.0, true);
    ExampleFlatten(a, b, c);
    ExampleGroup(a, b, c);
    ExampleSort(a, b, c);
    ExampleChain(a, b, c);
    var C := Chain([a, b, c], 50);
    assert ChainsOf([Entry(chrom, [a, b, c])], 50) == [C];
    assert Flatten([C]) == C by { FlattenCons(C, []); }
  }

  lemma ExampleFlatten(a: Site, b: Site, c: Site)
    ensures Flatten([[a], [b], [c]]) == [a, b, c]
  {
    assert [[a], [b], [c]][..2] == [[a], [b]];
    assert [[a], [b]][..1] == [[a]];
    assert [[a]][..0] == [];
    assert Flatten([[a]]) == [a];
    assert Flatten([[a], [b]]) == [a, b];
  }

  lemma ExampleGroup(a: Site, b: Site, c: Site)
    requires a.chrom == b.chrom == c.chrom
    ensures GroupByChrom([a, b, c]) == [Entry(a.chrom, [a, b, c])]
  {
    assert [a, b, c][..2] == [a, b] && [a, b][..1] == [a] && [a][..0] == [];
    assert GroupByChrom([a]) == [Entry(a.chrom, [a])];
    assert [a] + [b] == [a, b] && [a, b] + [c] == [a, b, c];
    assert Put([Entry(a.chrom, [a])], b) == [Entry(a.chrom, [a, b])];
    assert GroupByChrom([a, b]) == [Entry(a.chrom, [a, b])];
  }

  lemma ExampleSort(a: Site, b: Site, c: Site)
    requires a.loc <= b.loc <= c.loc
    ensures SortByLoc([a, b, c]) == [a, b, c]
  {
    assert [a, b, c][1..] == [b, c] && [b, c][1..] == [c] && [c][1..] == [];
    assert SortByLoc([c]) == [c];
    assert SortByLoc([b, c]) == [b, c];
  }

  lemma ExampleChain(a: Site, b: Site, c: Site)
    requires b.loc - a.loc < 50 <= c.loc - b.loc
    ensures Chain([a, b, c], 50) == [[a, b], [c]]
  {
    assert [a, b, c][..2] == [a, b] && [a, b][..1] == [a];
    assert Chain([a], 50) == [[a]];
    assert [[a]][..0] == [] && [a] + [b] == [a, b];
    assert Chain([a, b], 50) == [[a, b]];
  }
}
