/** Loading every factor's binding events and moving each event onto the centre of
    the nearest strong motif occurrence, as `loadEventAndMotifs` does. The sequence
    fetch and the outward motif scan are outside the model: each event carries the
    start of its scan window and the scan's answer. */
module EventLoading {
  import opened Results
  import opened Sites

  /** What the motif scan answers when nothing in the window scores high enough. */
  const NO_HIT: int := -999

  /** The k-mer column marks an event without a motif by this run of dashes. */
  const NO_KMER: string := "------"

  /** One event of a factor's event file, joined with what the motif scan reported
      for its window: a hit `h >= 0` is a forward-strand hit at offset `h`, a hit
      `h < 0` a reverse-strand hit at offset `-h`, and `NO_HIT` no hit at all. */
  datatype Peak = Peak(chrom: string, loc: int, strength: real, kmer: string,
                       windowStart: int, hit: int)

  /** A configured factor: the length of its motif when a PFM file was found, and its
      events when the event file could be read. */
  datatype FactorInput = FactorInput(motifLength: Option<nat>, events: Option<seq<Peak>>)

  /** Rounds 1, 2 and 9 and a missing motif switch refinement off. */
  predicate RefinementEnabled(round: int, motifLength: Option<nat>)
  {
    round != 1 && round != 2 && round != 9 && motifLength.Some?
  }

  /** Offset of the motif's middle from its first base, for a forward-strand hit. */
  function PosShift(len: nat): int { len / 2 }

  /** Offset of the motif's middle from its first base, for a reverse-strand hit. */
  function NegShift(len: nat): int { len - 1 - len / 2 }

  predicate OccursAt(s: string, t: string, i: int)
  {
    0 <= i && i + |t| <= |s| && s[i..i + |t|] == t
  }

  /** `String.contains`: `t` occurs in `s` at some position. */
  predicate Contains(s: string, t: string)
  {
    exists i :: 0 <= i <= |s| && OccursAt(s, t, i)
  }

  /** The coordinate a site gets: the motif centre when refinement is on and the scan
      found a hit, otherwise the event's own coordinate. */
  function BindingLocation(p: Peak, round: int, motifLength: Option<nat>): int
  {
    if RefinementEnabled(round, motifLength) && p.hit != NO_HIT then
      if p.hit >= 0 then p.windowStart + p.hit + PosShift(motifLength.value)
      else p.windowStart - p.hit + NegShift(motifLength.value)
    else p.loc
  }

  function ToSite(tf: nat, p: Peak, round: int, motifLength: Option<nat>): Site
  {
    Site(tf, p.chrom, BindingLocation(p, round, motifLength), p.strength, !Contains(p.kmer, NO_KMER))
  }

  /** The two shifts put a forward and a reverse hit of the same motif on the same
      base: each is measured from the motif's own end, and together they span the
      motif. For an odd length they are equal. */
  lemma ShiftsMeetInMiddle(len: nat)
    requires len > 0
    ensures PosShift(len) + NegShift(len) == len - 1
    ensures 0 <= NegShift(len) <= PosShift(len) < len
    ensures len % 2 == 1 ==> PosShift(len) == NegShift(len)
  {
  }

  /** A forward hit lands inside the motif occurrence `[start + h, start + h + len)`. */
  lemma ForwardHitInsideMotif(p: Peak, round: int, len: nat)
    requires len > 0 && RefinementEnabled(round, Some(len))
    requires p.hit >= 0
    ensures ToSite(0, p, round, Some(len)).loc == p.windowStart + p.hit + len / 2
    ensures p.windowStart + p.hit <= ToSite(0, p, round, Some(len)).loc < p.windowStart + p.hit + len
  {
  }

  /** A reverse hit at offset `m = -h` lands inside `[start + m, start + m + len)`. */
  lemma ReverseHitInsideMotif(p: Peak, round: int, len: nat)
    requires len > 0 && RefinementEnabled(round, Some(len))
    requires p.hit < 0 && p.hit != NO_HIT
    ensures ToSite(0, p, round, Some(len)).loc == p.windowStart - p.hit + (len - 1 - len / 2)
    ensures p.windowStart - p.hit <= ToSite(0, p, round, Some(len)).loc < p.windowStart - p.hit + len
  {
  }

  /** The event's own coordinate survives exactly when refinement is off or the scan
      reported no hit. */
  lemma OriginalKept(tf: nat, p: Peak, round: int, motifLength: Option<nat>)
    requires !RefinementEnabled(round, motifLength) || p.hit == NO_HIT
    ensures ToSite(tf, p, round, motifLength).loc == p.loc
  {
  }

  /** Refinement moves the coordinate only; factor, chromosome, strength and the motif
      flag are those of the event whatever the round and the motif. */
  lemma RefinementKeepsAttributes(tf: nat, p: Peak, round: int, motifLength: Option<nat>)
    ensures var s := ToSite(tf, p, round, motifLength);
      s.tfId == tf && s.chrom == p.chrom && s.signal == p.strength &&
      s.hasMotif == ToSite(tf, p, 1, None).hasMotif
      && (s.hasMotif <==> forall i :: 0 <= i <= |p.kmer| ==> !OccursAt(p.kmer, NO_KMER, i))
  {
  }

  /** With a motif of length 11 a forward hit at offset 4 gives `start + 4 + 5` and a
      reverse hit at offset 6 gives `start + 6 + 5`. */
  lemma LengthElevenExample(chrom: string, start: int)
    ensures BindingLocation(Peak(chrom, 0, 0.0, "", start, 4), 3, Some(11)) == start + 9
    ensures BindingLocation(Peak(chrom, 0, 0.0, "", start, -6), 3, Some(11)) == start + 11
  {
  }

  /** `loadEventAndMotifs`: the sites of every factor in configured order, or the index
      of the first factor whose event file could not be read (the run stops there). */
  method LoadEventsAndMotifs(factors: seq<FactorInput>, round: int)
    returns (r: Result<seq<seq<Site>>, nat>)
    ensures r.Ok? <==> forall tf :: 0 <= tf < |factors| ==> factors[tf].events.Some?
    ensures r.Err? ==> r.error < |factors| && factors[r.error].events.None? &&
                       forall tf :: 0 <= tf < r.error ==> factors[tf].events.Some?
    ensures r.Ok? ==> |r.value| == |factors|
    ensures r.Ok? ==> forall tf :: 0 <= tf < |factors| ==>
      |r.value[tf]| == |factors[tf].events.value| &&
      forall i :: 0 <= i < |r.value[tf]| ==>
        r.value[tf][i] == ToSite(tf, factors[tf].events.value[i], round, factors[tf].motifLength)
  {
    var allSites: seq<seq<Site>> := [];
    for tf := 0 to |factors|
      invariant |allSites| == tf
      invariant forall t :: 0 <= t < tf ==> factors[t].events.Some?
      invariant forall t :: 0 <= t < tf ==>
        |allSites[t]| == |factors[t].events.value| &&
        forall i :: 0 <= i < |allSites[t]| ==>
          allSites[t][i] == ToSite(t, factors[t].events.value[i], round, factors[t].motifLength)
    {
      var motifLength := factors[tf].motifLength;
      if factors[tf].events.None? {
        return Err(tf);
      }
      var peaks := factors[tf].events.value;
      var sites: seq<Site> := [];
      for i := 0 to |peaks|
        invariant |sites| == i
        invariant forall k :: 0 <= k < i ==> sites[k] == ToSite(tf, peaks[k], round, motifLength)
      {
        var p := peaks[i];
        var loc := p.loc;
        if round != 1 && round != 2 && round != 9 && motifLength.Some? {
          var len: int := motifLength.value;
          var posShift := len / 2;
          var negShift := len - 1 - len / 2;
          if p.hit != NO_HIT {
            if p.hit >= 0 {
              loc := p.windowStart + p.hit + posShift;
            } else {
              loc := p.windowStart - p.hit + negShift;
            }
          }
        }
        var hasMotif := !Contains(p.kmer, NO_KMER);
        sites := sites + [Site(tf, p.chrom, loc, p.strength, hasMotif)];
      }
      allSites := allSites + [sites];
    }
    r := Ok(allSites);
  }
}
