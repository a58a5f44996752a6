/**
  The resolution of each band, from its scale factor, the hearing curve and the noise
  level of the frame, and the two lists of bands kept in one array.
 */
module Resolution {
  import opened Common
  import opened Energy

  // ---------- the noise level of a band ----------

  /** (noise << 8) - boundary in wrapping unsigned arithmetic. */
  function PackedNoiseLevel(noise: nat, boundary: nat): nat
  {
    (noise * 256 - boundary) % WORD
  }

  /** The packed level as a signed number, the band added, shifted right arithmetically. */
  function BandLevel(packed: nat, band: nat): int
  {
    (ToInt64(packed) + band) / 256
  }

  /** The wrapped form is the noise level, one lower below the boundary. */
  lemma BandLevelClosed(noise: nat, boundary: nat, band: nat)
    requires noise < 512 && boundary < 128 && band < 128
    ensures BandLevel(PackedNoiseLevel(noise, boundary), band) == if band < boundary then noise - 1 else noise
  {
    var x := noise * 256 - boundary;
    if x < 0 {
      assert x % WORD == x + WORD;
    } else {
      assert x % WORD == x;
    }
  }

  // ---------- the resolution of a band ----------

  /** The invert table, in rows of sixteen. */
  function InvertRow(r: nat): (row: seq<nat>)
    requires r < 5
    ensures |row| == if r == 4 then 2 else 16
  {
    match r
    case 0 => [14, 14, 14, 14, 14, 14, 13, 13, 13, 13, 13, 13, 12, 12, 12, 12]
    case 1 => [12, 12, 11, 11, 11, 11, 11, 11, 10, 10, 10, 10, 10, 10, 10, 9]
    case 2 => [9, 9, 9, 9, 9, 8, 8, 8, 8, 8, 8, 7, 6, 6, 5, 4]
    case 3 => [4, 4, 3, 3, 3, 2, 2, 2, 2, 1, 1, 1, 1, 1, 1, 1]
    case _ => [1, 1]
  }

  lemma InvertRowRange(r: nat, k: nat)
    requires r < 5 && k < |InvertRow(r)|
    ensures 1 <= InvertRow(r)[k] <= 14
  {
  }

  function InvertTable(position: nat): (r: nat)
    requires position <= 65
    ensures 1 <= r <= 14
  {
    InvertRowRange(position / 16, position % 16);
    InvertRow(position / 16)[position % 16]
  }

  /** One frame's parameters of the resolution rule. */
  datatype Rule = Rule(noise: nat, boundary: nat, minResolution: nat, maxResolution: nat)
  {
    predicate WellFormed()
    {
      noise < 512 && boundary < 128 && minResolution <= maxResolution <= 15
    }
  }

  function Clamped(r: nat, lo: nat, hi: nat): nat
  {
    if r > hi then hi else if r < lo then lo else r
  }

  /** The closed form: no packing, no wrapping. A band without scale factor has resolution 0. */
  function ResolutionOf(rule: Rule, scalefactor: nat, ath: nat, band: nat): (r: nat)
    requires rule.WellFormed()
    ensures r <= 15
    ensures 0 < scalefactor ==> rule.minResolution <= r <= rule.maxResolution
  {
    if scalefactor == 0 then 0 else
      var level: int := if band < rule.boundary then rule.noise - 1 else rule.noise;
      var position := ath + level + 1 - 5 * scalefactor / 2;
      var raw := if position < 0 then 15 else if position <= 65 then InvertTable(position) else 0;
      Clamped(raw, rule.minResolution, rule.maxResolution)
  }

  /** The resolutions of the first n bands, zero from there on. */
  function Resolutions(rule: Rule, sf: seq<nat>, ath: seq<nat>, n: nat): (r: seq<nat>)
    requires rule.WellFormed() && |sf| == |ath| == 128 && n <= 128
    ensures |r| == 128 && forall i :: 0 <= i < 128 ==> r[i] <= 15
  {
    seq(128, i requires 0 <= i < 128 => if i < n then ResolutionOf(rule, sf[i], ath[i], i) else 0)
  }

  // ---------- what the rule promises ----------

  /** The last position of the given resolution or a higher one. */
  function LastPosition(r: nat): (p: nat)
    requires 1 <= r <= 14
    ensures p <= 65
  {
    match r
    case 14 => 5
    case 13 => 11
    case 12 => 17
    case 11 => 23
    case 10 => 30
    case 9 => 36
    case 8 => 42
    case 7 => 43
    case 6 => 45
    case 5 => 46
    case 4 => 49
    case 3 => 52
    case 2 => 56
    case _ => 65
  }

  /** The table falls from 14 to 1, and each resolution keeps the positions behind those of the next higher one. */
  lemma InvertPositions(p: nat)
    requires p <= 65
    ensures var r := InvertTable(p); p <= LastPosition(r) && (r < 14 ==> LastPosition(r + 1) < p)
  {
    hide InvertTable;
    InvertCell(p / 16, p % 16);
    InvertAt(p);
  }

  lemma InvertAt(p: nat)
    requires p <= 65
    ensures p % 16 < |InvertRow(p / 16)| && InvertTable(p) == InvertRow(p / 16)[p % 16]
  {
    hide InvertRow;
  }

  lemma InvertCell(i: nat, k: nat)
    requires i < 5 && k < |InvertRow(i)|
    ensures 1 <= InvertRow(i)[k] <= 14
    ensures var r := InvertRow(i)[k]; 16 * i + k <= LastPosition(r) && (r < 14 ==> LastPosition(r + 1) < 16 * i + k)
  {
    InvertRowRange(i, k);
  }

  /** The limits of a resolution decide which positions have it. */
  lemma LastPositionsFall(r: nat, s: nat)
    requires 1 <= r <= s <= 14
    ensures LastPosition(s) <= LastPosition(r)
    ensures r < s ==> LastPosition(s) <= LastPosition(r + 1)
  {
  }

  lemma InvertFalls(p: nat, q: nat)
    requires p <= q <= 65
    ensures InvertTable(q) <= InvertTable(p)
  {
    InvertPositions(p);
    InvertPositions(q);
    hide InvertTable, LastPosition;
    var r, s := InvertTable(p), InvertTable(q);
    if r < s {
      LastPositionsFall(r, s);
    }
  }

  /** The distance of a band from the hearing threshold of its frame. */
  function Distance(rule: Rule, sf: nat, curve: nat, band: nat): int
  {
    curve + rule.noise + (if band < rule.boundary then 0 else 1) - 5 * sf / 2
  }

  function RawResolution(distance: int): nat
  {
    if distance < 0 then 15 else if distance <= 65 then InvertTable(distance) else 0
  }

  lemma RawFalls(d: int, e: int)
    requires d <= e
    ensures RawResolution(e) <= RawResolution(d)
  {
    if 0 <= d && e <= 65 {
      InvertFalls(d, e);
    }
    hide InvertTable;
  }

  /** A higher scale factor never costs resolution, and a higher noise level or hearing threshold never gains any. */
  lemma ResolutionMonotone(lower: Rule, higher: Rule, sf: nat, sf': nat, curve: nat, curve': nat, band: nat)
    requires lower.WellFormed() && higher.WellFormed() && lower.noise <= higher.noise
    requires lower == higher.(noise := lower.noise)
    requires 0 < sf <= sf' && curve' <= curve
    ensures ResolutionOf(higher, sf, curve, band) <= ResolutionOf(lower, sf', curve', band)
  {
    ResolutionIsRaw(higher, sf, curve, band);
    ResolutionIsRaw(lower, sf', curve', band);
    RawFalls(Distance(lower, sf', curve', band), Distance(higher, sf, curve, band));
    hide ResolutionOf, RawResolution;
  }

  lemma ResolutionIsRaw(rule: Rule, sf: nat, curve: nat, band: nat)
    requires rule.WellFormed() && 0 < sf
    ensures ResolutionOf(rule, sf, curve, band)
         == Clamped(RawResolution(Distance(rule, sf, curve, band)), rule.minResolution, rule.maxResolution)
  {
    hide InvertTable;
  }

  /**
    Without limits the resolution is 15 exactly above the threshold, 0 exactly more than 65 below it, and
    in between the one whose positions the distance falls in. A band below the boundary gains one position.
   */
  lemma ResolutionByDistance(rule: Rule, sf: nat, curve: nat, band: nat)
    requires rule.WellFormed() && rule.minResolution == 0 && rule.maxResolution == 15 && 0 < sf
    ensures var r := ResolutionOf(rule, sf, curve, band);
      var level := if band < rule.boundary then rule.noise - 1 else rule.noise;
      var distance := curve + level + 1 - 5 * sf / 2;
      (r == 15 <==> distance < 0) && (r == 0 <==> distance > 65)
      && (1 <= r <= 14 ==> distance <= LastPosition(r) && (r < 14 ==> LastPosition(r + 1) < distance))
  {
    ResolutionIsRaw(rule, sf, curve, band);
    var d := Distance(rule, sf, curve, band);
    if 0 <= d <= 65 {
      InvertPositions(d);
    }
    hide ResolutionOf, InvertTable, LastPosition;
  }

  // ---------- the two lists of bands ----------

  /** Bands below n that have a scale factor but no resolution, in ascending order. */
  function Unresolved(sf: seq<nat>, res: seq<nat>, n: nat): (bands: seq<nat>)
    requires |sf| == |res| == 128 && n <= 128
    ensures |bands| <= n && forall k :: 0 <= k < |bands| ==> bands[k] < n
  {
    if n == 0 then [] else
      Unresolved(sf, res, n - 1) + (if sf[n - 1] > 0 && res[n - 1] < 1 then [n - 1] else [])
  }

  /** Bands below n that have both. */
  function Resolved(sf: seq<nat>, res: seq<nat>, n: nat): (bands: seq<nat>)
    requires |sf| == |res| == 128 && n <= 128
    ensures |bands| <= n && forall k :: 0 <= k < |bands| ==> bands[k] < n
  {
    if n == 0 then [] else
      Resolved(sf, res, n - 1) + (if sf[n - 1] > 0 && res[n - 1] >= 1 then [n - 1] else [])
  }

  predicate Ascending(s: seq<nat>) { forall i, j :: 0 <= i < j < |s| ==> s[i] < s[j] }

  /** A list of bands below n stays ascending when n is appended, and then holds n as well. */
  lemma AppendBand(s: seq<nat>, n: nat)
    requires Ascending(s) && forall k :: 0 <= k < |s| ==> s[k] < n
    ensures Ascending(s + [n]) && forall b :: b in s + [n] <==> b in s || b == n
  {
  }

  lemma {:induction false} UnresolvedList(sf: seq<nat>, res: seq<nat>, n: nat)
    requires |sf| == |res| == 128 && n <= 128
    ensures Ascending(Unresolved(sf, res, n))
    ensures forall b :: b in Unresolved(sf, res, n) <==> 0 <= b < n && sf[b] > 0 && res[b] == 0
  {
    hide Ascending;
    if n == 0 {
      assert Ascending([]) by {
        NoBands();
      }
    } else {
      UnresolvedList(sf, res, n - 1);
      AppendBand(Unresolved(sf, res, n - 1), n - 1);
      assert Unresolved(sf, res, n - 1) + [] == Unresolved(sf, res, n - 1);
    }
  }

  lemma {:induction false} ResolvedList(sf: seq<nat>, res: seq<nat>, n: nat)
    requires |sf| == |res| == 128 && n <= 128
    ensures Ascending(Resolved(sf, res, n))
    ensures forall b :: b in Resolved(sf, res, n) <==> 0 <= b < n && sf[b] > 0 && res[b] > 0
    ensures |Unresolved(sf, res, n)| + |Resolved(sf, res, n)| <= n
  {
    hide Ascending;
    if n == 0 {
      assert Ascending([]) by {
        NoBands();
      }
    } else {
      ResolvedList(sf, res, n - 1);
      AppendBand(Resolved(sf, res, n - 1), n - 1);
      assert Resolved(sf, res, n - 1) + [] == Resolved(sf, res, n - 1);
    }
  }

  lemma NoBands()
    ensures Ascending([])
  {
  }

  /** The lists are ascending, hold exactly the bands they should, share none, and fit side by side. */
  lemma BandLists(sf: seq<nat>, res: seq<nat>, n: nat)
    requires |sf| == |res| == 128 && n <= 128
    ensures Ascending(Unresolved(sf, res, n)) && Ascending(Resolved(sf, res, n))
    ensures forall b :: b in Unresolved(sf, res, n) <==> 0 <= b < n && sf[b] > 0 && res[b] == 0
    ensures forall b :: b in Resolved(sf, res, n) <==> 0 <= b < n && sf[b] > 0 && res[b] > 0
    ensures |Unresolved(sf, res, n)| + |Resolved(sf, res, n)| <= n
  {
    hide Ascending, Unresolved, Resolved;
    UnresolvedList(sf, res, n);
    ResolvedList(sf, res, n);
  }

  /** Both lists in one array: the unresolved bands from the front, the resolved ones from the back. */
  ghost predicate ListsHeld(noises: seq<nat>, sf: seq<nat>, res: seq<nat>, n: nat, noiseCount: nat, validCount: nat)
    requires |noises| == |sf| == |res| == 128 && n <= 128
  {
    noiseCount == |Unresolved(sf, res, n)| && validCount == |Resolved(sf, res, n)|
    && noiseCount + validCount <= n
    && (forall k :: 0 <= k < noiseCount ==> noises[k] == Unresolved(sf, res, n)[k])
    && (forall k :: 128 - validCount <= k < 128 ==> noises[k] == Resolved(sf, res, n)[127 - k])
  }

  lemma ListsHeldStart(noises: seq<nat>, sf: seq<nat>, res: seq<nat>)
    requires |noises| == |sf| == |res| == 128
    ensures ListsHeld(noises, sf, res, 0, 0, 0)
  {
  }

  /** One more band goes to the end of its list, wherever that list grows. */
  lemma ListsStep(before: seq<nat>, after: seq<nat>, sf: seq<nat>, res: seq<nat>, i: nat, u: nat, r: nat)
    requires |before| == |after| == |sf| == |res| == 128 && i < 128 && ListsHeld(before, sf, res, i, u, r)
    requires after == if sf[i] == 0 then before else if res[i] < 1 then before[u := i] else before[127 - r := i]
    ensures ListsHeld(after, sf, res, i + 1, if sf[i] > 0 && res[i] < 1 then u + 1 else u,
                      if sf[i] > 0 && res[i] >= 1 then r + 1 else r)
  {
  }

  // ---------- one pass over the bands ----------

  /** The rule of one band, as the decoder computes it. */
  method NewResolution(rule: Rule, packedNoiseLevel: nat, scalefactor: nat, ath: nat, band: nat) returns (r: nat)
    requires rule.WellFormed() && packedNoiseLevel == PackedNoiseLevel(rule.noise, rule.boundary) && band < 128
    requires 0 < scalefactor
    ensures r == ResolutionOf(rule, scalefactor, ath, band)
  {
    BandLevelClosed(rule.noise, rule.boundary, band);
    var noiseLevel := ath + BandLevel(packedNoiseLevel, band);
    var curvePosition := noiseLevel + 1 - 5 * scalefactor / 2;
    if curvePosition < 0 {
      r := 15;
    } else if curvePosition <= 65 {
      r := InvertTable(curvePosition);
    } else {
      r := 0;
    }
    if r > rule.maxResolution {
      r := rule.maxResolution;
    } else if r < rule.minResolution {
      r := rule.minResolution;
    }
  }

  lemma ZeroScale(rule: Rule, scalefactor: nat, ath: nat, band: nat)
    requires rule.WellFormed()
    ensures scalefactor == 0 ==> ResolutionOf(rule, scalefactor, ath, band) == 0
  {
  }

  /** Resolutions of the coded bands and both band lists. */
  method CalculateResolution(scaleFactors: array<nat>, resolution: array<nat>, noises: array<nat>, athCurve: seq<nat>,
                             codedCount: nat, rule: Rule)
    returns (noiseCount: nat, validCount: nat)
    requires scaleFactors.Length == resolution.Length == noises.Length == |athCurve| == 128 && codedCount <= 128
    requires scaleFactors != resolution && scaleFactors != noises && resolution != noises && rule.WellFormed()
    modifies resolution, noises
    ensures resolution[..] == Resolutions(rule, scaleFactors[..], athCurve, codedCount)
    ensures ListsHeld(noises[..], scaleFactors[..], resolution[..], codedCount, noiseCount, validCount)
  {
    hide ResolutionOf, ListsHeld;
    var packed := PackedNoiseLevel(rule.noise, rule.boundary);
    ghost var sf := scaleFactors[..];
    ghost var res := Resolutions(rule, sf, athCurve, codedCount);
    noiseCount, validCount := 0, 0;
    ListsHeldStart(noises[..], sf, res);
    for i := 0 to codedCount
      invariant forall k :: 0 <= k < i ==> resolution[k] == res[k]
      invariant scaleFactors[..] == sf
      invariant ListsHeld(noises[..], sf, res, i, noiseCount, validCount)
    {
      ghost var before, u, r := noises[..], noiseCount, validCount;
      ListsFit(before, sf, res, i, u, r);
      var newResolution := 0;
      ZeroScale(rule, sf[i], athCurve[i], i);
      if scaleFactors[i] > 0 {
        newResolution := NewResolution(rule, packed, scaleFactors[i], athCurve[i], i);
        if newResolution < 1 {
          noises[noiseCount] := i;
          noiseCount := noiseCount + 1;
        } else {
          noises[127 - validCount] := i;
          validCount := validCount + 1;
        }
      }
      resolution[i] := newResolution;
      ListsStep(before, noises[..], sf, res, i, u, r);
    }
    assert scaleFactors[..] == sf;
    for i := codedCount to 128
      modifies resolution
      invariant forall k :: 0 <= k < i ==> resolution[k] == res[k]
      invariant scaleFactors[..] == sf
      invariant ListsHeld(noises[..], sf, res, codedCount, noiseCount, validCount)
    {
      resolution[i] := 0;
    }
    assert resolution[..] == res;
  }

  lemma ListsFit(noises: seq<nat>, sf: seq<nat>, res: seq<nat>, i: nat, u: nat, r: nat)
    requires |noises| == |sf| == |res| == 128 && i <= 128 && ListsHeld(noises, sf, res, i, u, r)
    ensures u + r <= i
  {
  }

  lemma ListSizes(noises: seq<nat>, sf: seq<nat>, res: seq<nat>, n: nat, noiseCount: nat, validCount: nat)
    requires |noises| == |sf| == |res| == 128 && n <= 128 && ListsHeld(noises, sf, res, n, noiseCount, validCount)
    ensures noiseCount == |Unresolved(sf, res, n)| && validCount == |Resolved(sf, res, n)|
    ensures noiseCount + validCount <= 128
  {
  }

  // ---------- noise substitution ----------

  const RANDOM_MUL := 0x343FD
  const RANDOM_ADD := 0x269EC3

  function NextRandom(r: nat): nat { (RANDOM_MUL * r + RANDOM_ADD) % WORD }

  function RandomAfter(random: nat, k: nat): nat
  {
    if k == 0 then random else NextRandom(RandomAfter(random, k - 1))
  }

  /** The slot of the resolved band that an unresolved one copies. */
  function PickSlot(random: nat, validCount: nat): (slot: nat)
    requires 0 < validCount <= 128
    ensures 128 - validCount <= slot < 128
  {
    PickInRange(random % 0x8000, validCount);
    128 - validCount + random % 0x8000 * validCount / 0x8000
  }

  lemma PickInRange(low: nat, validCount: nat)
    requires low < 0x8000 && 0 < validCount
    ensures 0 <= low * validCount / 0x8000 < validCount
  {
    assert low * validCount <= 0x7FFF * validCount;
  }

  /** The first two numbers of a new decoder. */
  lemma FirstRandom()
    ensures RandomAfter(1, 1) == 2745024 && RandomAfter(1, 2) == 587_473_352_323
  {
    assert RandomAfter(1, 0) == 1;
    assert RandomAfter(1, 1) == NextRandom(1) == 2745024;
    assert RandomAfter(1, 2) == NextRandom(2745024);
  }

  /** The fifteen low bits, as a fraction of 0x8000, of the resolved bands. */
  lemma PickScales(random: nat, validCount: nat, j: nat)
    requires 0 < validCount <= 128
    ensures PickSlot(random, validCount) == 128 - validCount + j
      <==> j * 0x8000 <= random % 0x8000 * validCount < (j + 1) * 0x8000
  {
  }

  /** The band the k-th unresolved one copies. */
  function Picked(noises: seq<nat>, validCount: nat, random: nat, k: nat): nat
    requires |noises| == 128 && 0 < validCount <= 128
  {
    noises[PickSlot(RandomAfter(random, k + 1), validCount)]
  }

  /** The scale conversion table has 128 entries. */
  predicate ScaleIndexInRange(sf: seq<nat>, band: nat, source: nat)
    requires band < |sf| && source < |sf|
  {
    0 <= (sf[band] as int) + 62 - sf[source] < 128
  }

  /** The substituted value of an unresolved band, from the spectrum before any substitution. */
  function Substitute(table: seq<real>, sf: seq<nat>, spectra: seq<real>, band: nat, source: nat): real
    requires |table| == 128 && |sf| == |spectra| == 128 && band < 128 && source < 128
    requires ScaleIndexInRange(sf, band, source)
  {
    Times(table[sf[band] + 62 - sf[source]], spectra[source])
  }

  /**
    Every pick is a resolved band, every target an unresolved one, so no target is ever a
    source, and the scale index lies in the table without clamping.
   */
  lemma PickIsResolved(noises: seq<nat>, sf: seq<nat>, res: seq<nat>, n: nat, noiseCount: nat, validCount: nat,
                       random: nat, k: nat)
    requires |noises| == |sf| == |res| == 128 && n <= 128 && ListsHeld(noises, sf, res, n, noiseCount, validCount)
    requires k < noiseCount && 0 < validCount && forall i :: 0 <= i < 128 ==> sf[i] < 64
    ensures noises[k] < n && sf[noises[k]] > 0 && res[noises[k]] == 0
    ensures var source := Picked(noises, validCount, random, k);
      source < n && sf[source] > 0 && res[source] > 0 && sf[source] <= sf[noises[k]] + 62 && sf[noises[k]] + 62 - sf[source] <= 124
  {
    BandLists(sf, res, n);
    var slot := PickSlot(RandomAfter(random, k + 1), validCount);
    hide PickSlot, Unresolved, Resolved;
    assert noises[k] in Unresolved(sf, res, n);
    assert noises[slot] in Resolved(sf, res, n);
  }

  /** The spectrum after substitution: a simultaneous assignment to all unresolved bands. */
  ghost predicate SubstitutedAtOnce(table: seq<real>, noises: seq<nat>, sf: seq<nat>, before: seq<real>, after: seq<real>,
                                    noiseCount: nat, validCount: nat, random: nat)
    requires |table| == |noises| == |sf| == |before| == |after| == 128 && noiseCount <= 128 && 0 < validCount <= 128
  {
    (forall k :: 0 <= k < noiseCount ==>
       var source := Picked(noises, validCount, random, k);
       noises[k] < 128 && source < 128 && ScaleIndexInRange(sf, noises[k], source)
       && after[noises[k]] == Substitute(table, sf, before, noises[k], source))
    && forall b :: 0 <= b < 128 && b !in noises[..noiseCount] ==> after[b] == before[b]
  }

  /** Whether noise is substituted at all. */
  predicate Substitutes(minResolution: nat, msStereo: nat, primary: bool, noiseCount: nat, validCount: nat)
  {
    minResolution == 0 && validCount > 0 && noiseCount > 0 && (msStereo == 0 || primary)
  }

  lemma RandomStart(random: nat)
    ensures RandomAfter(random, 0) == random
  {
  }

  lemma RandomStep(random: nat, i: nat)
    ensures RandomAfter(random, i + 1) == NextRandom(RandomAfter(random, i))
  {
  }

  lemma NothingSubstituted(table: seq<real>, noises: seq<nat>, sf: seq<nat>, before: seq<real>, validCount: nat, random: nat)
    requires |table| == |noises| == |sf| == |before| == 128 && 0 < validCount <= 128
    ensures SubstitutedAtOnce(table, noises, sf, before, before, 0, validCount, random)
  {
  }

  method ReconstructNoise(table: seq<real>, noises: seq<nat>, sf: seq<nat>, ghost res: seq<nat>, ghost n: nat,
                          noiseCount: nat, validCount: nat, minResolution: nat, msStereo: nat, primary: bool,
                          random: nat, spectra: array<real>)
    returns (r: nat)
    requires |table| == |noises| == |sf| == |res| == spectra.Length == 128 && n <= 128
    requires ListsHeld(noises, sf, res, n, noiseCount, validCount) && forall i :: 0 <= i < 128 ==> sf[i] < 64
    modifies spectra
    ensures !Substitutes(minResolution, msStereo, primary, noiseCount, validCount) ==>
      r == random && spectra[..] == old(spectra[..])
    ensures Substitutes(minResolution, msStereo, primary, noiseCount, validCount) ==>
      r == RandomAfter(random, noiseCount)
      && 0 < validCount <= 128 && noiseCount <= 128
      && SubstitutedAtOnce(table, noises, sf, old(spectra[..]), spectra[..], noiseCount, validCount, random)
  {
    ListsFit(noises, sf, res, n, noiseCount, validCount);
    r := random;
    if minResolution > 0 {
      return;
    }
    if validCount <= 0 || noiseCount <= 0 {
      return;
    }
    if !(msStereo == 0 || primary) {
      return;
    }
    hide *;
    ghost var before := spectra[..];
    NothingSubstituted(table, noises, sf, before, validCount, random);
    RandomStart(random);
    for i := 0 to noiseCount
      invariant r == RandomAfter(random, i)
      invariant SubstitutedAtOnce(table, noises, sf, before, spectra[..], i, validCount, random)
    {
      RandomStep(random, i);
      r := NextRandom(r);
      var randomIndex := PickSlot(r, validCount);
      var noiseIndex, validIndex := noises[i], noises[randomIndex];
      PickIsResolved(noises, sf, res, n, noiseCount, validCount, random, i);
      SourceUntouched(noises, sf, res, n, noiseCount, validCount, random, i);
      var scIndex: int := sf[noiseIndex] + 62 - sf[validIndex];
      if scIndex < 0 {
        scIndex := 0;
      }
      ghost var s := spectra[..];
      spectra[noiseIndex] := Times(table[scIndex], spectra[validIndex]);
      SubstituteOne(table, noises, sf, before, s, spectra[..], i, validCount, random);
    }
  }

  /** No earlier target is the source of a later step, and no band is a target twice. */
  lemma SourceUntouched(noises: seq<nat>, sf: seq<nat>, res: seq<nat>, n: nat, noiseCount: nat, validCount: nat,
                        random: nat, i: nat)
    requires |noises| == |sf| == |res| == 128 && n <= 128 && ListsHeld(noises, sf, res, n, noiseCount, validCount)
    requires i < noiseCount && 0 < validCount && forall k :: 0 <= k < 128 ==> sf[k] < 64
    ensures Picked(noises, validCount, random, i) !in noises[..i] && noises[i] !in noises[..i]
  {
    BandLists(sf, res, n);
    PickIsResolved(noises, sf, res, n, noiseCount, validCount, random, i);
    hide Unresolved, Resolved, Picked;
    forall k | 0 <= k < i
      ensures noises[k] != Picked(noises, validCount, random, i) && noises[k] != noises[i]
    {
      assert noises[k] in Unresolved(sf, res, n);
    }
  }

  lemma SubstituteOne(table: seq<real>, noises: seq<nat>, sf: seq<nat>, before: seq<real>, s: seq<real>, after: seq<real>,
                      i: nat, validCount: nat, random: nat)
    requires |table| == |noises| == |sf| == |before| == |s| == |after| == 128 && i < 128 && 0 < validCount <= 128
    requires SubstitutedAtOnce(table, noises, sf, before, s, i, validCount, random)
    requires noises[i] < 128 && noises[i] !in noises[..i]
    requires Picked(noises, validCount, random, i) < 128 && Picked(noises, validCount, random, i) !in noises[..i]
    requires ScaleIndexInRange(sf, noises[i], Picked(noises, validCount, random, i))
    requires after == s[noises[i] := Substitute(table, sf, s, noises[i], Picked(noises, validCount, random, i))]
    ensures SubstitutedAtOnce(table, noises, sf, before, after, i + 1, validCount, random)
  {
    hide Times, Picked;
    assert noises[..i + 1] == noises[..i] + [noises[i]];
    forall k | 0 <= k < i ensures noises[k] != noises[i] {
      assert noises[k] in noises[..i];
    }
  }

  // ---------- the substituted spectrum as a function ----------

  /** Where a band stands in a list. */
  function SlotIn(bands: seq<nat>, b: nat): (k: nat)
    requires b in bands
    ensures k < |bands| && bands[k] == b
  {
    if bands[0] == b then 0 else 1 + SlotIn(bands[1..], b)
  }

  /** The band that the k-th unresolved one copies. */
  function SourceBand(sources: seq<nat>, random: nat, k: nat): nat
    requires 0 < |sources| <= 128
  {
    sources[127 - PickSlot(RandomAfter(random, k + 1), |sources|)]
  }

  lemma SourceInRange(sf: seq<nat>, res: seq<nat>, n: nat, random: nat, b: nat, k: nat)
    requires |sf| == |res| == 128 && n <= 128 && b in Unresolved(sf, res, n) && 0 < |Resolved(sf, res, n)|
    requires forall i :: 0 <= i < 128 ==> sf[i] < 64
    ensures b < 128 && SourceBand(Resolved(sf, res, n), random, k) < 128
    ensures ScaleIndexInRange(sf, b, SourceBand(Resolved(sf, res, n), random, k))
  {
    BandLists(sf, res, n);
    hide Unresolved, Resolved, PickSlot;
    assert SourceBand(Resolved(sf, res, n), random, k) in Resolved(sf, res, n);
  }

  /** Every unresolved band gets its substitute, all from the spectrum before. */
  function NoiseFilled(table: seq<real>, sf: seq<nat>, res: seq<nat>, n: nat, before: seq<real>, random: nat): (r: seq<real>)
    requires |table| == |sf| == |res| == |before| == 128 && n <= 128 && 0 < |Resolved(sf, res, n)|
    requires forall i :: 0 <= i < 128 ==> sf[i] < 64
    ensures |r| == 128
  {
    var u, sources := Unresolved(sf, res, n), Resolved(sf, res, n);
    seq(128, b requires 0 <= b < 128 =>
      if b in u then
        (SourceInRange(sf, res, n, random, b, SlotIn(u, b));
         Substitute(table, sf, before, b, SourceBand(sources, random, SlotIn(u, b))))
      else before[b])
  }

  /** What the lists in one array give. */
  lemma NoiseIsFilled(table: seq<real>, noises: seq<nat>, sf: seq<nat>, res: seq<nat>, n: nat, before: seq<real>,
                      after: seq<real>, noiseCount: nat, validCount: nat, random: nat)
    requires |table| == |noises| == |sf| == |res| == |before| == |after| == 128 && n <= 128
    requires ListsHeld(noises, sf, res, n, noiseCount, validCount) && 0 < validCount <= 128 && noiseCount <= 128
    requires forall i :: 0 <= i < 128 ==> sf[i] < 64
    requires SubstitutedAtOnce(table, noises, sf, before, after, noiseCount, validCount, random)
    ensures 0 < |Resolved(sf, res, n)| && after == NoiseFilled(table, sf, res, n, before, random)
  {
    var u, sources := Unresolved(sf, res, n), Resolved(sf, res, n);
    hide Unresolved, Resolved, PickSlot, Substitute, ScaleIndexInRange;
    var filled := NoiseFilled(table, sf, res, n, before, random);
    forall b | 0 <= b < 128
      ensures after[b] == filled[b]
    {
      if b in u {
        var k := SlotIn(u, b);
        assert noises[k] == b;
        assert Picked(noises, validCount, random, k) == SourceBand(sources, random, k);
      } else {
        assert b !in noises[..noiseCount];
      }
    }
  }
}
