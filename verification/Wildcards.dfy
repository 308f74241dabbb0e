/** Wildcard matching of file names: the greedy scan against what '*' and '?' mean. */
module Wildcards {
  import opened Bytes

  const STAR: uint16 := 0x2a
  const QUESTION: uint16 := 0x3f
  const ANY_NAME: seq<uint16> := [0x2a, 0x2e, 0x2a]   // "*.*"

  function Fold(unit: uint16): uint16 {
    if 0x41 <= unit <= 0x5a then unit + 0x20 else unit
  }

  predicate UnitsEqual(a: uint16, b: uint16, caseSensitive: bool) {
    if caseSensitive then a == b else Fold(a) == Fold(b)
  }

  // What a pattern means

  /** '*' stands for any units, '?' for any one unit, every other unit for itself. */
  ghost predicate Matches(p: seq<uint16>, n: seq<uint16>, cs: bool)
    decreases |p|
  {
    if p == [] then n == []
    else if p[0] == 0x2a then exists k :: 0 <= k <= |n| && Matches(p[1..], n[k..], cs)
    else n != [] && (p[0] == 0x3f || UnitsEqual(p[0], n[0], cs)) && Matches(p[1..], n[1..], cs)
  }

  /** "*.*" is read as "*". */
  ghost predicate Means(p: seq<uint16>, n: seq<uint16>, cs: bool) {
    Matches(if p == [0x2a, 0x2e, 0x2a] then [0x2a] else p, n, cs)
  }

  lemma StarMatchesAll(n: seq<uint16>, cs: bool)
    ensures Matches([STAR], n, cs)
  {
    assert Matches([STAR][1..], n[|n|..], cs);
  }

  predicate NoStar(s: seq<uint16>) {
    forall k :: 0 <= k < |s| ==> s[k] != STAR
  }

  // The scan

  predicate AllStars(p: seq<uint16>) {
    forall k :: 0 <= k < |p| ==> p[k] == STAR
  }

  /** The latest star, and the name index it was last tried from. */
  datatype Saved = Saved(at: nat, name: nat)

  predicate Placed(p: seq<uint16>, n: seq<uint16>, pi: nat, ni: nat, star: Option<Saved>) {
    && pi <= |p| && ni <= |n|
    && (star.Some? ==> star.value.at < pi && star.value.name <= ni && p[star.value.at] == STAR)
  }

  predicate TakesUnit(p: seq<uint16>, n: seq<uint16>, cs: bool, pi: nat, ni: nat) {
    pi < |p| && ni < |n| && (p[pi] == QUESTION || UnitsEqual(p[pi], n[ni], cs))
  }

  function NameLeft(n: seq<uint16>, star: Option<Saved>): int {
    if star.Some? then |n| - star.value.name else |n| + 1
  }

  function PatternLeft(p: seq<uint16>, star: Option<Saved>): int {
    if star.Some? then |p| - star.value.at else |p| + 1
  }

  function Scan(p: seq<uint16>, n: seq<uint16>, cs: bool, pi: nat, ni: nat, star: Option<Saved>): bool
    requires Placed(p, n, pi, ni, star)
    decreases NameLeft(n, star), PatternLeft(p, star), |n| - ni
  {
    if ni == |n| then AllStars(p[pi..])
    else if TakesUnit(p, n, cs, pi, ni) then Scan(p, n, cs, pi + 1, ni + 1, star)
    else if pi < |p| && p[pi] == STAR then Scan(p, n, cs, pi + 1, ni, Some(Saved(pi, ni)))
    else if star.Some? then
      Scan(p, n, cs, star.value.at + 1, star.value.name + 1, Some(Saved(star.value.at, star.value.name + 1)))
    else false
  }

  function Greedy(p: seq<uint16>, n: seq<uint16>, cs: bool): bool {
    p == ANY_NAME || Scan(p, n, cs, 0, 0, None)
  }

  method WildcardMatches(p: seq<uint16>, n: seq<uint16>, cs: bool) returns (matches: bool)
    ensures matches == Greedy(p, n, cs)
  {
    if p == ANY_NAME {
      return true;
    }
    var pi: nat, ni: nat := 0, 0;
    var star: Option<Saved> := None;
    while ni < |n|
      invariant Placed(p, n, pi, ni, star)
      invariant Scan(p, n, cs, pi, ni, star) == Scan(p, n, cs, 0, 0, None)
      decreases NameLeft(n, star), PatternLeft(p, star), |n| - ni
    {
      if pi < |p| && (p[pi] == QUESTION || UnitsEqual(p[pi], n[ni], cs)) {
        pi, ni := pi + 1, ni + 1;
      } else if pi < |p| && p[pi] == STAR {
        star := Some(Saved(pi, ni));
        pi := pi + 1;
      } else if star.Some? {
        pi, ni := star.value.at + 1, star.value.name + 1;
        star := Some(Saved(star.value.at, ni));
      } else {
        return false;
      }
    }
    ghost var rest := p[pi..];
    while pi < |p| && p[pi] == STAR
      invariant pi <= |p|
      invariant AllStars(p[pi..]) == AllStars(rest)
    {
      assert p[pi..] == [STAR] + p[pi + 1..];
      pi := pi + 1;
    }
    matches := pi == |p|;
    assert !matches ==> p[pi..][0] != STAR;
  }

  // Facts about meaning

  lemma StarTakes(p: seq<uint16>, n: seq<uint16>, cs: bool, pi: nat, ni: nat, m: nat)
    requires pi < |p| && p[pi] == STAR && ni <= m <= |n| && Matches(p[pi + 1..], n[m..], cs)
    ensures Matches(p[pi..], n[ni..], cs)
  {
    assert p[pi..][1..] == p[pi + 1..] && n[ni..][m - ni..] == n[m..];
  }

  lemma StarTook(p: seq<uint16>, n: seq<uint16>, cs: bool, pi: nat, ni: nat) returns (m: nat)
    requires pi < |p| && p[pi] == STAR && ni <= |n| && Matches(p[pi..], n[ni..], cs)
    ensures ni <= m <= |n| && Matches(p[pi + 1..], n[m..], cs)
  {
    var k :| 0 <= k <= |n[ni..]| && Matches(p[pi..][1..], n[ni..][k..], cs);
    m := ni + k;
    assert p[pi..][1..] == p[pi + 1..] && n[ni..][k..] == n[m..];
  }

  lemma UnitTakes(p: seq<uint16>, n: seq<uint16>, cs: bool, pi: nat, ni: nat)
    requires pi < |p| && ni <= |n| && p[pi] != STAR
    ensures Matches(p[pi..], n[ni..], cs) <==> TakesUnit(p, n, cs, pi, ni) && Matches(p[pi + 1..], n[ni + 1..], cs)
  {
    assert p[pi..][1..] == p[pi + 1..];
    if ni < |n| {
      assert n[ni..][1..] == n[ni + 1..];
    }
  }

  lemma {:induction false} StarsMatchNothing(p: seq<uint16>, cs: bool)
    ensures Matches(p, [], cs) <==> AllStars(p)
    decreases |p|
  {
    if p != [] && p[0] == STAR {
      var nothing: seq<uint16> := [];
      StarsMatchNothing(p[1..], cs);
      assert nothing[0..] == nothing;
      assert AllStars(p) <==> AllStars(p[1..]) by {
        assert p == [STAR] + p[1..];
      }
      if AllStars(p[1..]) {
        assert Matches(p[1..], nothing[0..], cs);
      }
    }
  }

  // A true answer is right for every name

  lemma {:induction false} ScanIsSound(p: seq<uint16>, n: seq<uint16>, cs: bool, pi: nat, ni: nat, star: Option<Saved>)
    requires Placed(p, n, pi, ni, star) && Scan(p, n, cs, pi, ni, star)
    ensures Matches(p[pi..], n[ni..], cs) || (star.Some? && Matches(p[star.value.at..], n[star.value.name..], cs))
    decreases NameLeft(n, star), PatternLeft(p, star), |n| - ni
  {
    hide Matches, UnitsEqual;
    if ni == |n| {
      StarsMatchNothing(p[pi..], cs);
      assert n[ni..] == [];
    } else if TakesUnit(p, n, cs, pi, ni) {
      ScanIsSound(p, n, cs, pi + 1, ni + 1, star);
      if Matches(p[pi + 1..], n[ni + 1..], cs) {
        if p[pi] == STAR {
          StarTakes(p, n, cs, pi, ni, ni + 1);
        } else {
          UnitTakes(p, n, cs, pi, ni);
        }
      }
    } else if pi < |p| && p[pi] == STAR {
      ScanIsSound(p, n, cs, pi + 1, ni, Some(Saved(pi, ni)));
      if Matches(p[pi + 1..], n[ni..], cs) {
        StarTakes(p, n, cs, pi, ni, ni);
      }
    } else {
      var at, name := star.value.at, star.value.name;
      ScanIsSound(p, n, cs, at + 1, name + 1, Some(Saved(at, name + 1)));
      if Matches(p[at + 1..], n[name + 1..], cs) {
        StarTakes(p, n, cs, at, name, name + 1);
      } else {
        var m := StarTook(p, n, cs, at, name + 1);
        StarTakes(p, n, cs, at, name, m);
      }
    }
  }

  lemma GreedyIsSound(p: seq<uint16>, n: seq<uint16>, cs: bool)
    requires Greedy(p, n, cs)
    ensures Means(p, n, cs)
  {
    if p == ANY_NAME {
      StarMatchesAll(n, cs);
    } else {
      ScanIsSound(p, n, cs, 0, 0, None);
      assert p[0..] == p && n[0..] == n;
    }
  }

  // For a name without '*' a false answer is right too

  /** A star-free stretch of the pattern takes as many units as it has. */
  lemma {:induction false} StretchTakes(p: seq<uint16>, n: seq<uint16>, cs: bool, a: nat, b: nat, m: nat)
    requires a <= b <= |p| && m <= |n| && NoStar(p[a..b]) && Matches(p[a..], n[m..], cs)
    ensures m + (b - a) <= |n| && Matches(p[b..], n[m + (b - a)..], cs)
    decreases b - a
  {
    if a < b {
      assert p[a..b][0] == p[a];
      UnitTakes(p, n, cs, a, m);
      assert NoStar(p[a + 1..b]) by {
        assert p[a..b] == [p[a]] + p[a + 1..b];
      }
      StretchTakes(p, n, cs, a + 1, b, m + 1);
    }
  }

  /** Since the latest star the scan has taken unit for unit. */
  predicate Straight(p: seq<uint16>, pi: nat, ni: nat, star: Option<Saved>) {
    star.Some? ==>
      && star.value.at < pi <= |p| && pi - (star.value.at + 1) == ni - star.value.name
      && NoStar(p[star.value.at + 1..pi])
  }

  lemma {:induction false} ScanIsComplete(p: seq<uint16>, n: seq<uint16>, cs: bool, pi: nat, ni: nat, star: Option<Saved>)
    requires NoStar(n) && Placed(p, n, pi, ni, star) && Straight(p, pi, ni, star)
    requires Matches(p[pi..], n[ni..], cs) || (star.Some? && star.value.name < |n| && Matches(p[star.value.at..], n[star.value.name + 1..], cs))
    ensures Scan(p, n, cs, pi, ni, star)
    decreases NameLeft(n, star), PatternLeft(p, star), |n| - ni
  {
    hide Matches, UnitsEqual, TakesUnit;
    if ni == |n| {
      EndIsComplete(p, n, cs, pi, star);
    } else if TakesUnit(p, n, cs, pi, ni) {
      UnitIsComplete(p, n, cs, pi, ni, star);
      ScanIsComplete(p, n, cs, pi + 1, ni + 1, star);
    } else if pi < |p| && p[pi] == STAR {
      LatestStarSuffices(p, n, cs, pi, ni, star);
      StarLeaves(p, n, cs, pi, ni);
      ScanIsComplete(p, n, cs, pi + 1, ni, Some(Saved(pi, ni)));
    } else {
      NothingTaken(p, n, cs, pi, ni);
      StarLeaves(p, n, cs, star.value.at, star.value.name + 1);
      ScanIsComplete(p, n, cs, star.value.at + 1, star.value.name + 1, Some(Saved(star.value.at, star.value.name + 1)));
    }
  }

  /** A star takes nothing here, or at least one unit. */
  lemma StarLeaves(p: seq<uint16>, n: seq<uint16>, cs: bool, pi: nat, ni: nat)
    requires pi < |p| && p[pi] == STAR && ni <= |n| && Matches(p[pi..], n[ni..], cs)
    ensures Matches(p[pi + 1..], n[ni..], cs) || (ni < |n| && Matches(p[pi..], n[ni + 1..], cs))
  {
    hide Matches;
    var m := StarTook(p, n, cs, pi, ni);
    if m > ni {
      StarTakes(p, n, cs, pi, ni + 1, m);
    }
  }

  lemma EndIsComplete(p: seq<uint16>, n: seq<uint16>, cs: bool, pi: nat, star: Option<Saved>)
    requires Placed(p, n, pi, |n|, star) && Straight(p, pi, |n|, star)
    requires Matches(p[pi..], n[|n|..], cs) || (star.Some? && star.value.name < |n| && Matches(p[star.value.at..], n[star.value.name + 1..], cs))
    ensures AllStars(p[pi..])
  {
    hide Matches;
    if !Matches(p[pi..], n[|n|..], cs) {
      var m := StarTook(p, n, cs, star.value.at, star.value.name + 1);
      StretchTakes(p, n, cs, star.value.at + 1, pi, m);
    }
    assert n[|n|..] == [];
    StarsMatchNothing(p[pi..], cs);
  }

  lemma UnitIsComplete(p: seq<uint16>, n: seq<uint16>, cs: bool, pi: nat, ni: nat, star: Option<Saved>)
    requires NoStar(n) && Straight(p, pi, ni, star) && TakesUnit(p, n, cs, pi, ni)
    ensures pi < |p| && ni < |n| && p[pi] != STAR && Straight(p, pi + 1, ni + 1, star)
    ensures Matches(p[pi..], n[ni..], cs) ==> Matches(p[pi + 1..], n[ni + 1..], cs)
  {
    hide Matches;
    UnitTakes(p, n, cs, pi, ni);
    if star.Some? {
      assert p[star.value.at + 1..pi + 1] == p[star.value.at + 1..pi] + [p[pi]];
    }
  }

  lemma NothingTaken(p: seq<uint16>, n: seq<uint16>, cs: bool, pi: nat, ni: nat)
    requires pi <= |p| && ni < |n| && !TakesUnit(p, n, cs, pi, ni) && (pi < |p| ==> p[pi] != STAR)
    ensures !Matches(p[pi..], n[ni..], cs)
  {
    if pi < |p| {
      UnitTakes(p, n, cs, pi, ni);
    }
  }

  /** What an earlier star could still take, a later one reached first can take as well. */
  lemma LatestStarSuffices(p: seq<uint16>, n: seq<uint16>, cs: bool, pi: nat, ni: nat, star: Option<Saved>)
    requires Placed(p, n, pi, ni, star) && Straight(p, pi, ni, star) && pi < |p| && p[pi] == STAR
    requires Matches(p[pi..], n[ni..], cs) || (star.Some? && star.value.name < |n| && Matches(p[star.value.at..], n[star.value.name + 1..], cs))
    ensures Matches(p[pi..], n[ni..], cs)
  {
    if !Matches(p[pi..], n[ni..], cs) {
      var at := star.value.at;
      var m := StarTook(p, n, cs, at, star.value.name + 1);
      StretchTakes(p, n, cs, at + 1, pi, m);
      var l := StarTook(p, n, cs, pi, m + (pi - (at + 1)));
      StarTakes(p, n, cs, pi, ni, l);
    }
  }

  lemma GreedyIsComplete(p: seq<uint16>, n: seq<uint16>, cs: bool)
    requires NoStar(n) && Means(p, n, cs)
    ensures Greedy(p, n, cs)
  {
    if p != ANY_NAME {
      assert p[0..] == p && n[0..] == n;
      ScanIsComplete(p, n, cs, 0, 0, None);
    }
  }

  // A name with '*' is misjudged by some pattern

  function Questions(k: nat): (q: seq<uint16>)
    ensures |q| == k
  {
    seq(k, _ => QUESTION)
  }

  /** A question mark for every unit before the star, a star, and one question mark more than there are units after it. */
  function Misleading(n: seq<uint16>, k: nat): seq<uint16>
    requires k < |n|
  {
    Questions(k) + [STAR] + Questions(|n| - k)
  }

  lemma {:induction false} QuestionsMatch(n: seq<uint16>, cs: bool)
    ensures Matches(Questions(|n|), n, cs)
  {
    if n != [] {
      assert Questions(|n|)[1..] == Questions(|n| - 1);
      QuestionsMatch(n[1..], cs);
    }
  }

  lemma {:induction false} MisleadingMatches(n: seq<uint16>, k: nat, cs: bool, i: nat)
    requires i <= k < |n|
    ensures Matches(Misleading(n, k)[i..], n[i..], cs)
    decreases k - i
  {
    var p := Misleading(n, k);
    if i == k {
      QuestionsMatch(n[k..], cs);
      assert p[k + 1..] == Questions(|n[k..]|);
      StarTakes(p, n, cs, k, k, k);
    } else {
      MisleadingMatches(n, k, cs, i + 1);
      UnitTakes(p, n, cs, i, i);
    }
  }

  /** The scan takes the name's star for the pattern's, and runs out of name one question mark early. */
  lemma {:induction false} MisleadingScan(n: seq<uint16>, k: nat, cs: bool, i: nat)
    requires k < |n| && n[k] == STAR && i <= |n|
    ensures Placed(Misleading(n, k), n, i, i, None) && !Scan(Misleading(n, k), n, cs, i, i, None)
    decreases |n| - i
  {
    var p := Misleading(n, k);
    if i == |n| {
      assert p[i..][0] == QUESTION;
    } else {
      assert TakesUnit(p, n, cs, i, i);
      MisleadingScan(n, k, cs, i + 1);
    }
  }

  /** The scan gives every pattern its meaning exactly for the names without '*'. */
  lemma GreedyIsExactIffNoStar(n: seq<uint16>, cs: bool)
    ensures (forall p: seq<uint16> :: Greedy(p, n, cs) <==> Means(p, n, cs)) <==> NoStar(n)
  {
    if NoStar(n) {
      forall p: seq<uint16>
        ensures Greedy(p, n, cs) <==> Means(p, n, cs)
      {
        if Greedy(p, n, cs) {
          GreedyIsSound(p, n, cs);
        } else if Means(p, n, cs) {
          GreedyIsComplete(p, n, cs);
        }
      }
    } else {
      var k :| 0 <= k < |n| && n[k] == STAR;
      var p := Misleading(n, k);
      MisleadingScan(n, k, cs, 0);
      MisleadingMatches(n, k, cs, 0);
      assert p[0..] == p && n[0..] == n;
      assert |p| == |n| + 1 && p[if k == 1 then 0 else 1] != 0x2e;
      assert !Greedy(p, n, cs) && Means(p, n, cs);
    }
  }

  // What it is for two units to be equal

  /** Upper and lower case of one ASCII letter. */
  predicate Cases(upper: uint16, lower: uint16) {
    0x41 <= upper <= 0x5a && lower == upper + 0x20
  }

  /** Without regard to case, units are equal when they are one unit or the two cases of an ASCII letter; else only when they are one unit. */
  lemma EqualMeans(a: uint16, b: uint16, cs: bool)
    ensures UnitsEqual(a, b, cs) <==> a == b || (!cs && (Cases(a, b) || Cases(b, a)))
  {
  }
}
