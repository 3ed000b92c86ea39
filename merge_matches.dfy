/**
 * `merge_matches`: each streamed.su entry, in order, takes the unused
 * sportsonline entry whose similarity is largest (the first such when
 * several tie) if that similarity reaches 0.9; a merged entry keeps the
 * streamed entry's fields and the de-duplicated, shuffled links of both.
 * The sportsonline entries never taken follow, in order.
 *
 * The similarity of two matches (`calculate_team_similarity`, built on
 * difflib) is an oracle, called with the streamed and the sportsonline
 * home names and then the two away names.
 */
module MatchMerge {
  import opened Sequences
  import opened MatchData

  /** `calculate_team_similarity(team1_a, team1_b, team2_a, team2_b)`. */
  type Similarity = (string, string, string, string) -> real

  /** `SIMILARITY_THRESHOLD`. */
  const Threshold: real := 0.9

  function SimilarityOf(s: Match, o: Match, similarity: Similarity): real {
    similarity(s.team1.name, o.team1.name, s.team2.name, o.team2.name)
  }

  /** `best_index, best_similarity` after the candidates `others[..n]`: an
      unused candidate replaces the best so far only when its similarity is
      strictly larger; the search starts from index -1 and similarity 0. */
  function ScanBest(s: Match, others: seq<Match>, used: set<int>, similarity: Similarity, n: nat): (r: (int, real))
    requires n <= |others|
    ensures r.0 == -1 || (0 <= r.0 < n && r.0 !in used && r.1 == SimilarityOf(s, others[r.0], similarity))
    ensures r.0 == -1 ==> r.1 == 0.0
  {
    if n == 0 then (-1, 0.0)
    else
      var prev := ScanBest(s, others, used, similarity, n - 1);
      if n - 1 in used then prev
      else if SimilarityOf(s, others[n - 1], similarity) > prev.1 then (n - 1, SimilarityOf(s, others[n - 1], similarity))
      else prev
  }

  /** The scan finds the first unused candidate of largest similarity when
      some unused candidate scores above 0, and -1 otherwise. */
  lemma {:induction false} ScanBestIsFirstMaximum(s: Match, others: seq<Match>, used: set<int>, similarity: Similarity, n: nat)
    requires n <= |others|
    ensures var r := ScanBest(s, others, used, similarity, n);
      && (r.0 == -1 <==> forall j :: 0 <= j < n && j !in used ==> SimilarityOf(s, others[j], similarity) <= 0.0)
      && (r.0 != -1 ==>
        && r.1 > 0.0
        && (forall j :: 0 <= j < n && j !in used ==> SimilarityOf(s, others[j], similarity) <= r.1)
        && (forall j :: 0 <= j < r.0 && j !in used ==> SimilarityOf(s, others[j], similarity) < r.1))
  {
    if n > 0 {
      ScanBestIsFirstMaximum(s, others, used, similarity, n - 1);
    }
  }

  ghost predicate IsOneToOne(taken: seq<int>) {
    forall i, j :: 0 <= i < j < |taken| && taken[i] >= 0 ==> taken[i] != taken[j]
  }

  /** The sportsonline indices taken so far. */
  function UsedOf(taken: seq<int>): (used: set<int>)
    ensures forall i :: i in used <==> i in taken && i >= 0
  {
    set i | i in taken && i >= 0
  }

  /** For each streamed entry in turn, the sportsonline index it is merged
      with, or -1. */
  function Pairing(streamed: seq<Match>, others: seq<Match>, similarity: Similarity): (taken: seq<int>)
    ensures |taken| == |streamed|
    ensures forall i :: 0 <= i < |taken| ==> -1 <= taken[i] < |others|
  {
    if streamed == [] then []
    else
      var prev := Pairing(streamed[..|streamed| - 1], others, similarity);
      var best := ScanBest(streamed[|streamed| - 1], others, UsedOf(prev), similarity, |others|);
      prev + [if best.1 >= Threshold then best.0 else -1]
  }

  lemma PairingSnoc(streamed: seq<Match>, x: Match, others: seq<Match>, similarity: Similarity)
    ensures var prev := Pairing(streamed, others, similarity);
      var best := ScanBest(x, others, UsedOf(prev), similarity, |others|);
      Pairing(streamed + [x], others, similarity) == prev + [if best.1 >= Threshold then best.0 else -1]
  {
    assert (streamed + [x])[..|streamed|] == streamed;
  }

  lemma {:induction false} PairingPrefix(streamed: seq<Match>, others: seq<Match>, similarity: Similarity, n: nat)
    requires n <= |streamed|
    ensures Pairing(streamed[..n], others, similarity) == Pairing(streamed, others, similarity)[..n]
    decreases |streamed|
  {
    if n < |streamed| {
      var init := streamed[..|streamed| - 1];
      PairingPrefix(init, others, similarity, n);
      assert init[..n] == streamed[..n];
    } else {
      assert streamed[..n] == streamed;
    }
  }

  /** Entry `i` is merged exactly when the first strictly largest similarity
      among the sportsonline entries not yet taken reaches the threshold,
      and then with that entry. */
  lemma PairingStep(streamed: seq<Match>, others: seq<Match>, similarity: Similarity, i: nat)
    requires i < |streamed|
    ensures var taken := Pairing(streamed, others, similarity);
      var best := ScanBest(streamed[i], others, UsedOf(taken[..i]), similarity, |others|);
      && (taken[i] >= 0 <==> best.1 >= Threshold)
      && (taken[i] >= 0 ==> taken[i] == best.0 && taken[i] !in taken[..i])
  {
    PairingPrefix(streamed, others, similarity, i + 1);
    PairingPrefix(streamed, others, similarity, i);
    assert streamed[..i + 1][..i] == streamed[..i];
    assert streamed[..i + 1][i] == streamed[i];
    var taken := Pairing(streamed, others, similarity);
    assert taken[..i + 1][..i] == taken[..i];
  }

  /** No sportsonline entry is taken twice. */
  lemma PairingIsOneToOne(streamed: seq<Match>, others: seq<Match>, similarity: Similarity)
    ensures IsOneToOne(Pairing(streamed, others, similarity))
  {
    var taken := Pairing(streamed, others, similarity);
    forall i, j | 0 <= i < j < |taken| && taken[i] >= 0
      ensures taken[i] != taken[j]
    {
      PairingStep(streamed, others, similarity, j);
      assert taken[i] == taken[..j][i];
    }
  }

  /** A merged entry: the streamed fields, and the links of both without
      repeats, shuffled. */
  function MergedEntry(s: Match, o: Match, shuffle: Shuffle): Match {
    Match(s.title, s.team1, s.team2, s.time, s.date, shuffle(Dedup(s.links + o.links)))
  }

  /** A streamed entry merged with sportsonline entry `t`, or unchanged
      when `t` is -1. */
  function PairEntry(s: Match, t: int, others: seq<Match>, shuffle: Shuffle): Match {
    if 0 <= t < |others| then MergedEntry(s, others[t], shuffle) else s
  }

  /** The streamed entries, each paired with its entry of `taken`. */
  function PairedOf(streamed: seq<Match>, taken: seq<int>, others: seq<Match>, shuffle: Shuffle): (r: seq<Match>)
    requires |taken| == |streamed|
    ensures |r| == |streamed|
  {
    if streamed == [] then []
    else
      var k := |streamed| - 1;
      PairedOf(streamed[..k], taken[..k], others, shuffle) + [PairEntry(streamed[k], taken[k], others, shuffle)]
  }

  lemma {:induction false} PairedOfAt(streamed: seq<Match>, taken: seq<int>, others: seq<Match>, shuffle: Shuffle, i: nat)
    requires |taken| == |streamed| && i < |streamed|
    ensures PairedOf(streamed, taken, others, shuffle)[i] == PairEntry(streamed[i], taken[i], others, shuffle)
  {
    var k := |streamed| - 1;
    if i < k {
      PairedOfAt(streamed[..k], taken[..k], others, shuffle, i);
    }
  }

  /** The first loop's output for the streamed entries `streamed`. */
  function PairedEntries(streamed: seq<Match>, others: seq<Match>, similarity: Similarity, shuffle: Shuffle): seq<Match> {
    PairedOf(streamed, Pairing(streamed, others, similarity), others, shuffle)
  }

  /** The entries of `others` whose index is not in `used`, in order. */
  function Unpaired(others: seq<Match>, used: set<int>): seq<Match> {
    if others == [] then []
    else Unpaired(others[..|others| - 1], used) + (if |others| - 1 in used then [] else [others[|others| - 1]])
  }

  /** The result of `merge_matches`. */
  function MergedMatches(streamed: seq<Match>, others: seq<Match>, similarity: Similarity, shuffle: Shuffle): seq<Match> {
    PairedEntries(streamed, others, similarity, shuffle) + Unpaired(others, UsedOf(Pairing(streamed, others, similarity)))
  }

  /** The best-so-far search over the sportsonline entries. */
  method FindBest(s: Match, others: seq<Match>, used: set<int>, similarity: Similarity) returns (bestIndex: int, bestSimilarity: real)
    ensures (bestIndex, bestSimilarity) == ScanBest(s, others, used, similarity, |others|)
  {
    bestIndex, bestSimilarity := -1, 0.0;
    for i := 0 to |others|
      invariant (bestIndex, bestSimilarity) == ScanBest(s, others, used, similarity, i)
    {
      if i in used {
        continue;
      }
      var sim := similarity(s.team1.name, others[i].team1.name, s.team2.name, others[i].team2.name);
      if sim > bestSimilarity {
        bestIndex, bestSimilarity := i, sim;
      }
    }
  }

  /** One turn of the first loop of `merge_matches`, given the search
      result: the index it takes. */
  lemma MergeLoopTakes(prefix: seq<Match>, x: Match, others: seq<Match>, similarity: Similarity,
                       bestIndex: int, bestSimilarity: real)
    requires (bestIndex, bestSimilarity) == ScanBest(x, others, UsedOf(Pairing(prefix, others, similarity)), similarity, |others|)
    ensures bestSimilarity >= Threshold ==> 0 <= bestIndex < |others|
    ensures Pairing(prefix + [x], others, similarity) ==
      Pairing(prefix, others, similarity) + [if bestSimilarity >= Threshold then bestIndex else -1]
    ensures UsedOf(Pairing(prefix + [x], others, similarity)) ==
      UsedOf(Pairing(prefix, others, similarity)) + (if bestSimilarity >= Threshold then {bestIndex} else {})
  {
    PairingSnoc(prefix, x, others, similarity);
    UsedOfAppend(Pairing(prefix, others, similarity), if bestSimilarity >= Threshold then bestIndex else -1);
  }

  /** Appending an index adds it to the set of those taken; -1 adds nothing. */
  lemma UsedOfAppend(taken: seq<int>, t: int)
    ensures UsedOf(taken + [t]) == UsedOf(taken) + (if t >= 0 then {t} else {})
  {
    forall i
      ensures i in taken + [t] <==> i in taken || i == t
    {
    }
  }

  /** One turn of the first loop of `merge_matches`: the entry it appends. */
  lemma MergeLoopAppends(prefix: seq<Match>, x: Match, others: seq<Match>, similarity: Similarity, shuffle: Shuffle, t: int)
    requires -1 <= t < |others|
    requires Pairing(prefix + [x], others, similarity) == Pairing(prefix, others, similarity) + [t]
    ensures PairedEntries(prefix + [x], others, similarity, shuffle) ==
      PairedEntries(prefix, others, similarity, shuffle) + [if t >= 0 then MergedEntry(x, others[t], shuffle) else x]
  {
    var taken := Pairing(prefix, others, similarity) + [t];
    assert (prefix + [x])[..|prefix|] == prefix;
    assert taken[..|prefix|] == Pairing(prefix, others, similarity);
  }

  /** The second loop of `merge_matches`: the sportsonline entries not
      taken, appended in order. */
  method AppendUnpaired(merged: seq<Match>, others: seq<Match>, used: set<int>) returns (result: seq<Match>)
    ensures result == merged + Unpaired(others, used)
  {
    result := merged;
    for i := 0 to |others|
      invariant result == merged + Unpaired(others[..i], used)
    {
      assert others[..i + 1][..i] == others[..i];
      if i !in used {
        result := result + [others[i]];
      }
    }
    assert others[..|others|] == others;
  }

  /** One iteration of the first loop of merge_matches: pairs `s`, which follows `prefix`. */
  method PairNext(prefix: seq<Match>, s: Match, others: seq<Match>, similarity: Similarity, shuffle: Shuffle,
                  merged: seq<Match>, used: set<int>)
    returns (merged': seq<Match>, used': set<int>)
    requires merged == PairedEntries(prefix, others, similarity, shuffle)
    requires used == UsedOf(Pairing(prefix, others, similarity))
    ensures merged' == PairedEntries(prefix + [s], others, similarity, shuffle)
    ensures used' == UsedOf(Pairing(prefix + [s], others, similarity))
  {
    var bestIndex, bestSimilarity := FindBest(s, others, used, similarity);
    MergeLoopTakes(prefix, s, others, similarity, bestIndex, bestSimilarity);
    MergeLoopAppends(prefix, s, others, similarity, shuffle, if bestSimilarity >= Threshold then bestIndex else -1);
    if bestSimilarity >= Threshold {
      var uniqueLinks := Dedup(s.links + others[bestIndex].links);
      merged' := merged + [Match(s.title, s.team1, s.team2, s.time, s.date, shuffle(uniqueLinks))];
      used' := used + {bestIndex};
    } else {
      merged' := merged + [s];
      used' := used;
    }
  }

  /** The first loop of merge_matches: pairs every streamed match in order. */
  method PairStreamed(streamed: seq<Match>, others: seq<Match>, similarity: Similarity, shuffle: Shuffle)
    returns (merged: seq<Match>, used: set<int>)
    ensures merged == PairedEntries(streamed, others, similarity, shuffle)
    ensures used == UsedOf(Pairing(streamed, others, similarity))
  {
    merged := [];
    used := {};
    ghost var done: seq<Match> := [];
    for n := 0 to |streamed|
      invariant done == streamed[..n]
      invariant merged == PairedEntries(done, others, similarity, shuffle)
      invariant used == UsedOf(Pairing(done, others, similarity))
    {
      merged, used := PairNext(streamed[..n], streamed[n], others, similarity, shuffle, merged, used);
      done := done + [streamed[n]];
    }
    assert done == streamed;
  }

  /** `merge_matches`. */
  method MergeMatches(streamed: seq<Match>, others: seq<Match>, similarity: Similarity, shuffle: Shuffle)
    returns (merged: seq<Match>)
    ensures merged == MergedMatches(streamed, others, similarity, shuffle)
  {
    var paired, used := PairStreamed(streamed, others, similarity, shuffle);
    merged := AppendUnpaired(paired, others, used);
  }

  ghost function UsedBelow(used: set<int>, n: int): set<int> {
    set i | i in used && 0 <= i < n
  }

  lemma {:induction false} UnpairedLength(others: seq<Match>, used: set<int>)
    ensures |Unpaired(others, used)| == |others| - |UsedBelow(used, |others|)|
  {
    if others != [] {
      var k := |others| - 1;
      UnpairedLength(others[..k], used);
      if k in used {
        assert UsedBelow(used, |others|) == UsedBelow(used, k) + {k};
      } else {
        assert UsedBelow(used, |others|) == UsedBelow(used, k);
      }
    }
  }

  /** The indices taken, as many as the merged entries. */
  function MergedCount(taken: seq<int>): nat {
    if taken == [] then 0
    else MergedCount(taken[..|taken| - 1]) + (if taken[|taken| - 1] >= 0 then 1 else 0)
  }

  lemma {:induction false} UsedOfCount(taken: seq<int>)
    requires IsOneToOne(taken)
    ensures |UsedOf(taken)| == MergedCount(taken)
  {
    if taken != [] {
      var init := taken[..|taken| - 1];
      assert IsOneToOne(init);
      UsedOfCount(init);
      UsedOfLast(taken);
    }
  }

  /** The last index taken adds one new element to the set, if any. */
  lemma UsedOfLast(taken: seq<int>)
    requires taken != [] && IsOneToOne(taken)
    ensures var init, last := taken[..|taken| - 1], taken[|taken| - 1];
      && (last >= 0 ==> last !in UsedOf(init) && UsedOf(taken) == UsedOf(init) + {last})
      && (last < 0 ==> UsedOf(taken) == UsedOf(init))
  {
    var init, last := taken[..|taken| - 1], taken[|taken| - 1];
    forall j | 0 <= j < |init| && init[j] >= 0
      ensures init[j] != last
    {
      assert taken[j] == init[j];
    }
    forall x
      ensures x in taken <==> x in init || x == last
    {
      if x in taken {
        var j :| 0 <= j < |taken| && taken[j] == x;
        if j < |init| {
          assert init[j] == x;
        }
      }
      if x in init {
        var j :| 0 <= j < |init| && init[j] == x;
        assert taken[j] == x;
      }
    }
  }

  /** The output holds every streamed entry, once, and every sportsonline
      entry that was not merged: `len(streamed) + len(sportsonline)` minus
      the number of merges. */
  lemma MergedMatchesLength(streamed: seq<Match>, others: seq<Match>, similarity: Similarity, shuffle: Shuffle)
    ensures |MergedMatches(streamed, others, similarity, shuffle)| ==
      |streamed| + |others| - MergedCount(Pairing(streamed, others, similarity))
  {
    var taken := Pairing(streamed, others, similarity);
    var used := UsedOf(taken);
    PairingIsOneToOne(streamed, others, similarity);
    UsedOfCount(taken);
    UnpairedLength(others, used);
    assert UsedBelow(used, |others|) == used;
  }

  /** A merged entry keeps the streamed title, teams, time and date; its
      links are a reordering of the links of both entries without repeats. */
  lemma MergedEntryFields(s: Match, o: Match, shuffle: Shuffle)
    requires IsShuffle(shuffle)
    ensures var m := MergedEntry(s, o, shuffle);
      && m.title == s.title && m.team1 == s.team1 && m.team2 == s.team2 && m.time == s.time && m.date == s.date
      && multiset(m.links) == multiset(Dedup(s.links + o.links))
  {
    ShuffleKeepsElements(shuffle, Dedup(s.links + o.links));
  }

  /** The merged links hold every link of either entry exactly once. */
  lemma MergedEntryLinks(s: Match, o: Match, shuffle: Shuffle)
    requires IsShuffle(shuffle)
    ensures var links := MergedEntry(s, o, shuffle).links;
      && NoDuplicates(links)
      && forall url :: url in links <==> url in s.links || url in o.links
  {
    var d := Dedup(s.links + o.links);
    DedupSpec(s.links + o.links);
    ShuffleKeepsElements(shuffle, d);
    PermutationNoDuplicates(d, shuffle(d));
  }

  /** Each streamed entry appears at its own position, merged with its
      partner or as it was. (That no sportsonline entry is merged twice is
      PairingIsOneToOne; that the untaken ones follow is MergeMatches.) */
  lemma MergedMatchesShape(streamed: seq<Match>, others: seq<Match>, similarity: Similarity, shuffle: Shuffle, i: nat)
    requires i < |streamed|
    ensures var taken := Pairing(streamed, others, similarity);
      var out := MergedMatches(streamed, others, similarity, shuffle);
      out[i] == if taken[i] >= 0 then MergedEntry(streamed[i], others[taken[i]], shuffle) else streamed[i]
  {
    PairedOfAt(streamed, Pairing(streamed, others, similarity), others, shuffle, i);
  }
}
