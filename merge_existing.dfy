/**
 * `merge_with_existing_data`: the previous snapshot is indexed by the key
 * (home name, away name, date), the last entry winning for a repeated key.
 * Each new entry, in order, either updates and takes the snapshot entry
 * with its key (which is then deleted from the index) or is appended as
 * it is. The snapshot entries never taken follow, in the order their keys
 * were first inserted into the index.
 *
 * An update upgrades a team logo only from the default one, and replaces
 * the links by the union of the old and the new links, shuffled, when that
 * union is longer than the existing list.
 */
module ExistingMerge {
  import opened Sequences
  import opened MatchData

  /** `(match["team1"]["name"], match["team2"]["name"], match["date"])`. */
  type Key = (string, string, string)

  function KeyOf(m: Match): Key {
    (m.team1.name, m.team2.name, m.date)
  }

  /** The keys of a list of entries, in order. */
  function Keys(ms: seq<Match>): (r: seq<Key>)
    ensures |r| == |ms|
  {
    if ms == [] then [] else Keys(ms[..|ms| - 1]) + [KeyOf(ms[|ms| - 1])]
  }

  lemma {:induction false} KeysAt(ms: seq<Match>, i: nat)
    requires i < |ms|
    ensures Keys(ms)[i] == KeyOf(ms[i])
  {
    var k := |ms| - 1;
    if i < k {
      KeysAt(ms[..k], i);
    }
  }

  lemma {:induction false} KeysMember(ms: seq<Match>, key: Key)
    ensures key in Keys(ms) <==> exists i :: 0 <= i < |ms| && KeyOf(ms[i]) == key
  {
    if ms != [] {
      var k := |ms| - 1;
      KeysMember(ms[..k], key);
      if key in Keys(ms) {
        var j :| 0 <= j < |ms| && Keys(ms)[j] == key;
        KeysAt(ms, j);
      }
      forall i | 0 <= i < |ms| && KeyOf(ms[i]) == key
        ensures key in Keys(ms)
      {
        KeysAt(ms, i);
      }
    }
  }

  /** The distinct keys of a list of entries. */
  ghost function KeySet(ms: seq<Match>): set<Key> {
    set i | 0 <= i < |ms| :: KeyOf(ms[i])
  }

  lemma KeySetElems(ms: seq<Match>)
    ensures KeySet(ms) == Elems(Keys(ms))
  {
    forall key
      ensures key in KeySet(ms) <==> key in Keys(ms)
    {
      KeysMember(ms, key);
    }
  }

  // ----- the index built by the first loop -----

  /** `existing_lookup` once every snapshot entry is stored under its key. */
  function Lookup(existing: seq<Match>): map<Key, Match> {
    if existing == [] then map[]
    else
      var k := |existing| - 1;
      Lookup(existing[..k])[KeyOf(existing[k]) := existing[k]]
  }

  /** The insertion order of `existing_lookup`: each key where it first
      appears in the snapshot. */
  function KeyOrder(existing: seq<Match>): seq<Key> {
    Dedup(Keys(existing))
  }

  /** The index holds every key of the snapshot and nothing else, and
      stores each entry under its own key. */
  lemma {:induction false} LookupDomain(existing: seq<Match>)
    ensures forall key :: key in Lookup(existing) <==> key in Keys(existing)
    ensures forall key :: key in Lookup(existing) ==> KeyOf(Lookup(existing)[key]) == key
  {
    if existing != [] {
      var k := |existing| - 1;
      LookupDomain(existing[..k]);
    }
  }

  /** For a repeated key the index keeps the last snapshot entry with it. */
  lemma {:induction false} LookupLast(existing: seq<Match>, j: nat)
    requires j < |existing|
    requires forall i :: j < i < |existing| ==> KeyOf(existing[i]) != KeyOf(existing[j])
    ensures KeyOf(existing[j]) in Lookup(existing)
    ensures Lookup(existing)[KeyOf(existing[j])] == existing[j]
  {
    var k := |existing| - 1;
    if j < k {
      LookupLast(existing[..k], j);
    }
  }

  /** Every entry of the index is a snapshot entry with that key and no
      later entry sharing it. */
  lemma {:induction false} LookupIsLast(existing: seq<Match>, key: Key) returns (j: nat)
    requires key in Lookup(existing)
    ensures j < |existing| && existing[j] == Lookup(existing)[key] && KeyOf(existing[j]) == key
    ensures forall i :: j < i < |existing| ==> KeyOf(existing[i]) != key
  {
    var k := |existing| - 1;
    if KeyOf(existing[k]) == key {
      j := k;
    } else {
      j := LookupIsLast(existing[..k], key);
    }
  }

  // ----- the update of a snapshot entry -----

  /** A team's logo after an update: the new one only when the existing one
      is the default and the new one is not. */
  function UpgradeLogo(prior: Team, incoming: Team): (r: Team)
    ensures r.name == prior.name
    ensures r.logoUrl != prior.logoUrl <==> prior.logoUrl == DefaultLogoUrl && incoming.logoUrl != DefaultLogoUrl
    ensures r.logoUrl == prior.logoUrl || r.logoUrl == incoming.logoUrl
  {
    if prior.logoUrl == DefaultLogoUrl && incoming.logoUrl != DefaultLogoUrl then Team(prior.name, incoming.logoUrl) else prior
  }

  /** A snapshot entry updated from the new entry with its key. */
  function UpdateExisting(prior: Match, incoming: Match, shuffle: Shuffle): (r: Match)
    ensures KeyOf(r) == KeyOf(prior) && r.title == prior.title && r.time == prior.time
  {
    var combined := Dedup(prior.links + incoming.links);
    Match(prior.title, UpgradeLogo(prior.team1, incoming.team1), UpgradeLogo(prior.team2, incoming.team2), prior.time, prior.date,
          if |combined| > |prior.links| then shuffle(combined) else prior.links)
  }

  /** The links change exactly when the union of the old and the new links
      has more distinct links than the existing list has entries; they then
      hold that union, each link once. */
  lemma UpdateExistingLinks(prior: Match, incoming: Match, shuffle: Shuffle)
    requires IsShuffle(shuffle)
    ensures var links := UpdateExisting(prior, incoming, shuffle).links;
      && (links != prior.links <==> |Elems(prior.links) + Elems(incoming.links)| > |prior.links|)
      && (links != prior.links ==> NoDuplicates(links) && Elems(links) == Elems(prior.links) + Elems(incoming.links))
  {
    var combined := Dedup(prior.links + incoming.links);
    DedupSpec(prior.links + incoming.links);
    DedupCard(prior.links + incoming.links);
    assert Elems(prior.links + incoming.links) == Elems(prior.links) + Elems(incoming.links);
    ShuffleKeepsElements(shuffle, combined);
    PermutationNoDuplicates(combined, shuffle(combined));
  }

  /** The in-place update of `existing_match`, one field at a time. */
  method UpdateExistingMatch(existingMatch: Match, newMatch: Match, shuffle: Shuffle) returns (updated: Match)
    ensures updated == UpdateExisting(existingMatch, newMatch, shuffle)
  {
    updated := existingMatch;
    if updated.team1.logoUrl == DefaultLogoUrl && newMatch.team1.logoUrl != DefaultLogoUrl {
      updated := updated.(team1 := updated.team1.(logoUrl := newMatch.team1.logoUrl));
    }
    if updated.team2.logoUrl == DefaultLogoUrl && newMatch.team2.logoUrl != DefaultLogoUrl {
      updated := updated.(team2 := updated.team2.(logoUrl := newMatch.team2.logoUrl));
    }
    var combinedLinks := Dedup(existingMatch.links + newMatch.links);
    if |combinedLinks| > |updated.links| {
      updated := updated.(links := shuffle(combinedLinks));
    }
  }

  // ----- the second loop and the remaining entries -----

  /** The state of the second loop: `merged_matches` and what is left of
      `existing_lookup`. */
  datatype Progress = Progress(merged: seq<Match>, rest: map<Key, Match>)

  /** The second loop run over the new entries `news`. */
  function Consumed(news: seq<Match>, lookup: map<Key, Match>, shuffle: Shuffle): (p: Progress)
    ensures |p.merged| == |news|
  {
    if news == [] then Progress([], lookup)
    else
      var k := |news| - 1;
      var p := Consumed(news[..k], lookup, shuffle);
      var key := KeyOf(news[k]);
      if key in p.rest then Progress(p.merged + [UpdateExisting(p.rest[key], news[k], shuffle)], p.rest - {key})
      else Progress(p.merged + [news[k]], p.rest)
  }

  /** What the second loop leaves of the index: the entries whose key no
      new entry has, unchanged. */
  lemma {:induction false} ConsumedRest(news: seq<Match>, lookup: map<Key, Match>, shuffle: Shuffle)
    ensures var rest := Consumed(news, lookup, shuffle).rest;
      && (forall key :: key in rest <==> key in lookup && key !in Keys(news))
      && (forall key :: key in rest ==> rest[key] == lookup[key])
  {
    if news != [] {
      var k := |news| - 1;
      ConsumedRest(news[..k], lookup, shuffle);
      assert Keys(news) == Keys(news[..k]) + [KeyOf(news[k])];
    }
  }

  /** The entry the second loop emits for `news[j]`: the index entry with
      its key, updated, when that key is stored and no earlier new entry
      had it; otherwise `news[j]` itself. */
  lemma {:induction false} ConsumedAt(news: seq<Match>, lookup: map<Key, Match>, shuffle: Shuffle, j: nat)
    requires j < |news|
    ensures var key := KeyOf(news[j]);
      Consumed(news, lookup, shuffle).merged[j] ==
        if key in lookup && key !in Keys(news[..j]) then UpdateExisting(lookup[key], news[j], shuffle) else news[j]
  {
    var k := |news| - 1;
    var p := Consumed(news[..k], lookup, shuffle);
    if j < k {
      assert Consumed(news, lookup, shuffle).merged[j] == p.merged[j];
      ConsumedAt(news[..k], lookup, shuffle, j);
      assert news[..k][..j] == news[..j];
      assert news[..k][j] == news[j];
    } else {
      ConsumedRest(news[..k], lookup, shuffle);
      var key := KeyOf(news[k]);
      assert key in p.rest <==> key in lookup && key !in Keys(news[..k]);
    }
  }

  /** The values of the index for the keys of `order`, in that order,
      skipping deleted keys: `existing_lookup.values()`. */
  function Remaining(order: seq<Key>, rest: map<Key, Match>): seq<Match> {
    if order == [] then []
    else
      var k := |order| - 1;
      Remaining(order[..k], rest) + (if order[k] in rest then [rest[order[k]]] else [])
  }

  lemma InterSnocCard<T>(a: set<T>, x: T, b: set<T>)
    requires x !in a
    ensures |(a + {x}) * b| == |a * b| + (if x in b then 1 else 0)
  {
    if x in b {
      assert (a + {x}) * b == a * b + {x};
    } else {
      assert (a + {x}) * b == a * b;
    }
  }

  lemma {:induction false} RemainingLength(order: seq<Key>, rest: map<Key, Match>)
    requires NoDuplicates(order)
    ensures |Remaining(order, rest)| == |Elems(order) * rest.Keys|
  {
    if order != [] {
      var k := |order| - 1;
      assert NoDuplicates(order[..k]);
      RemainingLength(order[..k], rest);
      assert order[k] !in Elems(order[..k]);
      assert Elems(order) == Elems(order[..k]) + {order[k]};
      InterSnocCard(Elems(order[..k]), order[k], rest.Keys);
    }
  }

  lemma {:induction false} RemainingMember(order: seq<Key>, rest: map<Key, Match>, x: Match)
    ensures x in Remaining(order, rest) <==> exists key :: key in order && key in rest && x == rest[key]
  {
    if order != [] {
      var k := |order| - 1;
      RemainingMember(order[..k], rest, x);
      assert order == order[..k] + [order[k]];
      if x in Remaining(order, rest) && x !in Remaining(order[..k], rest) {
        assert x == rest[order[k]];
      }
    }
  }

  /** The result of `merge_with_existing_data`. */
  function MergedWithExisting(news: seq<Match>, existing: seq<Match>, shuffle: Shuffle): seq<Match> {
    var p := Consumed(news, Lookup(existing), shuffle);
    p.merged + Remaining(KeyOrder(existing), p.rest)
  }

  // ----- the method -----

  /** The first loop: `existing_lookup` and its insertion order. */
  method BuildLookup(existing: seq<Match>) returns (lookup: map<Key, Match>, order: seq<Key>)
    ensures lookup == Lookup(existing) && order == KeyOrder(existing)
  {
    lookup, order := map[], [];
    for n := 0 to |existing|
      invariant lookup == Lookup(existing[..n]) && order == KeyOrder(existing[..n])
    {
      var m := existing[n];
      var key := KeyOf(m);
      assert existing[..n + 1][..n] == existing[..n];
      LookupDomain(existing[..n]);
      DedupSnoc(Keys(existing[..n]), key);
      if key !in lookup {
        order := order + [key];
      }
      lookup := lookup[key := m];
    }
    assert existing[..|existing|] == existing;
  }

  /** The second loop: each new entry updates and takes the index entry
      with its key, or is appended as it is. */
  method ConsumeNew(news: seq<Match>, lookup: map<Key, Match>, shuffle: Shuffle)
    returns (merged: seq<Match>, rest: map<Key, Match>)
    ensures Progress(merged, rest) == Consumed(news, lookup, shuffle)
  {
    merged, rest := [], lookup;
    for n := 0 to |news|
      invariant Progress(merged, rest) == Consumed(news[..n], lookup, shuffle)
    {
      var newMatch := news[n];
      var key := KeyOf(newMatch);
      assert news[..n + 1][..n] == news[..n];
      if key in rest {
        var existingMatch := UpdateExistingMatch(rest[key], newMatch, shuffle);
        merged := merged + [existingMatch];
        rest := rest - {key};
      } else {
        merged := merged + [newMatch];
      }
    }
    assert news[..|news|] == news;
  }

  /** The last loop: the entries left in the index, in insertion order. */
  method AppendRemaining(merged: seq<Match>, order: seq<Key>, rest: map<Key, Match>) returns (result: seq<Match>)
    ensures result == merged + Remaining(order, rest)
  {
    result := merged;
    for i := 0 to |order|
      invariant result == merged + Remaining(order[..i], rest)
    {
      assert order[..i + 1][..i] == order[..i];
      if order[i] in rest {
        result := result + [rest[order[i]]];
      }
    }
    assert order[..|order|] == order;
  }

  /** `merge_with_existing_data`. */
  method MergeWithExistingData(news: seq<Match>, existing: seq<Match>, shuffle: Shuffle) returns (merged: seq<Match>)
    ensures merged == MergedWithExisting(news, existing, shuffle)
  {
    var lookup, order := BuildLookup(existing);
    var rest;
    merged, rest := ConsumeNew(news, lookup, shuffle);
    merged := AppendRemaining(merged, order, rest);
  }

  // ----- properties of the result -----

  lemma SetSplitCard<T>(a: set<T>, b: set<T>)
    ensures |a - b| == |a| - |a * b|
  {
    assert a == (a - b) + (a * b);
    assert (a - b) * (a * b) == {};
  }

  /** The keys left in the index after the second loop. */
  lemma RestKeys(news: seq<Match>, existing: seq<Match>, shuffle: Shuffle)
    ensures Consumed(news, Lookup(existing), shuffle).rest.Keys == KeySet(existing) - KeySet(news)
  {
    ConsumedRest(news, Lookup(existing), shuffle);
    LookupDomain(existing);
    KeySetElems(existing);
    KeySetElems(news);
  }

  lemma KeyOrderElems(existing: seq<Match>)
    ensures NoDuplicates(KeyOrder(existing)) && Elems(KeyOrder(existing)) == KeySet(existing)
  {
    DedupSpec(Keys(existing));
    KeySetElems(existing);
    assert Elems(Dedup(Keys(existing))) == Elems(Keys(existing));
  }

  lemma KeyOrderMember(existing: seq<Match>, key: Key)
    ensures key in KeyOrder(existing) <==> key in Lookup(existing)
  {
    DedupMember(Keys(existing), key);
    LookupDomain(existing);
  }

  /** The output has one entry per new entry and one per distinct snapshot
      key that no new entry has. */
  lemma MergedLength(news: seq<Match>, existing: seq<Match>, shuffle: Shuffle)
    ensures |MergedWithExisting(news, existing, shuffle)| ==
      |news| + |KeySet(existing)| - |KeySet(existing) * KeySet(news)|
  {
    var rest := Consumed(news, Lookup(existing), shuffle).rest;
    KeyOrderElems(existing);
    RemainingLength(KeyOrder(existing), rest);
    RestKeys(news, existing, shuffle);
    assert KeySet(existing) * (KeySet(existing) - KeySet(news)) == KeySet(existing) - KeySet(news);
    SetSplitCard(KeySet(existing), KeySet(news));
  }

  /** Entry `j` of the output belongs to `news[j]`: the snapshot entry with
      its key, updated, when there is one and no earlier new entry took it;
      `news[j]` itself otherwise. */
  lemma MergedNewPosition(news: seq<Match>, existing: seq<Match>, shuffle: Shuffle, j: nat)
    requires j < |news|
    ensures var key := KeyOf(news[j]);
      var out := MergedWithExisting(news, existing, shuffle);
      && KeyOf(out[j]) == key
      && out[j] == if key in Lookup(existing) && key !in Keys(news[..j])
                   then UpdateExisting(Lookup(existing)[key], news[j], shuffle) else news[j]
  {
    ConsumedAt(news, Lookup(existing), shuffle, j);
    LookupDomain(existing);
  }

  /** A new entry whose key an earlier new entry already had is appended
      unchanged. */
  lemma RepeatedKeyIsNew(news: seq<Match>, existing: seq<Match>, shuffle: Shuffle, i: nat, j: nat)
    requires i < j < |news| && KeyOf(news[i]) == KeyOf(news[j])
    ensures MergedWithExisting(news, existing, shuffle)[j] == news[j]
  {
    MergedNewPosition(news, existing, shuffle, j);
    KeysMember(news[..j], KeyOf(news[j]));
    assert news[..j][i] == news[i];
  }

  /** After the entries for `news` come exactly the snapshot entries whose
      key no new entry has, each the last snapshot entry with that key and
      unchanged. */
  lemma MergedTail(news: seq<Match>, existing: seq<Match>, shuffle: Shuffle, x: Match)
    ensures var out := MergedWithExisting(news, existing, shuffle);
      x in out[|news|..] <==> exists key :: key in Lookup(existing) && key !in Keys(news) && x == Lookup(existing)[key]
  {
    var lookup := Lookup(existing);
    var p := Consumed(news, lookup, shuffle);
    var order := KeyOrder(existing);
    assert MergedWithExisting(news, existing, shuffle)[|news|..] == Remaining(order, p.rest);
    RemainingMember(order, p.rest, x);
    ConsumedRest(news, lookup, shuffle);
    LookupDomain(existing);
    if x in Remaining(order, p.rest) {
      var key :| key in order && key in p.rest && x == p.rest[key];
      assert key in lookup && key !in Keys(news) && x == lookup[key];
    }
    if exists key :: key in lookup && key !in Keys(news) && x == lookup[key] {
      var key :| key in lookup && key !in Keys(news) && x == lookup[key];
      KeyOrderMember(existing, key);
      assert key in p.rest;
    }
  }
}
