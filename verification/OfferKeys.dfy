/** The key each of one site's tariffs takes in its offer id: its id reduced to a
    few characters, with `_2`, `_3` and so on after it where that key is taken. */
module OfferKeys {
  import opened Basics

  predicate IsKept(c: char) {
    'A' <= c <= 'Z' || 'a' <= c <= 'z' || '0' <= c <= '9' || c == '.' || c == '_' || c == '-'
  }

  /** Every character a key cannot hold written as `_`. */
  function Reduced(id: string): (key: string)
    ensures |key| == |id| && IsKey(key)
  {
    seq(|id|, i requires 0 <= i < |id| => if IsKept(id[i]) then id[i] else '_')
  }

  predicate IsKey(s: string) { forall c :: c in s ==> IsKept(c) }

  lemma {:induction false} KeysStay(s: string)
    requires IsKey(s)
    ensures Reduced(s) == s
  {
  }

  // --- candidates for a key ---

  /** The keys an id may take, in the order they are tried: from 1 on. */
  function Candidate(reduced: string, n: nat): (key: string)
    ensures IsKey(reduced) ==> IsKey(key)
  {
    if n < 2 then reduced else reduced + "_" + Decimal(n)
  }

  lemma {:induction false} CandidatesDiffer(reduced: string, m: nat, n: nat)
    requires 1 <= m < n
    ensures Candidate(reduced, m) != Candidate(reduced, n)
  {
    var k := |reduced| + 1;
    assert Candidate(reduced, n)[k..] == Decimal(n);
    if m >= 2 {
      assert Candidate(reduced, m)[k..] == Decimal(m);
      if Decimal(m) == Decimal(n) { DecimalIsInjective(m, n); }
    }
  }

  function FirstCandidates(reduced: string, n: nat): set<string> {
    set k | 1 <= k < n :: Candidate(reduced, k)
  }

  lemma {:induction false} NextCandidate(reduced: string, n: nat)
    requires 1 <= n
    ensures Candidate(reduced, n) !in FirstCandidates(reduced, n)
    ensures FirstCandidates(reduced, n + 1) == FirstCandidates(reduced, n) + {Candidate(reduced, n)}
  {
    forall k | 1 <= k < n ensures Candidate(reduced, k) != Candidate(reduced, n) {
      CandidatesDiffer(reduced, k, n);
    }
    hide Candidate;
  }

  lemma {:induction false} CountCandidates(reduced: string, n: nat)
    requires 1 <= n
    ensures |FirstCandidates(reduced, n)| == n - 1
  {
    if n == 1 {
      assert FirstCandidates(reduced, 1) == {};
    } else {
      hide FirstCandidates, Candidate;
      CountCandidates(reduced, n - 1);
      NextCandidate(reduced, n - 1);
    }
  }

  /** The first key an id may take that is not taken yet. */
  ghost predicate IsFirstFree(key: string, id: string, taken: set<string>) {
    exists n: nat :: 1 <= n && key == Candidate(Reduced(id), n) && key !in taken
      && forall k :: 1 <= k < n ==> Candidate(Reduced(id), k) in taken
  }

  /** Of the keys taken already there are only so many to try: the search ends. */
  method FindKey(id: string, taken: set<string>) returns (key: string)
    ensures IsFirstFree(key, id, taken)
  {
    var reduced := Reduced(id);
    key := reduced;
    var n := 2;
    while key in taken
      invariant 2 <= n && key == Candidate(reduced, n - 1)
      invariant forall k :: 1 <= k < n - 1 ==> Candidate(reduced, k) in taken
      decreases |taken| + 2 - n
    {
      CountCandidates(reduced, n);
      assert FirstCandidates(reduced, n) <= taken;
      SubsetSize(FirstCandidates(reduced, n), taken);
      key := reduced + "_" + Decimal(n);
      n := n + 1;
    }
    assert 1 <= n - 1 && key == Candidate(Reduced(id), n - 1);
  }

  /** The keys of the first `n` ids of a list. */
  ghost function KeysOf(ids: seq<string>, keys: map<string, string>, n: nat): set<string>
    requires n <= |ids| && forall j :: 0 <= j < n ==> ids[j] in keys
  {
    set j | 0 <= j < n :: keys[ids[j]]
  }

  lemma {:induction false} KeysOfPrefix(ids: seq<string>, more: seq<string>, keys: map<string, string>, keys': map<string, string>, n: nat)
    requires n <= |ids| && n <= |more| && ids[..n] == more[..n]
    requires forall j :: 0 <= j < n ==> ids[j] in keys && ids[j] in keys' && keys[ids[j]] == keys'[ids[j]]
    ensures (forall j :: 0 <= j < n ==> more[j] == ids[j]) && KeysOf(ids, keys, n) == KeysOf(more, keys', n)
  {
  }

  lemma {:induction false} KeysOfNext(ids: seq<string>, keys: map<string, string>, n: nat)
    requires n < |ids| && forall j :: 0 <= j <= n ==> ids[j] in keys
    ensures KeysOf(ids, keys, n + 1) == KeysOf(ids, keys, n) + {keys[ids[n]]}
  {
  }

  /** What the keys given to the ids of a list are: each id, where it first stands,
      took the first key still free then. */
  ghost predicate Assigned(ids: seq<string>, keys: map<string, string>) {
    && keys.Keys == (set id | id in ids)
    && forall i :: 0 <= i < |ids| && ids[i] !in ids[..i] ==>
         IsFirstFree(keys[ids[i]], ids[i], KeysOf(ids, keys, i))
  }

  lemma {:induction false} AssignedOne(ids: seq<string>, keys: map<string, string>, id: string, key: string)
    requires Assigned(ids, keys) && id !in ids && IsFirstFree(key, id, KeysOf(ids, keys, |ids|))
    ensures Assigned(ids + [id], keys[id := key])
    ensures KeysOf(ids + [id], keys[id := key], |ids| + 1) == KeysOf(ids, keys, |ids|) + {key}
  {
    hide IsFirstFree, KeysOf;
    var ids', keys' := ids + [id], keys[id := key];
    forall i | 0 <= i < |ids'| && ids'[i] !in ids'[..i] ensures IsFirstFree(keys'[ids'[i]], ids'[i], KeysOf(ids', keys', i)) {
      assert ids'[..i] == ids[..i];
      KeysOfPrefix(ids, ids', keys, keys', i);
    }
    KeysOfOne(ids, keys, id, key);
  }

  lemma {:induction false} KeysOfOne(ids: seq<string>, keys: map<string, string>, id: string, key: string)
    requires id !in ids && forall j :: 0 <= j < |ids| ==> ids[j] in keys
    ensures KeysOf(ids + [id], keys[id := key], |ids| + 1) == KeysOf(ids, keys, |ids|) + {key}
  {
    hide KeysOf;
    assert (ids + [id])[..|ids|] == ids[..|ids|];
    KeysOfPrefix(ids, ids + [id], keys, keys[id := key], |ids|);
    KeysOfNext(ids + [id], keys[id := key], |ids|);
  }

  lemma {:induction false} AssignedAgain(ids: seq<string>, keys: map<string, string>, id: string)
    requires Assigned(ids, keys) && id in ids
    ensures Assigned(ids + [id], keys)
  {
    hide IsFirstFree, KeysOf;
    var ids' := ids + [id];
    assert ids'[..|ids|] == ids;
    forall i | 0 <= i < |ids'| && ids'[i] !in ids'[..i] ensures IsFirstFree(keys[ids'[i]], ids'[i], KeysOf(ids', keys, i)) {
      assert ids'[..i] == ids[..i];
      KeysOfPrefix(ids, ids', keys, keys, i);
    }
  }

  lemma {:induction false} KeysOfAgain(ids: seq<string>, keys: map<string, string>, id: string)
    requires Assigned(ids, keys) && id in ids
    ensures KeysOf(ids + [id], keys, |ids| + 1) == KeysOf(ids, keys, |ids|)
  {
    hide IsFirstFree;
    var ids' := ids + [id];
    assert ids'[..|ids|] == ids == ids[..|ids|];
    KeysOfPrefix(ids, ids', keys, keys, |ids|);
    var j :| 0 <= j < |ids| && ids[j] == id;
    KeysOfNext(ids', keys, |ids|);
    assert keys[ids'[j]] in KeysOf(ids', keys, |ids|);
  }

  lemma {:induction false} DomainOf(ids: seq<string>, keys: map<string, string>)
    requires Assigned(ids, keys)
    ensures forall id :: id in keys <==> id in ids
  {
  }

  method TariffKeys(ids: seq<string>) returns (keys: map<string, string>)
    ensures Assigned(ids, keys)
  {
    keys := map[];
    var taken: set<string> := {};
    for i := 0 to |ids|
      invariant Assigned(ids[..i], keys) && taken == KeysOf(ids[..i], keys, i)
    {
      hide IsFirstFree, Assigned, KeysOf;
      assert ids[..i + 1] == ids[..i] + [ids[i]] && |ids[..i]| == i;
      DomainOf(ids[..i], keys);
      if ids[i] in keys {
        AssignedAgain(ids[..i], keys, ids[i]);
        KeysOfAgain(ids[..i], keys, ids[i]);
      } else {
        var key := FindKey(ids[i], taken);
        AssignedOne(ids[..i], keys, ids[i], key);
        taken := taken + {key};
        keys := keys[ids[i] := key];
      }
    }
    assert ids[..|ids|] == ids;
  }

  // --- no two tariffs share an offer ---

  lemma {:induction false} FirstStand(ids: seq<string>, id: string) returns (i: nat)
    requires id in ids
    ensures i < |ids| && ids[i] == id && id !in ids[..i]
  {
    i := 0;
    while ids[i] != id
      invariant 0 <= i < |ids| && id !in ids[..i] && id in ids[i..]
      decreases |ids| - i
    {
      assert ids[..i + 1] == ids[..i] + [ids[i]];
      assert ids[i..] == [ids[i]] + ids[i + 1..];
      i := i + 1;
    }
  }

  lemma {:induction false} FirstFreeIsNew(key: string, id: string, taken: set<string>)
    requires IsFirstFree(key, id, taken)
    ensures key !in taken && IsKey(key)
  {
  }

  lemma {:induction false} FirstFreeIsUnique(k1: string, k2: string, id: string, taken: set<string>)
    requires IsFirstFree(k1, id, taken) && IsFirstFree(k2, id, taken)
    ensures k1 == k2
  {
  }

  /** Distinct ids have distinct keys, and every key is one the reduction leaves as it is. */
  lemma {:induction false} KeysNeverCollide(ids: seq<string>, keys: map<string, string>, a: string, b: string)
    requires Assigned(ids, keys) && a in ids && b in ids && a != b
    ensures keys[a] != keys[b]
    ensures Reduced(keys[a]) == keys[a]
  {
    var i := FirstStand(ids, a);
    var j := FirstStand(ids, b);
    FirstFreeIsNew(keys[ids[i]], ids[i], KeysOf(ids, keys, i));
    FirstFreeIsNew(keys[ids[j]], ids[j], KeysOf(ids, keys, j));
    hide IsFirstFree;
    if i < j {
      assert keys[ids[i]] in KeysOf(ids, keys, j);
    } else {
      assert keys[ids[j]] in KeysOf(ids, keys, i);
    }
    KeysStay(keys[a]);
  }

  /** An offer's id; the local form of a station id is given. */
  function TariffOfferId(feed: string, station: string, key: string): string {
    "oc:offer:" + feed + ":" + station + ":" + Reduced(key)
  }

  /** So the offers of one site's distinct tariffs have distinct ids. */
  lemma {:induction false} OffersNeverCollide(feed: string, station: string, ids: seq<string>, keys: map<string, string>, a: string, b: string)
    requires Assigned(ids, keys) && a in ids && b in ids && a != b
    ensures TariffOfferId(feed, station, keys[a]) != TariffOfferId(feed, station, keys[b])
  {
    KeysNeverCollide(ids, keys, a, b);
    KeysNeverCollide(ids, keys, b, a);
    var start := "oc:offer:" + feed + ":" + station + ":";
    assert TariffOfferId(feed, station, keys[a])[|start|..] == keys[a];
    assert TariffOfferId(feed, station, keys[b])[|start|..] == keys[b];
  }

  /** The keys are what the list and its order say: two maps so assigned are one. */
  lemma {:induction false} AssignmentIsUnique(ids: seq<string>, k1: map<string, string>, k2: map<string, string>, n: nat)
    requires Assigned(ids, k1) && Assigned(ids, k2) && n <= |ids|
    ensures forall i :: 0 <= i < n ==> k1[ids[i]] == k2[ids[i]]
  {
    if n > 0 {
      AssignmentIsUnique(ids, k1, k2, n - 1);
      var i := n - 1;
      hide IsFirstFree, KeysOf;
      if ids[i] !in ids[..i] {
        KeysOfPrefix(ids, ids, k1, k2, i);
        FirstFreeIsUnique(k1[ids[i]], k2[ids[i]], ids[i], KeysOf(ids, k1, i));
      } else {
        var j :| 0 <= j < i && ids[j] == ids[i];
      }
    }
  }
}
