/**
 * `Hub::FRecursionDetection` (editor builds): a scope guard that counts, per
 * message key and signal source, how many dispatches of that pair are in
 * flight. The table is `TMap<FName, TMap<FSigSource, int32>>`.
 */
module RecursionGuard {
  import opened HubTypes

  type EntrySources = map<Name, map<Source, int>>

  /** How many dispatches of (key, source) are in flight; an absent entry reads 0. */
  function Count(m: EntrySources, key: Name, source: Source): int
  {
    if key in m && source in m[key] then m[key][source] else 0
  }

  /** Every stored count is positive: a pair whose count drops to zero is removed. */
  ghost predicate Positive(m: EntrySources)
  {
    forall k, s :: k in m && s in m[k] ==> m[k][s] > 0
  }

  /** The constructor: `FindOrAdd` the key, `FindOrAdd` the source with 0, then increment. */
  function Enter(m: EntrySources, key: Name, source: Source): (r: EntrySources)
    ensures key in r && source in r[key]
    ensures Count(r, key, source) == Count(m, key, source) + 1
    ensures forall k, s :: (k, s) != (key, source) ==> Count(r, k, s) == Count(m, k, s)
    ensures r.Keys == m.Keys + {key}
    ensures Positive(m) ==> Positive(r)
  {
    var inner := if key in m then m[key] else map[];
    var current := if source in inner then inner[source] else 0;
    m[key := inner[source := current + 1]]
  }

  /**
   * The destructor: both lookups are `FindChecked`, so the entry must exist;
   * the count is decremented and the source entry removed once it is at most
   * zero. The outer key entry is never removed.
   */
  function Exit(m: EntrySources, key: Name, source: Source): (r: EntrySources)
    requires key in m && source in m[key]
    ensures Count(r, key, source) == if m[key][source] - 1 <= 0 then 0 else m[key][source] - 1
    ensures forall k, s :: (k, s) != (key, source) ==> Count(r, k, s) == Count(m, k, s)
    ensures r.Keys == m.Keys
    ensures m[key][source] - 1 <= 0 ==> source !in r[key]
    ensures Positive(m) ==> Positive(r)
  {
    var inner := m[key];
    var decremented := inner[source] - 1;
    if decremented <= 0 then m[key := inner - {source}]
    else m[key := inner[source := decremented]]
  }

  /** `operator bool`: the guard is quiet while this is the only dispatch of the pair in flight. */
  function NotRecursive(m: EntrySources, key: Name, source: Source): (quiet: bool)
    requires key in m && source in m[key]
    ensures quiet <==> Count(m, key, source) <= 1
  {
    m[key][source] <= 1
  }

  /**
   * A guard's lifetime restores every count. The only trace it can leave is an
   * empty inner map for a key that had none before.
   */
  lemma EnterThenExitRestores(m: EntrySources, key: Name, source: Source)
    requires Positive(m)
    ensures var after := Exit(Enter(m, key, source), key, source);
      after == if key in m then m else m[key := map[]]
  {
    var entered := Enter(m, key, source);
    var after := Exit(entered, key, source);
    if key in m {
      assert after[key] == m[key];
    } else {
      assert after[key] == map[];
    }
  }

  /**
   * A guard that leaves after nested work that kept every count restores
   * every count it found on entry; its entry is still there to leave.
   */
  lemma ExitAfterNestedWorkRestores(m: EntrySources, g: EntrySources, key: Name, source: Source)
    requires Positive(m)
    requires forall k, s :: Count(g, k, s) == Count(Enter(m, key, source), k, s)
    ensures key in g && source in g[key]
    ensures forall k, s :: Count(Exit(g, key, source), k, s) == Count(m, k, s)
  {
    assert Count(g, key, source) == Count(m, key, source) + 1;
  }

  /** Just after entering, the guard is quiet exactly when no other dispatch of the pair was in flight. */
  lemma QuietIffFirstEntry(m: EntrySources, key: Name, source: Source)
    requires Positive(m)
    ensures NotRecursive(Enter(m, key, source), key, source) <==> Count(m, key, source) == 0
  {
  }
}
