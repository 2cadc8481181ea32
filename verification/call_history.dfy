/**
 * `Hub::FDebugCircularInfos` (editor builds): per message key, the last
 * `BIT_LIMIT` dispatches that reached at least one listener, kept in a
 * fixed-capacity array used as a ring whose oldest slot is `StartIdx`.
 */
module CallHistory {
  import opened HubTypes

  /** `1 << BIT_OFFSET` with `BIT_OFFSET == 8`; the neighbouring comment says 128, the value is 256. */
  const BitLimit: int := 256
  const BitMask: int := BitLimit - 1

  /** `FDebugMessageInfo`: the source object, the rendered message and the listener keys it reached. */
  datatype CallInfo = CallInfo(source: Source, text: string, records: seq<Key>)

  datatype Ring = Ring(infos: seq<CallInfo>, startIdx: int)

  /** `StartIdx` only moves once the array is full, and always stays a slot index. */
  ghost predicate Valid(r: Ring)
  {
    |r.infos| <= BitLimit && 0 <= r.startIdx < BitLimit && (|r.infos| < BitLimit ==> r.startIdx == 0)
  }

  const EmptyRing := Ring([], 0)

  /** `operator[]`: the i-th oldest entry. `& BIT_MASK` on a non-negative index is `% BIT_LIMIT`. */
  function At(r: Ring, i: int): (c: CallInfo)
    requires Valid(r) && 0 <= i < |r.infos|
    ensures c in r.infos
  {
    r.infos[(i + r.startIdx) % BitLimit]
  }

  /** The history oldest first, as `operator[]` presents it. */
  function Contents(r: Ring): (cs: seq<CallInfo>)
    requires Valid(r)
    ensures |cs| == |r.infos|
    ensures forall i :: 0 <= i < |cs| ==> cs[i] == At(r, i)
  {
    seq(|r.infos|, i requires 0 <= i < |r.infos| => At(r, i))
  }

  /**
   * `AppendCallInfo` as written: a call that reached nobody is not recorded;
   * when the array is full the slot at `StartIdx` is reused and `StartIdx`
   * advances, but the new keys are appended to the reused slot's old records.
   * The slot's text is taken to be overwritten by `Msg.ToString`, whose body
   * is not part of this model.
   */
  function AppendCallInfoAsWritten(r: Ring, source: Source, text: string, ids: seq<Key>): (r': Ring)
    requires Valid(r)
    ensures Valid(r')
    ensures |r'.infos| == if |ids| == 0 || |r.infos| == BitLimit then |r.infos| else |r.infos| + 1
    ensures |ids| == 0 ==> r' == r
    ensures |ids| > 0 && |r.infos| == BitLimit ==> r'.infos[r.startIdx].records == r.infos[r.startIdx].records + ids
  {
    if |ids| == 0 then r
    else if |r.infos| >= BitLimit then
      var slot := r.infos[r.startIdx];
      Ring(r.infos[r.startIdx := CallInfo(source, text, slot.records + ids)], (r.startIdx + 1) % BitLimit)
    else
      Ring(r.infos + [CallInfo(source, text, ids)], r.startIdx)
  }

  /** `AppendCallInfo` with the reused slot's records replaced, as a history of the last calls needs. */
  function AppendCallInfo(r: Ring, source: Source, text: string, ids: seq<Key>): (r': Ring)
    requires Valid(r)
    ensures Valid(r')
    ensures |r'.infos| == if |ids| == 0 || |r.infos| == BitLimit then |r.infos| else |r.infos| + 1
    ensures |ids| == 0 ==> r' == r
  {
    if |ids| == 0 then r
    else if |r.infos| >= BitLimit then
      Ring(r.infos[r.startIdx := CallInfo(source, text, ids)], (r.startIdx + 1) % BitLimit)
    else
      Ring(r.infos + [CallInfo(source, text, ids)], r.startIdx)
  }

  /** The corrected ring is a bounded FIFO: the new call is newest and the oldest falls off once full. */
  lemma AppendCallInfoKeepsLastCalls(r: Ring, source: Source, text: string, ids: seq<Key>)
    requires Valid(r) && |ids| > 0
    ensures var cs := Contents(r);
      Contents(AppendCallInfo(r, source, text, ids))
        == (if |cs| < BitLimit then cs else cs[1..]) + [CallInfo(source, text, ids)]
  {
    var c := CallInfo(source, text, ids);
    if |r.infos| == BitLimit {
      RecycleOldest(r, c);
    } else {
      var got := Contents(AppendCallInfo(r, source, text, ids));
      var expected := Contents(r) + [c];
      assert |got| == |expected|;
      forall i | 0 <= i < |got|
        ensures got[i] == expected[i]
      {
      }
    }
  }

  /** Overwriting the oldest slot of a full ring and advancing the start drops the oldest call and adds the new one last. */
  lemma RecycleOldest(r: Ring, c: CallInfo)
    requires Valid(r) && |r.infos| == BitLimit
    ensures Contents(Ring(r.infos[r.startIdx := c], (r.startIdx + 1) % BitLimit)) == Contents(r)[1..] + [c]
  {
    var s := r.startIdx;
    var s' := if s + 1 < BitLimit then s + 1 else 0;
    SlotIndex(s + 1);
    var r' := Ring(r.infos[s := c], s');
    var got := Contents(r');
    var expected := Contents(r)[1..] + [c];
    forall i | 0 <= i < BitLimit
      ensures got[i] == expected[i]
    {
      SlotIndex(i + s');
      SlotIndex(i + 1 + s);
      if i < BitLimit - 1 {
        assert expected[i] == At(r, i + 1);
      }
    }
  }

  /** An index below twice the capacity wraps at most once. */
  lemma SlotIndex(x: int)
    requires 0 <= x < 2 * BitLimit
    ensures x % BitLimit == if x < BitLimit then x else x - BitLimit
  {
  }

  /** The two versions differ only in the records of a recycled slot. */
  lemma AsWrittenDiffersOnlyInRecycledRecords(r: Ring, source: Source, text: string, ids: seq<Key>)
    requires Valid(r)
    ensures var w := AppendCallInfoAsWritten(r, source, text, ids);
      var c := AppendCallInfo(r, source, text, ids);
      w.startIdx == c.startIdx && |w.infos| == |c.infos|
      && forall i :: 0 <= i < |w.infos| ==>
           w.infos[i].source == c.infos[i].source && w.infos[i].text == c.infos[i].text
           && (w.infos[i].records == c.infos[i].records
               || (|r.infos| == BitLimit && i == r.startIdx && w.infos[i].records == r.infos[i].records + ids))
  {
  }

  /** A full ring of one-key calls. */
  function FullRing(key: Key): (r: Ring)
    ensures Valid(r) && |r.infos| == BitLimit
  {
    Ring(seq(BitLimit, _ => CallInfo(Global, "", [key])), 0)
  }

  /**
   * After 256 recorded calls, the 257th call's entry, the newest in the
   * history, reports a listener key of the evicted first call as well.
   */
  lemma RecycledSlotKeepsEvictedRecords()
    ensures var w := AppendCallInfoAsWritten(FullRing(7), Global, "", [9]);
      Contents(w)[BitLimit - 1].records == [7, 9]
    ensures var c := AppendCallInfo(FullRing(7), Global, "", [9]);
      Contents(c)[BitLimit - 1].records == [9]
  {
    var w := AppendCallInfoAsWritten(FullRing(7), Global, "", [9]);
    assert (BitLimit - 1 + w.startIdx) % BitLimit == 0;
    var c := AppendCallInfo(FullRing(7), Global, "", [9]);
    assert (BitLimit - 1 + c.startIdx) % BitLimit == 0;
  }
}
