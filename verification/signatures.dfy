/**
 * The type-signature registry of the message hub: four tables mapping a
 * message key to the list of type names recorded for it (sends and receives,
 * each for parameters and for single-shot responses), and the reconciliation
 * that checks a new registration against them and rewrites them in place.
 *
 * The type-hierarchy queries of the reflection system are uninterpreted: they
 * are fields of a `Reflection` record that every operation takes.
 */
module Signatures {
  import opened Wrappers
  import opened HubTypes

  /**
   * The reflection collaborator: `isDerivedFrom(t, p)` holds when type `t`
   * derives from `p`; `matchEnums(i, e)` when the integer type `i` is the
   * underlying type of enum `e`; `findCommonBase` gives a common base class or
   * `NoneName`. `skipValidate` is the marker name that disables the check.
   */
  datatype Reflection = Reflection(
    isDerivedFrom: (Name, Name) -> bool,
    matchEnums: (Name, Name) -> bool,
    findCommonBase: (Name, Name) -> Name,
    skipValidate: Name)

  function Min(a: nat, b: nat): nat { if a <= b then a else b }

  /** The rules that accept a position without touching either slot. */
  predicate Lenient(rf: Reflection, l: Name, r: Name) {
    || l == r
    || l == rf.skipValidate || r == rf.skipValidate
    || !l.IsValid() || !r.IsValid()
    || l.IsNone() || r.IsNone()
    || rf.matchEnums(l, r) || rf.matchEnums(r, l)
  }

  /** How one position of a comparison is settled. */
  datatype Verdict = Match | LhsDerived | RhsDerived | Mismatch

  function Classify(rf: Reflection, l: Name, r: Name): Verdict {
    if Lenient(rf, l, r) then Match
    else if rf.isDerivedFrom(l, r) then LhsDerived
    else if rf.isDerivedFrom(r, l) then RhsDerived
    else Mismatch
  }

  /** Every position below the shorter length is accepted by some rule. */
  predicate Compatible(rf: Reflection, lhs: seq<Name>, rhs: seq<Name>) {
    forall j :: 0 <= j < Min(|lhs|, |rhs|) ==> Classify(rf, lhs[j], rhs[j]) != Mismatch
  }

  /** What a mutable left slot holds once its position has been accepted. */
  function SettleLhs(rf: Reflection, l: Name, r: Name, mutable: bool): Name {
    if mutable && Classify(rf, l, r) == LhsDerived then r else l
  }

  /** What a mutable right slot holds once its position has been accepted. */
  function SettleRhs(rf: Reflection, l: Name, r: Name, mutable: bool): Name {
    if mutable && Classify(rf, l, r) == RhsDerived then l else r
  }

  /** The verdict of a comparison and both lists as the comparison left them. */
  datatype Comparison = Comparison(same: bool, lhs: seq<Name>, rhs: seq<Name>)

  /** A list after position `i` has been accepted: a mutable list takes its settled name there. */
  function SettleAt(s: seq<Name>, mutable: bool, i: nat, settled: Name): (s': seq<Name>)
    requires i < |s|
    ensures |s'| == |s|
    ensures forall j :: 0 <= j < |s| && j != i ==> s'[j] == s[j]
    ensures s'[i] == if mutable then settled else s[i]
  {
    if mutable then s[i := settled] else s
  }

  /** The loop of `IsSameType` from position `i` on. */
  function CompareFrom(rf: Reflection, lhs: seq<Name>, rhs: seq<Name>,
                       lhsMutable: bool, rhsMutable: bool, fixCommon: bool, i: nat): (c: Comparison)
    requires i <= Min(|lhs|, |rhs|)
    decreases Min(|lhs|, |rhs|) - i
    ensures |c.lhs| == |lhs| && |c.rhs| == |rhs|
    ensures c.same <==> forall j :: i <= j < Min(|lhs|, |rhs|) ==> Classify(rf, lhs[j], rhs[j]) != Mismatch
  {
    if i == Min(|lhs|, |rhs|) then Comparison(true, lhs, rhs)
    else if Classify(rf, lhs[i], rhs[i]) != Mismatch then
      CompareFrom(rf, SettleAt(lhs, lhsMutable, i, SettleLhs(rf, lhs[i], rhs[i], true)),
                  SettleAt(rhs, rhsMutable, i, SettleRhs(rf, lhs[i], rhs[i], true)),
                  lhsMutable, rhsMutable, fixCommon, i + 1)
    else
      var common := rf.findCommonBase(lhs[i], rhs[i]);
      if fixCommon && !common.IsNone() then
        Comparison(false, SettleAt(lhs, lhsMutable, i, common), SettleAt(rhs, rhsMutable, i, common))
      else
        Comparison(false, lhs, rhs)
  }

  /** What may happen to one left slot during a comparison. */
  predicate LhsRewrite(rf: Reflection, l: Name, r: Name, l': Name, mutable: bool, same: bool, fixCommon: bool) {
    l' == l
    || (mutable && rf.isDerivedFrom(l, r) && l' == r)
    || (mutable && !same && fixCommon && l' == rf.findCommonBase(l, r))
  }

  /** What may happen to one right slot during a comparison. */
  predicate RhsRewrite(rf: Reflection, l: Name, r: Name, r': Name, mutable: bool, same: bool, fixCommon: bool) {
    r' == r
    || (mutable && rf.isDerivedFrom(r, l) && r' == l)
    || (mutable && !same && fixCommon && r' == rf.findCommonBase(l, r))
  }

  /** The comparison loop leaves const lists, positions before `i` and positions past the shorter length alone. */
  lemma {:induction false} CompareFromFrame(rf: Reflection, lhs: seq<Name>, rhs: seq<Name>,
                                            lhsMutable: bool, rhsMutable: bool, fixCommon: bool, i: nat)
    requires i <= Min(|lhs|, |rhs|)
    decreases Min(|lhs|, |rhs|) - i
    ensures var c := CompareFrom(rf, lhs, rhs, lhsMutable, rhsMutable, fixCommon, i);
      && (!lhsMutable ==> c.lhs == lhs)
      && (!rhsMutable ==> c.rhs == rhs)
      && (forall j :: 0 <= j < i ==> c.lhs[j] == lhs[j] && c.rhs[j] == rhs[j])
      && (forall j :: Min(|lhs|, |rhs|) <= j < |lhs| ==> c.lhs[j] == lhs[j])
      && (forall j :: Min(|lhs|, |rhs|) <= j < |rhs| ==> c.rhs[j] == rhs[j])
  {
    if i < Min(|lhs|, |rhs|) && Classify(rf, lhs[i], rhs[i]) != Mismatch {
      var lhs' := SettleAt(lhs, lhsMutable, i, SettleLhs(rf, lhs[i], rhs[i], true));
      var rhs' := SettleAt(rhs, rhsMutable, i, SettleRhs(rf, lhs[i], rhs[i], true));
      CompareFromFrame(rf, lhs', rhs', lhsMutable, rhsMutable, fixCommon, i + 1);
    }
  }

  /**
   * Inside the compared range the loop writes only the base name of a
   * derived name into a mutable slot, or, when it fails with `fixCommon`,
   * the common base.
   */
  lemma {:induction false} CompareFromRewrites(rf: Reflection, lhs: seq<Name>, rhs: seq<Name>,
                                               lhsMutable: bool, rhsMutable: bool, fixCommon: bool, i: nat)
    requires i <= Min(|lhs|, |rhs|)
    decreases Min(|lhs|, |rhs|) - i
    ensures var c := CompareFrom(rf, lhs, rhs, lhsMutable, rhsMutable, fixCommon, i);
      forall j :: i <= j < Min(|lhs|, |rhs|) ==>
        LhsRewrite(rf, lhs[j], rhs[j], c.lhs[j], lhsMutable, c.same, fixCommon)
        && RhsRewrite(rf, lhs[j], rhs[j], c.rhs[j], rhsMutable, c.same, fixCommon)
  {
    if i < Min(|lhs|, |rhs|) && Classify(rf, lhs[i], rhs[i]) != Mismatch {
      var lhs' := SettleAt(lhs, lhsMutable, i, SettleLhs(rf, lhs[i], rhs[i], true));
      var rhs' := SettleAt(rhs, rhsMutable, i, SettleRhs(rf, lhs[i], rhs[i], true));
      CompareFromRewrites(rf, lhs', rhs', lhsMutable, rhsMutable, fixCommon, i + 1);
      CompareFromFrame(rf, lhs', rhs', lhsMutable, rhsMutable, fixCommon, i + 1);
      var c := CompareFrom(rf, lhs', rhs', lhsMutable, rhsMutable, fixCommon, i + 1);
      assert c == CompareFrom(rf, lhs, rhs, lhsMutable, rhsMutable, fixCommon, i);
      forall j | i < j < Min(|lhs|, |rhs|)
        ensures LhsRewrite(rf, lhs[j], rhs[j], c.lhs[j], lhsMutable, c.same, fixCommon)
        ensures RhsRewrite(rf, lhs[j], rhs[j], c.rhs[j], rhsMutable, c.same, fixCommon)
      {
        assert lhs'[j] == lhs[j] && rhs'[j] == rhs[j];
      }
    }
  }

  /** When every position is accepted, each mutable derived slot ends up holding the base name. */
  lemma {:induction false} CompareFromSettles(rf: Reflection, lhs: seq<Name>, rhs: seq<Name>,
                                              lhsMutable: bool, rhsMutable: bool, fixCommon: bool, i: nat)
    requires i <= Min(|lhs|, |rhs|)
    decreases Min(|lhs|, |rhs|) - i
    ensures var c := CompareFrom(rf, lhs, rhs, lhsMutable, rhsMutable, fixCommon, i);
      c.same ==> forall j :: i <= j < Min(|lhs|, |rhs|) ==>
        c.lhs[j] == SettleLhs(rf, lhs[j], rhs[j], lhsMutable)
        && c.rhs[j] == SettleRhs(rf, lhs[j], rhs[j], rhsMutable)
  {
    if i < Min(|lhs|, |rhs|) && Classify(rf, lhs[i], rhs[i]) != Mismatch {
      var lhs' := SettleAt(lhs, lhsMutable, i, SettleLhs(rf, lhs[i], rhs[i], true));
      var rhs' := SettleAt(rhs, rhsMutable, i, SettleRhs(rf, lhs[i], rhs[i], true));
      CompareFromSettles(rf, lhs', rhs', lhsMutable, rhsMutable, fixCommon, i + 1);
      CompareFromFrame(rf, lhs', rhs', lhsMutable, rhsMutable, fixCommon, i + 1);
    }
  }

  /**
   * `IsSameType`: a false precondition fails at once; otherwise positions
   * below the shorter length are compared and, where one name derives from
   * the other, a mutable slot holding the derived name is overwritten with
   * the base name.
   */
  function IsSameType(rf: Reflection, lhs: seq<Name>, rhs: seq<Name>,
                      lhsMutable: bool, rhsMutable: bool, preCond: bool, fixCommon: bool): (c: Comparison)
    ensures !preCond ==> c == Comparison(false, lhs, rhs)
    ensures preCond ==> (c.same <==> Compatible(rf, lhs, rhs))
    ensures |c.lhs| == |lhs| && |c.rhs| == |rhs|
    ensures !lhsMutable ==> c.lhs == lhs
    ensures !rhsMutable ==> c.rhs == rhs
    ensures c.lhs[Min(|lhs|, |rhs|)..] == lhs[Min(|lhs|, |rhs|)..]
    ensures c.rhs[Min(|lhs|, |rhs|)..] == rhs[Min(|lhs|, |rhs|)..]
    ensures c.same ==> forall j :: 0 <= j < Min(|lhs|, |rhs|) ==>
      c.lhs[j] == SettleLhs(rf, lhs[j], rhs[j], lhsMutable) && c.rhs[j] == SettleRhs(rf, lhs[j], rhs[j], rhsMutable)
    ensures !fixCommon ==> forall j :: 0 <= j < |lhs| && c.lhs[j] != lhs[j] ==>
      lhsMutable && j < |rhs| && rf.isDerivedFrom(lhs[j], rhs[j]) && c.lhs[j] == rhs[j]
    ensures !fixCommon ==> forall j :: 0 <= j < |rhs| && c.rhs[j] != rhs[j] ==>
      rhsMutable && j < |lhs| && rf.isDerivedFrom(rhs[j], lhs[j]) && c.rhs[j] == lhs[j]
  {
    if !preCond then Comparison(false, lhs, rhs)
    else
      CompareFromFrame(rf, lhs, rhs, lhsMutable, rhsMutable, fixCommon, 0);
      CompareFromRewrites(rf, lhs, rhs, lhsMutable, rhsMutable, fixCommon, 0);
      CompareFromSettles(rf, lhs, rhs, lhsMutable, rhsMutable, fixCommon, 0);
      CompareFrom(rf, lhs, rhs, lhsMutable, rhsMutable, fixCommon, 0)
  }

  /** One pair of tables: sends and receives of either parameters or responses. */
  datatype Tables = Tables(sends: map<Name, seq<Name>>, recvs: map<Name, seq<Name>>)

  /**
   * The outcome of `ProcessTypes`: the verdict, both tables as they were
   * left (rewrites stay even when the verdict is false) and the list the
   * out-pointer designates, if any.
   */
  datatype Processed = Processed(ok: bool, tables: Tables, outTypes: Option<seq<Name>>)

  /** The table a registration on side `bSend` is recorded in. */
  function Own(t: Tables, bSend: bool): map<Name, seq<Name>> { if bSend then t.sends else t.recvs }

  /** The table of the other side. */
  function Opposite(t: Tables, bSend: bool): map<Name, seq<Name>> { if bSend then t.recvs else t.sends }

  function WithOwn(t: Tables, bSend: bool, m: map<Name, seq<Name>>): Tables {
    if bSend then t.(sends := m) else t.(recvs := m)
  }

  function WithOpposite(t: Tables, bSend: bool, m: map<Name, seq<Name>>): Tables {
    if bSend then t.(recvs := m) else t.(sends := m)
  }

  /** `RhsNoMore` for a send, `LhsNoMore` for a receive: senders carry at least as many names as receivers. */
  predicate FitsOpposite(bSend: bool, incoming: seq<Name>, opposite: seq<Name>) {
    if bSend then |incoming| >= |opposite| else |incoming| <= |opposite|
  }

  /** A receive list is replaced by a longer one, a send list by a shorter one. */
  predicate Supersedes(bSend: bool, incoming: seq<Name>, own: seq<Name>) {
    if bSend then |incoming| < |own| else |incoming| > |own|
  }

  /** The two pairs of tables agree on every key but `key`. */
  predicate SameElsewhere(a: Tables, b: Tables, key: Name) {
    a.sends - {key} == b.sends - {key} && a.recvs - {key} == b.recvs - {key}
  }

  /** The entries for `key` in one map are present in the other, with the same lengths. */
  predicate SameLengthAt(a: map<Name, seq<Name>>, b: map<Name, seq<Name>>, key: Name) {
    (key in a <==> key in b) && (key in a ==> |a[key]| == |b[key]|)
  }

  /**
   * Step (1) of `ProcessTypes`: the incoming list against the stored list of
   * the other side, under the length policy of `FitsOpposite`; the stored
   * list is mutable and the common-base fix-up is off.
   */
  function AgainstOpposite(rf: Reflection, bSend: bool, key: Name, t: Tables, incoming: seq<Name>): (p: Processed)
    ensures key in Opposite(t, bSend) ==>
      (p.ok <==> FitsOpposite(bSend, incoming, Opposite(t, bSend)[key]) && Compatible(rf, incoming, Opposite(t, bSend)[key]))
    ensures key !in Opposite(t, bSend) ==> p.ok
    ensures SameElsewhere(p.tables, t, key)
    ensures Own(p.tables, bSend) == Own(t, bSend)
    ensures SameLengthAt(Opposite(p.tables, bSend), Opposite(t, bSend), key)
  {
    var opp := Opposite(t, bSend);
    if key in opp then
      var c := IsSameType(rf, incoming, opp[key], false, true, FitsOpposite(bSend, incoming, opp[key]), false);
      var t' := WithOpposite(t, bSend, opp[key := c.rhs]);
      Processed(c.same, t', if c.same then None else Some(c.rhs))
    else
      Processed(true, t, None)
  }

  /**
   * Step (2) of `ProcessTypes`: a repeated registration against the list
   * already recorded on its own side; the stored list is mutable and the
   * common-base fix-up is on exactly when the other side has no entry.
   */
  function AgainstOwn(rf: Reflection, bSend: bool, key: Name, t: Tables, incoming: seq<Name>, fixCommon: bool): (p: Processed)
    ensures key in Own(t, bSend) ==> (p.ok <==> Compatible(rf, incoming, Own(t, bSend)[key]))
    ensures key !in Own(t, bSend) ==> p.ok
    ensures SameElsewhere(p.tables, t, key)
    ensures Opposite(p.tables, bSend) == Opposite(t, bSend)
    ensures SameLengthAt(Own(p.tables, bSend), Own(t, bSend), key)
  {
    var own := Own(t, bSend);
    if key in own then
      var c := IsSameType(rf, incoming, own[key], false, true, true, fixCommon);
      var t' := WithOwn(t, bSend, own[key := c.rhs]);
      Processed(c.same, t', if c.same then None else Some(c.rhs))
    else
      Processed(true, t, None)
  }

  /** Step (3) of `ProcessTypes`: the incoming list replaces an absent or superseded own entry. */
  function Record(bSend: bool, key: Name, t: Tables, incoming: seq<Name>): (t': Tables)
    ensures key in Own(t', bSend)
    ensures key !in Own(t, bSend) ==> Own(t', bSend)[key] == incoming
    ensures key in Own(t, bSend) ==>
      Own(t', bSend)[key] == if Supersedes(bSend, incoming, Own(t, bSend)[key]) then incoming else Own(t, bSend)[key]
    ensures SameElsewhere(t', t, key)
    ensures Opposite(t', bSend) == Opposite(t, bSend)
  {
    var own := Own(t, bSend);
    if key !in own || Supersedes(bSend, incoming, own[key]) then WithOwn(t, bSend, own[key := incoming]) else t
  }

  /**
   * Step (4) of `ProcessTypes`: when both sides are recorded, the receive
   * list must be no longer than the send list and compatible with it; both
   * stored lists are mutable here.
   */
  function FinalCheck(rf: Reflection, bSend: bool, key: Name, t: Tables): (p: Processed)
    requires key in Own(t, bSend)
    ensures key in t.sends && key in t.recvs ==>
      (p.ok <==> |t.recvs[key]| <= |t.sends[key]| && Compatible(rf, t.recvs[key], t.sends[key]))
    ensures p.ok ==> key in Own(p.tables, bSend) && p.outTypes == Some(Own(p.tables, bSend)[key])
    ensures SameElsewhere(p.tables, t, key)
    ensures SameLengthAt(p.tables.sends, t.sends, key) && SameLengthAt(p.tables.recvs, t.recvs, key)
  {
    if key in t.sends && key in t.recvs then
      var c := IsSameType(rf, t.recvs[key], t.sends[key], true, true, |t.recvs[key]| <= |t.sends[key]|, false);
      var t' := Tables(t.sends[key := c.rhs], t.recvs[key := c.lhs]);
      Processed(c.same, t', if c.same then Some(Own(t', bSend)[key]) else None)
    else
      Processed(true, t, Some(Own(t, bSend)[key]))
  }

  /**
   * `ProcessTypes`: reconciles an incoming list registered on side `bSend`
   * with the stored lists of both sides for `key`, then replaces the stored
   * list of its own side when it was absent or the incoming list supersedes it.
   */
  function ProcessTypes(rf: Reflection, bSend: bool, key: Name, t: Tables, incoming: seq<Name>): (p: Processed)
    // a receive longer than the stored send, or incompatible with it, fails; dually for a send
    ensures key in Opposite(t, bSend) && !FitsOpposite(bSend, incoming, Opposite(t, bSend)[key]) ==> !p.ok
    ensures key in Opposite(t, bSend) && !Compatible(rf, incoming, Opposite(t, bSend)[key]) ==> !p.ok
    // a repeated registration must agree with the list already recorded on its own side
    ensures key in Own(t, bSend) && !Compatible(rf, incoming, Own(t, bSend)[key]) ==> !p.ok
    // the stored lists of other keys are untouched
    ensures SameElsewhere(p.tables, t, key)
    // a stored receive list never shrinks, a stored send list never grows
    ensures key in t.recvs ==> key in p.tables.recvs && |p.tables.recvs[key]| >= |t.recvs[key]|
    ensures key in t.sends ==> key in p.tables.sends && |p.tables.sends[key]| <= |t.sends[key]|
    // on success the own side is recorded, taking the incoming length iff it was absent or superseded
    ensures p.ok ==> key in Own(p.tables, bSend) && p.outTypes == Some(Own(p.tables, bSend)[key])
    ensures p.ok && key !in Own(t, bSend) ==> |Own(p.tables, bSend)[key]| == |incoming|
    ensures key !in Own(t, bSend) && key !in Opposite(t, bSend) ==> p.ok && Own(p.tables, bSend)[key] == incoming
    ensures p.ok && key in Own(t, bSend) ==>
      |Own(p.tables, bSend)[key]| == if Supersedes(bSend, incoming, Own(t, bSend)[key]) then |incoming| else |Own(t, bSend)[key]|
    // on success, when both sides are recorded, receivers declare no more names than senders
    ensures p.ok && key in p.tables.sends && key in p.tables.recvs ==> |p.tables.recvs[key]| <= |p.tables.sends[key]|
  {
    var p1 := AgainstOpposite(rf, bSend, key, t, incoming);
    if !p1.ok then p1
    else
      var p2 := AgainstOwn(rf, bSend, key, p1.tables, incoming, key !in Opposite(t, bSend));
      if !p2.ok then p2
      else FinalCheck(rf, bSend, key, Record(bSend, key, p2.tables, incoming))
  }

  /** Wherever both sides are recorded, receivers declare no more names than senders. */
  predicate Consistent(t: Tables) {
    forall k :: k in t.sends && k in t.recvs ==> |t.recvs[k]| <= |t.sends[k]|
  }

  /**
   * Reconciliation keeps the tables consistent, whatever its verdict: a
   * failed registration may rewrite names in place but never changes the
   * length of a stored list.
   */
  lemma ProcessTypesKeepsConsistent(rf: Reflection, bSend: bool, key: Name, t: Tables, incoming: seq<Name>)
    requires Consistent(t)
    ensures Consistent(ProcessTypes(rf, bSend, key, t, incoming).tables)
  {
    var p := ProcessTypes(rf, bSend, key, t, incoming);
    var p1 := AgainstOpposite(rf, bSend, key, t, incoming);
    if p1.ok {
      var p2 := AgainstOwn(rf, bSend, key, p1.tables, incoming, key !in Opposite(t, bSend));
      if p2.ok {
        var t3 := Record(bSend, key, p2.tables, incoming);
        ConsistentAt(t3, t, key);
      } else {
        ConsistentAt(p2.tables, t, key);
      }
    } else {
      ConsistentAt(p1.tables, t, key);
    }
    ConsistentAt(p.tables, t, key);
  }

  /** Consistency carries over to tables that agree elsewhere and are consistent at `key`. */
  lemma ConsistentAt(a: Tables, b: Tables, key: Name)
    requires Consistent(b) && SameElsewhere(a, b, key)
    requires key in a.sends && key in a.recvs ==> |a.recvs[key]| <= |a.sends[key]|
    ensures Consistent(a)
  {
    forall k | k in a.sends && k in a.recvs
      ensures |a.recvs[k]| <= |a.sends[k]|
    {
      if k != key {
        assert k in a.sends - {key} && k in a.recvs - {key};
      }
    }
  }

  /** `FTagDefinition`: the parameter and response lists of one registration, either possibly absent. */
  datatype TagDefinition = TagDefinition(parameterTypes: Option<seq<Name>>, responseTypes: Option<seq<Name>>)

  /** The four tables: `GetSends<false>`/`GetRecvs<false>` for parameters, `GetSends<true>`/`GetRecvs<true>` for responses. */
  datatype Registry = Registry(parameters: Tables, responses: Tables)

  /** The registry after a map load or the start of a play session: all four tables empty. */
  const EmptyRegistry := Registry(Tables(map[], map[]), Tables(map[], map[]))

  /** The verdict of `DoesSignatureCompatible`, the registry it leaves and what `OutDefinition` designates. */
  datatype SignatureCheck = SignatureCheck(ok: bool, registry: Registry, out: TagDefinition)

  /**
   * `DoesSignatureCompatible`: the response lists are reconciled first and a
   * failure there stops before the parameter lists; a side that is not given
   * only reports what its own table holds.
   */
  function DoesSignatureCompatible(rf: Reflection, bSend: bool, key: Name, def: TagDefinition, reg: Registry): (r: SignatureCheck)
    ensures def.responseTypes.None? ==> r.registry.responses == reg.responses
    ensures def.parameterTypes.None? ==> r.registry.parameters == reg.parameters
    ensures def.responseTypes.Some? ==>
      r.registry.responses == ProcessTypes(rf, bSend, key, reg.responses, def.responseTypes.value).tables
    ensures def.responseTypes.Some? && !ProcessTypes(rf, bSend, key, reg.responses, def.responseTypes.value).ok ==>
      !r.ok && r.registry.parameters == reg.parameters && r.out.parameterTypes.None?
    ensures r.ok ==>
      && (def.responseTypes.Some? ==> ProcessTypes(rf, bSend, key, reg.responses, def.responseTypes.value).ok)
      && (def.parameterTypes.Some? ==> ProcessTypes(rf, bSend, key, reg.parameters, def.parameterTypes.value).ok)
    ensures ((def.responseTypes.None? || ProcessTypes(rf, bSend, key, reg.responses, def.responseTypes.value).ok)
             && (def.parameterTypes.None? || ProcessTypes(rf, bSend, key, reg.parameters, def.parameterTypes.value).ok))
      ==> r.ok
    ensures ((def.responseTypes.None? || ProcessTypes(rf, bSend, key, reg.responses, def.responseTypes.value).ok)
             && def.parameterTypes.Some?)
      ==> r.registry.parameters == ProcessTypes(rf, bSend, key, reg.parameters, def.parameterTypes.value).tables
    ensures def.parameterTypes.None? && r.ok ==> r.out.parameterTypes == Find(Own(reg.parameters, bSend), key)
  {
    var rsp := if def.responseTypes.Some? then ProcessTypes(rf, bSend, key, reg.responses, def.responseTypes.value)
               else Processed(true, reg.responses, Find(Own(reg.responses, bSend), key));
    if !rsp.ok then
      SignatureCheck(false, reg.(responses := rsp.tables), TagDefinition(None, rsp.outTypes))
    else
      var prm := if def.parameterTypes.Some? then ProcessTypes(rf, bSend, key, reg.parameters, def.parameterTypes.value)
                 else Processed(true, reg.parameters, Find(Own(reg.parameters, bSend), key));
      SignatureCheck(prm.ok, Registry(prm.tables, rsp.tables), TagDefinition(prm.outTypes, rsp.outTypes))
  }

  /** The verdict of a check, the registry it leaves and the previously recorded list it reports. */
  datatype Compatibility = Compatibility(ok: bool, registry: Registry, oldTypes: Option<seq<Name>>)

  /** `FMessageHub::IsSignatureCompatible`: reconciles a parameter list only. */
  function IsSignatureCompatible(rf: Reflection, bCall: bool, key: Name, types: seq<Name>, reg: Registry): (r: Compatibility)
    ensures r.registry.responses == reg.responses
    ensures r.ok == ProcessTypes(rf, bCall, key, reg.parameters, types).ok
    ensures r.registry.parameters == ProcessTypes(rf, bCall, key, reg.parameters, types).tables
    ensures r.oldTypes == ProcessTypes(rf, bCall, key, reg.parameters, types).outTypes
  {
    var chk := DoesSignatureCompatible(rf, bCall, key, TagDefinition(Some(types), None), reg);
    Compatibility(chk.ok, chk.registry, chk.out.parameterTypes)
  }

  /**
   * `FMessageHub::IsSingleshotCompatible` as written: it reconciles a
   * response list but reports `OutTagDefinition.ParameterTypes`, i.e. the
   * parameter list of its own side, not the response list it checked.
   */
  function IsSingleshotCompatibleAsWritten(rf: Reflection, bCall: bool, key: Name, types: seq<Name>, reg: Registry): (r: Compatibility)
    ensures r.registry.parameters == reg.parameters
    ensures r.ok == ProcessTypes(rf, bCall, key, reg.responses, types).ok
    ensures r.registry.responses == ProcessTypes(rf, bCall, key, reg.responses, types).tables
    ensures r.ok ==> r.oldTypes == Find(Own(reg.parameters, bCall), key)
  {
    var chk := DoesSignatureCompatible(rf, bCall, key, TagDefinition(None, Some(types)), reg);
    Compatibility(chk.ok, chk.registry, chk.out.parameterTypes)
  }

  /** `IsSingleshotCompatible` reporting the response list it reconciled, as its parameter-list twin does. */
  function IsSingleshotCompatible(rf: Reflection, bCall: bool, key: Name, types: seq<Name>, reg: Registry): (r: Compatibility)
    ensures r.registry.parameters == reg.parameters
    ensures r.ok == ProcessTypes(rf, bCall, key, reg.responses, types).ok
    ensures r.registry.responses == ProcessTypes(rf, bCall, key, reg.responses, types).tables
    ensures r.oldTypes == ProcessTypes(rf, bCall, key, reg.responses, types).outTypes
    ensures r.ok ==> r.oldTypes == Some(Own(r.registry.responses, bCall)[key])
  {
    var chk := DoesSignatureCompatible(rf, bCall, key, TagDefinition(None, Some(types)), reg);
    Compatibility(chk.ok, chk.registry, chk.out.responseTypes)
  }

  /** Only positions below the shorter length are examined: extending the longer list changes no verdict. */
  lemma ExtraTrailingNamesIgnored(rf: Reflection, lhs: seq<Name>, rhs: seq<Name>, tail: seq<Name>,
                                  lhsMutable: bool, rhsMutable: bool, fixCommon: bool)
    requires |lhs| <= |rhs|
    ensures IsSameType(rf, lhs, rhs + tail, lhsMutable, rhsMutable, true, fixCommon).same
         == IsSameType(rf, lhs, rhs, lhsMutable, rhsMutable, true, fixCommon).same
    ensures IsSameType(rf, rhs + tail, lhs, lhsMutable, rhsMutable, true, fixCommon).same
         == IsSameType(rf, rhs, lhs, lhsMutable, rhsMutable, true, fixCommon).same
  {
    assert forall j :: 0 <= j < |lhs| ==> (rhs + tail)[j] == rhs[j];
  }

  /** With every table empty, any list registers successfully on either side. */
  lemma FreshTablesAcceptAnyList(rf: Reflection, bCall: bool, key: Name, types: seq<Name>)
    ensures IsSignatureCompatible(rf, bCall, key, types, EmptyRegistry).ok
    ensures IsSingleshotCompatible(rf, bCall, key, types, EmptyRegistry).ok
    ensures var p := ProcessTypes(rf, bCall, key, Tables(map[], map[]), types);
      p.ok && Own(p.tables, bCall) == map[key := types] && Opposite(p.tables, bCall) == map[]
  {
    var t := Tables(map[], map[]);
    var t' := Record(bCall, key, t, types);
    assert Own(t', bCall) == map[key := types];
  }
}
