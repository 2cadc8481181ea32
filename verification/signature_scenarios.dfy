/** Concrete reconciliation runs over a two-class hierarchy in which `Derived` derives from `Base`. */
module SignatureScenarios {
  import opened Wrappers
  import opened HubTypes
  import opened Signatures

  const A := Named("A")
  const Base := Named("Base")
  const Derived := Named("Derived")
  const Key := Named("Msg")

  const Hierarchy := Reflection(
    (t: Name, p: Name) => t == Derived && p == Base,
    (i: Name, e: Name) => false,
    (l: Name, r: Name) => NoneName,
    Named("SkipValidate"))

  /**
   * Registering receivers `(A, Base)` then `(A, Derived)` succeeds and leaves
   * `(A, Base)` stored: the incoming list is const, so the derived name is
   * not written anywhere. A third registration of `(A, Base)` succeeds again.
   */
  lemma ReceiverRegistrationsKeepBase()
    ensures var t0 := Tables(map[], map[]);
      var p1 := ProcessTypes(Hierarchy, false, Key, t0, [A, Base]);
      var p2 := ProcessTypes(Hierarchy, false, Key, p1.tables, [A, Derived]);
      var p3 := ProcessTypes(Hierarchy, false, Key, p2.tables, [A, Base]);
      && p1.ok && p1.tables.recvs[Key] == [A, Base]
      && p2.ok && p2.tables.recvs[Key] == [A, Base]
      && p3.ok && p3.tables.recvs[Key] == [A, Base]
  {
    var t0 := Tables(map[], map[]);
    var p1 := ProcessTypes(Hierarchy, false, Key, t0, [A, Base]);
    assert p1.tables.recvs[Key] == [A, Base];
    var c := IsSameType(Hierarchy, [A, Derived], [A, Base], false, true, true, true);
    assert Classify(Hierarchy, Derived, Base) == LhsDerived;
    assert c.same && c.rhs == [A, Base];
  }

  /** A stored receiver list holding a derived name is overwritten with the base name of an incoming receiver. */
  lemma StoredDerivedSlotTakesBase()
    ensures var t0 := Tables(map[], map[Key := [A, Derived]]);
      var p := ProcessTypes(Hierarchy, false, Key, t0, [A, Base]);
      p.ok && p.tables.recvs[Key] == [A, Base]
  {
    var c := IsSameType(Hierarchy, [A, Base], [A, Derived], false, true, true, true);
    assert Classify(Hierarchy, Base, Derived) == RhsDerived;
    assert Classify(Hierarchy, A, A) == Match;
    assert c.same;
    assert c.rhs[1] == SettleRhs(Hierarchy, Base, Derived, true) == Base;
    assert c.rhs[0] == A;
    assert c.rhs == [A, Base];
  }

  /** A receiver declaring more names than the recorded sender is refused. */
  lemma LongerReceiverRefused()
    ensures var t0 := Tables(map[Key := [A]], map[]);
      !ProcessTypes(Hierarchy, false, Key, t0, [A, Base]).ok
  {
  }

  /**
   * With parameter list `(A)` and response list `(Base)` recorded for the
   * sender, checking a response `(Base)` reports `(A)` as the old types: the
   * parameter list rather than the response list just reconciled.
   */
  lemma SingleshotReportsParameterList()
    ensures var reg := Registry(Tables(map[Key := [A]], map[]), Tables(map[Key := [Base]], map[]));
      var asWritten := IsSingleshotCompatibleAsWritten(Hierarchy, true, Key, [Base], reg);
      var corrected := IsSingleshotCompatible(Hierarchy, true, Key, [Base], reg);
      && asWritten.ok && asWritten.oldTypes == Some([A])
      && corrected.ok && corrected.oldTypes == Some([Base])
  {
    var reg := Registry(Tables(map[Key := [A]], map[]), Tables(map[Key := [Base]], map[]));
    var p := ProcessTypes(Hierarchy, true, Key, reg.responses, [Base]);
    var c := IsSameType(Hierarchy, [Base], [Base], false, true, true, true);
    assert Classify(Hierarchy, Base, Base) == Match;
    assert c.same && c.rhs[0] == Base && c.rhs == [Base];
    assert p.ok && p.tables.sends[Key] == [Base];
  }
}
