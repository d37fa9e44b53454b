/** The route a JA3 takes when a connection is dialled: a TLS 1.2 fingerprint is upgraded first unless
    that is switched off. What goes out is then a TLS 1.3 hello, whose legacy version field still says
    TLS 1.2. */
module Ja3Dispatch {
  import opened Text
  import opened StableSort
  import opened ClientHello
  import opened Ja3
  import opened Ja3Upgrade
  import opened Ja3Preservation

  function Dispatch(ja3: string, autoRetry: bool, userAgent: string, forceHttp1: bool): Result {
    if autoRetry && "771," <= ja3 then StringToSpec(Upgrade(ja3), userAgent, forceHttp1)
    else StringToSpec(ja3, userAgent, forceHttp1)
  }

  // ---- The upgrade of a printed fingerprint ---------------------------------------------------------

  lemma KeptDecimal(g: U16)
    ensures KeptField(Decimal(g)) <==> Compatible(g)
  {
    ParseOfDecimal(g, 0x1_0000);
  }

  lemma {:induction false} KeptDecimals(gs: seq<U16>)
    ensures Keep(DecimalFields(gs), KEPT_FIELD) == DecimalFields(Keep(gs, COMPATIBLE))
    decreases |gs|
  {
    hide KeptField, Decimal, Compatible;
    if gs != [] {
      KeptDecimals(gs[1..]);
      KeptDecimal(gs[0]);
      assert DecimalFields(gs)[1..] == DecimalFields(gs[1..]);
      if Compatible(gs[0]) {
        assert Keep(gs, COMPATIBLE) == [gs[0]] + Keep(gs[1..], COMPATIBLE);
        assert ([gs[0]] + Keep(gs[1..], COMPATIBLE))[1..] == Keep(gs[1..], COMPATIBLE);
      }
    }
  }

  function UpgradedGroups(gs: seq<U16>): seq<U16> {
    if Keep(gs, COMPATIBLE) == [] then [X25519, P256] else Keep(gs, COMPATIBLE)
  }

  lemma SmallDecimals()
    ensures Decimal(29) == "29" && Decimal(23) == "23" && Decimal(771) == "771" && Decimal(772) == "772"
  {
    assert Decimal(2) == "2" && Decimal(7) == "7";
    assert Decimal(77) == "77";
  }

  lemma UpgradedList(gs: seq<U16>)
    ensures UpgradeGroups(PrintList(gs)) == DecimalFields(UpgradedGroups(gs))
    ensures PrintList(UpgradedGroups(gs)) == Join(UpgradeGroups(PrintList(gs)), '-')
  {
    hide Decimal, Compatible, Split, ParseUint;
    KeptDecimals(gs);
    ListRoundTrip(gs);
    SmallDecimals();
    assert DecimalFields([X25519, P256]) == FALLBACK;
    if gs == [] {
      assert Split(PrintList(gs), '-') == [""] by { SplitOfClean("", '-'); }
    }
  }

  function Upgraded(f: Fingerprint): Fingerprint {
    f.(version := if f.version == 771 then 772 else f.version, groups := UpgradedGroups(f.groups))
  }

  lemma DecimalIs771(v: nat)
    requires v < 0x1_0000
    ensures Decimal(v) == "771" <==> v == 771
  {
    hide Decimal, ParseUint;
    SmallDecimals();
    ParseOfDecimal(v, 0x1_0000);
    ParseOfDecimal(771, 0x1_0000);
  }

  /** Upgrading the printed form prints the upgraded fingerprint. */
  lemma UpgradeOfPrint(f: Fingerprint)
    requires WellFormed(f)
    ensures Upgrade(Print(f)) == Print(Upgraded(f)) && WellFormed(Upgraded(f))
  {
    hide Split, Decimal, PrintList, UpgradeGroups, Upgrade, UpgradedGroups;
    PrintedTokens(f);
    UpgradedTokens(Print(f));
    UpgradedList(f.groups);
    JoinOfSplit(Upgrade(Print(f)), ',');
    DecimalIs771(f.version);
    SmallDecimals();
    UpgradedGreaseFree(f.groups);
  }

  lemma UpgradedGreaseFree(gs: seq<U16>)
    requires GreaseFree(gs)
    ensures GreaseFree(UpgradedGroups(gs))
    ensures UpgradedGroups(gs) != [] && forall g :: g in UpgradedGroups(gs) ==> Compatible(g)
    ensures UpgradedGroups(gs) == gs <==> gs != [] && forall g :: g in gs ==> Compatible(g)
  {
    KeepMembers(gs, COMPATIBLE);
    KeepUnchanged(gs, COMPATIBLE);
    assert Compatible(X25519) && Compatible(P256) && !IsGrease(X25519) && !IsGrease(P256);
  }

  // ---- What the dispatched hello reads back as ----------------------------------------------------

  lemma PrefixIff(f: Fingerprint)
    requires WellFormed(f)
    ensures "771," <= Print(f) <==> f.version == 771
  {
    hide Decimal, PrintList;
    var rest := Join([PrintList(f.ciphers), PrintList(f.exts), PrintList(f.groups), PrintList(f.points)], ',');
    PrintFrom(f, rest);
    DigitsAvoid(Decimal(f.version), 10, ',');
    DecimalIs771(f.version);
    var d := Decimal(f.version);
    var s := d + [','] + rest;
    if "771," <= s {
      assert s[0] == s[..4][0] == '7' && s[1] == s[..4][1] == '7' && s[2] == s[..4][2] == '1' &&
             s[3] == s[..4][3] == ',';
      assert |d| < 4 ==> s[|d|] == ',';
      assert d == "771";
    }
  }

  lemma PrintFrom(f: Fingerprint, rest: string)
    requires rest == Join([PrintList(f.ciphers), PrintList(f.exts), PrintList(f.groups), PrintList(f.points)], ',')
    ensures Print(f) == Decimal(f.version) + [','] + rest
  {
    hide Decimal, PrintList;
    var parts := [Decimal(f.version), PrintList(f.ciphers), PrintList(f.exts), PrintList(f.groups),
        PrintList(f.points)];
    assert parts[1..] == [PrintList(f.ciphers), PrintList(f.exts), PrintList(f.groups), PrintList(f.points)];
  }

  /** Groups and points have the extensions that carry them, and an upgrade keeps the groups as they are. */
  ghost predicate Survives(f: Fingerprint, upgraded: bool) {
    && (10 !in f.exts ==> f.groups == []) && (11 !in f.exts ==> f.points == [])
    && (upgraded && 10 in f.exts ==> f.groups != [] && forall g :: g in f.groups ==> Compatible(g))
  }

  /** The upgraded hello of a TLS 1.2 fingerprint reads back as that fingerprint exactly when its groups are
      TLS 1.3 groups, at least one, and what it lists has its extension. The user agent does not matter. */
  lemma UpgradePreservesFingerprint(f: Fingerprint, userAgent: string, forceHttp1: bool)
    requires WellFormed(f) && f.version == 771
    ensures StringToSpec(Upgrade(Print(f)), userAgent, forceHttp1).Ok?
    ensures ReadJa3(StringToSpec(Upgrade(Print(f)), userAgent, forceHttp1).hello) == f <==> Survives(f, true)
  {
    hide StringToSpec, Upgrade, Print, UpgradedGroups, Compatible, ReadGroups, ReadPoints, ReadShares, KeyShares,
         Erase, IsChrome;
    UpgradeOfPrint(f);
    var g := Upgraded(f);
    CompiledFields(g, userAgent, forceHttp1);
    UpgradedGreaseFree(f.groups);
    KeepUnchanged(g.groups, COMPATIBLE);
  }

  /** The library's claim on the route it takes: for every well-formed JA3 the dispatched hello reads back as
      that JA3 if and only if it does not claim version 772 and survives. */
  lemma DispatchPreservesFingerprint(f: Fingerprint, autoRetry: bool, userAgent: string, forceHttp1: bool)
    requires WellFormed(f)
    ensures Dispatch(Print(f), autoRetry, userAgent, forceHttp1).Ok?
    ensures ReadJa3(Dispatch(Print(f), autoRetry, userAgent, forceHttp1).hello) == f <==>
            f.version != 772 && Survives(f, autoRetry && f.version == 771)
  {
    hide StringToSpec, Upgrade, Print, Compatible, ReadJa3, IsChrome;
    PrefixIff(f);
    CompilePreservesFingerprint(f, userAgent, forceHttp1);
    if f.version == 771 {
      UpgradePreservesFingerprint(f, userAgent, forceHttp1);
    }
  }
}
