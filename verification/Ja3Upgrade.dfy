/** golang/utils.go, convertJA3ForTLS13 and StringToTLS13CompatibleSpec. */
module Ja3Upgrade {
  import opened Text
  import opened StableSort
  import opened ClientHello
  import opened Ja3

  /** A group field the upgrade keeps. */
  predicate KeptField(c: string) {
    c != "" && ParseUint(c, 10, 0x1_0000).Some? && Compatible(ParseUint(c, 10, 0x1_0000).value)
  }

  const KEPT_FIELD: string -> bool := (c: string) => KeptField(c)

  const FALLBACK: seq<string> := ["29", "23"]

  function UpgradeGroups(field: string): seq<string> {
    var kept := Keep(Split(field, '-'), KEPT_FIELD);
    if kept != [] then kept else FALLBACK
  }

  /** convertJA3ForTLS13; anything but five fields is returned as it came. */
  function Upgrade(ja3: string): string {
    var tokens := Split(ja3, ',');
    if |tokens| != 5 then ja3
    else Join([if tokens[0] == "771" then "772" else tokens[0], tokens[1], tokens[2],
               Join(UpgradeGroups(tokens[3]), '-'), tokens[4]], ',')
  }

  lemma KeepStep(fields: seq<string>, i: nat)
    requires i < |fields|
    ensures Keep(fields[..i + 1], KEPT_FIELD) ==
            Keep(fields[..i], KEPT_FIELD) + (if KeptField(fields[i]) then [fields[i]] else [])
  {
    assert fields[..i + 1] == fields[..i] + [fields[i]] && [fields[i]][1..] == [];
    KeepConcat(fields[..i], [fields[i]], KEPT_FIELD);
  }

  /** The filter loop. */
  method FilterGroups(field: string) returns (out: seq<string>)
    ensures out == UpgradeGroups(field)
  {
    var fields := Split(field, '-');
    out := [];
    for i := 0 to |fields|
      invariant out == Keep(fields[..i], KEPT_FIELD)
    {
      KeepStep(fields, i);
      if KeptField(fields[i]) {
        out := out + [fields[i]];
      }
    }
    assert fields[..|fields|] == fields;
    if |out| == 0 {
      out := FALLBACK;
    }
  }

  method ConvertForTls13(ja3: string) returns (out: string)
    ensures out == Upgrade(ja3)
  {
    var tokens := Split(ja3, ',');
    if |tokens| != 5 { return ja3; }
    var version := tokens[0];
    if version == "771" { version := "772"; }
    var groups := FilterGroups(tokens[3]);
    out := Join([version, tokens[1], tokens[2], Join(groups, '-'), tokens[4]], ',');
  }

  // ---- what the upgraded string says -----------------------------------------------

  lemma FallbackKept()
    ensures forall i :: 0 <= i < |FALLBACK| ==> KeptField(FALLBACK[i])
  {
    assert "29"[..1] == "2" && "2"[..0] == "" && "23"[..1] == "2";
    assert Value("", 10) == 0 && Value("2", 10) == 2;
    assert AllDigits("29", 10) && AllDigits("23", 10);
    assert Value("29", 10) == 29 && Value("23", 10) == 23;
  }

  lemma KeptFieldClean(c: string)
    requires KeptField(c)
    ensures '-' !in c && ',' !in c
  {
    DigitsAvoid(c, 10, '-');
    DigitsAvoid(c, 10, ',');
  }

  lemma UpgradedGroupsClean(field: string)
    ensures var u := UpgradeGroups(field);
            && u != [] && (forall i :: 0 <= i < |u| ==> KeptField(u[i]))
            && Clean(u, '-') && Clean(u, ',') && ',' !in Join(u, '-') && Split(Join(u, '-'), '-') == u
  {
    var u := UpgradeGroups(field);
    FallbackKept();
    KeepMembers(Split(field, '-'), KEPT_FIELD);
    forall i | 0 <= i < |u| ensures KeptField(u[i]) && '-' !in u[i] && ',' !in u[i] {
      assert u[i] in u;
      KeptFieldClean(u[i]);
    }
    JoinAvoids(u, '-', ',');
    SplitOfJoin(u, '-');
  }

  /** The fields of an upgraded five-field JA3: version 771 becomes 772, groups are filtered, the rest
      is untouched. */
  lemma UpgradedTokens(ja3: string)
    requires |Split(ja3, ',')| == 5
    ensures var t, u := Split(ja3, ','), Split(Upgrade(ja3), ',');
            u == [if t[0] == "771" then "772" else t[0], t[1], t[2], Join(UpgradeGroups(t[3]), '-'), t[4]]
  {
    hide Split, Join, UpgradeGroups;
    var t := Split(ja3, ',');
    SplitIsClean(ja3, ',');
    UpgradedGroupsClean(t[3]);
    var u := [if t[0] == "771" then "772" else t[0], t[1], t[2], Join(UpgradeGroups(t[3]), '-'), t[4]];
    assert Clean(u, ',');
    SplitOfJoin(u, ',');
  }

  lemma UpgradeGroupsTwice(field: string)
    ensures UpgradeGroups(Join(UpgradeGroups(field), '-')) == UpgradeGroups(field)
  {
    var u := UpgradeGroups(field);
    UpgradedGroupsClean(field);
    forall x | x in u ensures KEPT_FIELD(x) {
    }
    KeepAll(u, KEPT_FIELD);
  }

  /** Upgrading twice is upgrading once, for every string. */
  lemma UpgradeIdempotent(ja3: string)
    ensures Upgrade(Upgrade(ja3)) == Upgrade(ja3)
  {
    if |Split(ja3, ',')| == 5 {
      UpgradedTokens(ja3);
      UpgradedTokens(Upgrade(ja3));
      UpgradeGroupsTwice(Split(ja3, ',')[3]);
      JoinOfSplit(Upgrade(ja3), ',');
      JoinOfSplit(Upgrade(Upgrade(ja3)), ',');
    }
  }

  lemma {:induction false} KeptFieldsParse(fields: seq<string>)
    requires forall i :: 0 <= i < |fields| ==> KeptField(fields[i])
    ensures var r := ParseAll(fields, 10, 0x1_0000);
            r.Some? && forall g :: g in r.value ==> g < 0x1_0000 && Compatible(g)
    decreases |fields|
  {
    if fields != [] {
      KeptFieldsParse(fields[1..]);
    }
  }

  lemma JoinNonEmpty(u: seq<string>)
    requires u != [] && u[0] != ""
    ensures Join(u, '-') != ""
  {
  }

  /** After the upgrade the group field is a non-empty order-preserving selection of the original
      fields (or the fallback pair when none qualifies), and the group loop of StringToSpec then
      accepts every field, skips none and never uses its own fallback. */
  lemma UpgradedGroupsPassThrough(ja3: string, chrome: bool, tls13: bool)
    requires |Split(ja3, ',')| == 5
    ensures var t, u := Split(ja3, ','), Split(Upgrade(ja3), ',');
            && |u| == 5
            && OptionalFields(u[3]) == UpgradeGroups(t[3]) != []
            && UpgradeGroups(t[3]) == (if Keep(Split(t[3], '-'), KEPT_FIELD) == [] then FALLBACK
                                       else Keep(Split(t[3], '-'), KEPT_FIELD))
            && var groups := ParseAll(OptionalFields(u[3]), 10, 0x1_0000);
               && groups.Some? && groups.value != []
               && TargetGroups(chrome, tls13, groups.value) == GreaseIf(chrome) + groups.value
  {
    var t := Split(ja3, ',');
    var fields := UpgradeGroups(t[3]);
    UpgradedTokens(ja3);
    UpgradedGroupsClean(t[3]);
    assert KeptField(fields[0]);
    JoinNonEmpty(fields);
    KeptFieldsParse(fields);
    var gs: seq<U16> := ParseAll(fields, 10, 0x1_0000).value;
    forall g | g in gs ensures COMPATIBLE(g) {
    }
    KeepAll(gs, COMPATIBLE);
  }

  lemma {:induction false} BuildExtsAccepts(fields: seq<string>, chrome: bool, ext: U16 -> Ext)
    ensures BuildExts(fields, chrome, ext).Some? <==> forall i :: 0 <= i < |fields| ==> KeyOf(fields[i]).Some?
    decreases |fields|
  {
    hide KeyOf;
    if fields != [] {
      BuildExtsAccepts(fields[..|fields| - 1], chrome, ext);
    }
  }

  /** When StringToSpec succeeds, field by field. */
  predicate Accepted(tokens: seq<string>) {
    && |tokens| >= 5
    && ParseUint(tokens[0], 10, 0x1_0000).Some?
    && ParseAll(Split(tokens[1], '-'), 10, 0x1_0000).Some?
    && (forall i :: 0 <= i < |Split(tokens[2], '-')| ==> KeyOf(Split(tokens[2], '-')[i]).Some?)
    && ParseAll(OptionalFields(tokens[3]), 10, 0x1_0000).Some?
    && ParseAll(OptionalFields(tokens[4]), 10, 0x100).Some?
  }

  lemma AssembleOkIff(chrome: bool, ver: nat, target: seq<U16>, points: seq<nat>, forceHttp1: bool,
                      extFields: seq<string>, cipherFields: seq<string>)
    ensures Assemble(chrome, ver, target, points, forceHttp1, extFields, cipherFields).Ok? <==>
            && (forall i :: 0 <= i < |extFields| ==> KeyOf(extFields[i]).Some?)
            && ParseAll(cipherFields, 10, 0x1_0000).Some?
  {
    var (max, min, versions) := VersionSpec(ver);
    BuildExtsAccepts(extFields, chrome, ExtTable(KeyShares(chrome, target), target, points, forceHttp1, versions));
  }

  lemma SpecOkIff(ja3: string, userAgent: string, forceHttp1: bool)
    ensures StringToSpec(ja3, userAgent, forceHttp1).Ok? <==> Accepted(Split(ja3, ','))
  {
    hide Split, ParseUint, ParseAll, OptionalFields, Assemble, TargetGroups, IsChrome, KeyOf;
    var t := Split(ja3, ',');
    if |t| >= 5 {
      var chrome, ver := IsChrome(userAgent), ParseUint(t[0], 10, 0x1_0000);
      var groups, points := ParseAll(OptionalFields(t[3]), 10, 0x1_0000), ParseAll(OptionalFields(t[4]), 10, 0x100);
      if groups.Some? && points.Some? && ver.Some? {
        AssembleOkIff(chrome, ver.value, TargetGroups(chrome, ver == Some(772), groups.value), points.value,
                      forceHttp1, Split(t[2], '-'), Split(t[1], '-'));
      }
    }
  }

  lemma Parse772()
    ensures ParseUint("772", 10, 0x1_0000) == Some(772)
  {
    assert "772"[..2] == "77" && "77"[..1] == "7" && "7"[..0] == "";
    assert Value("7", 10) == 7 && Value("77", 10) == 77 && Value("772", 10) == 772;
  }

  /** The upgrade never turns an accepted JA3 into a rejected one; it may even repair a bad group list. */
  lemma UpgradeKeepsAccepting(ja3: string, userAgent: string, forceHttp1: bool)
    requires |Split(ja3, ',')| == 5 && StringToSpec(ja3, userAgent, forceHttp1).Ok?
    ensures StringToSpec(Upgrade(ja3), userAgent, forceHttp1).Ok?
  {
    SpecOkIff(ja3, userAgent, forceHttp1);
    SpecOkIff(Upgrade(ja3), userAgent, forceHttp1);
    UpgradedTokens(ja3);
    UpgradedGroupsPassThrough(ja3, IsChrome(userAgent), true);
    Parse772();
  }
}
